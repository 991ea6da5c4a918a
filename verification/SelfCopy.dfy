/** A copy must not read its own output.  The engine remembers the identity of every
    directory it writes into, and asks about each source directory from the descriptor
    about to be read.  Others may rename anything, anywhere, between two events. */
module SelfCopy {
  import opened Basics

  type Id = nat

  const MAX_TRACKED_DIRS: nat := 1_000_000

  /** What became of the destination directory a source directory calls for. */
  datatype Made =
    | Created(id: Id)     // a new directory
    | Adopted(id: Id)     // one that was there
    | Unstated(id: Id)    // created, but its fstat failed
    | NotMade             // placed nowhere, or it could not be made

  /** container and above are the destination and the directories above it, as last read;
      frames the destination directories held open; reading the source directories whose
      entries are being read; created, for the proof, what this job made and tracks. */
  datatype State = State(container: Id, above: set<Id>, made: set<Id>, full: bool,
                         frames: seq<Id>, reading: seq<Id>, walking: bool, created: set<Id>)

  datatype Event =
    | Begin(above: set<Id>, id: Id, root: Made) // the next root that has to be copied
    | Meet(id: Id)                   // Pre of a directory, by the lstat of its name
    | Open(id: Id, made: Made)       // Opened, by the fstat of its descriptor
    | Leave                          // its entries have all been read
    | Unwind                         // the innermost destination directory is finished
    | End

  predicate MeetsDestination(s: State, id: Id) {
    id == s.container || id in s.made || id in s.above
  }

  /** The kernel's part: a directory just created is none of those held open. */
  predicate IsNew(s: State, source: Id, made: Made) {
    made.Created? ==> made.id != s.container && made.id !in s.reading && made.id != source
  }

  predicate Enabled(s: State, e: Event) {
    match e
    case Begin(_, id, root) => !s.walking && s.frames == [] && s.reading == [] && IsNew(s, id, root)
    case Meet(_) => s.walking
    case Open(id, made) => s.walking && IsNew(s, id, made)
    case Leave => s.walking && s.reading != []
    case Unwind => s.frames != []
    case End => s.walking
  }

  function Stopped(s: State): State {
    s.(walking := false, reading := [])
  }

  /** remember: file one identity and hold the directory, or refuse for good when there is
      no room. */
  function Remember(s: State, id: Id): State {
    if id !in s.made && |s.made| >= MAX_TRACKED_DIRS then Stopped(s).(full := true)
    else s.(made := s.made + {id}, frames := s.frames + [id])
  }

  function Filed(s: State, made: Made): State {
    match made
    case Created(id) =>
      var s' := Remember(s, id);
      if s'.full then s' else s'.(created := s.created + {id})
    case Adopted(id) => Remember(s, id)
    case Unstated(_) => s
    case NotMade => s
  }

  function Next(s: State, e: Event): State
    requires Enabled(s, e)
  {
    match e
    case Begin(above, id, root) =>
      if s.full then s
      else
        // the root's destination is made before its own Opened is asked
        var s' := Filed(s.(above := above, walking := true), root);
        if s'.walking && (root.Created? || root.Adopted?) then s' else Stopped(s')
    case Meet(id) => if MeetsDestination(s, id) then Stopped(s) else s
    case Open(id, made) =>
      if MeetsDestination(s, id) then Stopped(s)
      else
        var s' := Filed(s, made);
        if s'.walking then s'.(reading := s'.reading + [id]) else s'
    case Leave => s.(reading := s.reading[..|s.reading| - 1])
    case Unwind => s.(frames := s.frames[..|s.frames| - 1])
    case End => Stopped(s)
  }

  ghost predicate Reaches(s: State, run: seq<Event>, s': State)
    decreases |run|
  {
    if run == [] then s == s' else Enabled(s, run[0]) && Reaches(Next(s, run[0]), run[1..], s')
  }

  function Start(container: Id): State {
    State(container, {}, {}, false, [], [], false, {})
  }

  /** Neither the destination nor any directory this job made and writes into is being
      read; every destination directory held open is tracked. */
  ghost predicate Inv(s: State) {
    && s.container !in s.reading
    && (forall r | r in s.reading :: r !in s.created)
    && (forall f | f in s.frames :: f in s.made)
    && s.created <= s.made
    && |s.made| <= MAX_TRACKED_DIRS
    && (s.full ==> !s.walking)
    && (!s.walking ==> s.reading == [])
  }

  lemma FiledKeeps(s: State, source: Id, made: Made)
    requires Inv(s) && !s.full && IsNew(s, source, made)
    ensures var t := Filed(s, made);
            && Inv(t) && t.container == s.container && (t.walking ==> t.reading == s.reading && s.walking)
            && source !in t.created - s.created
  {
  }

  lemma InvKept(s: State, e: Event)
    requires Inv(s) && Enabled(s, e)
    ensures Inv(Next(s, e)) && (s.full ==> Next(s, e).full && !Next(s, e).walking)
    ensures Next(s, e).container == s.container
  {
    match e
    case Begin(above, id, root) =>
      if !s.full { FiledKeeps(s.(above := above, walking := true), id, root); }
    case Open(id, made) =>
      if !MeetsDestination(s, id) { FiledKeeps(s, id, made); }
    case _ =>
  }

  lemma {:induction false} RunKeeps(s: State, run: seq<Event>, s': State)
    requires Inv(s) && Reaches(s, run, s')
    ensures Inv(s') && s'.container == s.container && (s.full ==> s'.full && !s'.walking)
    decreases |run|
  {
    hide Next, Enabled;
    if run != [] {
      InvKept(s, run[0]);
      RunKeeps(Next(s, run[0]), run[1..], s');
    }
  }

  /** For every schedule of renames: the walk never reads the container or a directory
      this job created and writes into, it holds no destination directory it does not
      track, and once the set is full no root walks again. */
  lemma NeverReadsItsOutput(container: Id, run: seq<Event>, s: State, later: seq<Event>, s': State)
    requires Reaches(Start(container), run, s) && Reaches(s, later, s')
    ensures container !in s.reading && forall r | r in s.reading :: r !in s.created
    ensures forall f | f in s.frames :: f in s.made
    ensures s.full ==> !s.walking && !s'.walking && s'.full
  {
    hide Reaches;
    RunKeeps(Start(container), run, s);
    RunKeeps(s, later, s');
  }

  // ----- nothing else is stopped -----

  predicate NoRoomFor(s: State, made: Made) {
    (made.Created? || made.Adopted?) && made.id !in s.made && |s.made| >= MAX_TRACKED_DIRS
  }

  /** A walk ends early only by meeting the destination or by making a directory there is
      no room to track; what it opens otherwise, it reads. */
  lemma StopsIff(s: State, e: Event)
    requires Inv(s) && Enabled(s, e)
    ensures s.walking ==>
              (!Next(s, e).walking <==>
                 || e.End? || ((e.Meet? || e.Open?) && MeetsDestination(s, e.id))
                 || (e.Open? && NoRoomFor(s, e.made)))
    ensures e.Open? && Next(s, e).walking ==> Next(s, e).reading == s.reading + [e.id]
    ensures e.Begin? ==> (Next(s, e).walking <==> !s.full && (e.root.Created? || e.root.Adopted?) && !NoRoomFor(s, e.root))
  {
  }

  function MadeId(made: Made): set<Id> {
    if made.Created? || made.Adopted? then {made.id} else {}
  }

  /** Every destination directory made or adopted in a run. */
  function MadeIn(run: seq<Event>): set<Id> {
    if run == [] then {}
    else
      var e := run[|run| - 1];
      MadeIn(run[..|run| - 1]) + if e.Begin? then MadeId(e.root) else if e.Open? then MadeId(e.made) else {}
  }

  /** What is above the destination, as last read. */
  function AboveIn(run: seq<Event>): set<Id> {
    if run == [] then {}
    else if run[|run| - 1].Begin? then run[|run| - 1].above
    else AboveIn(run[..|run| - 1])
  }

  /** The directories opened in the last root and not yet left, if it has not ended. */
  function OpenIn(run: seq<Event>): Option<seq<Id>> {
    if run == [] then None else OpenAfter(OpenIn(run[..|run| - 1]), run[|run| - 1])
  }

  function OpenAfter(before: Option<seq<Id>>, e: Event): Option<seq<Id>> {
    match e
    case Begin(_, _, root) => if root.Created? || root.Adopted? then Some([]) else None
    case Open(id, _) => if before.Some? then Some(before.value + [id]) else None
    case Leave => if before.Some? && before.value != [] then Some(before.value[..|before.value| - 1]) else before
    case End => None
    case _ => before
  }

  /** Nothing met or opened is the destination, above it, or made by the job, and what is
      made can be tracked. */
  ghost predicate Innocent(container: Id, run: seq<Event>) {
    && |MadeIn(run)| <= MAX_TRACKED_DIRS
    && forall i | 0 <= i < |run| && (run[i].Meet? || run[i].Open?) ::
         run[i].id != container && run[i].id !in MadeIn(run[..i]) && run[i].id !in AboveIn(run[..i])
  }

  lemma Subset(a: set<Id>, b: set<Id>)
    requires a <= b
    ensures |a| <= |b|
  {
    assert b == a + (b - a);
  }

  lemma InnocentBefore(container: Id, run: seq<Event>)
    requires run != [] && Innocent(container, run)
    ensures var n := |run| - 1;
            && Innocent(container, run[..n])
            && (run[n].Meet? || run[n].Open? ==>
                  run[n].id != container && run[n].id !in MadeIn(run[..n]) && run[n].id !in AboveIn(run[..n]))
  {
    var n := |run| - 1;
    Subset(MadeIn(run[..n]), MadeIn(run));
    forall i | 0 <= i < n && (run[..n][i].Meet? || run[..n][i].Open?)
      ensures run[..n][i].id != container && run[..n][i].id !in MadeIn(run[..n][..i]) && run[..n][i].id !in AboveIn(run[..n][..i])
    {
      assert run[..n][..i] == run[..i] && run[i] == run[..n][i];
    }
  }

  lemma {:induction false} LastEvent(s: State, run: seq<Event>, s': State) returns (t: State)
    requires run != [] && Reaches(s, run, s')
    ensures var n := |run| - 1; Reaches(s, run[..n], t) && Enabled(t, run[n]) && Next(t, run[n]) == s'
    decreases |run|
  {
    hide Next, Enabled;
    var n := |run| - 1;
    if n == 0 {
      t := s;
    } else {
      t := LastEvent(Next(s, run[0]), run[1..], s');
      assert run[1..][..n - 1] == run[..n][1..];
    }
  }

  lemma HasRoom(s: State, made: Made, all: set<Id>)
    requires s.made + MadeId(made) <= all && |all| <= MAX_TRACKED_DIRS
    ensures !NoRoomFor(s, made)
  {
    if NoRoomFor(s, made) {
      Subset(s.made + {made.id}, all);
    }
  }

  /** A walk that meets nothing of its destination is never stopped: it is reading exactly
      what it opened. */
  lemma {:induction false} InnocentReadsOn(container: Id, run: seq<Event>, s: State)
    requires Reaches(Start(container), run, s) && Innocent(container, run)
    ensures !s.full && s.container == container && s.made <= MadeIn(run) && s.above == AboveIn(run)
    ensures s.walking == OpenIn(run).Some? && (s.walking ==> s.reading == OpenIn(run).value)
    decreases |run|
  {
    if run != [] {
      hide Reaches, Next, Enabled, Innocent;
      var n := |run| - 1;
      var t := LastEvent(Start(container), run, s);
      InnocentBefore(container, run);
      Small(container, run);
      InnocentReadsOn(container, run[..n], t);
      RunKeeps(Start(container), run[..n], t);
      InnocentStep(container, run, t);
    }
  }

  lemma Small(container: Id, run: seq<Event>)
    requires Innocent(container, run)
    ensures |MadeIn(run)| <= MAX_TRACKED_DIRS
  {
  }

  lemma InnocentStep(container: Id, run: seq<Event>, t: State)
    requires run != [] && |MadeIn(run)| <= MAX_TRACKED_DIRS
    requires var n := |run| - 1;
             && Inv(t) && Enabled(t, run[n])
             && !t.full && t.container == container && t.made <= MadeIn(run[..n]) && t.above == AboveIn(run[..n])
             && t.walking == OpenIn(run[..n]).Some? && (t.walking ==> t.reading == OpenIn(run[..n]).value)
             && (run[n].Meet? || run[n].Open? ==>
                   run[n].id != container && run[n].id !in MadeIn(run[..n]) && run[n].id !in AboveIn(run[..n]))
    ensures var s := Next(t, run[|run| - 1]);
            && !s.full && s.container == container && s.made <= MadeIn(run) && s.above == AboveIn(run)
            && s.walking == OpenIn(run).Some? && (s.walking ==> s.reading == OpenIn(run).value)
  {
    var e, n := run[|run| - 1], |run| - 1;
    HasRoom(t, if e.Begin? then e.root else if e.Open? then e.made else NotMade, MadeIn(run));
    HonestStep(t, e, if t.walking then Some(t.reading) else None);
  }

  lemma HonestStep(t: State, e: Event, open: Option<seq<Id>>)
    requires Inv(t) && Enabled(t, e) && !t.full && open == if t.walking then Some(t.reading) else None
    requires e.Begin? ==> !NoRoomFor(t, e.root)
    requires e.Open? ==> !NoRoomFor(t, e.made)
    requires e.Meet? || e.Open? ==> !MeetsDestination(t, e.id)
    ensures var s := Next(t, e);
            && !s.full && s.container == t.container && s.above == (if e.Begin? then e.above else t.above)
            && s.made <= t.made + (if e.Begin? then MadeId(e.root) else if e.Open? then MadeId(e.made) else {})
            && OpenAfter(open, e) == if s.walking then Some(s.reading) else None
  {
  }

  // ----- a directory that was there and is adopted -----

  /** The step adopts a directory whose entries are being read or are about to be. */
  predicate AdoptsASource(s: State, e: Event)
    requires Enabled(s, e)
  {
    e.Open? && e.made.Adopted? && Next(s, e).walking && (e.made.id in s.reading || e.made.id == e.id)
  }

  predicate ReadsATrackedOne(s: State) {
    exists r | r in s.reading :: r in s.made
  }

  /** A directory being read comes to be one the job writes into only by being adopted
      while it is read, and then it does: the identity is asked before the destination is
      made, not after. */
  lemma ReadsATrackedOneIff(s: State, e: Event)
    requires Inv(s) && Enabled(s, e) && !ReadsATrackedOne(s)
    ensures ReadsATrackedOne(Next(s, e)) <==> AdoptsASource(s, e)
  {
    var t := Next(s, e);
    match e
    case Open(id, made) =>
      if t.walking {
        assert t.reading == s.reading + [id];
        if made.Adopted? && (made.id in s.reading || made.id == id) {
          assert made.id in t.reading && made.id in t.made;
        }
        if r :| r in t.reading && r in t.made {
          assert r in s.reading || r == id;
        }
      }
    case Leave => assert forall r | r in t.reading :: r in s.reading;
    case _ =>
  }

  /** It can happen: the folder being opened has been moved to where its own copy goes. */
  lemma AdoptedWhileRead() returns (run: seq<Event>, s: State)
    ensures Reaches(Start(1), run, s) && ReadsATrackedOne(s)
  {
    var e0, e1, e2 := Begin({}, 2, Created(10)), Open(2, NotMade), Open(3, Adopted(3));
    run := [e0, e1, e2];
    var s1 := Next(Start(1), e0);
    var s2 := Next(s1, e1);
    s := Next(s2, e2);
    assert [e2][1..] == [] && Reaches(s, [], s);
    assert Reaches(s2, [e2], s);
    assert [e1, e2][1..] == [e2] && Reaches(s1, [e1, e2], s);
    assert run[1..] == [e1, e2];
    assert 3 in s.reading && 3 in s.made;
  }

  /** A created directory whose fstat failed is not tracked, and its root goes on; nothing
      is written into it, but a later walk may enter it. */
  lemma UnstatedIsNotTracked(s: State, e: Event, id: Id)
    requires Inv(s) && Enabled(s, e) && e.Open? && e.made == Unstated(id) && !MeetsDestination(s, e.id)
    ensures Next(s, e).walking && Next(s, e).made == s.made && Next(s, e).frames == s.frames && !Next(s, e).full
  {
  }
}
