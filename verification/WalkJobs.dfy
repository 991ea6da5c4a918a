/** Two jobs that keep their books by depth: the recursive mode change and the recursive
    delete.  Whatever the slots of a depth held before, what a job does to a directory
    depends only on that directory's own events. */
module WalkJobs {
  import opened Basics

  // ----- the mode job -----

  /** An object: device, inode and birth time where there is one. */
  type ObjId = nat

  /** What a name is found to mean when it is looked up again. */
  datatype Ref = Ref(id: ObjId, isDir: bool, refused: bool)

  datatype Opening =
    | CannotOpen(proved: Option<ObjId>)   // the object the fallback could prove, if any
    | Opened(id: Option<ObjId>)           // None: the descriptor could not be described

  /** One enumerated entry and what others make of it while the walk is there. */
  datatype Entry =
    | Mount
    | Leaf(path: string, now: Option<Ref>)
    | Folder(path: string, opening: Opening, kids: seq<Entry>, atPost: Option<Ref>)

  datatype Change = Change(path: string, id: ObjId)

  /** What is to be changed, in order: everything inside a folder, then the folder, and
      that only if its name still means the very object that was descended into. */
  function Changes(e: Entry): seq<Change> {
    match e
    case Mount => []
    case Leaf(path, now) => if now.Some? && !now.value.refused then [Change(path, now.value.id)] else []
    case Folder(path, opening, kids, atPost) =>
      match opening
      case CannotOpen(proved) => if proved.Some? then [Change(path, proved.value)] else []
      case Opened(id) =>
        ChangesOf(e, |kids|)
        + if atPost.Some? && atPost.value.isDir && id == Some(atPost.value.id) then [Change(path, atPost.value.id)] else []
  }

  /** The first n entries of a folder. */
  function ChangesOf(e: Entry, n: nat): seq<Change>
    requires e.Folder? && n <= |e.kids|
    decreases e, n
  {
    if n == 0 then [] else ChangesOf(e, n - 1) + Changes(e.kids[n - 1])
  }

  class ModeJob {
    var traversed: seq<ObjId>
    var traversedOK: seq<bool>
    ghost var log: seq<Change>

    ghost predicate Valid()
      reads this
    {
      |traversed| == |traversedOK|
    }

    constructor ()
      ensures Valid() && log == []
    {
      traversed, traversedOK, log := [], [], [];
    }

    /** The slot of one depth, if it holds a reading. */
    function Slot(depth: nat): Option<ObjId>
      requires Valid()
      reads this
    {
      if depth < |traversedOK| && traversedOK[depth] then Some(traversed[depth]) else None
    }

    /** Shallower slots hold what they held. */
    twostate predicate Above(depth: nat)
      requires old(Valid()) && Valid()
      reads this
    {
      forall d: nat | d < depth :: Slot(d) == old(Slot(d))
    }

    method SetTraversed(depth: nat, id: ObjId)
      requires Valid()
      modifies this`traversed, this`traversedOK
      ensures Valid() && Above(depth) && Slot(depth) == Some(id)
    {
      while |traversed| <= depth
        invariant Valid() && forall d: nat :: Slot(d) == old(Slot(d))
        decreases depth + 1 - |traversed|
      {
        traversed, traversedOK := traversed + [0], traversedOK + [false];
      }
      traversed, traversedOK := traversed[depth := id], traversedOK[depth := true];
    }

    method ClearTraversed(depth: nat)
      requires Valid()
      modifies this`traversedOK
      ensures Valid() && Above(depth) && Slot(depth) == None
    {
      if depth < |traversedOK| {
        traversedOK := traversedOK[depth := false];
      }
    }

    /** The change itself, through the pinned object. */
    method ApplyRef(path: string, id: ObjId)
      requires Valid()
      modifies this`log
      ensures Valid() && log == old(log) + [Change(path, id)]
    {
      log := log + [Change(path, id)];
    }

    method ApplyEntry(path: string, isDir: bool, depth: nat, now: Option<Ref>)
      requires Valid()
      modifies this`log
      ensures Valid()
      ensures var apply := now.Some? && if isDir then now.value.isDir && Slot(depth) == Some(now.value.id) else !now.value.refused;
              log == if apply then old(log) + [Change(path, now.value.id)] else old(log)
    {
      if now.None? {
        return;
      }
      if isDir {
        if !now.value.isDir || depth >= |traversedOK| || !traversedOK[depth] || traversed[depth] != now.value.id {
          return;
        }
      } else if now.value.refused {
        return;
      }
      ApplyRef(path, now.value.id);
    }

    /** The walk of one entry below the selected folder.  The books of every depth above
        are untouched, and what was in this depth's and the deeper ones made no
        difference. */
    method Visit(depth: nat, e: Entry)
      requires Valid() && depth > 0
      modifies this
      ensures Valid() && Above(depth) && log == old(log) + Changes(e)
      decreases e
    {
      match e
      case Mount =>
      case Leaf(path, now) => ApplyEntry(path, false, depth, now);
      case Folder(path, opening, kids, atPost) =>
        ClearTraversed(depth);
        match opening
        case CannotOpen(proved) =>
          if proved.Some? {
            ApplyRef(path, proved.value);
          }
        case Opened(id) =>
          if id.Some? {
            SetTraversed(depth, id.value);
          }
          ghost var before := log;
          for i := 0 to |kids|
            invariant Valid() && Above(depth) && Slot(depth) == id
            invariant log == before + ChangesOf(e, i)
          {
            Visit(depth + 1, kids[i]);
          }
          ApplyEntry(path, true, depth, atPost);
    }
  }

  /** The job comes by x on its walk of e. */
  ghost predicate Met(x: Entry, e: Entry)
    decreases e
  {
    x == e || (e.Folder? && e.opening.Opened? && exists k :: k in e.kids && Met(x, k))
  }

  /** What is to become of one entry by itself. */
  function Own(x: Entry): Option<Change> {
    match x
    case Mount => None
    case Leaf(path, Some(now)) => if now.refused then None else Some(Change(path, now.id))
    case Folder(path, CannotOpen(Some(proved)), _, _) => Some(Change(path, proved))
    case Folder(path, Opened(Some(id)), _, Some(now)) => if now == Ref(id, true, now.refused) then Some(Change(path, id)) else None
    case _ => None
  }

  /** Everything the job comes by that is to be changed is, and nothing else. */
  lemma {:induction false} ChangedIff(e: Entry, c: Change)
    ensures c in Changes(e) <==> exists x :: Met(x, e) && Own(x) == Some(c)
    decreases e
  {
    hide Changes, Own;
    OwnIsLast(e, c);
    assert Met(e, e);
    if e.Folder? && e.opening.Opened? {
      ChangedInside(e, |e.kids|, c);
      if k :| k in e.kids && c in Changes(k) {
        ChangedIff(k, c);
        var x :| Met(x, k) && Own(x) == Some(c);
        assert Met(x, e);
      }
      forall x | Met(x, e) && Own(x) == Some(c) && x != e ensures c in ChangesOf(e, |e.kids|) {
        var k :| k in e.kids && Met(x, k);
        ChangedIff(k, c);
      }
    }
  }

  lemma OwnIsLast(e: Entry, c: Change)
    ensures if e.Folder? && e.opening.Opened? then c in Changes(e) <==> c in ChangesOf(e, |e.kids|) || Own(e) == Some(c)
            else c in Changes(e) <==> Own(e) == Some(c)
  {
  }

  lemma {:induction false} ChangedInside(e: Entry, n: nat, c: Change)
    requires e.Folder? && n <= |e.kids|
    ensures c in ChangesOf(e, n) <==> exists i :: 0 <= i < n && c in Changes(e.kids[i])
    decreases n
  {
    hide Changes;
    if n > 0 { ChangedInside(e, n - 1, c); }
  }

  /** Every path in an entry, itself included. */
  function Paths(e: Entry): seq<string> {
    match e
    case Mount => []
    case Leaf(path, _) => [path]
    case Folder(path, _, kids, _) => PathsOf(e, |kids|) + [path]
  }

  function PathsOf(e: Entry, n: nat): seq<string>
    requires e.Folder? && n <= |e.kids|
    decreases e, n
  {
    if n == 0 then [] else PathsOf(e, n - 1) + Paths(e.kids[n - 1])
  }

  /** changes is, in order, some of the paths: with distinct paths nothing is changed
      twice, and a folder comes after everything in it. */
  ghost predicate InOrder(changes: seq<Change>, paths: seq<string>)
    decreases |paths|
  {
    if changes == [] then true
    else if paths == [] then false
    else
      var n, m := |changes| - 1, |paths| - 1;
      (changes[n].path == paths[m] && InOrder(changes[..n], paths[..m])) || InOrder(changes, paths[..m])
  }

  lemma {:induction false} InOrderAppend(a: seq<Change>, p: seq<string>, b: seq<Change>, q: seq<string>)
    requires InOrder(a, p) && InOrder(b, q)
    ensures InOrder(a + b, p + q)
    decreases |q|
  {
    if b == [] {
      assert a + b == a;
      if q == [] {
        assert p + q == p;
      } else {
        assert (p + q)[..|p + q| - 1] == p + q[..|q| - 1];
        InOrderAppend(a, p, b, q[..|q| - 1]);
      }
    } else {
      var n, m := |b| - 1, |q| - 1;
      assert (a + b)[..|a + b| - 1] == a + b[..n] && (p + q)[..|p + q| - 1] == p + q[..m];
      if b[n].path == q[m] && InOrder(b[..n], q[..m]) {
        InOrderAppend(a, p, b[..n], q[..m]);
      } else {
        InOrderAppend(a, p, b, q[..m]);
      }
    }
  }

  lemma {:induction false} ChangesFollowThePostOrder(e: Entry)
    ensures InOrder(Changes(e), Paths(e))
    decreases e
  {
    match e
    case Mount =>
    case Leaf(path, now) => assert [path][..0] == [];
    case Folder(path, opening, kids, atPost) =>
      match opening
      case CannotOpen(proved) =>
        InOrderAppend([], PathsOf(e, |kids|), Changes(e), [path]);
        assert [] + Changes(e) == Changes(e);
      case Opened(id) =>
        ChangesOfFollow(e, |kids|);
        var last := Changes(e)[|ChangesOf(e, |kids|)|..];
        assert Changes(e) == ChangesOf(e, |kids|) + last;
        InOrderAppend(ChangesOf(e, |kids|), PathsOf(e, |kids|), last, [path]);
  }

  lemma {:induction false} ChangesOfFollow(e: Entry, n: nat)
    requires e.Folder? && n <= |e.kids|
    ensures InOrder(ChangesOf(e, n), PathsOf(e, n))
    decreases e, n
  {
    if n > 0 {
      ChangesOfFollow(e, n - 1);
      ChangesFollowThePostOrder(e.kids[n - 1]);
      InOrderAppend(ChangesOf(e, n - 1), PathsOf(e, n - 1), Changes(e.kids[n - 1]), Paths(e.kids[n - 1]));
    }
  }

  // ----- the delete -----

  const MAX_DIR_ATTEMPTS: nat := 16
  const MAX_DIR_PASSES: nat := 1000

  datatype Rmdir = Gone | StillFull | Fails

  /** What one reading of a directory shows, and what its rmdir then answers. */
  datatype Pass = Pass(opens: bool, kids: seq<Item>, rmdir: Rmdir)

  datatype Item = MountPoint | NotADir(removed: bool) | Dir(passes: seq<Pass>)

  /** There is a reading for every time the job may look. */
  predicate Ready(x: Item)
    decreases x
  {
    x.Dir? ==> |x.passes| == MAX_DIR_ATTEMPTS + 1
               && forall p | p in x.passes :: forall k | k in p.kids :: Ready(k)
  }

  /** Whether the job removes the item. */
  predicate Goes(x: Item)
    requires Ready(x)
    decreases x, MAX_DIR_ATTEMPTS + 2
  {
    match x
    case MountPoint => false
    case NotADir(removed) => removed
    case Dir(_) => LastPass(x, 0).1
  }

  /** How many of the first n entries of a reading go. */
  function Removed(x: Item, pass: nat, n: nat): nat
    requires Ready(x) && x.Dir? && pass <= MAX_DIR_ATTEMPTS && n <= |x.passes[pass].kids|
    decreases x, 0, n
  {
    if n == 0 then 0
    else
      assert x.passes[pass] in x.passes && x.passes[pass].kids[n - 1] in x.passes[pass].kids;
      Removed(x, pass, n - 1) + if Goes(x.passes[pass].kids[n - 1]) then 1 else 0
  }

  /** The last reading made, and whether the directory went: another is made only when
      the rmdir met entries and this one had removed some, and at most sixteen times. */
  function LastPass(x: Item, pass: nat): (r: (nat, bool))
    requires Ready(x) && x.Dir? && pass <= MAX_DIR_ATTEMPTS
    ensures pass <= r.0 <= MAX_DIR_ATTEMPTS
    ensures forall k :: pass <= k < r.0 ==> x.passes[k].rmdir.StillFull? && Removed(x, k, |x.passes[k].kids|) > 0
    decreases x, MAX_DIR_ATTEMPTS + 1 - pass
  {
    var p := x.passes[pass];
    if !p.opens || p.rmdir.Fails? then (pass, false)
    else if p.rmdir.Gone? then (pass, true)
    else if Removed(x, pass, |p.kids|) > 0 && pass < MAX_DIR_ATTEMPTS then LastPass(x, pass + 1)
    else (pass, false)
  }

  /** Reading n is made and the rmdir after it succeeds: every reading before met entries
      it could remove some of. */
  predicate GoesAt(x: Item, n: nat)
    requires Ready(x) && x.Dir?
  {
    && n <= MAX_DIR_ATTEMPTS && x.passes[n].opens && x.passes[n].rmdir.Gone?
    && forall k :: 0 <= k < n ==> x.passes[k].opens && x.passes[k].rmdir.StillFull? && Removed(x, k, |x.passes[k].kids|) > 0
  }

  /** A directory goes exactly if one of its readings ends so. */
  lemma GoesIff(x: Item)
    requires Ready(x) && x.Dir?
    ensures Goes(x) <==> exists n :: GoesAt(x, n)
  {
    hide Removed;
    GoesFrom(x, 0);
  }

  lemma {:induction false} GoesFrom(x: Item, pass: nat)
    requires Ready(x) && x.Dir? && pass <= MAX_DIR_ATTEMPTS
    requires forall k :: 0 <= k < pass ==> x.passes[k].opens && x.passes[k].rmdir.StillFull? && Removed(x, k, |x.passes[k].kids|) > 0
    ensures LastPass(x, pass).1 <==> exists n :: GoesAt(x, n)
    decreases MAX_DIR_ATTEMPTS - pass
  {
    hide Removed;
    var p := x.passes[pass];
    if p.opens && p.rmdir.Gone? {
      assert GoesAt(x, pass);
    } else if p.opens && p.rmdir.StillFull? && Removed(x, pass, |p.kids|) > 0 && pass < MAX_DIR_ATTEMPTS {
      GoesFrom(x, pass + 1);
    } else {
      forall n: nat ensures !GoesAt(x, n) {
        assert n < pass ==> !x.passes[n].rmdir.Gone?;
      }
    }
  }

  datatype DirFrame = DirFrame(removed: nat, attempts: nat)

  class TreeDeleter {
    var frames: seq<DirFrame>

    constructor ()
      ensures frames == []
    {
      frames := [];
    }

    function At(depth: nat): DirFrame
      reads this
    {
      if depth < |frames| then frames[depth] else DirFrame(0, 0)
    }

    /** Shallower frames are as they were, but that the one directly above counts this
        item if it went. */
    twostate predicate CountedAbove(depth: nat, went: bool)
      reads this
    {
      forall d: nat | d < depth ::
        At(d) == if went && d == depth - 1 then old(At(d)).(removed := old(At(d)).removed + 1) else old(At(d))
    }

    method Grow(depth: nat)
      modifies this
      ensures depth < |frames| && forall d: nat :: At(d) == old(At(d))
    {
      while |frames| <= depth
        invariant forall d: nat :: At(d) == old(At(d))
        decreases depth + 1 - |frames|
      {
        frames := frames + [DirFrame(0, 0)];
      }
    }

    method CountRemoval(depth: nat)
      modifies this
      ensures forall d: nat | d != depth :: At(d) == old(At(d))
      ensures At(depth) == old(At(depth)).(removed := old(At(depth)).removed + 1)
    {
      Grow(depth);
      frames := frames[depth := frames[depth].(removed := frames[depth].removed + 1)];
    }

    /** One item of the walk, its readings and retries included: exactly what its own
        events say, whatever the frames held. */
    method Visit(depth: nat, x: Item) returns (went: bool)
      requires Ready(x)
      modifies this
      ensures went == Goes(x) && CountedAbove(depth, went)
      decreases x, MAX_DIR_ATTEMPTS + 3
    {
      match x
      case MountPoint =>
        went := false;
      case NotADir(removed) =>
        if removed && depth > 0 {
          CountRemoval(depth - 1);
        }
        went := removed;
      case Dir(_) =>
        went := VisitDir(depth, x);
    }

    method VisitDir(depth: nat, x: Item) returns (went: bool)
      requires Ready(x) && x.Dir?
      modifies this
      ensures went == LastPass(x, 0).1 && CountedAbove(depth, went)
      decreases x, MAX_DIR_ATTEMPTS + 2
    {
      Grow(depth);
      frames := frames[depth := DirFrame(0, 0)];
      var pass := 0;
      while true
        invariant pass <= MAX_DIR_ATTEMPTS && CountedAbove(depth, false)
        invariant At(depth) == DirFrame(0, pass) && depth < |frames|
        invariant LastPass(x, 0) == LastPass(x, pass)
        decreases MAX_DIR_ATTEMPTS - pass
      {
        if !x.passes[pass].opens {
          return false;
        }
        Children(depth, x, pass);
        var again;
        went, again := Post(depth, x.passes[pass].rmdir);
        if !again {
          return;
        }
        if pass >= MAX_DIR_PASSES {
          return false;
        }
        pass := pass + 1;
      }
    }

    method Children(depth: nat, x: Item, pass: nat)
      requires Ready(x) && x.Dir? && pass <= MAX_DIR_ATTEMPTS && At(depth) == DirFrame(0, pass)
      modifies this
      ensures CountedAbove(depth, false)
      ensures At(depth) == DirFrame(Removed(x, pass, |x.passes[pass].kids|), pass)
      decreases x, MAX_DIR_ATTEMPTS + 1
    {
      var kids := x.passes[pass].kids;
      assert x.passes[pass] in x.passes;
      for i := 0 to |kids|
        invariant CountedAbove(depth, false) && At(depth) == DirFrame(Removed(x, pass, i), pass)
      {
        assert kids[i] in kids;
        var _ := Visit(depth + 1, kids[i]);
      }
    }

    /** The rmdir after one reading. */
    method Post(depth: nat, rmdir: Rmdir) returns (went: bool, again: bool)
      modifies this
      ensures went == rmdir.Gone? && CountedAbove(depth, went)
      ensures again <==> rmdir.StillFull? && old(At(depth)).removed > 0 && old(At(depth)).attempts < MAX_DIR_ATTEMPTS
      ensures again ==> At(depth) == DirFrame(0, old(At(depth)).attempts + 1) && depth < |frames|
    {
      match rmdir
      case Gone =>
        if depth > 0 {
          CountRemoval(depth - 1);
        }
        went, again := true, false;
      case StillFull =>
        Grow(depth);
        var f := frames[depth];
        went, again := false, f.removed > 0 && f.attempts < MAX_DIR_ATTEMPTS;
        if again {
          frames := frames[depth := DirFrame(0, f.attempts + 1)];
        }
      case Fails =>
        went, again := false, false;
    }
  }
}
