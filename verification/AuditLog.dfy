/** The audit logger: callers that must never block, durable callers that wait for an
    fsync, one goroutine that drains the queue, one that mirrors milestones, and a Close
    that must stop all of them.  A run is any interleaving of their steps. */
module AuditLog {
  import opened Basics
  import opened AuditFile

  type Id = nat

  const BUFFER_DEPTH: nat := 1024
  const MIRROR_DEPTH: nat := 64
  const SYNC_WRITERS: nat := 4

  /** A durable call, from the wait group's Add to its Done. */
  datatype Phase =
    | Waiting                          // queued for a slot
    | Started                          // a worker holds a slot
    | Writing                          // and the file lock
    | Appended                         // its line is in the file; the fsync is next
    | Settled(appended: bool, failed: bool) // the worker's verdict is sent
    | Done(appended: bool, failed: bool)    // and its slot given back
    | Refused                          // never admitted

  /** What WriteSyncInFlight returned. */
  datatype Answer = Answer(inFlight: bool, failed: bool)

  datatype Drain = Idle | Took(id: Id) | Emitted(id: Id) | Exited

  datatype Closing = NotCalled | Joining | Mirroring | Finished | GaveUp

  /** The logger's lock: who is inside, who of them has seen the logger open, and what
      the lock guards. */
  datatype Front = Front(readers: set<Id>, checked: set<Id>, closed: bool, queueClosed: bool)

  /** The queue and its goroutine; accepted and drained are history. */
  datatype Queue = Queue(events: seq<Id>, dropped: nat, lastReported: nat, drain: Drain, accepted: seq<Id>, drained: seq<Id>)

  /** The durable calls, the semaphore's count, and the one that holds the file lock. */
  datatype Durables = Durables(calls: map<Id, Phase>, slots: nat, held: Option<Id>, answers: map<Id, Answer>, synced: set<Id>)

  datatype Ending = Ending(mirrored: nat, mirrorClosed: bool, mirrorExited: bool, closing: Closing, sinkClosed: bool)

  /** log is every append to the sink. */
  datatype State = State(front: Front, q: Queue, d: Durables, end: Ending, log: seq<Entry>)

  const INIT := State(Front({}, {}, false, false), Queue([], 0, 0, Idle, [], []), Durables(map[], 0, None, map[], {}),
                      Ending(0, false, false, NotCalled, false), [])

  /** What a call of Write or WriteSync does, its worker included. */
  datatype CallStep =
    | Enter(id: Id)                    // take the read lock
    | Check(id: Id)                    // and look whether the logger is open
    | Put(id: Id)                      // Write: send, or drop
    | Register(id: Id)                 // WriteSync: join the wait group
    | GiveUp(id: Id)                   // no slot in time
    | Admit(id: Id)
    | Lock(id: Id)
    | Append(id: Id, outcome: Outcome)
    | Fsync(id: Id, ok: bool)
    | Finish(id: Id)                   // mirror a success, release the slot
    | Hear(id: Id)                     // the caller receives the worker's verdict
    | StopWaiting(id: Id)              // the caller's context or timer ends first

  /** What the logger's own goroutines and Close do. */
  datatype OwnStep =
    | Take
    | Emit(outcome: Outcome, due: bool, reported: Outcome)
    | Offer                            // the drain hands its event to the mirror
    | DrainExit(reported: Outcome)
    | MirrorStep
    | MirrorExit
    | Close
    | Joined                           // everything joined in time: the mirror queue is closed
    | CloseSink
    | CloseTimeout

  datatype Action = Call(c: CallStep) | Own(o: OwnStep)

  /** The wait group has been told. */
  predicate Over(p: Phase) {
    p.Done? || p.Refused?
  }

  predicate Enabled(s: State, a: Action) {
    match a
    case Call(c) => CallEnabled(s, c)
    case Own(o) => OwnEnabled(s, o)
  }

  predicate CallEnabled(s: State, c: CallStep) {
    match c
    case Enter(id) => id !in s.front.readers && id !in s.d.calls && id !in s.d.answers
    case Check(id) => id in s.front.readers && id !in s.front.checked
    case Put(id) => id in s.front.checked
    case Register(id) => id in s.front.checked
    case GiveUp(id) => id in s.d.calls && s.d.calls[id] == Waiting
    case Admit(id) => id in s.d.calls && s.d.calls[id] == Waiting && s.d.slots < SYNC_WRITERS
    case Lock(id) => id in s.d.calls && s.d.calls[id] == Started && s.d.held == None
    case Append(id, _) => id in s.d.calls && s.d.calls[id] == Writing
    case Fsync(id, _) => id in s.d.calls && s.d.calls[id] == Appended
    case Finish(id) => id in s.d.calls && s.d.calls[id].Settled?
    case Hear(id) => id in s.d.calls && (s.d.calls[id].Settled? || s.d.calls[id].Done?) && id !in s.d.answers
    case StopWaiting(id) => id in s.d.calls && s.d.calls[id] != Waiting && id !in s.d.answers
  }

  predicate OwnEnabled(s: State, o: OwnStep) {
    match o
    case Take => s.q.drain == Idle && s.q.events != []
    case Emit(_, _, _) => s.q.drain.Took? && s.d.held == None
    case Offer => s.q.drain.Emitted?
    case DrainExit(_) => s.q.drain == Idle && s.q.events == [] && s.front.queueClosed && s.d.held == None
    case MirrorStep => s.end.mirrored > 0
    case MirrorExit => s.end.mirrorClosed && s.end.mirrored == 0 && !s.end.mirrorExited
    case Close => s.front.readers == {} && s.end.closing == NotCalled
    case Joined => s.end.closing == Joining && s.q.drain == Exited && forall id | id in s.d.calls :: Over(s.d.calls[id])
    case CloseSink => s.end.closing == Mirroring
    case CloseTimeout => s.end.closing == Joining
  }

  /** What Go answers with a panic, or the file with a lost write: a send on a closed
      channel, a second close of one, a write to the closed sink. */
  predicate Disaster(s: State, a: Action) {
    match a
    case Call(Put(_)) => s.front.queueClosed
    case Call(Append(_, _)) => s.end.sinkClosed
    case Call(Fsync(_, _)) => s.end.sinkClosed
    case Call(Finish(id)) => id in s.d.calls && s.d.calls[id] == Settled(true, false) && s.end.mirrorClosed
    case Own(Emit(_, _, _)) => s.end.sinkClosed
    case Own(DrainExit(_)) => s.end.sinkClosed
    case Own(Offer) => s.end.mirrorClosed
    case Own(Close) => s.front.queueClosed
    case Own(Joined) => s.end.mirrorClosed
    case Own(CloseSink) => s.end.sinkClosed
    case _ => false
  }

  /** reportDropped: one synthetic line for the drops since the last. */
  function Reported(s: State, due: bool, outcome: Outcome): State {
    if due && s.q.dropped > s.q.lastReported
    then s.(log := s.log + [Entry(Overflow(s.q.dropped - s.q.lastReported), outcome)], q := s.q.(lastReported := s.q.dropped))
    else s
  }

  function Mirror(e: Ending): Ending {
    if e.mirrored < MIRROR_DEPTH then e.(mirrored := e.mirrored + 1) else e
  }

  function Next(s: State, a: Action): State
    requires Enabled(s, a)
  {
    match a
    case Call(c) => CallNext(s, c)
    case Own(o) => OwnNext(s, o)
  }

  function Leave(f: Front, id: Id): Front {
    f.(readers := f.readers - {id}, checked := f.checked - {id})
  }

  function Answered(d: Durables, id: Id, a: Answer): Durables {
    d.(answers := d.answers[id := a])
  }

  function Phased(d: Durables, id: Id, p: Phase): Durables {
    d.(calls := d.calls[id := p])
  }

  function CallNext(s: State, c: CallStep): State
    requires CallEnabled(s, c)
  {
    match c
    case Enter(id) => s.(front := s.front.(readers := s.front.readers + {id}))
    case Check(id) =>
      if s.front.closed then s.(front := Leave(s.front, id), d := Answered(s.d, id, Answer(false, true)))
      else s.(front := s.front.(checked := s.front.checked + {id}))
    case Put(id) =>
      s.(front := Leave(s.front, id),
         q := if |s.q.events| < BUFFER_DEPTH then s.q.(events := s.q.events + [id], accepted := s.q.accepted + [id])
              else s.q.(dropped := s.q.dropped + 1))
    case Register(id) => s.(front := Leave(s.front, id), d := Phased(s.d, id, Waiting))
    case GiveUp(id) => s.(d := Answered(Phased(s.d, id, Refused), id, Answer(false, true)))
    case Admit(id) => s.(d := Phased(s.d, id, Started).(slots := s.d.slots + 1))
    case Lock(id) => s.(d := Phased(s.d, id, Writing).(held := Some(id)))
    case Append(id, outcome) =>
      s.(log := s.log + [Entry(Durable(id), outcome)],
         d := if outcome.Whole? then Phased(s.d, id, Appended) else Phased(s.d, id, Settled(false, true)).(held := None))
    case Fsync(id, ok) =>
      s.(d := Phased(s.d, id, Settled(true, !ok)).(held := None, synced := if ok then s.d.synced + {id} else s.d.synced))
    case Finish(id) =>
      var p := s.d.calls[id];
      s.(d := Phased(s.d, id, Done(p.appended, p.failed)).(slots := if s.d.slots > 0 then s.d.slots - 1 else 0),
         end := if p.failed then s.end else Mirror(s.end))
    case Hear(id) =>
      var p := s.d.calls[id];
      s.(d := Answered(s.d, id, Answer(p.appended && p.failed, p.failed)))
    case StopWaiting(id) => s.(d := Answered(s.d, id, Answer(true, true)))
  }

  function OwnNext(s: State, o: OwnStep): State
    requires OwnEnabled(s, o)
  {
    match o
    case Take => s.(q := s.q.(drain := Took(s.q.events[0]), events := s.q.events[1..]))
    case Emit(outcome, due, reported) => Reported(Emitting(s, outcome), due, reported)
    case Offer => s.(end := Mirror(s.end), q := s.q.(drain := Idle))
    case DrainExit(reported) => var s := Reported(s, true, reported); s.(q := s.q.(drain := Exited))
    case MirrorStep => s.(end := s.end.(mirrored := s.end.mirrored - 1))
    case MirrorExit => s.(end := s.end.(mirrorExited := true))
    case Close => s.(front := s.front.(closed := true, queueClosed := true), end := s.end.(closing := Joining))
    case Joined => s.(end := s.end.(mirrorClosed := true, closing := Mirroring))
    case CloseSink => s.(end := s.end.(sinkClosed := true, closing := Finished))
    case CloseTimeout => s.(end := s.end.(closing := GaveUp))
  }

  function Emitting(s: State, outcome: Outcome): State
    requires s.q.drain.Took?
  {
    var id := s.q.drain.id;
    s.(log := s.log + [Entry(Event(id), outcome)], q := s.q.(drain := Emitted(id), drained := s.q.drained + [id]))
  }

  /** The state after a run of steps, each of which could be taken. */
  ghost predicate Reaches(s: State, run: seq<Action>, s': State)
    decreases |run|
  {
    if run == [] then s == s' else Enabled(s, run[0]) && Reaches(Next(s, run[0]), run[1..], s')
  }

  // ----- the close protocol -----

  /** Nobody who saw the logger open is left when it closes; everything that sends is
      finished before what it sends to is closed. */
  ghost predicate CloseInv(s: State) {
    && s.front.checked <= s.front.readers
    && s.front.closed == s.front.queueClosed == (s.end.closing != NotCalled)
    && (s.front.closed ==> s.front.checked == {})
    && (s.q.drain == Exited ==> s.front.queueClosed && s.q.events == [])
    && s.end.mirrorClosed == (s.end.closing == Mirroring || s.end.closing == Finished)
    && s.end.sinkClosed == (s.end.closing == Finished)
    && (s.end.mirrorClosed ==> s.q.drain == Exited && forall id | id in s.d.calls :: Over(s.d.calls[id]))
  }

  lemma CloseInvKept(s: State, a: Action)
    requires CloseInv(s) && Enabled(s, a)
    ensures CloseInv(Next(s, a)) && !Disaster(s, a)
  {
  }

  // ----- durable writers -----

  predicate Busy(p: Phase) {
    p.Started? || p.Writing? || p.Appended? || p.Settled?
  }

  ghost function Workers(calls: map<Id, Phase>): set<Id> {
    set id | id in calls && Busy(calls[id])
  }

  /** The semaphore counts the workers, and one of them at most holds the file. */
  ghost predicate WorkerInv(s: State) {
    && s.d.slots == |Workers(s.d.calls)| <= SYNC_WRITERS
    && (forall id | id in s.d.calls :: (s.d.calls[id].Writing? || s.d.calls[id].Appended?) <==> s.d.held == Some(id))
    && (s.d.held.Some? ==> s.d.held.value in s.d.calls)
    && (forall id | id in s.front.readers :: id !in s.d.calls)
  }

  lemma WorkersAfter(calls: map<Id, Phase>, id: Id, p: Phase)
    ensures var w, w' := Workers(calls), Workers(calls[id := p]);
            && w' == (if Busy(p) then w + {id} else w - {id})
            && |w'| == |w| + (if Busy(p) && id !in w then 1 else if !Busy(p) && id in w then -1 else 0)
  {
    var w, w' := Workers(calls), Workers(calls[id := p]);
    assert w' == if Busy(p) then w + {id} else w - {id};
  }

  /** One call moves to its next phase. */
  lemma PhaseChanges(s: State, s': State, id: Id, p: Phase)
    requires WorkerInv(s) && s'.d.calls == s.d.calls[id := p] && s'.front.readers <= s.front.readers && id !in s'.front.readers
    requires id in s.d.calls || p.Waiting?
    requires s'.d.slots == s.d.slots + (if Busy(p) then 1 else 0) - (if id in Workers(s.d.calls) then 1 else 0) <= SYNC_WRITERS
    requires if p.Writing? || p.Appended? then s'.d.held == Some(id) && (s.d.held == None || s.d.held == Some(id))
             else s'.d.held == if s.d.held == Some(id) then None else s.d.held
    ensures WorkerInv(s')
  {
    WorkersAfter(s.d.calls, id, p);
  }

  predicate ChangesAPhase(c: CallStep) {
    c.Register? || c.GiveUp? || c.Admit? || c.Lock? || c.Append? || c.Fsync? || c.Finish?
  }

  lemma WorkerInvKept(s: State, a: Action)
    requires WorkerInv(s) && CloseInv(s) && Enabled(s, a)
    ensures WorkerInv(Next(s, a))
  {
    hide CallNext, OwnNext, CallEnabled, OwnEnabled, WorkerInv;
    match a
    case Call(c) => if ChangesAPhase(c) { PhaseStep(s, c); } else { QuietCall(s, c); }
    case Own(o) => QuietOwn(s, o);
  }

  lemma QuietCall(s: State, c: CallStep)
    requires WorkerInv(s) && CloseInv(s) && CallEnabled(s, c) && !ChangesAPhase(c)
    ensures WorkerInv(CallNext(s, c))
  {
    hide Workers;
  }

  lemma QuietOwn(s: State, o: OwnStep)
    requires WorkerInv(s) && OwnEnabled(s, o)
    ensures WorkerInv(OwnNext(s, o))
  {
    hide Workers;
    var t := OwnNext(s, o);
    assert t.d.calls == s.d.calls && t.d.slots == s.d.slots && t.d.held == s.d.held && t.front.readers == s.front.readers;
  }

  lemma PhaseStep(s: State, c: CallStep)
    requires WorkerInv(s) && CloseInv(s) && CallEnabled(s, c) && ChangesAPhase(c)
    ensures WorkerInv(CallNext(s, c))
  {
    var s' := CallNext(s, c);
    match c
    case Register(id) => PhaseChanges(s, s', id, Waiting);
    case GiveUp(id) => PhaseChanges(s, s', id, Refused);
    case Admit(id) => PhaseChanges(s, s', id, Started);
    case Lock(id) => PhaseChanges(s, s', id, Writing);
    case Append(id, outcome) => PhaseChanges(s, s', id, if outcome.Whole? then Appended else Settled(false, true));
    case Fsync(id, ok) => PhaseChanges(s, s', id, Settled(true, !ok));
    case Finish(id) =>
      assert Workers(s.d.calls) != {} by { assert id in Workers(s.d.calls); }
      PhaseChanges(s, s', id, Done(s.d.calls[id].appended, s.d.calls[id].failed));
  }

  // ----- the queue -----

  function Holding(d: Drain): seq<Id> {
    if d.Took? then [d.id] else []
  }

  /** The queued events the drain has tried to append, in order. */
  function Events(log: seq<Entry>): seq<Id> {
    if log == [] then []
    else
      var e := log[|log| - 1];
      Events(log[..|log| - 1]) + if e.line.Event? then [e.line.id] else []
  }

  function Notes(log: seq<Entry>): nat {
    if log == [] then 0
    else
      var e := log[|log| - 1];
      Notes(log[..|log| - 1]) + if e.line.Overflow? then e.line.files else 0
  }

  lemma LogGrows(log: seq<Entry>, e: Entry)
    ensures Events(log + [e]) == Events(log) + if e.line.Event? then [e.line.id] else []
    ensures Notes(log + [e]) == Notes(log) + if e.line.Overflow? then e.line.files else 0
  {
    assert (log + [e])[..|log|] == log;
  }

  /** First in, first out, nothing lost on the way, and every drop either reported or
      still to be. */
  ghost predicate QueueInv(s: State) {
    && s.q.accepted == s.q.drained + Holding(s.q.drain) + s.q.events
    && |s.q.events| <= BUFFER_DEPTH
    && Events(s.log) == s.q.drained
    && Notes(s.log) == s.q.lastReported <= s.q.dropped
    && (s.q.drain == Exited ==> s.q.lastReported == s.q.dropped)
  }

  lemma ReportKeeps(s: State, due: bool, outcome: Outcome)
    requires Notes(s.log) == s.q.lastReported <= s.q.dropped
    ensures var r := Reported(s, due, outcome);
            && Events(r.log) == Events(s.log) && Notes(r.log) == r.q.lastReported <= r.q.dropped
            && (due ==> r.q.lastReported == r.q.dropped)
  {
    hide Events, Notes;
    if due && s.q.dropped > s.q.lastReported {
      LogGrows(s.log, Entry(Overflow(s.q.dropped - s.q.lastReported), outcome));
    }
  }

  lemma QueueInvKept(s: State, a: Action)
    requires QueueInv(s) && CloseInv(s) && Enabled(s, a)
    ensures QueueInv(Next(s, a))
  {
    hide CallNext, OwnNext, CallEnabled, OwnEnabled, QueueInv;
    match a
    case Call(c) => QueueCall(s, c);
    case Own(o) => QueueOwn(s, o);
  }

  lemma QueueCall(s: State, c: CallStep)
    requires QueueInv(s) && CloseInv(s) && CallEnabled(s, c)
    ensures QueueInv(CallNext(s, c))
  {
    hide Events, Notes;
    if c.Put? {
      assert s.q.drained + Holding(s.q.drain) + (s.q.events + [c.id]) == s.q.accepted + [c.id];
    } else if c.Append? {
      LogGrows(s.log, Entry(Durable(c.id), c.outcome));
    } else {
      var t := CallNext(s, c);
      assert t.q.events == s.q.events && t.q.accepted == s.q.accepted && t.q.drained == s.q.drained && t.q.drain == s.q.drain;
      assert t.log == s.log && t.q.dropped == s.q.dropped && t.q.lastReported == s.q.lastReported;
    }
  }

  lemma QueueOwn(s: State, o: OwnStep)
    requires QueueInv(s) && CloseInv(s) && OwnEnabled(s, o)
    ensures QueueInv(OwnNext(s, o))
  {
    hide Events, Notes;
    match o
    case Take => assert s.q.drained + ([s.q.events[0]] + s.q.events[1..]) == s.q.drained + [s.q.events[0]] + s.q.events[1..];
    case Emit(outcome, due, reported) =>
      var e := Entry(Event(s.q.drain.id), outcome);
      LogGrows(s.log, e);
      ReportKeeps(Emitting(s, outcome), due, reported);
    case DrainExit(reported) => ReportKeeps(s, true, reported);
    case _ =>
  }

  // ----- what a durable call is told -----

  /** How many times a line was offered to the file, and how many of them whole. */
  function Tries(log: seq<Entry>, line: Line): nat {
    if log == [] then 0
    else Tries(log[..|log| - 1], line) + if log[|log| - 1].line == line then 1 else 0
  }

  function Successes(log: seq<Entry>, line: Line): nat {
    if log == [] then 0
    else Successes(log[..|log| - 1], line) + if log[|log| - 1] == Entry(line, Whole) then 1 else 0
  }

  lemma TriesGrow(log: seq<Entry>, e: Entry, line: Line)
    ensures Tries(log + [e], line) == Tries(log, line) + if e.line == line then 1 else 0
    ensures Successes(log + [e], line) == Successes(log, line) + if e == Entry(line, Whole) then 1 else 0
  {
    assert (log + [e])[..|log|] == log;
  }

  /** One durable call, from everywhere it leaves a trace. */
  datatype View = View(phase: Option<Phase>, tries: nat, successes: nat, synced: bool, answer: Option<Answer>, inside: bool)

  function ViewOf(s: State, id: Id): View {
    View(if id in s.d.calls then Some(s.d.calls[id]) else None,
         Tries(s.log, Durable(id)), Successes(s.log, Durable(id)), id in s.d.synced,
         if id in s.d.answers then Some(s.d.answers[id]) else None, id in s.front.readers)
  }

  predicate BeforeAppend(p: Option<Phase>) {
    p.None? || p.value.Waiting? || p.value.Started? || p.value.Writing? || p.value.Refused?
  }

  predicate Landed(p: Option<Phase>) {
    p.Some? && (p.value.Appended? || ((p.value.Settled? || p.value.Done?) && p.value.appended))
  }

  predicate Verdict(p: Option<Phase>, appended: bool, failed: bool) {
    p == Some(Settled(appended, failed)) || p == Some(Done(appended, failed))
  }

  /** The line is offered to the file once, before the verdict, and the verdict says what
      became of it. */
  predicate AppendedOnce(v: View) {
    && v.tries == (if BeforeAppend(v.phase) then 0 else 1)
    && v.successes == (if Landed(v.phase) then 1 else 0)
    && (Verdict(v.phase, true, false) ==> v.synced)
    && !Verdict(v.phase, false, false)
  }

  predicate ToldTheTruth(v: View) {
    match v.answer
    case None => !(v.phase.Some? && v.phase.value.Refused?)
    case Some(Answer(false, false)) => Verdict(v.phase, true, false)
    case Some(Answer(false, true)) => Verdict(v.phase, false, true) || v.phase.None? || v.phase.value.Refused?
    case Some(Answer(true, failed)) => failed && v.phase.Some? && !v.phase.value.Waiting? && !v.phase.value.Refused?
  }

  predicate GoodView(v: View) {
    AppendedOnce(v) && ToldTheTruth(v) && (v.inside ==> v.phase.None? && v.answer.None?)
  }

  ghost predicate DurableInv(s: State, id: Id) {
    GoodView(ViewOf(s, id))
  }

  /** Nobody else's step shows in it. */
  lemma OtherCalls(s: State, c: CallStep, id: Id)
    requires CallEnabled(s, c) && c.id != id
    ensures ViewOf(CallNext(s, c), id) == ViewOf(s, id)
  {
    hide Tries, Successes;
    if c.Append? {
      TriesGrow(s.log, Entry(Durable(c.id), c.outcome), Durable(id));
    }
  }

  lemma OwnSteps(s: State, o: OwnStep, id: Id)
    requires OwnEnabled(s, o)
    ensures ViewOf(OwnNext(s, o), id) == ViewOf(s, id)
  {
    hide Tries, Successes;
    var note := Overflow(if s.q.dropped > s.q.lastReported then s.q.dropped - s.q.lastReported else 0);
    match o
    case Emit(outcome, due, reported) =>
      var e := Entry(Event(s.q.drain.id), outcome);
      TriesGrow(s.log, e, Durable(id));
      TriesGrow(s.log + [e], Entry(note, reported), Durable(id));
    case DrainExit(reported) => TriesGrow(s.log, Entry(note, reported), Durable(id));
    case _ =>
  }

  /** Its own steps, as they show: whether one could be taken, and what it leaves. */
  function Step(v: View, c: CallStep, closed: bool): Option<View> {
    match c
    case Enter(_) => if v.phase.None? && v.answer.None? then Some(v.(inside := true)) else None
    case Check(_) =>
      if !v.inside then None
      else if closed then Some(v.(inside := false, answer := Some(Answer(false, true)))) else Some(v)
    case Put(_) => if v.inside then Some(v.(inside := false)) else None
    case Register(_) => if v.inside then Some(v.(inside := false, phase := Some(Waiting))) else None
    case GiveUp(_) =>
      if v.phase == Some(Waiting) then Some(v.(phase := Some(Refused), answer := Some(Answer(false, true)))) else None
    case Admit(_) => if v.phase == Some(Waiting) then Some(v.(phase := Some(Started))) else None
    case Lock(_) => if v.phase == Some(Started) then Some(v.(phase := Some(Writing))) else None
    case Append(_, outcome) =>
      if v.phase != Some(Writing) then None
      else if outcome.Whole? then Some(v.(phase := Some(Appended), tries := v.tries + 1, successes := v.successes + 1))
      else Some(v.(phase := Some(Settled(false, true)), tries := v.tries + 1))
    case Fsync(_, ok) =>
      if v.phase == Some(Appended) then Some(v.(phase := Some(Settled(true, !ok)), synced := v.synced || ok)) else None
    case Finish(_) =>
      if v.phase.Some? && v.phase.value.Settled? then Some(v.(phase := Some(Done(v.phase.value.appended, v.phase.value.failed)))) else None
    case Hear(_) =>
      if v.answer.None? && v.phase.Some? && (v.phase.value.Settled? || v.phase.value.Done?)
      then Some(v.(answer := Some(Answer(v.phase.value.appended && v.phase.value.failed, v.phase.value.failed)))) else None
    case StopWaiting(_) =>
      if v.answer.None? && v.phase.Some? && !v.phase.value.Waiting? then Some(v.(answer := Some(Answer(true, true)))) else None
  }

  predicate EarlyStep(c: CallStep) {
    c.Enter? || c.Check? || c.Put? || c.Register? || c.GiveUp?
  }

  lemma OwnCallsEarly(s: State, c: CallStep)
    requires CallEnabled(s, c) && CloseInv(s) && EarlyStep(c)
    ensures Step(ViewOf(s, c.id), c, s.front.closed) == Some(ViewOf(CallNext(s, c), c.id))
  {
    hide Tries, Successes;
  }

  lemma OwnCallsLate(s: State, c: CallStep)
    requires CallEnabled(s, c) && !EarlyStep(c)
    ensures Step(ViewOf(s, c.id), c, s.front.closed) == Some(ViewOf(CallNext(s, c), c.id))
  {
    hide Tries, Successes;
    if c.Append? {
      TriesGrow(s.log, Entry(Durable(c.id), c.outcome), Durable(c.id));
    }
  }

  lemma StepIsGood(v: View, c: CallStep, closed: bool)
    requires GoodView(v) && Step(v, c, closed).Some?
    ensures GoodView(Step(v, c, closed).value)
    ensures v.answer.Some? ==> Step(v, c, closed).value.answer == v.answer
  {
  }

  lemma DurableInvKept(s: State, a: Action, id: Id)
    requires DurableInv(s, id) && CloseInv(s) && Enabled(s, a)
    ensures DurableInv(Next(s, a), id)
    ensures ViewOf(s, id).answer.Some? ==> ViewOf(Next(s, a), id).answer == ViewOf(s, id).answer
  {
    hide CloseInv, CallEnabled, OwnEnabled, CallNext, OwnNext, ViewOf, GoodView, Step;
    match a
    case Own(o) => OwnSteps(s, o, id);
    case Call(c) =>
      if c.id != id {
        OtherCalls(s, c, id);
      } else {
        if EarlyStep(c) { OwnCallsEarly(s, c); } else { OwnCallsLate(s, c); }
        StepIsGood(ViewOf(s, id), c, s.front.closed);
      }
  }

  // ----- whole runs -----

  ghost predicate Inv(s: State) {
    CloseInv(s) && WorkerInv(s) && QueueInv(s) && forall id :: DurableInv(s, id)
  }

  lemma InvKept(s: State, a: Action)
    requires Inv(s) && Enabled(s, a)
    ensures Inv(Next(s, a)) && !Disaster(s, a)
    ensures forall id | id in s.d.answers :: id in Next(s, a).d.answers && Next(s, a).d.answers[id] == s.d.answers[id]
  {
    hide CloseInv, WorkerInv, QueueInv, DurableInv, Next, Enabled, Disaster, Tries, Successes;
    CloseInvKept(s, a);
    WorkerInvKept(s, a);
    QueueInvKept(s, a);
    forall id
      ensures DurableInv(Next(s, a), id)
      ensures id in s.d.answers ==> id in Next(s, a).d.answers && Next(s, a).d.answers[id] == s.d.answers[id]
    {
      DurableInvKept(s, a, id);
    }
  }

  lemma {:induction false} RunKeeps(s: State, run: seq<Action>, s': State)
    requires Inv(s) && Reaches(s, run, s')
    ensures Inv(s')
    ensures forall id | id in s.d.answers :: id in s'.d.answers && s'.d.answers[id] == s.d.answers[id]
    decreases |run|
  {
    hide Inv, Next, Enabled;
    if run != [] {
      InvKept(s, run[0]);
      RunKeeps(Next(s, run[0]), run[1..], s');
    }
  }

  lemma InitHolds()
    ensures Inv(INIT)
  {
    assert Workers(INIT.d.calls) == {};
  }

  /** In no interleaving is there a send on a closed channel, a write to the closed sink,
      or a fifth durable worker. */
  lemma NoDisaster(run: seq<Action>, s: State, a: Action)
    requires Reaches(INIT, run, s) && Enabled(s, a)
    ensures !Disaster(s, a)
    ensures |Workers(s.d.calls)| <= SYNC_WRITERS
  {
    InitHolds();
    RunKeeps(INIT, run, s);
    InvKept(s, a);
  }

  // ----- a slot is there for the taking, and Close can always finish -----

  /** A waiting call can be admitted exactly while fewer than four workers are busy. */
  lemma AdmittedIff(run: seq<Action>, s: State, id: Id)
    requires Reaches(INIT, run, s) && id in s.d.calls && s.d.calls[id] == Waiting
    ensures Enabled(s, Call(Admit(id))) <==> |Workers(s.d.calls)| < SYNC_WRITERS
  {
    hide Reaches, Workers;
    InitHolds();
    RunKeeps(INIT, run, s);
  }

  ghost function Unfinished(s: State): set<Id> {
    set id | id in s.d.calls && !Over(s.d.calls[id])
  }

  /** Close has been called and waits for everybody. */
  ghost predicate Waits(s: State) {
    Inv(s) && s.end.closing == Joining
  }

  lemma {:induction false} ReachesOn(s: State, a: seq<Action>, t: State, b: seq<Action>, u: State)
    requires Reaches(s, a, t) && Reaches(t, b, u)
    ensures Reaches(s, a + b, u)
    decreases |a|
  {
    hide Next, Enabled;
    if a == [] {
      assert a + b == b;
    } else {
      assert (a + b)[1..] == a[1..] + b;
      ReachesOn(Next(s, a[0]), a[1..], t, b, u);
    }
  }

  lemma OneAct(s: State, a: Action)
    requires Enabled(s, a)
    ensures Reaches(s, [a], Next(s, a))
  {
    hide Next, Enabled;
    assert [a][1..] == [];
  }

  lemma NoAct(s: State)
    ensures Reaches(s, [], s)
  {
  }

  /** The phase a call on its way out is in says what it can do next. */
  predicate CanDo(s: State, c: CallStep) {
    c.id in s.d.calls &&
    match c
    case GiveUp(id) => s.d.calls[id] == Waiting
    case Lock(id) => s.d.calls[id] == Started && s.d.held == None
    case Append(id, outcome) => s.d.calls[id] == Writing && outcome.Whole?
    case Fsync(id, _) => s.d.calls[id] == Appended
    case Finish(id) => s.d.calls[id].Settled?
    case _ => false
  }

  predicate LeadsTo(c: CallStep, p: Phase) {
    match c
    case GiveUp(_) => p.Refused?
    case Lock(_) => p.Writing?
    case Append(_, _) => p.Appended?
    case Fsync(_, _) => p.Settled?
    case _ => p.Done?
  }

  lemma Does(s: State, c: CallStep) returns (t: State)
    requires Waits(s) && CanDo(s, c)
    ensures Reaches(s, [Call(c)], t) && Waits(t) && t.q == s.q
    ensures c.id in t.d.calls && LeadsTo(c, t.d.calls[c.id]) && t.d.calls == s.d.calls[c.id := t.d.calls[c.id]]
    ensures Unfinished(t) == if c.GiveUp? || c.Finish? then Unfinished(s) - {c.id} else Unfinished(s)
    ensures if c.Fsync? then t.d.held == None else c.Lock? || t.d.held == s.d.held
  {
    hide Inv;
    t := Next(s, Call(c));
    InvKept(s, Call(c));
    OneAct(s, Call(c));
  }

  /** Who holds the file is writing, and nobody else is. */
  lemma HolderIsWriting(s: State, id: Id)
    requires Waits(s) && (s.d.held == Some(id) || (s.d.held == None && id in s.d.calls))
    ensures id in s.d.calls && ((s.d.calls[id].Writing? || s.d.calls[id].Appended?) <==> s.d.held == Some(id))
  {
    hide CloseInv, QueueInv, DurableInv, Workers;
  }

  /** Whoever holds the file gives it back. */
  lemma FileComesFree(s: State) returns (later: seq<Action>, t: State)
    requires Waits(s)
    ensures Reaches(s, later, t) && Waits(t) && t.d.held == None && t.q == s.q && Unfinished(t) == Unfinished(s)
  {
    hide Waits, Reaches, Unfinished;
    NoAct(s);
    later, t := [], s;
    if s.d.held.Some? {
      var id := s.d.held.value;
      HolderIsWriting(s, id);
      if s.d.calls[id].Writing? {
        t := Does(s, Append(id, Whole));
        later := [Call(Append(id, Whole))];
      }
      var u := Does(t, Fsync(id, true));
      ReachesOn(s, later, t, [Call(Fsync(id, true))], u);
      later, t := later + [Call(Fsync(id, true))], u;
    }
  }

  /** One durable call runs to its end. */
  lemma CallEnds(s: State, id: Id) returns (later: seq<Action>, t: State)
    requires Waits(s) && id in Unfinished(s) && s.d.held == None
    ensures Reaches(s, later, t) && Waits(t) && t.d.held == None && t.q == s.q && Unfinished(t) == Unfinished(s) - {id}
  {
    hide Waits, Reaches;
    HolderIsWriting(s, id);
    hide Unfinished;
    if s.d.calls[id].Waiting? {
      t := Does(s, GiveUp(id));
      later := [Call(GiveUp(id))];
    } else {
      NoAct(s);
      var u;
      later, u := [], s;
      if s.d.calls[id].Started? {
        var a := Does(s, Lock(id));
        var b := Does(a, Append(id, Whole));
        u := Does(b, Fsync(id, true));
        ReachesOn(s, [Call(Lock(id))], a, [Call(Append(id, Whole))], b);
        later := [Call(Lock(id))] + [Call(Append(id, Whole))];
        ReachesOn(s, later, b, [Call(Fsync(id, true))], u);
        later := later + [Call(Fsync(id, true))];
      }
      t := Does(u, Finish(id));
      ReachesOn(s, later, u, [Call(Finish(id))], t);
      later := later + [Call(Finish(id))];
    }
  }

  lemma {:induction false} CallsEnd(s: State) returns (later: seq<Action>, t: State)
    requires Waits(s) && s.d.held == None
    ensures Reaches(s, later, t) && Waits(t) && t.d.held == None && t.q == s.q && Unfinished(t) == {}
    decreases |Unfinished(s)|
  {
    hide Waits, Reaches, Unfinished;
    if Unfinished(s) == {} {
      NoAct(s);
      later, t := [], s;
    } else {
      var id :| id in Unfinished(s);
      var l1, u := CallEnds(s, id);
      assert Unfinished(s) == Unfinished(u) + {id};
      var l2;
      l2, t := CallsEnd(u);
      ReachesOn(s, l1, u, l2, t);
      later := l1 + l2;
    }
  }

  /** The drain's own next step. */
  function DrainStep(s: State): OwnStep {
    match s.q.drain
    case Took(_) => Emit(Whole, false, Whole)
    case Emitted(_) => Offer
    case _ => if s.q.events != [] then Take else DrainExit(Whole)
  }

  function ToDrain(q: Queue): nat {
    3 * |q.events| + match q.drain
                     case Took(_) => 3
                     case Emitted(_) => 2
                     case Idle => 1
                     case Exited => 0
  }

  lemma DrainMoves(s: State) returns (t: State)
    requires Waits(s) && s.d.held == None && s.q.drain != Exited
    ensures Reaches(s, [Own(DrainStep(s))], t) && Waits(t) && t.d.held == None && Unfinished(t) == Unfinished(s)
    ensures ToDrain(t.q) < ToDrain(s.q)
  {
    hide Inv;
    assert s.front.queueClosed by { IsClosed(s); }
    t := Next(s, Own(DrainStep(s)));
    InvKept(s, Own(DrainStep(s)));
    OneAct(s, Own(DrainStep(s)));
  }

  lemma IsClosed(s: State)
    requires Waits(s)
    ensures s.front.queueClosed && !s.end.sinkClosed && !s.end.mirrorClosed
  {
    hide WorkerInv, QueueInv, DurableInv;
  }

  lemma {:induction false} DrainEnds(s: State) returns (later: seq<Action>, t: State)
    requires Waits(s) && s.d.held == None
    ensures Reaches(s, later, t) && Waits(t) && t.q.drain == Exited && Unfinished(t) == Unfinished(s)
    decreases ToDrain(s.q)
  {
    hide Waits, Reaches, Unfinished, DrainStep, ToDrain;
    if s.q.drain == Exited {
      NoAct(s);
      later, t := [], s;
    } else {
      var u := DrainMoves(s);
      var l;
      l, t := DrainEnds(u);
      ReachesOn(s, [Own(DrainStep(s))], u, l, t);
      later := [Own(DrainStep(s))] + l;
    }
  }

  lemma JoinsAndEnds(s: State) returns (later: seq<Action>, t: State)
    requires Waits(s) && s.q.drain == Exited && Unfinished(s) == {}
    ensures Reaches(s, later, t) && t.end.closing == Finished
  {
    hide Inv;
    forall id | id in s.d.calls ensures Over(s.d.calls[id]) {
      assert id !in Unfinished(s);
    }
    var u := Next(s, Own(Joined));
    OneAct(s, Own(Joined));
    t := Next(u, Own(CloseSink));
    OneAct(u, Own(CloseSink));
    ReachesOn(s, [Own(Joined)], u, [Own(CloseSink)], t);
    later := [Own(Joined)] + [Own(CloseSink)];
  }

  /** From whatever state a Close is waiting in, there is a way for everybody to end and
      for it to finish: nobody waits for anybody in a circle. */
  lemma CloseCanFinish(run: seq<Action>, s: State) returns (later: seq<Action>, t: State)
    requires Reaches(INIT, run, s) && s.end.closing == Joining
    ensures Reaches(s, later, t) && t.end.closing == Finished
  {
    hide Reaches, Inv, Unfinished;
    InitHolds();
    RunKeeps(INIT, run, s);
    var l1, a := FileComesFree(s);
    var l2, b := CallsEnd(a);
    var l3, c := DrainEnds(b);
    var l4;
    l4, t := JoinsAndEnds(c);
    ReachesOn(s, l1, a, l2, b);
    ReachesOn(s, l1 + l2, b, l3, c);
    ReachesOn(s, l1 + l2 + l3, c, l4, t);
    later := l1 + l2 + l3 + l4;
  }

  /** Among the lines of the file, the queued events and the total of the drop notes. */
  function EventsIn(lines: seq<Line>): seq<Id> {
    if lines == [] then []
    else EventsIn(lines[..|lines| - 1]) + if lines[|lines| - 1].Event? then [lines[|lines| - 1].id] else []
  }

  function NotesIn(lines: seq<Line>): nat {
    if lines == [] then 0
    else NotesIn(lines[..|lines| - 1]) + if lines[|lines| - 1].Overflow? then lines[|lines| - 1].files else 0
  }

  lemma {:induction false} HealthyLog(log: seq<Entry>)
    requires Healthy(log)
    ensures EventsIn(Written(log)) == Events(log) && NotesIn(Written(log)) == Notes(log)
  {
    if log != [] {
      var before := log[..|log| - 1];
      HealthyLog(before);
      assert Written(log)[..|Written(log)| - 1] == Written(before);
    }
  }

  /** After a Close that finished over a sink that never failed, a reader of the file
      finds every accepted event once, in the order they were accepted, and notes of
      drops that add up to exactly the events dropped. */
  lemma CleanClose(run: seq<Action>, s: State)
    requires Reaches(INIT, run, s) && s.end.closing == Finished && Healthy(s.log)
    ensures EventsIn(ReadBack(File(s.log))) == s.q.accepted
    ensures NotesIn(ReadBack(File(s.log))) == s.q.dropped
  {
    hide Reaches;
    InitHolds();
    RunKeeps(INIT, run, s);
    ReadsWhatWasWritten(s.log);
    HealthyLog(s.log);
  }

  // ----- what is dropped -----

  /** The events that Write was called with, in order. */
  function Puts(run: seq<Action>): seq<Id> {
    if run == [] then []
    else (if run[0].Call? && run[0].c.Put? then [run[0].c.id] else []) + Puts(run[1..])
  }

  function Takes(run: seq<Action>): nat {
    if run == [] then 0 else (if run[0] == Own(Take) then 1 else 0) + Takes(run[1..])
  }

  /** How many of them found the queue full. */
  ghost function FullPuts(s: State, run: seq<Action>): nat
    decreases |run|
  {
    if run == [] || !Enabled(s, run[0]) then 0
    else
      (if run[0].Call? && run[0].c.Put? && |s.q.events| == BUFFER_DEPTH then 1 else 0) + FullPuts(Next(s, run[0]), run[1..])
  }

  /** Nowhere on the way is the drain behind by more than the queue holds. */
  ghost predicate KeepsUp(queued: nat, run: seq<Action>) {
    forall i | 0 <= i <= |run| :: queued + |Puts(run[..i])| <= BUFFER_DEPTH + Takes(run[..i])
  }

  lemma QueueStep(s: State, a: Action)
    requires QueueInv(s) && Enabled(s, a)
    ensures var q, q' := s.q, Next(s, a).q;
            if a.Call? && a.c.Put? then
              if |q.events| == BUFFER_DEPTH then q'.accepted == q.accepted && q'.dropped == q.dropped + 1 && q'.events == q.events
              else q'.accepted == q.accepted + [a.c.id] && q'.dropped == q.dropped && |q'.events| == |q.events| + 1
            else
              q'.accepted == q.accepted && q'.dropped == q.dropped
              && |q.events| == |q'.events| + if a == Own(Take) then 1 else 0
  {
    hide Events, Notes;
  }

  /** Every event is accepted or counted as dropped, and dropped only where the queue was
      full. */
  lemma {:induction false} DroppedOnlyWhenFull(s: State, run: seq<Action>, s': State)
    requires Inv(s) && Reaches(s, run, s')
    ensures |Puts(run)| == (|s'.q.accepted| - |s.q.accepted|) + (s'.q.dropped - s.q.dropped)
    ensures s'.q.dropped == s.q.dropped + FullPuts(s, run)
    decreases |run|
  {
    hide Inv, Next, Enabled;
    if run != [] {
      HasQueueInv(s);
      QueueStep(s, run[0]);
      InvKept(s, run[0]);
      DroppedOnlyWhenFull(Next(s, run[0]), run[1..], s');
    }
  }

  lemma HasQueueInv(s: State)
    requires Inv(s)
    ensures QueueInv(s) && |s.q.events| <= BUFFER_DEPTH
  {
  }

  lemma KeepsUpStep(queued: nat, run: seq<Action>, next: nat)
    requires run != [] && queued <= BUFFER_DEPTH
    requires queued + |Puts(run[..1])| == next + Takes(run[..1])
    ensures KeepsUp(queued, run) <==> next <= BUFFER_DEPTH && KeepsUp(next, run[1..])
  {
    forall i | 1 <= i <= |run|
      ensures |Puts(run[..i])| == |Puts(run[..1])| + |Puts(run[1..][..i - 1])|
      ensures Takes(run[..i]) == Takes(run[..1]) + Takes(run[1..][..i - 1])
    {
      assert run[..i][1..] == run[1..][..i - 1] && run[..1][1..] == [];
    }
    if KeepsUp(queued, run) {
      forall i | 0 <= i <= |run[1..]| ensures next + |Puts(run[1..][..i])| <= BUFFER_DEPTH + Takes(run[1..][..i]) {
        assert queued + |Puts(run[..i + 1])| <= BUFFER_DEPTH + Takes(run[..i + 1]);
      }
      assert run[1..][..0] == [];
    }
    if next <= BUFFER_DEPTH && KeepsUp(next, run[1..]) {
      forall i | 0 <= i <= |run| ensures queued + |Puts(run[..i])| <= BUFFER_DEPTH + Takes(run[..i]) {
        if i > 0 { assert next + |Puts(run[1..][..i - 1])| <= BUFFER_DEPTH + Takes(run[1..][..i - 1]); }
      }
    }
  }

  lemma FirstStep(run: seq<Action>)
    requires run != []
    ensures |Puts(run[..1])| == (if run[0].Call? && run[0].c.Put? then 1 else 0)
    ensures Takes(run[..1]) == if run[0] == Own(Take) then 1 else 0
    ensures Puts(run) == (if run[0].Call? && run[0].c.Put? then [run[0].c.id] else []) + Puts(run[1..])
  {
    assert run[..1][1..] == [];
  }

  /** Nothing is dropped exactly if the drain keeps up; then everything is accepted. */
  lemma {:induction false} NothingDroppedIff(s: State, run: seq<Action>, s': State)
    requires Inv(s) && Reaches(s, run, s')
    ensures s'.q.dropped == s.q.dropped <==> KeepsUp(|s.q.events|, run)
    ensures s'.q.dropped >= s.q.dropped
    ensures KeepsUp(|s.q.events|, run) ==> s'.q.accepted == s.q.accepted + Puts(run)
    decreases |run|
  {
    hide Inv, Next, Enabled, KeepsUp, QueueInv, Puts, Takes;
    HasQueueInv(s);
    if run == [] {
      NoStepKeepsUp(|s.q.events|);
    } else {
      var t := Next(s, run[0]);
      QueueStep(s, run[0]);
      InvKept(s, run[0]);
      HasQueueInv(t);
      NothingDroppedIff(t, run[1..], s');
      FirstStep(run);
      var put := run[0].Call? && run[0].c.Put?;
      if put && |s.q.events| == BUFFER_DEPTH {
        TooFull(run);
      } else {
        KeepsUpStep(|s.q.events|, run, |t.q.events|);
      }
    }
  }

  lemma TooFull(run: seq<Action>)
    requires run != [] && run[0].Call? && run[0].c.Put?
    ensures !KeepsUp(BUFFER_DEPTH, run)
  {
    FirstStep(run);
    assert BUFFER_DEPTH + |Puts(run[..1])| > BUFFER_DEPTH + Takes(run[..1]);
  }

  lemma NoStepKeepsUp(queued: nat)
    requires queued <= BUFFER_DEPTH
    ensures KeepsUp(queued, []) && Puts([]) == []
  {
  }

  /** So a burst the drain keeps up with is read back whole, in order, with no note of a
      drop. */
  lemma BurstIsRead(run: seq<Action>, s: State)
    requires Reaches(INIT, run, s) && s.end.closing == Finished && Healthy(s.log) && KeepsUp(0, run)
    ensures EventsIn(ReadBack(File(s.log))) == Puts(run) && NotesIn(ReadBack(File(s.log))) == 0
  {
    hide Reaches, KeepsUp, Inv;
    InitHolds();
    NothingDroppedIff(INIT, run, s);
    CleanClose(run, s);
  }

  // ----- what is mirrored -----

  predicate IsOffer(s: State, a: Action) {
    a == Own(Offer) || (a.Call? && a.c.Finish? && a.c.id in s.d.calls && s.d.calls[a.c.id] == Settled(true, false))
  }

  /** How many milestones were offered to the mirror, and how many found it full. */
  ghost function Offers(s: State, run: seq<Action>, full: bool): nat
    decreases |run|
  {
    if run == [] || !Enabled(s, run[0]) then 0
    else
      (if IsOffer(s, run[0]) && (full ==> s.end.mirrored == MIRROR_DEPTH) then 1 else 0) + Offers(Next(s, run[0]), run[1..], full)
  }

  function Shown(run: seq<Action>): nat {
    if run == [] then 0 else (if run[0] == Own(MirrorStep) then 1 else 0) + Shown(run[1..])
  }

  lemma MirrorOneStep(s: State, a: Action)
    requires Inv(s) && Enabled(s, a) && s.end.mirrored <= MIRROR_DEPTH
    ensures var n, n' := s.end.mirrored, Next(s, a).end.mirrored;
            n' == if IsOffer(s, a) && n < MIRROR_DEPTH then n + 1 else if a == Own(MirrorStep) then n - 1 else n
    ensures a == Own(MirrorStep) ==> !IsOffer(s, a)
  {
    if a.Call? && a.c.Finish? { assert DurableInv(s, a.c.id); }
    hide Tries, Successes;
  }

  /** The mirror is handed whatever is offered but where it is full. */
  lemma {:induction false} MirroredUnlessFull(s: State, run: seq<Action>, s': State)
    requires Inv(s) && Reaches(s, run, s') && s.end.mirrored <= MIRROR_DEPTH
    ensures s'.end.mirrored <= MIRROR_DEPTH
    ensures s.end.mirrored + Offers(s, run, false) == s'.end.mirrored + Shown(run) + Offers(s, run, true)
    decreases |run|
  {
    hide Inv, Next, Enabled, IsOffer;
    if run != [] {
      MirrorOneStep(s, run[0]);
      InvKept(s, run[0]);
      MirroredUnlessFull(Next(s, run[0]), run[1..], s');
    }
  }

  /** The verdicts of WriteSyncInFlight, in any schedule and for ever after: no error is
      one append that succeeded and was fsynced; an error that is not in flight is no
      append that succeeded, then or later; and an event in flight lands at most once. */
  lemma Trichotomy(run: seq<Action>, s: State, later: seq<Action>, s': State, id: Id)
    requires Reaches(INIT, run, s) && Reaches(s, later, s') && id in s.d.answers
    ensures var landed := Successes(s'.log, Durable(id));
            match s.d.answers[id]
            case Answer(false, false) => landed == 1 && id in s'.d.synced
            case Answer(false, true) => landed == 0
            case Answer(true, failed) => failed && landed <= 1
    ensures Tries(s'.log, Durable(id)) <= 1
  {
    hide Reaches, Tries, Successes;
    InitHolds();
    RunKeeps(INIT, run, s);
    RunKeeps(s, later, s');
    assert DurableInv(s', id);
  }

  /** Told that nothing was written: the logger had been closed when it looked, it was not
      admitted, or its append failed. */
  ghost predicate NotWritten(run: seq<Action>, id: Id) {
    || (exists i :: 0 <= i < |run| && run[i] == Call(Check(id)) && Own(Close) in run[..i])
    || Call(GiveUp(id)) in run || AppendFailed(run, id)
  }

  ghost predicate AppendFailed(run: seq<Action>, id: Id) {
    exists o: Outcome :: !o.Whole? && Call(Append(id, o)) in run
  }

  ghost predicate AnswerCause(run: seq<Action>, id: Id, a: Answer) {
    if a == Answer(false, false) then Call(Fsync(id, true)) in run
    else if a == Answer(false, true) then NotWritten(run, id)
    else Call(StopWaiting(id)) in run || Call(Fsync(id, false)) in run
  }

  ghost predicate PhaseCause(run: seq<Action>, id: Id, p: Phase) {
    match p
    case Settled(appended, failed) => VerdictCause(run, id, appended, failed)
    case Done(appended, failed) => VerdictCause(run, id, appended, failed)
    case _ => true
  }

  ghost predicate VerdictCause(run: seq<Action>, id: Id, appended: bool, failed: bool) {
    if appended then Call(Fsync(id, !failed)) in run else failed && AppendFailed(run, id)
  }

  ghost predicate CauseInv(run: seq<Action>, s: State, id: Id) {
    && (s.front.closed ==> Own(Close) in run)
    && (id in s.d.calls ==> PhaseCause(run, id, s.d.calls[id]))
    && (id in s.d.answers ==> AnswerCause(run, id, s.d.answers[id]))
  }

  lemma CausesStay(run: seq<Action>, a: Action, s: State, id: Id)
    requires CauseInv(run, s, id)
    ensures CauseInv(run + [a], s, id)
  {
    var run' := run + [a];
    assert forall x | x in run :: x in run';
    if exists i :: 0 <= i < |run| && run[i] == Call(Check(id)) && Own(Close) in run[..i] {
      var i :| 0 <= i < |run| && run[i] == Call(Check(id)) && Own(Close) in run[..i];
      assert run'[i] == run[i] && run'[..i] == run[..i];
    }
  }

  lemma CauseKept(run: seq<Action>, s: State, a: Action, id: Id)
    requires CauseInv(run, s, id) && Enabled(s, a)
    ensures CauseInv(run + [a], Next(s, a), id)
  {
    CausesStay(run, a, s, id);
    var run' := run + [a];
    assert run'[|run|] == a && run'[..|run|] == run;
    hide OwnNext, OwnEnabled;
    match a
    case Call(c) => if c.id == id { CallCause(run, s, c); } else { OtherCause(run', s, c, id); }
    case Own(o) => OwnCause(run', s, o, id);
  }

  lemma CallCause(run: seq<Action>, s: State, c: CallStep)
    requires CauseInv(run + [Call(c)], s, c.id) && CauseInv(run, s, c.id) && CallEnabled(s, c)
    ensures CauseInv(run + [Call(c)], CallNext(s, c), c.id)
  {
    var run' := run + [Call(c)];
    assert run'[|run|] == Call(c) && run'[..|run|] == run;
    assert Call(c) in run';
  }

  lemma OtherCause(run': seq<Action>, s: State, c: CallStep, id: Id)
    requires CauseInv(run', s, id) && CallEnabled(s, c) && c.id != id
    ensures CauseInv(run', CallNext(s, c), id)
  {
    hide PhaseCause, AnswerCause;
  }

  lemma OwnCause(run': seq<Action>, s: State, o: OwnStep, id: Id)
    requires CauseInv(run', s, id) && OwnEnabled(s, o) && Own(o) in run'
    ensures CauseInv(run', OwnNext(s, o), id)
  {
    hide PhaseCause, AnswerCause;
  }

  lemma {:induction false} LastStep(s: State, run: seq<Action>, s': State) returns (t: State)
    requires run != [] && Reaches(s, run, s')
    ensures var n := |run| - 1; Reaches(s, run[..n], t) && Enabled(t, run[n]) && Next(t, run[n]) == s'
    decreases |run|
  {
    hide Next, Enabled;
    var n := |run| - 1;
    if n == 0 {
      t := s;
    } else {
      t := LastStep(Next(s, run[0]), run[1..], s');
      assert run[1..][..n - 1] == run[..n][1..];
    }
  }

  /** No verdict without its cause, in any schedule: nobody is refused by a logger that is
      open and admitted it, nobody is told of a failure that did not happen, and nobody is
      told that it is in flight but after it stopped waiting or after a failed fsync. */
  lemma {:induction false} AnswersHaveCauses(run: seq<Action>, s: State, id: Id)
    requires Reaches(INIT, run, s)
    ensures CauseInv(run, s, id)
    ensures id in s.d.answers ==> AnswerCause(run, id, s.d.answers[id])
    decreases |run|
  {
    if run != [] {
      hide Next, Enabled, Reaches, PhaseCause, AnswerCause;
      var n := |run| - 1;
      var t := LastStep(INIT, run, s);
      AnswersHaveCauses(run[..n], t, id);
      CauseKept(run[..n], t, run[n], id);
      assert run == run[..n] + [run[n]];
    }
  }

  lemma {:induction false} SuccessIsWritten(log: seq<Entry>, line: Line)
    ensures Successes(log, line) > 0 <==> line in Written(log)
  {
    if log != [] { SuccessIsWritten(log[..|log| - 1], line); }
  }

  /** Over a sink whose failed appends leave nothing behind, the verdicts are what a
      reader sees. */
  lemma VerdictsAreReadable(run: seq<Action>, s: State, later: seq<Action>, s': State, id: Id)
    requires Reaches(INIT, run, s) && Reaches(s, later, s') && id in s.d.answers && NeverTorn(s'.log)
    ensures s.d.answers[id] == Answer(false, false) ==> Durable(id) in ReadBack(File(s'.log))
    ensures s.d.answers[id] == Answer(false, true) ==> Durable(id) !in ReadBack(File(s'.log))
  {
    hide Reaches, Tries, Successes;
    Trichotomy(run, s, later, s', id);
    SuccessIsWritten(s'.log, Durable(id));
    ReadsWhatWasWritten(s'.log);
  }

  // ----- a caller that clears its counters to write a line -----

  /** Counts seen since the last line, then a line for all of them: its verdict and how
      often it landed. */
  datatype Burst = Burst(seen: nat, answer: Answer, landed: nat)

  /** A caller's bursts in a run: the i-th is what it had seen, the verdict its call was
      given by s, and what has become of its line by s'. */
  function BurstsOf(s: State, s': State, seen: seq<nat>, ids: seq<Id>): (b: seq<Burst>)
    requires |seen| == |ids| && forall id | id in ids :: id in s.d.answers
    ensures |b| == |ids|
    ensures forall i | 0 <= i < |b| :: b[i] == Burst(seen[i], s.d.answers[ids[i]], Successes(s'.log, Durable(ids[i])))
  {
    seq(|ids|, i requires 0 <= i < |ids| => Burst(seen[i], s.d.answers[ids[i]], Successes(s'.log, Durable(ids[i]))))
  }

  /** The counters go back exactly on an error that is not in flight. */
  function Pending(bursts: seq<Burst>): nat {
    if bursts == [] then 0
    else
      var b := bursts[|bursts| - 1];
      if b.answer == Answer(false, true) then Pending(bursts[..|bursts| - 1]) + b.seen else 0
  }

  function Seen(bursts: seq<Burst>): nat {
    if bursts == [] then 0 else Seen(bursts[..|bursts| - 1]) + bursts[|bursts| - 1].seen
  }

  /** What went with lines left in flight that never landed. */
  function Lost(bursts: seq<Burst>): nat {
    if bursts == [] then 0
    else
      var before, b := bursts[..|bursts| - 1], bursts[|bursts| - 1];
      Lost(before) + if b.answer.inFlight && b.landed == 0 then Pending(before) + b.seen else 0
  }

  /** What each of the caller's lines says was seen. */
  function Says(ids: seq<Id>, bursts: seq<Burst>): (says: map<Id, nat>)
    requires |ids| == |bursts|
    ensures forall id :: id in says <==> id in ids
  {
    if ids == [] then map[]
    else
      var n := |ids| - 1;
      Says(ids[..n], bursts[..n])[ids[n] := Pending(bursts[..n]) + bursts[n].seen]
  }

  /** What the whole appends in the file say was seen, all together. */
  function Told(log: seq<Entry>, says: map<Id, nat>): nat {
    if log == [] then 0
    else
      var e := log[|log| - 1];
      Told(log[..|log| - 1], says)
      + if e.line.Durable? && e.line.id in says && e.outcome == Whole then says[e.line.id] else 0
  }

  lemma {:induction false} OneMoreLine(log: seq<Entry>, says: map<Id, nat>, id: Id, n: nat)
    requires id !in says
    ensures Told(log, says[id := n]) == Told(log, says) + Successes(log, Durable(id)) * n
  {
    if log != [] {
      OneMoreLine(log[..|log| - 1], says, id, n);
    }
  }

  lemma {:induction false} NobodySays(log: seq<Entry>)
    ensures Told(log, map[]) == 0
  {
    if log != [] {
      NobodySays(log[..|log| - 1]);
    }
  }

  predicate Truthful(b: Burst) {
    match b.answer
    case Answer(false, false) => b.landed == 1
    case Answer(false, true) => b.landed == 0
    case Answer(true, _) => b.landed <= 1
  }

  lemma OneMoreBurst(bursts: seq<Burst>, told: nat)
    requires bursts != [] && Truthful(bursts[|bursts| - 1])
    requires var before := bursts[..|bursts| - 1]; told + Pending(before) + Lost(before) == Seen(before)
    ensures var before, b := bursts[..|bursts| - 1], bursts[|bursts| - 1];
            told + b.landed * (Pending(before) + b.seen) + Pending(bursts) + Lost(bursts) == Seen(bursts)
  {
    var b := bursts[|bursts| - 1];
    assert b.landed == 0 || b.landed == 1;
  }

  lemma {:induction false} NothingInFlight(bursts: seq<Burst>)
    requires forall b | b in bursts :: !b.answer.inFlight
    ensures Lost(bursts) == 0
  {
    if bursts != [] {
      assert bursts[|bursts| - 1] in bursts;
      NothingInFlight(bursts[..|bursts| - 1]);
    }
  }

  lemma NoBurst()
    ensures Seen([]) == Pending([]) == Lost([]) == 0
  {
  }

  /** The accounts balance wherever each line landed as often as its verdict allows. */
  lemma {:induction false} AccountsBalance(log: seq<Entry>, ids: seq<Id>, bursts: seq<Burst>)
    requires |ids| == |bursts| && forall i, k | 0 <= i < k < |ids| :: ids[i] != ids[k]
    requires forall i | 0 <= i < |ids| :: Truthful(bursts[i]) && bursts[i].landed == Successes(log, Durable(ids[i]))
    ensures Told(log, Says(ids, bursts)) + Pending(bursts) + Lost(bursts) == Seen(bursts)
  {
    hide Successes, Told, Truthful, Seen, Pending, Lost;
    if ids == [] {
      NobodySays(log);
      NoBurst();
    } else {
      var n := |ids| - 1;
      AccountsBalance(log, ids[..n], bursts[..n]);
      OneMoreCall(log, ids, bursts);
    }
  }

  lemma OneMoreCall(log: seq<Entry>, ids: seq<Id>, bursts: seq<Burst>)
    requires |ids| == |bursts| > 0 && ids[|ids| - 1] !in ids[..|ids| - 1]
    requires var b := bursts[|bursts| - 1]; Truthful(b) && b.landed == Successes(log, Durable(ids[|ids| - 1]))
    requires var n := |ids| - 1;
             Told(log, Says(ids[..n], bursts[..n])) + Pending(bursts[..n]) + Lost(bursts[..n]) == Seen(bursts[..n])
    ensures Told(log, Says(ids, bursts)) + Pending(bursts) + Lost(bursts) == Seen(bursts)
  {
    hide Successes, Told, Truthful, Seen, Pending, Lost;
    var n := |ids| - 1;
    var says, owed := Says(ids[..n], bursts[..n]), Pending(bursts[..n]) + bursts[n].seen;
    OneMoreLine(log, says, ids[n], owed);
    OneMoreBurst(bursts, Told(log, says));
  }

  /** In every schedule of everybody's calls, whatever the file did to each append: of
      what a caller saw, all is told by its lines in the file, or still in its counters,
      or went with a line in flight that never landed, and nothing is two of these.  So
      nothing is told twice, and nothing is lost but in flight. */
  lemma NothingToldTwice(run: seq<Action>, s: State, later: seq<Action>, s': State, seen: seq<nat>, ids: seq<Id>)
    requires Reaches(INIT, run, s) && Reaches(s, later, s')
    requires |seen| == |ids| && forall id | id in ids :: id in s.d.answers
    requires forall i, k | 0 <= i < k < |ids| :: ids[i] != ids[k]
    ensures var b := BurstsOf(s, s', seen, ids);
            && Told(s'.log, Says(ids, b)) + Pending(b) + Lost(b) == Seen(b)
            && ((forall x | x in b :: !x.answer.inFlight) ==> Lost(b) == 0)
  {
    hide Reaches, Successes, Told, Tries, Says, Seen, Pending, Lost;
    var b := BurstsOf(s, s', seen, ids);
    forall i | 0 <= i < |b| ensures Truthful(b[i]) {
      Trichotomy(run, s, later, s', ids[i]);
    }
    AccountsBalance(s'.log, ids, b);
    if forall x | x in b :: !x.answer.inFlight {
      NothingInFlight(b);
    }
  }
}
