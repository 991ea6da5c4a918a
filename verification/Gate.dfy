/** The break-glass door's gate: a bounded table of sources, each with a token bucket and
    its own ladder of lockouts, and one verification at a time. */
module Gate {
  import opened Basics

  const MAX_SOURCES: nat := 256
  const BUCKET_CAPACITY: real := 10.0
  const BUCKET_WINDOW: real := 60.0
  const LOCKOUT_AFTER: nat := 5
  const SECOND: int := 1_000_000_000
  const LOCKOUT_BASE: int := 60 * SECOND
  const LOCKOUT_CAP: int := 1800 * SECOND
  const IN_FLIGHT: nat := 4

  // ----- the ladder -----

  function Pow2(n: nat): (p: int)
    ensures p >= 1
  {
    if n == 0 then 1 else 2 * Pow2(n - 1)
  }

  /** A 64-bit signed integer after wrap-around. */
  function Int64(x: int): int {
    var m := x % 0x1_0000_0000_0000_0000;
    if m >= 0x8000_0000_0000_0000 then m - 0x1_0000_0000_0000_0000 else m
  }

  /** LockoutBase << (failures - LockoutAfter), clamped on the cap and on a result that
      is not positive. */
  function Rung(failures: nat): int
    requires failures >= LOCKOUT_AFTER
  {
    var d := Int64(LOCKOUT_BASE * Pow2(failures - LOCKOUT_AFTER));
    if d > LOCKOUT_CAP || d <= 0 then LOCKOUT_CAP else d
  }

  function Min(a: int, b: int): int {
    if a < b then a else b
  }

  lemma {:induction false} Pow2Add(a: nat, b: nat)
    ensures Pow2(a + b) == Pow2(a) * Pow2(b)
  {
    if a > 0 {
      Pow2Add(a - 1, b);
    }
  }

  lemma {:induction false} Pow2Monotone(a: nat, b: nat)
    requires a <= b
    ensures Pow2(a) <= Pow2(b)
  {
    if a < b { Pow2Monotone(a, b - 1); }
  }

  /** A multiple of 2^41 is still one after wrap-around. */
  lemma WrappedMultiple(k: int)
    ensures Int64(k * 0x200_0000_0000) <= 0 || Int64(k * 0x200_0000_0000) >= 0x200_0000_0000
  {
    var x := k * 0x200_0000_0000;
    var q, m := x / 0x1_0000_0000_0000_0000, x % 0x1_0000_0000_0000_0000;
    assert m == (k - q * 0x80_0000) * 0x200_0000_0000;
  }

  lemma SmallPowers()
    ensures Pow2(5) == 32 && Pow2(27) == 0x800_0000 && Pow2(28) == 0x1000_0000 && Pow2(29) == 0x2000_0000 && Pow2(30) == 0x4000_0000
  {
    assert Pow2(5) == 32 by { assert Pow2(5) == 2 * Pow2(4) == 4 * Pow2(3) == 8 * Pow2(2); }
    assert Pow2(7) == 128;
    Pow2Add(5, 5);
    Pow2Add(10, 10);
    Pow2Add(20, 7);
  }

  lemma LowRung(s: nat)
    requires s <= 27
    ensures 0 < LOCKOUT_BASE * Pow2(s) < 0x8000_0000_0000_0000
    ensures s >= 5 ==> LOCKOUT_BASE * Pow2(s) > LOCKOUT_CAP
  {
    hide Pow2;
    SmallPowers();
    Pow2Monotone(s, 27);
    if s >= 5 { Pow2Monotone(5, s); }
  }

  /** 60 s in nanoseconds holds eleven factors of two, so shifted by thirty it is a
      multiple of 2^41, which is more than the cap. */
  lemma FarRung(rest: int)
    requires rest >= 1
    ensures LOCKOUT_BASE * (0x4000_0000 * rest) > LOCKOUT_CAP
    ensures Int64(LOCKOUT_BASE * (0x4000_0000 * rest)) > LOCKOUT_CAP || Int64(LOCKOUT_BASE * (0x4000_0000 * rest)) <= 0
  {
    hide Int64;
    assert LOCKOUT_BASE * (0x4000_0000 * rest) == (29_296_875 * rest) * 0x200_0000_0000;
    WrappedMultiple(29_296_875 * rest);
  }

  lemma HighRung(s: nat)
    requires s >= 28
    ensures LOCKOUT_BASE * Pow2(s) > LOCKOUT_CAP
    ensures Int64(LOCKOUT_BASE * Pow2(s)) > LOCKOUT_CAP || Int64(LOCKOUT_BASE * Pow2(s)) <= 0
  {
    hide Pow2;
    SmallPowers();
    if s >= 30 {
      hide Int64;
      Pow2Add(30, s - 30);
      FarRung(Pow2(s - 30));
    } else {
      assert s == 28 || s == 29;
    }
  }

  /** However many failures, the wrapping shift never gives a shorter lock than the
      ladder promises, nor a longer one. */
  lemma RungIsTheLadder(k: nat)
    requires k >= LOCKOUT_AFTER
    ensures Rung(k) == Min(LOCKOUT_BASE * Pow2(k - LOCKOUT_AFTER), LOCKOUT_CAP)
  {
    hide Pow2;
    var s := k - LOCKOUT_AFTER;
    if s <= 27 {
      LowRung(s);
    } else {
      HighRung(s);
    }
  }

  // ----- one source -----

  /** Times are in nanoseconds; None is the zero time. */
  datatype Source = Source(tokens: real, last: int, failures: nat, lockedUntil: Option<int>, announced: bool)

  datatype Outcome = Neutral | Failed | Succeeded

  function Fresh(now: int): Source {
    Source(BUCKET_CAPACITY, now, 0, None, false)
  }

  function Seconds(ns: int): real {
    ns as real / SECOND as real
  }

  /** AllowSource: refill for the time passed, then take one token if there is one. */
  function Taken(s: Source, now: int): (r: (Source, bool)) {
    var refilled :=
      if now - s.last > 0 then
        var t := s.tokens + Seconds(now - s.last) * (BUCKET_CAPACITY / BUCKET_WINDOW);
        if t > BUCKET_CAPACITY then BUCKET_CAPACITY else t
      else s.tokens;
    if refilled < 1.0 then (s.(tokens := refilled, last := now), false)
    else (s.(tokens := refilled - 1.0, last := now), true)
  }

  datatype Look = Look(locked: bool, retryAfter: int, left: bool)

  /** lockedAt: whether the source is locked, clearing a lock that has run out. */
  function Looked(s: Source, now: int): (Source, Look) {
    if s.lockedUntil.None? then (s, Look(false, 0, false))
    else if now < s.lockedUntil.value then (s, Look(true, s.lockedUntil.value - now, false))
    else (s.(lockedUntil := None, announced := false), Look(false, 0, s.announced))
  }

  /** One failed verification. */
  function Stepped(s: Source, now: int): (Source, Option<int>) {
    var s := s.(failures := s.failures + 1);
    if s.failures < LOCKOUT_AFTER then (s, None)
    else (s.(lockedUntil := Some(now + Rung(s.failures)), announced := true), Some(Rung(s.failures)))
  }

  function Cleared(s: Source): Source {
    s.(failures := 0, lockedUntil := None, announced := false)
  }

  // ----- what may happen to one source while it is tracked -----

  /** Allow and Query may come at any time; Begin and Commit are the two locked halves of
      a turn, and a turn begins only when none is running. */
  datatype Act = Allow(now: int) | Query(now: int) | Begin(now: int) | Commit(now: int, outcome: Outcome)

  datatype Event = EnteredLockout(from: int, until: int) | LeftLockout(at: int)

  datatype Track = Track(s: Source, running: bool, admitted: nat, events: seq<Event>, commits: seq<Outcome>)

  predicate Possible(t: Track, a: Act) {
    match a
    case Begin(_) => !t.running
    case Commit(_, _) => t.running
    case _ => true
  }

  function After(t: Track, a: Act): Track {
    match a
    case Allow(now) =>
      var (s, ok) := Taken(t.s, now);
      t.(s := s, admitted := if ok then t.admitted + 1 else t.admitted)
    case Query(now) =>
      var (s, look) := Looked(t.s, now);
      t.(s := s, events := if look.left then t.events + [LeftLockout(now)] else t.events)
    case Begin(now) =>
      var (s, look) := Looked(t.s, now);
      t.(s := s, running := !look.locked, events := if look.left then t.events + [LeftLockout(now)] else t.events)
    case Commit(now, outcome) =>
      var t := t.(running := false, commits := t.commits + [outcome]);
      match outcome
      case Neutral => t
      case Succeeded => t.(s := Cleared(t.s))
      case Failed =>
        var (s, rung) := Stepped(t.s, now);
        t.(s := s, events := if rung.Some? then t.events + [EnteredLockout(now, now + rung.value)] else t.events)
  }

  /** A run in which no clock reading goes back. */
  ghost predicate Runs(t: Track, acts: seq<Act>, from: int, t': Track)
    decreases |acts|
  {
    if acts == [] then t == t'
    else from <= acts[0].now && Possible(t, acts[0]) && Runs(After(t, acts[0]), acts[1..], acts[0].now, t')
  }

  function Consecutive(commits: seq<Outcome>): nat {
    if commits == [] then 0
    else match commits[|commits| - 1]
      case Neutral => Consecutive(commits[..|commits| - 1])
      case Succeeded => 0
      case Failed => Consecutive(commits[..|commits| - 1]) + 1
  }

  ghost predicate Alternating(events: seq<Event>) {
    forall i :: 0 <= i < |events| ==> (events[i].EnteredLockout? <==> i % 2 == 0)
  }

  ghost predicate TrackInv(t: Track) {
    && 0.0 <= t.s.tokens <= BUCKET_CAPACITY
    && (t.s.announced <==> t.s.lockedUntil.Some?)
    && (t.running ==> t.s.lockedUntil.None?)
    && t.s.failures == Consecutive(t.commits)
    && Alternating(t.events)
    && (t.s.announced <==> |t.events| % 2 == 1)
    && (t.s.lockedUntil.Some? ==> t.s.failures >= LOCKOUT_AFTER)
  }

  lemma CommitCounts(commits: seq<Outcome>, outcome: Outcome)
    ensures Consecutive(commits + [outcome]) ==
            match outcome
            case Neutral => Consecutive(commits)
            case Succeeded => 0
            case Failed => Consecutive(commits) + 1
  {
    assert (commits + [outcome])[..|commits|] == commits;
  }

  lemma TrackInvKept(t: Track, a: Act)
    requires TrackInv(t) && Possible(t, a)
    ensures TrackInv(After(t, a))
  {
    hide Consecutive, Rung;
    match a
    case Allow(now) => assert now - t.s.last > 0 ==> Seconds(now - t.s.last) >= 0.0;
    case Commit(now, outcome) => CommitCounts(t.commits, outcome);
    case _ =>
  }

  lemma {:induction false} RunKeeps(t: Track, acts: seq<Act>, from: int, t': Track)
    requires TrackInv(t) && Runs(t, acts, from, t')
    ensures TrackInv(t') && t.events <= t'.events && t.admitted <= t'.admitted
    decreases |acts|
  {
    hide TrackInv;
    if acts != [] {
      TrackInvKept(t, acts[0]);
      RunKeeps(After(t, acts[0]), acts[1..], acts[0].now, t');
    }
  }

  /** From its first request on, a source's lockouts are entered and left strictly in
      turn, and its count is exactly the failures committed since the last success. */
  lemma Lockouts(now: int, acts: seq<Act>, t: Track)
    requires Runs(Born(now, false), acts, now, t)
    ensures Alternating(t.events)
    ensures t.s.failures == Consecutive(t.commits)
    ensures t.running ==> t.s.lockedUntil.None?
  {
    RunKeeps(Born(now, false), acts, now, t);
  }

  /** The k-th consecutive failure locks for the k-th rung, from the commit on. */
  lemma FailureLocks(t: Track, now: int)
    requires TrackInv(t) && t.running && t.s.failures + 1 >= LOCKOUT_AFTER
    ensures var t' := After(t, Commit(now, Failed));
            && t'.s.failures == t.s.failures + 1
            && t'.s.lockedUntil == Some(now + Min(LOCKOUT_BASE * Pow2(t.s.failures + 1 - LOCKOUT_AFTER), LOCKOUT_CAP))
            && !t'.running
  {
    RungIsTheLadder(t.s.failures + 1);
  }

  /** Until a lock runs out, nothing that can happen to the source starts a verification,
      moves its ladder or shortens the lock. */
  lemma {:induction false} LockHolds(t: Track, acts: seq<Act>, from: int, t': Track, until: int)
    requires !t.running && t.s.lockedUntil == Some(until) && Runs(t, acts, from, t')
    requires forall a | a in acts :: a.now < until
    ensures !t'.running && t'.s.lockedUntil == Some(until)
    ensures t'.s.failures == t.s.failures && t'.events == t.events && t'.commits == t.commits
    decreases |acts|
  {
    if acts != [] {
      assert acts[0] in acts && forall a | a in acts[1..] :: a in acts;
      LockHolds(After(t, acts[0]), acts[1..], acts[0].now, t', until);
    }
  }

  // ----- the token bucket over a window -----

  /** What the bucket gains over a time. */
  function Refilled(ns: int): real {
    Seconds(ns) * (BUCKET_CAPACITY / BUCKET_WINDOW)
  }

  /** An act's effect on the bucket: only an admission takes anything out. */
  lemma BucketStep(t: Track, a: Act)
    requires t.s.last <= a.now && 0.0 <= t.s.tokens <= BUCKET_CAPACITY
    ensures var u := After(t, a);
            && 0.0 <= u.s.tokens <= BUCKET_CAPACITY
            && t.admitted <= u.admitted <= t.admitted + 1
            && (if a.Allow? then u.s.last == a.now
                else u.s.last == t.s.last && u.admitted == t.admitted && u.s.tokens == t.s.tokens)
            && u.s.tokens + (u.admitted - t.admitted) as real <= t.s.tokens + Refilled(u.s.last - t.s.last)
            && (a.Allow? ==> u.s.tokens + (u.admitted - t.admitted) as real <= BUCKET_CAPACITY)
  {
  }

  lemma RefilledAdds(a: int, b: int)
    ensures Refilled(a + b) == Refilled(a) + Refilled(b)
    ensures a >= 0 ==> Refilled(a) >= 0.0
    ensures Refilled(a) == Seconds(a) / 6.0
  {
  }

  /** What is admitted from now on is paid for by the tokens in hand and the time. */
  lemma {:induction false} Paid(t: Track, acts: seq<Act>, from: int, t': Track, until: int)
    requires Runs(t, acts, from, t') && t.s.last <= from <= until && 0.0 <= t.s.tokens <= BUCKET_CAPACITY
    requires forall a | a in acts :: a.now <= until
    ensures t'.admitted >= t.admitted
    ensures (t'.admitted - t.admitted) as real <= t.s.tokens + Refilled(until - t.s.last)
    decreases |acts|
  {
    hide After, Refilled, Possible;
    if acts == [] {
      RefilledAdds(until - t.s.last, 0);
    } else {
      var u, now := After(t, acts[0]), acts[0].now;
      assert acts[0] in acts && forall a | a in acts[1..] :: a in acts;
      BucketStep(t, acts[0]);
      RefilledAdds(u.s.last - t.s.last, until - u.s.last);
      Paid(u, acts[1..], now, t', until);
    }
  }

  lemma {:induction false} BoundFrom(t: Track, acts: seq<Act>, from: int, t': Track, until: int)
    requires Runs(t, acts, from, t') && t.s.last <= from <= until && 0.0 <= t.s.tokens <= BUCKET_CAPACITY
    requires forall a | a in acts :: a.now <= until
    ensures t'.admitted >= t.admitted
    ensures (t'.admitted - t.admitted) as real <= 10.0 + Seconds(until - from) / 6.0
    decreases |acts|
  {
    hide After, Refilled, Possible, Seconds;
    RefilledAdds(until - from, 0);
    if acts != [] {
      var u, now := After(t, acts[0]), acts[0].now;
      assert acts[0] in acts && forall a | a in acts[1..] :: a in acts;
      BucketStep(t, acts[0]);
      RefilledAdds(now - from, until - now);
      RefilledAdds(until - now, 0);
      if acts[0].Allow? {
        Paid(u, acts[1..], now, t', until);
      } else {
        BoundFrom(u, acts[1..], now, t', until);
      }
    }
  }

  /** A source's first entry, and the last reading of a run. */
  function Born(now: int, running: bool): Track {
    Track(Fresh(now), running, 0, [], [])
  }

  function EndOf(acts: seq<Act>, from: int): int {
    if acts == [] then from else acts[|acts| - 1].now
  }

  lemma BornIsSound(now: int, running: bool)
    ensures TrackInv(Born(now, running))
  {
  }

  lemma {:induction false} RefillIsPast(t: Track, acts: seq<Act>, from: int, t': Track)
    requires Runs(t, acts, from, t') && t.s.last <= from
    ensures t'.s.last <= EndOf(acts, from) && from <= EndOf(acts, from)
    decreases |acts|
  {
    if acts != [] {
      RefillIsPast(After(t, acts[0]), acts[1..], acts[0].now, t');
    }
  }

  /** In any window of a tracked source's life, however it is chosen, it is admitted at
      most ten times and once more for every six seconds of it. */
  lemma WindowBound(born: int, running: bool, before: seq<Act>, t: Track, acts: seq<Act>, from: int, t': Track, until: int)
    requires Runs(Born(born, running), before, born, t) && Runs(t, acts, from, t')
    requires EndOf(before, born) <= from <= until && forall a | a in acts :: a.now <= until
    ensures t'.admitted >= t.admitted
    ensures (t'.admitted - t.admitted) as real <= 10.0 + Seconds(until - from) / 6.0
  {
    hide Runs, Seconds;
    BornIsSound(born, running);
    RunKeeps(Born(born, running), before, born, t);
    RefillIsPast(Born(born, running), before, born, t);
    BoundFrom(t, acts, from, t', until);
  }

  function AfterAll(t: Track, acts: seq<Act>): Track
    decreases |acts|
  {
    if acts == [] then t else AfterAll(After(t, acts[0]), acts[1..])
  }

  /** The clock is read before the lock is taken, so a reading can come after a later one.
      It takes nothing from the bucket but turns its last refill back, and the time since
      is paid out again: an empty bucket admits twice in the six seconds that pay for
      one. */
  lemma StaleReadingPaysTwice(t: Track)
    requires t.s.tokens == 0.0 && t.s.last == 0
    ensures AfterAll(t, [Allow(6 * SECOND), Allow(6 * SECOND)]).admitted == t.admitted + 1
    ensures AfterAll(t, [Allow(6 * SECOND), Allow(0), Allow(6 * SECOND)]).admitted == t.admitted + 2
  {
    var a := After(t, Allow(6 * SECOND));
    assert Seconds(6 * SECOND) == 6.0;
    assert a.s.tokens == 0.0 && a.admitted == t.admitted + 1;
    var b := After(a, Allow(0));
    assert b.s.tokens == 0.0 && b.s.last == 0 && b.admitted == a.admitted;
    var one, two := [Allow(6 * SECOND), Allow(6 * SECOND)], [Allow(6 * SECOND), Allow(0), Allow(6 * SECOND)];
    assert one[1..] == [Allow(6 * SECOND)] && two[1..] == [Allow(0), Allow(6 * SECOND)] && two[1..][1..] == [Allow(6 * SECOND)];
    assert After(a, Allow(6 * SECOND)).admitted == a.admitted;
    assert After(b, Allow(6 * SECOND)).admitted == b.admitted + 1;
    assert AfterAll(a, [Allow(6 * SECOND)]) == After(a, Allow(6 * SECOND));
    assert AfterAll(b, [Allow(6 * SECOND)]) == After(b, Allow(6 * SECOND));
  }

  /** What a source has been through since its entry was made: the reading it was made
      at, whether a turn of its own was running then, and every act since. */
  datatype Life = Life(born: int, running: bool, acts: seq<Act>)

  function Start(l: Life): Track {
    Born(l.born, l.running)
  }

  function TrackOf(l: Life): Track {
    AfterAll(Start(l), l.acts)
  }

  function Longer(l: Life, a: Act): Life {
    l.(acts := l.acts + [a])
  }

  /** The life is a run of the gate, up to this reading. */
  ghost predicate Lived(l: Life, clock: int) {
    Runs(Start(l), l.acts, l.born, TrackOf(l)) && EndOf(l.acts, l.born) <= clock
  }

  lemma {:induction false} AfterOneMore(t: Track, acts: seq<Act>, a: Act)
    ensures AfterAll(t, acts + [a]) == After(AfterAll(t, acts), a)
    decreases |acts|
  {
    hide After;
    if acts == [] {
      assert acts + [a] == [a] && [a][1..] == [];
      assert AfterAll(t, [a]) == AfterAll(After(t, a), []);
    } else {
      assert (acts + [a])[1..] == acts[1..] + [a];
      AfterOneMore(After(t, acts[0]), acts[1..], a);
    }
  }

  lemma {:induction false} RunsOn(t: Track, acts: seq<Act>, from: int, t': Track, a: Act)
    requires Runs(t, acts, from, t') && Possible(t', a) && EndOf(acts, from) <= a.now
    ensures Runs(t, acts + [a], from, After(t', a))
    decreases |acts|
  {
    hide After, Possible;
    if acts == [] {
      assert [a][1..] == [];
      assert acts + [a] == [a];
    } else {
      RunsOn(After(t, acts[0]), acts[1..], acts[0].now, t', a);
      assert (acts + [a])[1..] == acts[1..] + [a];
    }
  }

  lemma LivesOn(l: Life, clock: int, a: Act)
    requires Lived(l, clock) && clock <= a.now && Possible(TrackOf(l), a)
    ensures Lived(Longer(l, a), a.now)
  {
    hide After, Possible, AfterAll;
    RunsOn(Start(l), l.acts, l.born, TrackOf(l), a);
    AfterOneMore(Start(l), l.acts, a);
  }

  lemma OneStep(t: Track, acts: seq<Act>, from: int, t': Track)
    requires acts != []
    ensures AfterAll(t, acts) == AfterAll(After(t, acts[0]), acts[1..])
    ensures EndOf(acts, from) == EndOf(acts[1..], acts[0].now)
    ensures Runs(t, acts, from, t') <==>
            from <= acts[0].now && Possible(t, acts[0]) && Runs(After(t, acts[0]), acts[1..], acts[0].now, t')
  {
  }

  /** A run can be cut anywhere. */
  lemma {:induction false} RunsSplit(t: Track, acts: seq<Act>, i: nat, from: int, t': Track)
    requires i <= |acts| && Runs(t, acts, from, t')
    ensures Runs(t, acts[..i], from, AfterAll(t, acts[..i]))
    ensures Runs(AfterAll(t, acts[..i]), acts[i..], EndOf(acts[..i], from), t')
    decreases |acts|
  {
    hide After, Possible, AfterAll, Runs, EndOf;
    if i > 0 {
      var front, u := acts[..i], After(t, acts[0]);
      OneStep(t, acts, from, t');
      RunsSplit(u, acts[1..], i - 1, acts[0].now, t');
      assert acts[1..][..i - 1] == front[1..] && acts[1..][i - 1..] == acts[i..] && front[0] == acts[0];
      OneStep(t, front, from, AfterAll(t, front));
    } else {
      assert acts[..i] == [] && acts[i..] == acts;
      NoStep(t, from);
    }
  }

  lemma NoStep(t: Track, from: int)
    ensures AfterAll(t, []) == t && EndOf([], from) == from && Runs(t, [], from, t)
  {
  }

  /** Any stretch of a source's life, from its i-th act on and before its n-th. */
  lemma LifeWindow(l: Life, clock: int, i: nat, n: nat, from: int, until: int)
    requires Lived(l, clock) && i <= n <= |l.acts|
    requires EndOf(l.acts[..i], l.born) <= from <= until && forall a | a in l.acts[i..n] :: from <= a.now <= until
    ensures var t, t' := AfterAll(Start(l), l.acts[..i]), AfterAll(Start(l), l.acts[..n]);
            t.admitted <= t'.admitted && (t'.admitted - t.admitted) as real <= 10.0 + Seconds(until - from) / 6.0
  {
    hide Seconds, AfterAll;
    var t' := AfterAll(Start(l), l.acts[..n]);
    RunsSplit(Start(l), l.acts, n, l.born, TrackOf(l));
    RunsSplit(Start(l), l.acts[..n], i, l.born, t');
    assert l.acts[..n][..i] == l.acts[..i] && l.acts[..n][i..] == l.acts[i..n];
    var t := AfterAll(Start(l), l.acts[..i]);
    StartLater(t, l.acts[i..n], EndOf(l.acts[..i], l.born), from, t');
    WindowBound(l.born, l.running, l.acts[..i], t, l.acts[i..n], from, t', until);
  }

  lemma StartLater(t: Track, acts: seq<Act>, from: int, from': int, t': Track)
    requires Runs(t, acts, from, t') && forall a | a in acts :: from' <= a.now
    ensures Runs(t, acts, from', t')
  {
  }

  // ----- and no fewer -----

  /** Six seconds' wait always buys an attempt, and a minute's wait the whole bucket. */
  lemma WaitingAdmits(s: Source, now: int)
    requires 0.0 <= s.tokens <= BUCKET_CAPACITY && now - s.last >= 6 * SECOND
    ensures Taken(s, now).1
    ensures now - s.last >= 60 * SECOND ==> Taken(s, now).0.tokens == BUCKET_CAPACITY - 1.0
  {
    assert Seconds(now - s.last) >= 6.0;
    assert now - s.last >= 60 * SECOND ==> Seconds(now - s.last) >= 60.0;
  }

  /** An attempt is refused exactly where the bucket does not hold a whole token, counting
      what the time since the last attempt has put in. */
  lemma RefusedIff(s: Source, now: int)
    requires 0.0 <= s.tokens <= BUCKET_CAPACITY
    ensures !Taken(s, now).1 <==> s.tokens + (if now > s.last then Refilled(now - s.last) else 0.0) < 1.0
  {
    RefilledAdds(now - s.last, 0);
  }

  function Attempts(acts: seq<Act>): nat {
    if acts == [] then 0 else (if acts[0].Allow? then 1 else 0) + Attempts(acts[1..])
  }

  /** Every whole token in hand is given: a run either has all its attempts admitted, or
      as many as there were tokens. */
  lemma {:induction false} EveryTokenIsGiven(t: Track, acts: seq<Act>, from: int, t': Track)
    requires Runs(t, acts, from, t') && t.s.last <= from && 0.0 <= t.s.tokens <= BUCKET_CAPACITY
    ensures t'.admitted - t.admitted == Attempts(acts) || (t'.admitted - t.admitted) as real > t.s.tokens - 1.0
    ensures t'.admitted >= t.admitted
    decreases |acts|
  {
    hide After, Possible, Refilled;
    if acts != [] {
      BucketStep(t, acts[0]);
      NothingWasted(t, acts[0]);
      EveryTokenIsGiven(After(t, acts[0]), acts[1..], acts[0].now, t');
    }
  }

  lemma NothingWasted(t: Track, a: Act)
    requires t.s.last <= a.now && 0.0 <= t.s.tokens <= BUCKET_CAPACITY
    ensures var u := After(t, a);
            && u.s.tokens + (u.admitted - t.admitted) as real >= t.s.tokens
            && (a.Allow? && u.admitted == t.admitted ==> u.s.tokens < 1.0)
  {
    RefilledAdds(a.now - t.s.last, 0);
  }

  /** So a source's first ten attempts are all admitted. */
  lemma FirstTenAreAdmitted(now: int, acts: seq<Act>, t: Track)
    requires Runs(Born(now, false), acts, now, t)
    ensures t.admitted >= if Attempts(acts) <= 10 then Attempts(acts) else 10
  {
    EveryTokenIsGiven(Born(now, false), acts, now, t);
  }

  /** A source is locked out exactly until its lock's end, and told how long that is; a
      turn runs exactly when it is not. */
  lemma TurnRunsIff(t: Track, now: int)
    requires TrackInv(t) && !t.running
    ensures var look, held := Looked(t.s, now).1, t.s.lockedUntil.Some? && now < t.s.lockedUntil.value;
            && look.locked == held && look.retryAfter == (if held then t.s.lockedUntil.value - now else 0)
            && After(t, Begin(now)).running == !held
  {
  }

  /** The first turn at or after its end finds a lock gone, says so once, and runs. */
  lemma LockEnds(t: Track, now: int)
    requires TrackInv(t) && !t.running && t.s.lockedUntil.Some? && now >= t.s.lockedUntil.value
    ensures var t' := After(t, Begin(now));
            && t'.running && t'.s.lockedUntil.None? && t'.events == t.events + [LeftLockout(now)]
            && t'.s.failures == t.s.failures
            && After(t', Query(now)).events == t'.events
  {
  }
}
