/** The gate's table: at most 256 sources, the least recently seen making room for the
    next, and the critical sections that read and write it. */
module SourceTable {
  import opened Basics
  import opened Gate

  function Remove(s: seq<string>, x: string): seq<string>
  {
    if s == [] then []
    else if s[0] == x then Remove(s[1..], x)
    else [s[0]] + Remove(s[1..], x)
  }

  lemma {:induction false} RemovedNames(s: seq<string>, x: string, y: string)
    ensures y in Remove(s, x) <==> y in s && y != x
  {
    if s != [] {
      RemovedNames(s[1..], x, y);
      assert y in s <==> y == s[0] || y in s[1..];
    }
  }

  ghost predicate Distinct(s: seq<string>) {
    forall i, j :: 0 <= i < j < |s| ==> s[i] != s[j]
  }

  /** Every source ever touched, in the order of their last touches. */
  function Recency(touches: seq<string>): seq<string> {
    if touches == [] then []
    else
      var x := touches[|touches| - 1];
      Remove(Recency(touches[..|touches| - 1]), x) + [x]
  }

  /** The ones the table has room for. */
  function Latest(s: seq<string>): seq<string> {
    if |s| <= MAX_SOURCES then s else s[|s| - MAX_SOURCES..]
  }

  /** One touch of a bounded list: moved to the back if there, put at the back after the
      front made room if not. */
  function Touched(lru: seq<string>, x: string): seq<string> {
    if x in lru then Remove(lru, x) + [x]
    else (if |lru| >= MAX_SOURCES then lru[1..] else lru) + [x]
  }

  lemma {:induction false} RemoveAppend(a: seq<string>, b: seq<string>, x: string)
    ensures Remove(a + b, x) == Remove(a, x) + Remove(b, x)
  {
    if a == [] {
      assert a + b == b;
    } else {
      assert (a + b)[1..] == a[1..] + b;
      RemoveAppend(a[1..], b, x);
    }
  }

  lemma {:induction false} RemoveAbsent(s: seq<string>, x: string)
    requires x !in s
    ensures Remove(s, x) == s
  {
    if s != [] {
      assert s[0] != x && x !in s[1..];
      RemoveAbsent(s[1..], x);
    }
  }

  lemma PrependDistinct(a: string, s: seq<string>)
    ensures Distinct([a] + s) <==> a !in s && Distinct(s)
  {
    if Distinct([a] + s) {
      forall i, j | 0 <= i < j < |s| ensures s[i] != s[j] {
        assert ([a] + s)[i + 1] == s[i] && ([a] + s)[j + 1] == s[j];
      }
      forall i | 0 <= i < |s| ensures s[i] != a {
        assert ([a] + s)[0] != ([a] + s)[i + 1];
      }
    }
  }

  lemma {:induction false} RemoveOne(s: seq<string>, x: string)
    requires Distinct(s) && x in s
    ensures |Remove(s, x)| == |s| - 1 && Distinct(Remove(s, x))
  {
    hide Distinct;
    assert s == [s[0]] + s[1..];
    PrependDistinct(s[0], s[1..]);
    if s[0] == x {
      RemoveAbsent(s[1..], x);
    } else {
      RemoveOne(s[1..], x);
      RemovedNames(s[1..], x, s[0]);
      PrependDistinct(s[0], Remove(s[1..], x));
    }
  }

  lemma {:induction false} RecencyIsDistinct(touches: seq<string>)
    ensures Distinct(Recency(touches))
  {
    if touches != [] {
      var before, x := Recency(touches[..|touches| - 1]), touches[|touches| - 1];
      RecencyIsDistinct(touches[..|touches| - 1]);
      RemovedNames(before, x, x);
      if x in before { RemoveOne(before, x); } else { RemoveAbsent(before, x); }
    }
  }

  /** The bounded list is always the latest part of the unbounded history: only the least
      recently touched source is ever forgotten. */
  lemma TouchKeepsTheLatest(touches: seq<string>, x: string)
    ensures Latest(Recency(touches + [x])) == Touched(Latest(Recency(touches)), x)
  {
    var all := Recency(touches);
    assert (touches + [x])[..|touches|] == touches;
    RecencyIsDistinct(touches);
    TouchOnDistinct(all, x);
  }

  lemma TouchOnDistinct(all: seq<string>, x: string)
    requires Distinct(all)
    ensures Latest(Remove(all, x) + [x]) == Touched(Latest(all), x)
  {
    hide Remove, Touched;
    var kept := Latest(all);
    var gone := all[..|all| - |kept|];
    assert all == gone + kept;
    RemoveAppend(gone, kept, x);
    if x in kept {
      assert x !in gone;
      RemoveAbsent(gone, x);
      RemoveOne(kept, x);
      TouchTracked(gone, kept, x);
    } else {
      RemoveAbsent(kept, x);
      if |kept| >= MAX_SOURCES {
        TouchNew(Remove(gone, x), kept, x);
      } else {
        RemoveAbsent(gone, x);
        TouchRoom(kept, x);
        assert Remove(gone, x) + kept == kept;
      }
    }
  }

  lemma TouchTracked(gone: seq<string>, kept: seq<string>, x: string)
    requires x in kept && |Remove(kept, x)| == |kept| - 1
    requires |kept| == MAX_SOURCES || (gone == [] && |kept| <= MAX_SOURCES)
    ensures Latest((gone + Remove(kept, x)) + [x]) == Touched(kept, x)
  {
    hide Remove, Latest;
    assert (gone + Remove(kept, x)) + [x] == gone + (Remove(kept, x) + [x]);
    LatestOf(gone, Remove(kept, x) + [x]);
  }

  lemma TouchNew(gone: seq<string>, kept: seq<string>, x: string)
    requires x !in kept && |kept| == MAX_SOURCES
    ensures Latest((gone + kept) + [x]) == Touched(kept, x)
  {
    hide Remove, Latest;
    assert (gone + kept) + [x] == (gone + [kept[0]]) + (kept[1..] + [x]);
    LatestOf(gone + [kept[0]], kept[1..] + [x]);
  }

  lemma TouchRoom(kept: seq<string>, x: string)
    requires x !in kept && |kept| < MAX_SOURCES
    ensures Latest(kept + [x]) == Touched(kept, x)
  {
  }

  lemma LatestOf(gone: seq<string>, kept: seq<string>)
    requires |kept| == MAX_SOURCES || (gone == [] && |kept| <= MAX_SOURCES)
    ensures Latest(gone + kept) == kept
  {
  }

  lemma {:induction false} DistinctCount(s: seq<string>)
    requires Distinct(s)
    ensures |set x | x in s| == |s|
  {
    if s != [] {
      DistinctCount(s[1..]);
      assert (set x | x in s) == (set x | x in s[1..]) + {s[0]};
    }
  }

  lemma LatestIsDistinct(touches: seq<string>)
    ensures Distinct(Latest(Recency(touches))) && |Latest(Recency(touches))| <= MAX_SOURCES
  {
    RecencyIsDistinct(touches);
  }

  /** Each tracked source's entry is what its life has come to. */
  ghost predicate Follows(lives: map<string, Life>, sources: map<string, Source>, verifying: Option<string>) {
    lives.Keys == sources.Keys && forall ip | ip in lives :: Fits(lives[ip], sources[ip], verifying == Some(ip))
  }

  ghost predicate Fits(l: Life, s: Source, running: bool) {
    TrackOf(l).s == s && TrackOf(l).running == running && TrackInv(TrackOf(l))
  }

  /** The same but for one entry, which is being changed. */
  ghost predicate OthersFollow(lives: map<string, Life>, sources: map<string, Source>, verifying: Option<string>, ip: string) {
    && lives.Keys == sources.Keys && ip in lives && TrackInv(TrackOf(lives[ip]))
    && forall k | k in lives && k != ip :: Fits(lives[k], sources[k], verifying == Some(k))
  }

  lemma ChangeOne(lives: map<string, Life>, sources: map<string, Source>, verifying: Option<string>, ip: string, s: Source, v: Option<string>)
    requires Follows(lives, sources, verifying) && ip in sources
    requires verifying == v || (verifying in {None, Some(ip)} && v in {None, Some(ip)})
    ensures OthersFollow(lives, sources[ip := s], v, ip) && sources[ip := s].Keys == sources.Keys
  {
    hide TrackInv, TrackOf;
  }

  lemma Newborn(now: int, running: bool)
    ensures Fits(Life(now, running, []), Fresh(now), running) && Lived(Life(now, running, []), now)
  {
    BornIsSound(now, running);
  }

  lemma AddOne(lives: map<string, Life>, sources: map<string, Source>, left: map<string, Source>, verifying: Option<string>,
               ip: string, now: int)
    requires Follows(lives, sources, verifying) && ip !in sources
    requires forall k | k in left :: k in sources && left[k] == sources[k]
    ensures var t := WithNew(lives, left, ip, Life(now, verifying == Some(ip), []));
            && Follows(t, left[ip := Fresh(now)], verifying)
            && (AllLived(lives, now) ==> AllLived(t, now))
  {
    hide Fits, Lived, Fresh;
    Newborn(now, verifying == Some(ip));
    var t := WithNew(lives, left, ip, Life(now, verifying == Some(ip), []));
    assert forall k :: k in t <==> k == ip || k in left;
    assert t.Keys == left[ip := Fresh(now)].Keys;
  }

  /** The lives of what is left in the table, and a new one. */
  ghost function WithNew(lives: map<string, Life>, left: map<string, Source>, ip: string, l: Life): (r: map<string, Life>)
    ensures ip in r && r[ip] == l && forall k | k in r && k in lives && k != ip :: r[k] == lives[k]
  {
    (map k | k in lives && k in left :: lives[k])[ip := l]
  }

  lemma KeysGrow(sources: map<string, Source>, lru: seq<string>, ip: string, s: Source)
    requires sources.Keys == (set x | x in lru)
    ensures sources[ip := s].Keys == (set x | x in lru + [ip])
  {
  }

  /** Where the readings came in order, each entry's life is a run of the gate. */
  ghost predicate AllLived(lives: map<string, Life>, clock: int) {
    forall ip | ip in lives :: Lived(lives[ip], clock)
  }

  lemma LivedLater(lives: map<string, Life>, clock: int, now: int)
    requires AllLived(lives, clock) && clock <= now
    ensures AllLived(lives, now)
  {
    forall ip | ip in lives ensures Lived(lives[ip], now) {
      assert Lived(lives[ip], clock);
    }
  }

  class Table {
    var sources: map<string, Source>
    /** the keys of sources, least recently seen first */
    var lru: seq<string>
    /** attempts admitted and not yet released */
    var inFlight: nat
    /** whose verification is running */
    var verifying: Option<string>
    ghost var touches: seq<string>
    /** what each tracked source has been through since its entry was made */
    ghost var lives: map<string, Life>
    /** the latest reading of the clock, and whether no reading came after a later one */
    ghost var clock: int
    ghost var ordered: bool

    ghost predicate Valid()
      reads this
    {
      && lru == Latest(Recency(touches))
      && sources.Keys == (set x | x in lru)
      && inFlight <= IN_FLIGHT
      && Follows(lives, sources, verifying)
      && (ordered ==> AllLived(lives, clock))
    }

    constructor (start: int)
      ensures Valid() && sources == map[] && touches == [] && inFlight == 0 && verifying == None && ordered && clock == start
    {
      sources, lru, inFlight, verifying, touches := map[], [], 0, None, [];
      lives, clock, ordered := map[], start, true;
    }

    /** What every entry but ip's is after ip was touched: as it was, unless it was the
        oldest of a full table. */
    twostate predicate OthersKept(ip: string)
      reads this
    {
      forall k | k != ip ::
        && (k in sources ==> k in old(sources) && sources[k] == old(sources)[k])
        && (k in sources && k in lives && k in old(lives) ==> lives[k] == old(lives)[k])
        && (k in old(sources) && k !in sources ==>
              ip !in old(sources) && |old(lru)| == MAX_SOURCES && k == old(lru)[0])
    }

    /** ip's history so far, or the beginning of one. */
    ghost function Before(ip: string, now: int): Life
      reads this
    {
      if ip in lives then lives[ip] else Life(now, verifying == Some(ip), [])
    }

    /** Reading the clock, for the critical section that follows. */
    twostate predicate Read(now: int)
      reads this
    {
      ordered == (old(ordered) && old(clock) <= now) && clock == if now < old(clock) then old(clock) else now
    }

    /** Find or create ip's entry. */
    method SourceLocked(ip: string, now: int) returns (s: Source)
      requires Valid()
      modifies this`sources, this`lru, this`touches, this`lives, this`clock, this`ordered
      ensures Valid() && touches == old(touches) + [ip] && OthersKept(ip) && Read(now)
      ensures ip in sources && sources[ip] == s
      ensures s == if ip in old(sources) then old(sources)[ip] else Fresh(now)
      ensures ip in lives && lives[ip] == old(Before(ip, now))
    {
      hide Recency, Latest, Remove, Distinct, AllLived, Follows, TrackOf, Fresh;
      if ip in sources { EntryFollows(ip); } else { NoEntry(ip); }
      if ordered && clock <= now { LivedLater(lives, clock, now); }
      ordered, clock := ordered && clock <= now, if now < clock then clock else now;
      if ip in sources {
        TouchKeepsTheLatest(touches, ip);
        touches := touches + [ip];
        MoveToBack(ip);
        s := sources[ip];
      } else {
        s := AddSource(ip, now);
      }
    }

    /** A new entry, and room for it. */
    method AddSource(ip: string, now: int) returns (s: Source)
      requires Valid() && ip !in sources && (ordered ==> clock == now)
      modifies this`sources, this`lru, this`touches, this`lives
      ensures Valid() && touches == old(touches) + [ip] && OthersKept(ip)
      ensures ip in sources && sources[ip] == s == Fresh(now)
      ensures ip in lives && lives[ip] == Life(now, verifying == Some(ip), [])
    {
      hide Recency, Latest, Remove, Distinct, Follows, AllLived, Fresh, WithNew;
      TouchKeepsTheLatest(touches, ip);
      LatestIsDistinct(touches);
      touches := touches + [ip];
      ghost var before := sources;
      MakeRoom();
      AddOne(lives, before, sources, verifying, ip, now);
      KeysGrow(sources, lru, ip, Fresh(now));
      s := Fresh(now);
      lives := WithNew(lives, sources, ip, Life(now, verifying == Some(ip), []));
      sources := sources[ip := s];
      lru := lru + [ip];
    }

    lemma NoEntry(ip: string)
      requires Follows(lives, sources, verifying) && ip !in sources
      ensures ip !in lives && (verifying == Some(ip) ==> Follows(lives, sources, None))
    {
      hide Fits;
    }

    lemma EntryFollows(ip: string)
      requires Follows(lives, sources, verifying) && ip in sources
      ensures ip in lives && TrackOf(lives[ip]).s == sources[ip] && TrackOf(lives[ip]).running == (verifying == Some(ip))
    {
    }

    method MoveToBack(ip: string)
      requires ip in lru
      modifies this`lru
      ensures lru == Remove(old(lru), ip) + [ip]
      ensures (set x | x in lru) == (set x | x in old(lru))
    {
      forall y ensures y in Remove(lru, ip) + [ip] <==> y in lru {
        RemovedNames(lru, ip, y);
      }
      lru := Remove(lru, ip) + [ip];
    }

    /** Forget the least recently seen while the table is full. */
    method MakeRoom()
      requires sources.Keys == (set x | x in lru) && Distinct(lru) && |lru| <= MAX_SOURCES
      modifies this`sources, this`lru
      ensures lru == if |old(lru)| >= MAX_SOURCES then old(lru)[1..] else old(lru)
      ensures sources.Keys == (set x | x in lru)
      ensures forall k | k in sources :: k in old(sources) && sources[k] == old(sources)[k]
      ensures forall k | k in old(sources) && k !in sources :: |old(lru)| == MAX_SOURCES && k == old(lru)[0]
    {
      hide Recency, Latest, Remove;
      DistinctCount(lru);
      assert |sources| == |sources.Keys|;
      while |sources| >= MAX_SOURCES && lru != []
        invariant lru == old(lru) || (|old(lru)| == MAX_SOURCES && lru == old(lru)[1..])
        invariant sources.Keys == (set x | x in lru) && |sources| == |lru|
        invariant forall k | k in sources :: k in old(sources) && sources[k] == old(sources)[k]
        invariant forall k | k in old(sources) && k !in sources :: |old(lru)| == MAX_SOURCES && k == old(lru)[0]
        decreases |lru|
      {
        var oldest := lru[0];
        assert oldest !in lru[1..];
        sources := sources - {oldest};
        lru := lru[1..];
        DistinctCount(lru);
        assert sources.Keys == (set x | x in lru);
        assert |sources| == |sources.Keys|;
      }
    }

    /** The life of one entry goes on by one act, and the entry with it. */
    ghost method Record(ip: string, a: Act)
      requires lru == Latest(Recency(touches)) && sources.Keys == (set x | x in lru) && inFlight <= IN_FLIGHT
      requires OthersFollow(lives, sources, verifying, ip) && Possible(TrackOf(lives[ip]), a)
      requires sources[ip] == After(TrackOf(lives[ip]), a).s && After(TrackOf(lives[ip]), a).running == (verifying == Some(ip))
      requires ordered ==> AllLived(lives, clock) && clock == a.now
      modifies this`lives
      ensures Valid() && lives == old(lives)[ip := Longer(old(lives)[ip], a)]
    {
      hide Recency, Latest, After, TrackInv, Lived, Possible, AfterAll;
      TrackInvKept(TrackOf(lives[ip]), a);
      AfterOneMore(Start(lives[ip]), lives[ip].acts, a);
      if ordered { LivesOn(lives[ip], clock, a); }
      lives := lives[ip := Longer(lives[ip], a)];
    }

    method AllowSource(ip: string, now: int) returns (ok: bool)
      requires Valid()
      modifies this`sources, this`lru, this`touches, this`lives, this`clock, this`ordered
      ensures Valid() && touches == old(touches) + [ip] && OthersKept(ip) && Read(now)
      ensures var s := if ip in old(sources) then old(sources)[ip] else Fresh(now);
              ip in sources && (sources[ip], ok) == Taken(s, now)
      ensures ip in lives && lives[ip] == Longer(old(Before(ip, now)), Allow(now))
    {
      hide Recency, Latest, Taken, TrackInv, AllLived, Follows, OthersFollow, Distinct, Remove, Fresh;
      var s := SourceLocked(ip, now);
      EntryFollows(ip);
      var (after, allowed) := Taken(s, now);
      ChangeOne(lives, sources, verifying, ip, after, verifying);
      sources := sources[ip := after];
      Record(ip, Allow(now));
      ok := allowed;
    }

    /** A status query neither creates an entry nor counts as a touch. */
    method Locked(ip: string, now: int) returns (look: Look)
      requires Valid()
      modifies this`sources, this`lives, this`clock, this`ordered
      ensures Valid() && Read(now)
      ensures sources.Keys == old(sources).Keys && forall k | k in sources && k != ip :: sources[k] == old(sources)[k]
      ensures ip !in sources ==> look == Look(false, 0, false) && lives == old(lives)
      ensures ip in sources ==> (sources[ip], look) == Looked(old(sources)[ip], now)
      ensures ip in old(lives) ==> lives == old(lives)[ip := Longer(old(lives)[ip], Query(now))]
    {
      hide Recency, Latest, Looked, TrackInv, Lived;
      if ordered && clock <= now { LivedLater(lives, clock, now); }
      ordered, clock := ordered && clock <= now, if now < clock then clock else now;
      if ip !in sources {
        return Look(false, 0, false);
      }
      var (after, l) := Looked(sources[ip], now);
      ChangeOne(lives, sources, verifying, ip, after, verifying);
      sources := sources[ip := after];
      Record(ip, Query(now));
      look := l;
    }

    /** One of the in-flight slots, or a refusal. */
    method Admit() returns (ok: bool)
      requires Valid()
      modifies this`inFlight
      ensures Valid()
      ensures ok <==> old(inFlight) < IN_FLIGHT
      ensures inFlight == if ok then old(inFlight) + 1 else old(inFlight)
    {
      ok := inFlight < IN_FLIGHT;
      if ok { inFlight := inFlight + 1; }
    }

    /** What Admit hands out: the slot is given back, and the next attempt gets one. */
    method Release()
      requires Valid() && inFlight > 0
      modifies this`inFlight
      ensures Valid() && inFlight == old(inFlight) - 1 && inFlight < IN_FLIGHT
    {
      inFlight := inFlight - 1;
    }

    /** The first half of a turn: the verdict that lets the verification run, or ends the
        turn without it. */
    method BeginTurn(ip: string, now: int) returns (look: Look, failures: nat)
      requires Valid() && verifying.None?
      modifies this`sources, this`lru, this`touches, this`verifying, this`lives, this`clock, this`ordered
      ensures Valid() && touches == old(touches) + [ip] && OthersKept(ip) && Read(now)
      ensures var s := if ip in old(sources) then old(sources)[ip] else Fresh(now);
              ip in sources && (sources[ip], look) == Looked(s, now) && failures == s.failures
      ensures verifying == if look.locked then None else Some(ip)
      ensures Possible(TrackOf(old(Before(ip, now))), Begin(now))
      ensures ip in lives && lives[ip] == Longer(old(Before(ip, now)), Begin(now))
    {
      hide Recency, Latest, Looked, TrackInv, AllLived, Follows, OthersFollow, Distinct, Remove, Fresh;
      var s := SourceLocked(ip, now);
      EntryFollows(ip);
      var (after, l) := Looked(s, now);
      ChangeOne(lives, sources, verifying, ip, after, if l.locked then None else Some(ip));
      sources := sources[ip := after];
      look, failures := l, s.failures;
      if !l.locked { verifying := Some(ip); }
      Record(ip, Begin(now));
    }

    /** The second half: the outcome committed before the turn is given up.  Neutral
        commits nothing. */
    method CommitTurn(now: int, outcome: Outcome) returns (rung: Option<int>, failures: nat)
      requires Valid() && verifying.Some?
      modifies this`sources, this`lru, this`touches, this`verifying, this`lives, this`clock, this`ordered
      ensures Valid() && verifying == None && OthersKept(old(verifying).value) && Read(now)
      ensures var ip := old(verifying).value;
              var s := if ip in old(sources) then old(sources)[ip] else Fresh(now);
              match outcome
              case Neutral => sources == old(sources) && rung == None
                              && failures == if ip in sources then sources[ip].failures else 0
              case Succeeded => ip in sources && sources[ip] == Cleared(s) && rung == None && failures == 0
              case Failed => ip in sources && (sources[ip], rung) == Stepped(s, now) && failures == s.failures + 1
      ensures var ip := old(verifying).value;
              ip in lives ==> lives[ip] == Longer(old(Before(ip, now)), Commit(now, outcome))
    {
      hide Recency, Latest, Rung, TrackInv, AllLived, Follows, TrackOf;
      var ip := verifying.value;
      rung := None;
      if outcome.Neutral? {
        CommitNeutral(ip, now);
      } else {
        rung := CommitOutcome(ip, now, outcome);
      }
      failures := if ip in sources then sources[ip].failures else 0;
    }

    /** The turn is given up, and nothing else changes. */
    method CommitNeutral(ip: string, now: int)
      requires Valid() && verifying == Some(ip)
      modifies this`verifying, this`lives, this`clock, this`ordered
      ensures Valid() && verifying == None && OthersKept(ip) && Read(now)
      ensures ip in lives ==> lives[ip] == Longer(old(Before(ip, now)), Commit(now, Neutral))
    {
      hide Recency, Latest, TrackInv, AllLived, Follows, OthersFollow, Distinct, Remove;
      if ordered && clock <= now { LivedLater(lives, clock, now); }
      ordered, clock := ordered && clock <= now, if now < clock then clock else now;
      if ip in sources {
        EntryFollows(ip);
        ChangeOne(lives, sources, verifying, ip, sources[ip], None);
        assert sources[ip := sources[ip]] == sources;
        verifying := None;
        Record(ip, Commit(now, Neutral));
      } else {
        NoEntry(ip);
        verifying := None;
      }
    }

    /** A failure moves ip one rung up, a success clears it; both touch its entry. */
    method CommitOutcome(ip: string, now: int, outcome: Outcome) returns (rung: Option<int>)
      requires Valid() && verifying == Some(ip) && !outcome.Neutral?
      modifies this`sources, this`lru, this`touches, this`verifying, this`lives, this`clock, this`ordered
      ensures Valid() && verifying == None && OthersKept(ip) && Read(now) && ip in sources && ip in lives
      ensures var s := if ip in old(sources) then old(sources)[ip] else Fresh(now);
              if outcome.Succeeded? then sources[ip] == Cleared(s) && rung == None
              else (sources[ip], rung) == Stepped(s, now)
      ensures lives[ip] == Longer(old(Before(ip, now)), Commit(now, outcome))
    {
      hide Recency, Latest, TrackInv, AllLived, Follows, OthersFollow, Distinct, Remove, Stepped, Cleared, Fresh;
      var s := SourceLocked(ip, now);
      EntryFollows(ip);
      var after: Source;
      rung := None;
      if outcome.Succeeded? {
        after := Cleared(s);
      } else {
        var (stepped, r) := Stepped(s, now);
        after, rung := stepped, r;
      }
      ChangeOne(lives, sources, verifying, ip, after, None);
      verifying := None;
      sources := sources[ip := after];
      Record(ip, Commit(now, outcome));
    }

    /** What the gate's theorems say of a run, they say of every entry of the table: its
        lockouts alternate and its count is of the failures since its last success; and
        where the readings came in order it is admitted within the bucket's bound in any
        stretch of its life, which began when the entry was made. */
    lemma EntriesFollowTheGate(ip: string, i: nat, n: nat, from: int, until: int)
      requires Valid() && ip in sources
      ensures ip in lives && TrackOf(lives[ip]).s == sources[ip] && Alternating(TrackOf(lives[ip]).events)
      ensures sources[ip].failures == Consecutive(TrackOf(lives[ip]).commits)
      ensures verifying == Some(ip) ==> sources[ip].lockedUntil.None?
      ensures ordered ==> sources[ip].last <= clock && lives[ip].born <= clock
      ensures var l := lives[ip];
              ordered && i <= n <= |l.acts| && EndOf(l.acts[..i], l.born) <= from <= until
              && (forall a | a in l.acts[i..n] :: from <= a.now <= until) ==>
                var t, t' := AfterAll(Start(l), l.acts[..i]), AfterAll(Start(l), l.acts[..n]);
                t.admitted <= t'.admitted && (t'.admitted - t.admitted) as real <= 10.0 + Seconds(until - from) / 6.0
    {
      hide Recency, Latest, Seconds, AfterAll;
      assert Fits(lives[ip], sources[ip], verifying == Some(ip));
      if ordered {
        var l := lives[ip];
        assert Lived(l, clock);
        RefillIsPast(Start(l), l.acts, l.born, TrackOf(l));
        if i <= n <= |l.acts| && EndOf(l.acts[..i], l.born) <= from <= until
           && (forall a | a in l.acts[i..n] :: from <= a.now <= until) {
          LifeWindow(l, clock, i, n, from, until);
        }
      }
    }
  }
}
