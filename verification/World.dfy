/** The filesystem the move protocol runs against: inodes with kind, content,
    permissions and change time, directories as name-to-inode maps, and one clock
    per filesystem that may be as coarse as two seconds.  Other processes act
    between any two system calls, and nothing but the clock restrains them. */
module World {
  import opened Basics

  /** st_dev and st_ino. */
  datatype Key = Key(dev: nat, ino: nat)

  datatype Body =
    | DirBody(entries: map<string, Key>)
    | LinkBody(target: string)
    | FileBody(bytes: seq<Byte>)
    | SpecialBody

  datatype Inode = Inode(body: Body, mode: nat, uid: int, gid: int, nlink: nat, mtime: int, ctime: int)

  /** now is in nanoseconds; gran is the timestamp granularity of each filesystem. */
  datatype World = World(now: nat, gran: map<nat, nat>, inodes: map<Key, Inode>)

  /** ctimeRecent: a recorded change time older than this needs no proof. */
  const CTIME_RECENT: nat := 2_000_000_000

  /** No filesystem's clock is coarser than CTIME_RECENT. */
  function Granularity(w: World, dev: nat): (g: nat)
    ensures 0 < g <= CTIME_RECENT
  {
    if dev in w.gran && 0 < w.gran[dev] <= CTIME_RECENT then w.gran[dev] else 1
  }

  /** What a change made now is stamped with: the start of the current tick. */
  function Stamp(w: World, dev: nat): (t: int)
  {
    w.now / Granularity(w, dev) * Granularity(w, dev)
  }

  /** What any run of system calls, by anybody, may do between two instants: the
      clock does not go back, and an inode that differs in any way was stamped at or
      after the first instant.  Number recycling is covered: a new object under an
      old number is an inode that differs. */
  ghost predicate Evolves(w: World, w': World) {
    && w.gran == w'.gran
    && w.now <= w'.now
    && forall k | k in w.inodes ::
         k in w'.inodes && (w'.inodes[k] == w.inodes[k] || Stamp(w, k.dev) <= w'.inodes[k].ctime)
  }

  lemma MulMonotone(x: int, y: int, g: nat)
    requires x <= y
    ensures x * g <= y * g
  {
  }

  lemma DivMulMonotone(a: nat, b: nat, g: nat)
    requires 0 < g && a <= b
    ensures a / g * g <= b / g * g
  {
    var qa, qb := a / g, b / g;
    assert a == qa * g + a % g && b == qb * g + b % g;
    if qb < qa {
      MulMonotone(qb + 1, qa, g);
      assert false;
    }
    MulMonotone(qa, qb, g);
  }

  lemma StampMonotone(w: World, w': World, dev: nat)
    requires w.gran == w'.gran && w.now <= w'.now
    ensures Stamp(w, dev) <= Stamp(w', dev)
  {
    DivMulMonotone(w.now, w'.now, Granularity(w, dev));
  }

  lemma StampEvolves(w: World, w': World, dev: nat)
    requires Evolves(w, w')
    ensures Stamp(w, dev) <= Stamp(w', dev)
  {
    StampMonotone(w, w', dev);
  }

  /** The current tick began less than CTIME_RECENT ago, so a change time older than
      that lies before it. */
  lemma OldIsPast(w: World, dev: nat, ct: int)
    requires w.now - ct > CTIME_RECENT
    ensures ct < Stamp(w, dev)
  {
    var g := Granularity(w, dev);
    assert w.now == w.now / g * g + w.now % g;
  }

  lemma EvolvesTrans(a: World, b: World, c: World)
    requires Evolves(a, b) && Evolves(b, c)
    ensures Evolves(a, c)
  {
    forall k | k in a.inodes
      ensures k in c.inodes && (c.inodes[k] == a.inodes[k] || Stamp(a, k.dev) <= c.inodes[k].ctime)
    {
      StampMonotone(a, b, k.dev);
    }
  }

  /** Evolves(a, b), in the form a sequence of calls composes without help. */
  ghost predicate Later(a: World, b: World) {
    && Evolves(a, b)
    && forall w0 :: Evolves(w0, a) ==> Evolves(w0, b)
  }

  lemma EvolvesIsLater(a: World, b: World)
    requires Evolves(a, b)
    ensures Later(a, b)
  {
    forall w0 | Evolves(w0, a) ensures Evolves(w0, b) {
      EvolvesTrans(w0, a, b);
    }
  }

  /** The settle argument: once the clock is past an inode's change time, an inode
      still carrying that change time later was not touched at any instant between. */
  lemma SettledIsFrozen(w0: World, w1: World, w2: World, k: Key)
    requires Evolves(w0, w1) && Evolves(w1, w2)
    requires k in w0.inodes && w0.inodes[k].ctime < Stamp(w0, k.dev)
    requires w2.inodes[k].ctime == w0.inodes[k].ctime
    ensures w1.inodes[k] == w0.inodes[k] && w2.inodes[k] == w0.inodes[k]
  {
    StampMonotone(w0, w1, k.dev);
  }

  /** Without the settle the conclusion is false: on a one-second clock a file is
      rewritten to other bytes of the same length inside the tick it was stamped in,
      with its modification time put back, and no field of a stat differs. */
  lemma UnsettledRewriteIsInvisible() returns (w0: World, w1: World, k: Key)
    ensures Evolves(w0, w1) && k in w0.inodes && k in w1.inodes
    ensures w0.inodes[k].body.FileBody? && w1.inodes[k].body.FileBody?
    ensures |w0.inodes[k].body.bytes| == |w1.inodes[k].body.bytes|
    ensures w1.inodes[k].(body := w0.inodes[k].body) == w0.inodes[k]
    ensures w0.inodes[k].body != w1.inodes[k].body
  {
    k := Key(1, 7);
    var node := Inode(FileBody([65]), 420, 0, 0, 1, 3_000_000_000, 3_000_000_000);
    w0 := World(3_500_000_000, map[1 := 1_000_000_000], map[k := node]);
    w1 := w0.(inodes := map[k := node.(body := FileBody([66]))]);
    assert Stamp(w0, 1) == 3_000_000_000;
    assert w0.inodes[k].body.bytes[0] != w1.inodes[k].body.bytes[0];
  }

  /** One name looked up in one held directory. */
  function Named(w: World, dir: Key, name: string): Option<Key> {
    if dir in w.inodes && w.inodes[dir].body.DirBody? && name in w.inodes[dir].body.entries
       && w.inodes[dir].body.entries[name] in w.inodes
    then Some(w.inodes[dir].body.entries[name]) else None
  }

  /** The inodes in hidden are exactly as they were. */
  ghost predicate Untouched(hidden: set<Key>, w: World, w': World) {
    forall k | k in hidden && k in w.inodes :: k in w'.inodes && w'.inodes[k] == w.inodes[k]
  }

  /** What a held directory says of a symbolic link holds as long as the directory is
      out of everybody's reach: the name stays, a link's text cannot be rewritten, and an
      inode that has a name is not freed, so its number is not handed out again. */
  ghost predicate LinksKept(hidden: set<Key>, w: World, w': World) {
    forall d, n | d in hidden && Named(w, d, n).Some? && w.inodes[Named(w, d, n).value].body.LinkBody? ::
      Named(w', d, n) == Named(w, d, n) && w'.inodes[Named(w, d, n).value].body == w.inodes[Named(w, d, n).value].body
  }

  lemma LinksKeptTrans(hidden: set<Key>, a: World, b: World, c: World)
    requires LinksKept(hidden, a, b) && LinksKept(hidden, b, c)
    ensures LinksKept(hidden, a, c)
  {
  }

  /** A link some directory in hidden names. */
  predicate HeldLink(hidden: set<Key>, w: World, k: Key) {
    && k in w.inodes && w.inodes[k].body.LinkBody?
    && exists d :: d in hidden && d in w.inodes && w.inodes[d].body.DirBody? && k in w.inodes[d].body.entries.Values
  }

  datatype Lookup = Found(key: Key, node: Inode) | NotExist | Failed

  datatype ReadResult = Data(bytes: seq<Byte>) | Eof | ReadError

  datatype UnlinkResult = Unlinked | NoEntry | NotEmpty | Refused

  /** A call this job made, and what it was answered. */
  datatype Call =
    | DidLstat(dir: Key, name: string, answer: Lookup)
    | DidFstat(key: Key, ok: bool)
    | DidOpen(dir: Key, name: string, held: Option<Key>)
    | DidRead(key: Key, failed: bool)
    | DidClock(dir: Key, now: Option<int>)
    | DidSync(key: Key, ok: bool)
    | DidWrite(key: Key, ok: bool)
    | DidOwn(key: Key, ok: bool)
    | DidClose(key: Key, ok: bool)
    | DidStamp(key: Key, ok: bool)
    | DidMake(key: Key)
    | DidCreate(dir: Key, name: string, key: Key)
    | DidLink(dir: Key, name: string, key: Key)
    | DidRename(from: Key, was: string, dir: Key, name: string, key: Key)
    | DidUnlink(dir: Key, name: string, gone: Option<Key>)
    | DidFail

  /** One instant of a run: a call, and the worlds on either side of what it did. */
  datatype Event = Event(call: Call, before: World, at: World)

  /** A call that changed an entry of a directory. */
  predicate Naming(c: Call) {
    c.DidCreate? || c.DidLink? || c.DidRename? || (c.DidUnlink? && c.gone.Some?)
  }

  ghost predicate NamesNothing(was: seq<Event>, now: seq<Event>) {
    was <= now && forall i | |was| <= i < |now| :: !Naming(now[i].call)
  }

  /** One name this job took out of a directory, with the instants on either side and
      everything it had done before. */
  datatype Removal = Removal(dir: Key, name: string, key: Key, before: World, after: World, past: seq<Event>)

  /** What taking a name out of a directory makes of the world. */
  function Detached(w: World, dir: Key, name: string): (w': World)
    requires Named(w, dir, name).Some?
    ensures Evolves(w, w') && w'.now == w.now && Named(w', dir, name) == None
  {
    var k := w.inodes[dir].body.entries[name];
    var node := w.inodes[k];
    var w1 := w.(inodes := w.inodes[k := node.(nlink := if node.nlink > 0 then node.nlink - 1 else 0, ctime := Stamp(w, k.dev))]);
    var d := w1.inodes[dir];
    var t := Stamp(w, dir.dev);
    w1.(inodes := w1.inodes[dir := d.(body := DirBody(d.body.entries - {name}), mtime := t, ctime := t)])
  }

  /** What another process may do in one call. */
  datatype Act = Advance(elapsed: nat) | Touch(key: Key, node: Inode)

  function Apply(w: World, a: Act): World {
    match a
    case Advance(elapsed) => w.(now := w.now + elapsed)
    case Touch(k, node) => w.(inodes := w.inodes[k := node.(ctime := Stamp(w, k.dev))])
  }

  /** Others do not reach what is hidden, and a link that has a name keeps its text. */
  predicate MayAct(hidden: set<Key>, w: World, a: Act) {
    a.Touch? ==> a.key !in hidden && (HeldLink(hidden, w, a.key) ==> a.node.body == w.inodes[a.key].body)
  }

  lemma ActKeepsLinks(hidden: set<Key>, w: World, a: Act)
    requires MayAct(hidden, w, a)
    ensures LinksKept(hidden, w, Apply(w, a))
  {
    forall d, n | d in hidden && Named(w, d, n).Some? && w.inodes[Named(w, d, n).value].body.LinkBody?
      ensures Named(Apply(w, a), d, n) == Named(w, d, n)
              && Apply(w, a).inodes[Named(w, d, n).value].body == w.inodes[Named(w, d, n).value].body
    {
      assert HeldLink(hidden, w, w.inodes[d].body.entries[n]);
    }
  }

  // ----- what naming calls make of the world -----

  function LinkedWorld(w: World, k: Key, dir: Key, name: string): (w': World)
    requires k in w.inodes && dir in w.inodes && w.inodes[dir].body.DirBody? && dir != k
    ensures Evolves(w, w') && Named(w', dir, name) == Some(k)
    ensures w'.inodes[k].body == w.inodes[k].body && w'.inodes[k].mtime == w.inodes[k].mtime
  {
    var t := Stamp(w, dir.dev);
    var d, f := w.inodes[dir], w.inodes[k];
    w.(inodes := w.inodes[k := f.(nlink := f.nlink + 1, ctime := Stamp(w, k.dev))]
                         [dir := d.(body := DirBody(d.body.entries[name := k]), mtime := t, ctime := t)])
  }

  /** A new empty file under a free name. */
  function CreatedWorld(w: World, k: Key, dir: Key, name: string): (w': World)
    requires k !in w.inodes && dir in w.inodes && w.inodes[dir].body.DirBody?
    ensures Evolves(w, w') && Named(w', dir, name) == Some(k) && w'.inodes[k].body == FileBody([])
  {
    var t := Stamp(w, dir.dev);
    var d := w.inodes[dir];
    w.(inodes := w.inodes[k := Inode(FileBody([]), 384, 0, 0, 1, t, t)]
                         [dir := d.(body := DirBody(d.body.entries[name := k]), mtime := t, ctime := t)])
  }

  /** A rename of a file can be made; the kernel does not put it over a directory. */
  predicate CanRename(w: World, from: Key, name: string, dir: Key, final: string) {
    && Named(w, from, name).Some? && w.inodes[Named(w, from, name).value].body.FileBody?
    && dir in w.inodes && w.inodes[dir].body.DirBody? && !(from == dir && name == final)
    && var at := Named(w, dir, final); at.Some? ==> !w.inodes[at.value].body.DirBody?
  }

  /** Two names of one inode: renaming one over the other does nothing. */
  function RenamedWorld(w: World, from: Key, name: string, dir: Key, final: string): (w': World)
    requires CanRename(w, from, name, dir, final)
    ensures Evolves(w, w') && Named(w', dir, final) == Named(w, from, name)
    ensures var k := Named(w, from, name).value; w'.inodes[k].body == w.inodes[k].body && w'.inodes[k].mtime == w.inodes[k].mtime
  {
    if Named(w, dir, final) == Named(w, from, name) then w
    else
      var k := Named(w, from, name).value;
      var t, u := Stamp(w, from.dev), Stamp(w, dir.dev);
      var s := w.inodes[from];
      var w1 := w.(inodes := w.inodes[from := s.(body := DirBody(s.body.entries - {name}), mtime := t, ctime := t)]);
      var d := w1.inodes[dir];
      w1.(inodes := w1.inodes[dir := d.(body := DirBody(d.body.entries[final := k]), mtime := u, ctime := u)])
  }

  /** What a file holds after data is written into it at an offset. */
  function Overlaid(bytes: seq<Byte>, pos: nat, data: seq<Byte>): (r: seq<Byte>)
    ensures pos == |bytes| ==> r == bytes + data
  {
    (if pos <= |bytes| then bytes[..pos] else bytes + Zeros(pos - |bytes|)) + data
    + (if pos + |data| <= |bytes| then bytes[pos + |data|..] else [])
  }

  /** k is new and empty, and where kept it is out of everybody else's reach. */
  ghost predicate NewFile(k: Key, w: World, w': World, hidden: set<Key>, hidden': set<Key>, kept: bool) {
    && k !in w.inodes && k in w'.inodes && w'.inodes[k].body == FileBody([])
    && hidden' == if kept then hidden + {k} else hidden
  }

  /** The system call interface a job sees.  Every call lets the others act first, but for
      LstatNow, Rename and Unlink, so that a look and the call directly after it are one
      step.  past is the run so far: every call appends itself, and nothing but the
      methods of this class assigns to its fields. */
  class Machine {
    var w: World
    /** how many more context checks succeed before the job is cancelled */
    var checks: nat
    /** inodes no other process touches: it cannot reach a file with no name or a private
        directory, and a file it could reach it may leave alone */
    var hidden: set<Key>
    ghost var removed: seq<Removal>
    ghost var past: seq<Event>

    constructor (w: World, checks: nat)
      ensures this.w == w && this.checks == checks && hidden == {} && removed == [] && past == []
    {
      this.w, this.checks, hidden, removed, past := w, checks, {}, [], [];
    }

    method Interfere()
      modifies this`w
      ensures Later(old(w), w) && Untouched(hidden, old(w), w) && LinksKept(hidden, old(w), w)
    {
      var n: nat :| true;
      while n > 0
        invariant Evolves(old(w), w) && Untouched(hidden, old(w), w) && LinksKept(hidden, old(w), w)
      {
        var a: Act :| true;
        if MayAct(hidden, w, a) {
          var w' := Apply(w, a);
          EvolvesTrans(old(w), w, w');
          ActKeepsLinks(hidden, w, a);
          w := w';
        }
        n := n - 1;
      }
      EvolvesIsLater(old(w), w);
    }

    /** ctx.Err() != nil. */
    method Cancelled() returns (stop: bool)
      modifies this`checks
      ensures stop <==> old(checks) == 0
      ensures checks == if stop then 0 else old(checks) - 1
    {
      stop := checks == 0;
      if !stop { checks := checks - 1; }
    }

    // ----- looks -----

    method Lstat(dir: Key, name: string) returns (r: Lookup)
      modifies this`w, this`past
      ensures Later(old(w), w) && Untouched(hidden, old(w), w) && LinksKept(hidden, old(w), w)
      ensures past == old(past) + [Event(DidLstat(dir, name, r), w, w)]
      ensures r.Found? ==> Named(w, dir, name) == Some(r.key) && r.node == w.inodes[r.key]
      ensures r.NotExist? ==> Named(w, dir, name) == None
    {
      Interfere();
      r := LstatNow(dir, name);
    }

    /** A lookup directly before a call that acts on what it found: nobody comes in
        between. */
    method LstatNow(dir: Key, name: string) returns (r: Lookup)
      modifies this`past
      ensures past == old(past) + [Event(DidLstat(dir, name, r), w, w)]
      ensures r.Found? ==> Named(w, dir, name) == Some(r.key) && r.node == w.inodes[r.key]
      ensures r.NotExist? ==> Named(w, dir, name) == None
    {
      var broken: bool :| true;
      var n := Named(w, dir, name);
      r := if broken then Failed else if n.Some? then Found(n.value, w.inodes[n.value]) else NotExist;
      past := past + [Event(DidLstat(dir, name, r), w, w)];
    }

    method Fstat(k: Key) returns (r: Option<Inode>)
      requires k in w.inodes
      modifies this`w, this`past
      ensures Later(old(w), w) && Untouched(hidden, old(w), w) && LinksKept(hidden, old(w), w)
      ensures past == old(past) + [Event(DidFstat(k, r.Some?), w, w)]
      ensures r.Some? ==> r.value == w.inodes[k]
    {
      Interfere();
      var broken: bool :| true;
      r := if broken then None else Some(w.inodes[k]);
      past := past + [Event(DidFstat(k, r.Some?), w, w)];
    }

    /** openat(O_NOFOLLOW): a descriptor for whatever the name means now. */
    method Open(dir: Key, name: string) returns (r: Option<Key>)
      modifies this`w, this`past
      ensures Later(old(w), w) && Untouched(hidden, old(w), w) && LinksKept(hidden, old(w), w)
      ensures past == old(past) + [Event(DidOpen(dir, name, r), w, w)]
      ensures r.Some? ==> Named(w, dir, name) == r
    {
      Interfere();
      var broken: bool :| true;
      r := if broken then None else Named(w, dir, name);
      past := past + [Event(DidOpen(dir, name, r), w, w)];
    }

    /** read(2) at an offset: some bytes, the end, or an error. */
    method Read(k: Key, pos: nat, max: nat) returns (r: ReadResult)
      requires k in w.inodes && 0 < max
      modifies this`w, this`past
      ensures Later(old(w), w) && Untouched(hidden, old(w), w) && LinksKept(hidden, old(w), w)
      ensures past == old(past) + [Event(DidRead(k, r.ReadError?), w, w)]
      ensures !r.ReadError? ==> w.inodes[k].body.FileBody?
      ensures r.Eof? ==> |w.inodes[k].body.bytes| <= pos
      ensures r.Data? ==> 0 < |r.bytes| <= max && pos + |r.bytes| <= |w.inodes[k].body.bytes|
                          && r.bytes == w.inodes[k].body.bytes[pos..pos + |r.bytes|]
    {
      Interfere();
      var broken: bool :| true;
      if broken || !w.inodes[k].body.FileBody? {
        r := ReadError;
      } else {
        var all := w.inodes[k].body.bytes;
        if |all| <= pos {
          r := Eof;
        } else {
          var most := if max < |all| - pos then max else |all| - pos;
          var n: nat :| 0 < n <= most;
          r := Data(all[pos..pos + n]);
        }
      }
      past := past + [Event(DidRead(k, r.ReadError?), w, w)];
    }

    /** Create a scratch file in dir, read its change time, and remove it while the
        name is still it.  Some(t) is the filesystem's clock. */
    method ClockAt(dir: Key) returns (r: Option<int>)
      modifies this`w, this`past
      ensures Later(old(w), w)
      ensures |past| == |old(past)| + 1 && old(past) <= past
      ensures past[|old(past)|].call == DidClock(dir, r) && past[|old(past)|].at == w
      ensures r.Some? ==> r.value <= Stamp(w, dir.dev)
    {
      Interfere();
      ghost var start := w;
      var broken: bool :| true;
      var ino: nat, name: string :| true;
      var k := Key(dir.dev, ino);
      if broken || dir !in w.inodes || !w.inodes[dir].body.DirBody? || k in w.inodes || name in w.inodes[dir].body.entries {
        past := past + [Event(DidClock(dir, None), start, w)];
        return None;
      }
      ghost var w0 := w;
      var t := Stamp(w, dir.dev);
      w := CreatedWorld(w, k, dir, name);
      EvolvesIsLater(w0, w);
      ghost var w1 := w;
      Interfere();
      if Named(w, dir, name) == Some(k) {
        ghost var w2 := w;
        w := Detached(w, dir, name);
        EvolvesIsLater(w2, w);
      }
      StampMonotone(w1, w, dir.dev);
      past := past + [Event(DidClock(dir, Some(t)), start, w)];
      r := Some(t);
    }

    // ----- changes -----

    /** fsync of a held descriptor. */
    method Fsync(k: Key) returns (ok: bool)
      modifies this`w, this`past
      ensures Later(old(w), w) && Untouched(hidden, old(w), w) && LinksKept(hidden, old(w), w)
      ensures past == old(past) + [Event(DidSync(k, ok), w, w)]
    {
      Interfere();
      ok :| true;
      past := past + [Event(DidSync(k, ok), w, w)];
    }

    /** unlinkat: the kernel removes a directory only when it is empty, and reports
        ENOENT for a name that is not there. */
    method Unlink(dir: Key, name: string, isDir: bool) returns (r: UnlinkResult)
      modifies this`w, this`removed, this`past
      ensures Later(old(w), w)
      ensures r.NoEntry? ==> Named(old(w), dir, name) == None
      ensures !r.Unlinked? ==> w == old(w) && removed == old(removed)
      ensures past == old(past) + [Event(DidUnlink(dir, name, if r.Unlinked? then Named(old(w), dir, name) else None), old(w), w)]
      ensures r.Unlinked? ==>
                && Named(old(w), dir, name).Some? && w == Detached(old(w), dir, name)
                && var k := Named(old(w), dir, name).value;
                   && removed == old(removed) + [Removal(dir, name, k, old(w), w, old(past))]
                   && old(w).inodes[k].body.DirBody? == isDir
                   && (isDir ==> old(w).inodes[k].body.entries == map[])
    {
      EvolvesIsLater(w, w);
      ghost var w0 := w;
      var broken: bool :| true;
      var n := Named(w, dir, name);
      if broken || n.None? || w.inodes[n.value].body.DirBody? != isDir || (isDir && w.inodes[n.value].body.entries != map[]) {
        past := past + [Event(DidUnlink(dir, name, None), w, w)];
        return if !broken && n.None? then NoEntry
               else if !broken && w.inodes[n.value].body.DirBody? == isDir then NotEmpty else Refused;
      }
      w := Detached(w, dir, name);
      removed := removed + [Removal(dir, name, n.value, w0, w, past)];
      past := past + [Event(DidUnlink(dir, name, n), w0, w)];
      EvolvesIsLater(w0, w);
      r := Unlinked;
    }

    /** O_TMPFILE: an inode with no name. */
    method OpenUnnamed(dev: nat) returns (r: Option<Key>)
      modifies this`w, this`hidden, this`past
      ensures Later(old(w), w)
      ensures |past| == |old(past)| + 1 && old(past) <= past
      ensures past[|old(past)|].call == (if r.Some? then DidMake(r.value) else DidFail)
      ensures r.None? ==> hidden == old(hidden)
      ensures r.Some? ==> NewFile(r.value, old(w), w, old(hidden), hidden, true)
    {
      Interfere();
      ghost var w0 := w;
      var ino: nat, broken: bool :| true;
      var k := Key(dev, ino);
      if broken || k in w.inodes {
        past := past + [Event(DidFail, w, w)];
        return None;
      }
      var t := Stamp(w, dev);
      w := w.(inodes := w.inodes[k := Inode(FileBody([]), 384, 0, 0, 0, t, t)]);
      EvolvesIsLater(w0, w);
      hidden := hidden + {k};
      past := past + [Event(DidMake(k), w0, w)];
      r := Some(k);
    }

    /** O_CREAT|O_EXCL under a name.  kept: nobody else will write into it. */
    method CreateExcl(dir: Key, name: string, kept: bool) returns (r: Option<Key>)
      modifies this`w, this`hidden, this`past
      ensures Later(old(w), w)
      ensures |past| == |old(past)| + 1 && old(past) <= past
      ensures var x := past[|old(past)|];
              x.at == w && x.call == (if r.Some? then DidCreate(dir, name, r.value) else DidFail)
              && (r.Some? ==> Named(x.before, dir, name) == None)
      ensures r.None? ==> hidden == old(hidden)
      ensures r.Some? ==> NewFile(r.value, old(w), w, old(hidden), hidden, kept) && Named(w, dir, name) == r
    {
      Interfere();
      ghost var w0 := w;
      var ino: nat, broken: bool :| true;
      var k := Key(dir.dev, ino);
      if broken || k in w.inodes || dir !in w.inodes || !w.inodes[dir].body.DirBody? || name in w.inodes[dir].body.entries {
        past := past + [Event(DidFail, w, w)];
        return None;
      }
      w := CreatedWorld(w, k, dir, name);
      EvolvesIsLater(w0, w);
      if kept {
        hidden := hidden + {k};
      }
      past := past + [Event(DidCreate(dir, name, k), w0, w)];
      r := Some(k);
    }

    /** linkat of the held descriptor: EEXIST if the name is taken.  From then on the file
        can be reached, and unless kept it is no longer this job's alone. */
    method LinkUnnamed(k: Key, dir: Key, name: string, kept: bool) returns (ok: bool)
      requires k in w.inodes && k in hidden
      modifies this`w, this`hidden, this`past
      ensures Later(old(w), w) && w.inodes[k].body == old(w).inodes[k].body && w.inodes[k].mtime == old(w).inodes[k].mtime
      ensures |past| == |old(past)| + 1 && old(past) <= past
      ensures var x := past[|old(past)|];
              x.at == w && x.call == (if ok then DidLink(dir, name, k) else DidFail)
              && (ok ==> Named(x.before, dir, name) == None)
      ensures hidden == if ok && !kept then old(hidden) - {k} else old(hidden)
      ensures ok ==> Named(w, dir, name) == Some(k)
    {
      Interfere();
      ghost var w0 := w;
      var broken: bool :| true;
      if broken || dir !in w.inodes || !w.inodes[dir].body.DirBody? || name in w.inodes[dir].body.entries || dir == k {
        past := past + [Event(DidFail, w, w)];
        return false;
      }
      w := LinkedWorld(w, k, dir, name);
      EvolvesIsLater(w0, w);
      if !kept {
        hidden := hidden - {k};
      }
      past := past + [Event(DidLink(dir, name, k), w0, w)];
      ok := true;
    }

    /** renameat2 directly after a look at the target, with the kernel's own refusals: a
        taken name under NOREPLACE, and a directory in the way. */
    method Rename(from: Key, name: string, dir: Key, final: string, replace: bool) returns (ok: bool)
      modifies this`w, this`past
      ensures Later(old(w), w)
      ensures !ok ==> w == old(w) && past == old(past) + [Event(DidFail, w, w)]
      ensures ok ==>
                && CanRename(old(w), from, name, dir, final) && w == RenamedWorld(old(w), from, name, dir, final)
                && (Named(old(w), dir, final).Some? ==> replace)
                && past == old(past) + [Event(DidRename(from, name, dir, final, Named(old(w), from, name).value), old(w), w)]
    {
      EvolvesIsLater(w, w);
      ghost var w0 := w;
      var broken: bool :| true;
      if broken || !CanRename(w, from, name, dir, final) || (!replace && final in w.inodes[dir].body.entries) {
        past := past + [Event(DidFail, w, w)];
        return false;
      }
      w := RenamedWorld(w, from, name, dir, final);
      EvolvesIsLater(w0, w);
      past := past + [Event(DidRename(from, name, dir, final, Named(w0, from, name).value), w0, w)];
      ok := true;
    }

    /** write(2) at the descriptor's own offset, whatever has become of the file; a failed
        write may have written part of it. */
    method Write(k: Key, pos: nat, data: seq<Byte>) returns (ok: bool)
      requires k in w.inodes
      modifies this`w, this`past
      ensures Later(old(w), w) && Untouched(hidden - {k}, old(w), w)
      ensures |past| == |old(past)| + 1 && old(past) <= past && past[|old(past)|].call == DidWrite(k, ok)
      ensures ok && k in hidden && old(w).inodes[k].body.FileBody? && |old(w).inodes[k].body.bytes| == pos ==>
                w.inodes[k].body == FileBody(old(w).inodes[k].body.bytes + data)
    {
      Interfere();
      ghost var w0 := w;
      var f := w.inodes[k];
      var n: nat :| n <= |data|;
      if f.body.FileBody? {
        var t := Stamp(w, k.dev);
        w := w.(inodes := w.inodes[k := f.(body := FileBody(Overlaid(f.body.bytes, pos, data[..n])), mtime := t, ctime := t)]);
      }
      EvolvesIsLater(w0, w);
      ok := f.body.FileBody? && n == |data|;
      past := past + [Event(DidWrite(k, ok), w0, w)];
    }

    /** futimens on the descriptor. */
    method SetTimes(k: Key, mtime: int) returns (ok: bool)
      requires k in w.inodes
      modifies this`w, this`past
      ensures Later(old(w), w) && Untouched(hidden - {k}, old(w), w)
      ensures |past| == |old(past)| + 1 && old(past) <= past && past[|old(past)|].call == DidStamp(k, ok)
      ensures k in hidden ==> w.inodes[k].body == old(w).inodes[k].body
      ensures ok ==> w.inodes[k].mtime == mtime
    {
      Interfere();
      ghost var w0 := w;
      ok :| true;
      if ok {
        w := w.(inodes := w.inodes[k := w.inodes[k].(mtime := mtime, ctime := Stamp(w, k.dev))]);
      }
      EvolvesIsLater(w0, w);
      past := past + [Event(DidStamp(k, ok), w0, w)];
    }

    /** The mode and the group a new file came out with, and the owner it is given. */
    method Own(k: Key) returns (ok: bool)
      requires k in w.inodes
      modifies this`w, this`past
      ensures Later(old(w), w) && Untouched(hidden, old(w), w) && LinksKept(hidden, old(w), w)
      ensures past == old(past) + [Event(DidOwn(k, ok), w, w)]
    {
      Interfere();
      ok :| true;
      past := past + [Event(DidOwn(k, ok), w, w)];
    }

    /** close(2).  Whoever can reach the file may touch it from now on. */
    method Close(k: Key) returns (ok: bool)
      modifies this`hidden, this`past
      ensures hidden == old(hidden) - {k} && past == old(past) + [Event(DidClose(k, ok), w, w)]
    {
      ok :| true;
      hidden := hidden - {k};
      past := past + [Event(DidClose(k, ok), w, w)];
    }
  }
}
