/** What a move writes down about each thing it copies, and the tests a name has to
    pass against that record before it may be removed. */
module Ledger {
  import opened Basics
  import opened World

  datatype EntryKind = KindDir | KindLink | KindRegular | KindSpecial

  /** Only files and links get a leaf record; a special file is never copied. */
  type LeafKind = k: EntryKind | k.KindLink? || k.KindRegular? witness KindLink

  function KindOf(node: Inode): EntryKind {
    match node.body
    case DirBody(_) => KindDir
    case LinkBody(_) => KindLink
    case FileBody(_) => KindRegular
    case SpecialBody => KindSpecial
  }

  /** st_size.  A directory's own size is never compared. */
  function Size(node: Inode): nat {
    match node.body
    case FileBody(bytes) => |bytes|
    case LinkBody(target) => |target|
    case _ => 0
  }

  /** A copied source directory: what it was when the walk opened it, the directory it
      was copied into, and its children in the order they were copied. */
  datatype CopiedDir = CopiedDir(id: Key, mode: nat, uid: int, gid: int,
                                 dstName: string, haveDst: bool, dstId: Key, entries: seq<CopiedEntry>)

  /** A copied entry.  haveDst is false when the published copy could not be read back. */
  datatype CopiedEntry =
    | DirEntry(name: string, dir: CopiedDir)
    | LeafEntry(name: string, recorded: bool, kind: LeafKind, id: Key, size: nat, mtime: int, ctime: int,
                nlink: nat, mode: nat, uid: int, gid: int, link: string,
                dstName: string, haveDst: bool, dstId: Key, dstSize: nat, dstMtime: int, dstCtime: int)

  /** The per-entry proof on the source side.  A hard-linked entry's change time is
      moved by this job's own unlink of a sibling, so it is not compared. */
  predicate MatchesRecord(k: Key, node: Inode, e: CopiedEntry)
    requires e.LeafEntry?
  {
    && e.recorded && KindOf(node) == e.kind
    && k == e.id && Size(node) == e.size && node.mtime == e.mtime
    && node.mode == e.mode && node.uid == e.uid && node.gid == e.gid
    && (e.nlink > 1 || node.ctime == e.ctime)
  }

  /** The same on the destination side, against the state read back at publication. */
  predicate PublishedMatches(k: Key, node: Inode, e: CopiedEntry)
    requires e.LeafEntry?
  {
    && KindOf(node) == e.kind && e.haveDst && k == e.dstId
    && Size(node) == e.dstSize && node.mtime == e.dstMtime && node.ctime == e.dstCtime
  }

  predicate SameFileState(ka: Key, a: Inode, kb: Key, b: Inode) {
    ka == kb && Size(a) == Size(b) && a.mtime == b.mtime && a.ctime == b.ctime
  }

  /** A directory's modification time is not part of it: its entries are each proved. */
  predicate StillTheRecorded(k: Key, node: Inode, rec: CopiedDir) {
    k == rec.id && node.mode == rec.mode && node.uid == rec.uid && node.gid == rec.gid
  }

  /** Everything a regular file's removal rests on.  At the instant of the unlink the
      name meant the recorded inode in its recorded state; and at an earlier instant of
      the same run, the i-th, when both clocks were past what is recorded, this job looked
      at the source: source and published copy were in their recorded states and held the
      same bytes, and the source has not been touched since. */
  ghost predicate RegularProved(r: Removal, e: CopiedEntry, from: nat, i: nat)
    requires e.LeafEntry?
  {
    && from <= i < |r.past| && r.past[i].call == DidFstat(e.id, true)
    && var seen := r.past[i].at;
       && Evolves(seen, r.before)
       && r.key in r.before.inodes && r.key in seen.inodes
       && MatchesRecord(r.key, r.before.inodes[r.key], e)
       && seen.inodes[r.key] == r.before.inodes[r.key]
       && seen.inodes[r.key].body.FileBody? && seen.inodes[r.key].ctime < Stamp(seen, r.key.dev)
       && e.haveDst && e.dstId in seen.inodes && e.dstCtime < Stamp(seen, e.dstId.dev)
       && PublishedMatches(e.dstId, seen.inodes[e.dstId], e)
       && seen.inodes[e.dstId].body == seen.inodes[r.key].body
  }

  /** A symlink's removal rests on three looks of the run: at the source's state, at the
      source's target text, and at the copy's.  The source is not looked up again before
      the unlink; only a directory nobody else reaches, one in quiet, keeps its entry. */
  ghost predicate LinkProved(r: Removal, e: CopiedEntry, quiet: set<Key>, from: nat, i: nat, j: nat, k: nat)
    requires e.LeafEntry?
  {
    && from <= i < j < k < |r.past|
    && IsLookAt(r.past[i].call, r.dir, e.name) && IsLookAt(r.past[j].call, r.dir, e.name)
    && r.past[k].call == DidFstat(e.dstId, true)
    && var seen, read, copy := r.past[i].at, r.past[j].at, r.past[k].at;
       && (var x := Named(seen, r.dir, e.name);
           x.Some? && MatchesRecord(x.value, seen.inodes[x.value], e))
       && (var x := Named(read, r.dir, e.name);
           x.Some? && read.inodes[x.value].body == LinkBody(e.link))
       && e.haveDst && e.dstId in copy.inodes && copy.inodes[e.dstId].body == LinkBody(e.link)
       && (r.dir in quiet ==> !Repointed(seen, r.before, r.dir, e.name) && !Repointed(read, r.before, r.dir, e.name))
  }

  predicate IsLookAt(c: Call, dir: Key, name: string) {
    c.DidLstat? && c.dir == dir && c.name == name && c.answer.Found?
  }

  /** The name came to mean another object.  A link's text cannot be rewritten, so
      another body under the same number is another object as well. */
  predicate Repointed(a: World, b: World, dir: Key, name: string) {
    var x, y := Named(a, dir, name), Named(b, dir, name);
    !(x.Some? && y == x && b.inodes[x.value].body == a.inodes[x.value].body)
  }

  /** A link's removal is of the recorded inode, as it was looked at, exactly when the
      name was not re-pointed since that look; of the inode whose text was read exactly
      when it was not re-pointed since the read; and of the recorded link in both senses
      when it was re-pointed after neither. */
  lemma RemovedLinkIsTheRecordedIff(r: Removal, e: CopiedEntry, quiet: set<Key>, from: nat, i: nat, j: nat, k: nat)
    requires e.LeafEntry? && e.kind.KindLink? && r.name == e.name
    requires LinkProved(r, e, quiet, from, i, j, k) && KernelSound(r)
    ensures var seen := r.past[i].at;
            && e.id in seen.inodes
            && (!Repointed(seen, r.before, r.dir, r.name) <==>
                r.key == e.id && r.before.inodes[r.key].body == seen.inodes[e.id].body)
    ensures var read := r.past[j].at;
            !Repointed(read, r.before, r.dir, r.name) <==>
            Named(read, r.dir, r.name) == Some(r.key) && r.before.inodes[r.key].body == LinkBody(e.link)
    ensures r.dir in quiet ==> r.key == e.id && r.before.inodes[r.key].body == LinkBody(e.link)
    ensures !r.before.inodes[r.key].body.LinkBody? ==>
            Repointed(r.past[i].at, r.before, r.dir, r.name) && Repointed(r.past[j].at, r.before, r.dir, r.name)
  {
    assert Named(r.past[i].at, r.dir, r.name) == Some(e.id);
  }

  /** A directory, one link, its copy, and one file. */
  function LinkWorld(entries: map<string, Key>, bytes: seq<Byte>): World {
    var node := Inode(LinkBody("a"), 0, 0, 0, 1, 0, 0);
    World(0, map[], map[Key(1, 1) := node.(body := DirBody(entries)), Key(1, 2) := node,
                        Key(1, 3) := node.(body := FileBody(bytes)), Key(2, 2) := node])
  }

  lemma LinkReplaced(bytes: seq<Byte>) returns (w0: World, act: Act, w1: World)
    ensures w0 == LinkWorld(map["l" := Key(1, 2), "f" := Key(1, 3)], bytes) && MayAct({}, w0, act)
    ensures w1 == Apply(w0, act) && w1 == LinkWorld(map["l" := Key(1, 3)], bytes)
    ensures Evolves(w0, w1)
    ensures Named(w0, Key(1, 1), "l") == Some(Key(1, 2)) && Named(w1, Key(1, 1), "l") == Some(Key(1, 3))
  {
    w0 := LinkWorld(map["l" := Key(1, 2), "f" := Key(1, 3)], bytes);
    act := Touch(Key(1, 1), w0.inodes[Key(1, 1)].(body := DirBody(map["l" := Key(1, 3)])));
    w1 := Apply(w0, act);
    assert w1.inodes == LinkWorld(map["l" := Key(1, 3)], bytes).inodes;
  }

  lemma NothingNames(w: World, w': World, dir: Key, name: string, k: Key)
    requires Named(w, dir, name) == Some(k) && w' == Detached(w, dir, name)
    requires forall d, n | Named(w, d, n) == Some(k) :: d == dir && n == name
    ensures forall d, n :: Named(w', d, n) != Some(k)
  {
    assert forall d, n :: Named(w', d, n) == Some(k) ==> Named(w, d, n) == Some(k);
  }

  function ReplacedEntry(): CopiedEntry {
    LeafEntry("l", true, KindLink, Key(1, 2), 1, 0, 0, 1, 0, 0, 0, "a", "l", true, Key(2, 2), 1, 0, 0)
  }

  /** The calls CheckAndUnlinkLink makes, and its caller's before them. */
  function LinkCalls(w0: World, w1: World): seq<Event>
    requires Named(w0, Key(1, 1), "l") == Some(Key(1, 2)) && Key(2, 2) in w1.inodes
  {
    var found := DidLstat(Key(1, 1), "l", Found(Key(1, 2), w0.inodes[Key(1, 2)]));
    [Event(found, w0, w0), Event(found, w0, w0),
     Event(DidLstat(Key(2, 1), "l", Found(Key(2, 2), w1.inodes[Key(2, 2)])), w1, w1),
     Event(DidOpen(Key(2, 1), "l", Some(Key(2, 2))), w1, w1),
     Event(DidFstat(Key(2, 2), true), w1, w1), Event(DidFstat(Key(2, 2), true), w1, w1)]
  }

  function WrongRemoval(w0: World, w1: World): (r: Removal)
    requires Named(w0, Key(1, 1), "l") == Some(Key(1, 2)) && Key(2, 2) in w1.inodes
    requires Named(w1, Key(1, 1), "l") == Some(Key(1, 3))
  {
    Removal(Key(1, 1), "l", Key(1, 3), w1, Detached(w1, Key(1, 1), "l"), LinkCalls(w0, w1))
  }

  lemma LinkReplacedIsProved(bytes: seq<Byte>, w0: World, w1: World)
    requires w0 == LinkWorld(map["l" := Key(1, 2), "f" := Key(1, 3)], bytes) && w1 == LinkWorld(map["l" := Key(1, 3)], bytes)
    requires Named(w0, Key(1, 1), "l") == Some(Key(1, 2)) && Named(w1, Key(1, 1), "l") == Some(Key(1, 3))
    ensures LinkProved(WrongRemoval(w0, w1), ReplacedEntry(), {}, 0, 0, 1, 5) && KernelSound(WrongRemoval(w0, w1))
  {
    hide Detached, HeldLink;
  }

  /** What the window costs, for any content: the name is looked at twice, another
      process renames its own file over it, the copy is looked at, and the unlink
      removes that file.  The whole log is one the ledger licenses; the file was never
      recorded and never copied, no other file exists, and afterwards nothing names
      it. */
  lemma LinkWindow(bytes: seq<Byte>)
    returns (w0: World, act: Act, r: Removal, e: CopiedEntry)
    ensures e.LeafEntry? && e.kind.KindLink? && e.recorded && MayAct({}, w0, act)
    ensures r.before == Apply(w0, act) && Named(r.before, r.dir, e.name).Some? && r.after == Detached(r.before, r.dir, e.name)
    ensures forall i | 0 <= i < |r.past| :: r.past[i].at == if i < 2 then w0 else r.before
    ensures LinkProved(r, e, {}, 0, 0, 1, 5)
    ensures NewlyLicensed([], [r], 0, r.dir, e, [], e.id.dev, e.dstId.dev, {})
    ensures r.key in r.before.inodes && r.before.inodes[r.key].body == FileBody(bytes) && r.key != e.id
    ensures forall k | k in r.before.inodes && r.before.inodes[k].body.FileBody? :: k == r.key
    ensures forall d, n :: Named(r.after, d, n) != Some(r.key)
  {
    hide Detached, Evolves, LinkProved, KernelSound, Stamp, Repointed;
    var w1;
    w0, act, w1 := LinkReplaced(bytes);
    e, r := ReplacedEntry(), WrongRemoval(w0, w1);
    LinkReplacedIsProved(bytes, w0, w1);
    assert Licensed(r, None, 0, r.dir, e, [], 1, 2, {}) by {
      assert EntryProved(r, None, 0, e, [], 1, 2, {});
    }
    NothingNames(w1, r.after, r.dir, r.name, r.key);
  }

  /** A directory's removal: at the unlink it was the recorded inode and empty. */
  ghost predicate DirProved(r: Removal, rec: CopiedDir) {
    && r.key == rec.id && r.key in r.before.inodes
    && r.before.inodes[r.key].body.DirBody? && r.before.inodes[r.key].body.entries == map[]
  }

  /** From where in the run a look counts for a removal: from the start of the delete on,
      and from the removal before it. */
  function Since(prev: Option<Removal>, from: nat): (n: nat)
    ensures n >= from && (prev.Some? ==> n > |prev.value.past|)
  {
    if prev.Some? && |prev.value.past| + 1 > from then |prev.value.past| + 1 else from
  }

  /** This job looked at the held directory, and it had the permissions and owner it was
      recorded with. */
  predicate IsLookedAt(x: Event, rec: CopiedDir) {
    x.call == DidFstat(rec.id, true) && rec.id in x.at.inodes && StillTheRecorded(rec.id, x.at.inodes[rec.id], rec)
  }

  ghost predicate HeldSince(past: seq<Event>, since: nat, rec: CopiedDir) {
    exists i :: since <= i < |past| && IsLookedAt(past[i], rec)
  }

  /** Every directory above an entry was looked at again for this one removal. */
  ghost predicate ChainHeld(past: seq<Event>, since: nat, chain: seq<CopiedDir>) {
    forall i | 0 <= i < |chain| :: HeldSince(past, since, chain[i])
  }

  lemma ChainHeldLater(past: seq<Event>, past': seq<Event>, since: nat, chain: seq<CopiedDir>)
    requires ChainHeld(past, since, chain) && past <= past'
    ensures ChainHeld(past', since, chain)
  {
    forall i | 0 <= i < |chain| ensures HeldSince(past', since, chain[i]) {
      assert HeldSince(past, since, chain[i]);
      var n :| since <= n < |past| && IsLookedAt(past[n], chain[i]);
      assert past'[n] == past[n];
    }
  }

  /** src and dst are the filesystems of the source root's parent and of the chosen
      destination, whose clocks are the ones read.  An entry of a sub-mount is proved by
      a clock that is not its own, so nothing is claimed for it.  chain is the
      directories from the root down to the one the entry is in, and for a directory
      itself as well.  from is where in the run the delete began. */
  ghost predicate EntryProved(r: Removal, prev: Option<Removal>, from: nat, e: CopiedEntry, chain: seq<CopiedDir>,
                              src: nat, dst: nat, quiet: set<Key>) {
    match e
    case DirEntry(_, rec) =>
      ChainHeld(r.past, Since(prev, from), chain + [rec]) && DirProved(r, rec)
    case LeafEntry(_, recorded, kind, _, _, _, _, _, _, _, _, _, _, _, _, _, _, _) =>
      && recorded && ChainHeld(r.past, Since(prev, from), chain)
      && (kind.KindRegular? && e.id.dev == src && e.dstId.dev == dst ==>
            exists i: nat :: RegularProved(r, e, from, i))
      && (kind.KindLink? ==> exists i: nat, j: nat, k: nat :: LinkProved(r, e, quiet, from, i, j, k))
  }

  /** The removal is of an entry the ledger holds, out of the directory the ledger
      places it in, and that entry was proved. */
  ghost predicate Licensed(r: Removal, prev: Option<Removal>, from: nat, parent: Key, e: CopiedEntry, chain: seq<CopiedDir>,
                           src: nat, dst: nat, quiet: set<Key>)
    decreases e
  {
    || (r.dir == parent && r.name == e.name && EntryProved(r, prev, from, e, chain, src, dst, quiet))
    || (e.DirEntry? && exists i :: 0 <= i < |e.dir.entries|
                                   && Licensed(r, prev, from, e.dir.id, e.dir.entries[i], chain + [e.dir], src, dst, quiet))
  }

  /** What the kernel guarantees of any unlink: the name meant that inode, and a
      directory was empty. */
  ghost predicate KernelSound(r: Removal) {
    && Named(r.before, r.dir, r.name) == Some(r.key)
    && (r.before.inodes[r.key].body.DirBody? ==> r.before.inodes[r.key].body.entries == map[])
  }

  function Previous(log: seq<Removal>, i: nat): Option<Removal>
    requires i <= |log|
  {
    if i == 0 then None else Some(log[i - 1])
  }

  /** Everything the log gained is licensed by e, as an entry of parent. */
  ghost predicate NewlyLicensed(was: seq<Removal>, now: seq<Removal>, from: nat, parent: Key, e: CopiedEntry, chain: seq<CopiedDir>,
                                src: nat, dst: nat, quiet: set<Key>) {
    was <= now && forall i | |was| <= i < |now| ::
                    Licensed(now[i], Previous(now, i), from, parent, e, chain, src, dst, quiet) && KernelSound(now[i])
  }

  lemma NothingNew(log: seq<Removal>, from: nat, parent: Key, e: CopiedEntry, chain: seq<CopiedDir>, src: nat, dst: nat, quiet: set<Key>)
    ensures NewlyLicensed(log, log, from, parent, e, chain, src, dst, quiet)
  {
  }

  lemma LicensedTrans(a: seq<Removal>, b: seq<Removal>, c: seq<Removal>, from: nat, parent: Key, e: CopiedEntry, chain: seq<CopiedDir>,
                      src: nat, dst: nat, quiet: set<Key>)
    requires NewlyLicensed(a, b, from, parent, e, chain, src, dst, quiet) && NewlyLicensed(b, c, from, parent, e, chain, src, dst, quiet)
    ensures NewlyLicensed(a, c, from, parent, e, chain, src, dst, quiet)
  {
    hide Licensed, KernelSound;
    forall i | |a| <= i < |c|
      ensures Licensed(c[i], Previous(c, i), from, parent, e, chain, src, dst, quiet) && KernelSound(c[i])
    {
      if i < |b| {
        assert c[i] == b[i] && Previous(c, i) == Previous(b, i);
      }
    }
  }

  lemma LinkRemovalIsLicensed(was: seq<Removal>, r: Removal, from: nat, e: CopiedEntry, chain: seq<CopiedDir>, src: nat, dst: nat,
                              quiet: set<Key>, i: nat, j: nat, k: nat)
    requires e.LeafEntry? && e.recorded && e.kind.KindLink? && r.name == e.name
    requires LinkProved(r, e, quiet, from, i, j, k) && KernelSound(r)
    requires ChainHeld(r.past, Since(Previous(was, |was|), from), chain)
    ensures NewlyLicensed(was, was + [r], from, r.dir, e, chain, src, dst, quiet)
  {
    hide LinkProved, KernelSound, ChainHeld;
    var now := was + [r];
    assert Previous(now, |was|) == Previous(was, |was|);
    assert EntryProved(r, Previous(was, |was|), from, e, chain, src, dst, quiet);
    assert Licensed(now[|was|], Previous(now, |was|), from, r.dir, e, chain, src, dst, quiet);
  }

  /** i may be anything where the clocks read are not the entry's own. */
  lemma RegularRemovalIsLicensed(was: seq<Removal>, r: Removal, from: nat, e: CopiedEntry, chain: seq<CopiedDir>, src: nat, dst: nat,
                                 quiet: set<Key>, i: nat)
    requires e.LeafEntry? && e.recorded && e.kind.KindRegular? && r.name == e.name
    requires e.id.dev == src && e.dstId.dev == dst ==> RegularProved(r, e, from, i)
    requires KernelSound(r) && ChainHeld(r.past, Since(Previous(was, |was|), from), chain)
    ensures NewlyLicensed(was, was + [r], from, r.dir, e, chain, src, dst, quiet)
  {
    hide RegularProved, KernelSound, ChainHeld;
    var now := was + [r];
    assert Previous(now, |was|) == Previous(was, |was|);
    assert EntryProved(r, Previous(was, |was|), from, e, chain, src, dst, quiet);
    assert Licensed(now[|was|], Previous(now, |was|), from, r.dir, e, chain, src, dst, quiet);
  }

  lemma DirRemovalIsLicensed(was: seq<Removal>, r: Removal, from: nat, rec: CopiedDir, chain: seq<CopiedDir>, src: nat, dst: nat,
                             quiet: set<Key>)
    requires KernelSound(r) && r.key == rec.id && r.before.inodes[r.key].body.DirBody?
    requires ChainHeld(r.past, Since(Previous(was, |was|), from), chain + [rec])
    ensures NewlyLicensed(was, was + [r], from, r.dir, DirEntry(r.name, rec), chain, src, dst, quiet)
  {
    hide ChainHeld;
    var now, e := was + [r], DirEntry(r.name, rec);
    assert Previous(now, |was|) == Previous(was, |was|);
    assert EntryProved(r, Previous(was, |was|), from, e, chain, src, dst, quiet);
    assert Licensed(now[|was|], Previous(now, |was|), from, r.dir, e, chain, src, dst, quiet);
  }

  /** What a child licenses inside its directory, the directory's own entry licenses. */
  lemma ChildIsLicensed(a: seq<Removal>, b: seq<Removal>, c: seq<Removal>, from: nat, parent: Key, e: CopiedEntry, i: nat,
                        chain: seq<CopiedDir>, src: nat, dst: nat, quiet: set<Key>)
    requires e.DirEntry? && i < |e.dir.entries|
    requires NewlyLicensed(a, b, from, parent, e, chain, src, dst, quiet)
    requires NewlyLicensed(b, c, from, e.dir.id, e.dir.entries[i], chain + [e.dir], src, dst, quiet)
    ensures NewlyLicensed(a, c, from, parent, e, chain, src, dst, quiet)
  {
    forall j | |b| <= j < |c|
      ensures Licensed(c[j], Previous(c, j), from, parent, e, chain, src, dst, quiet) && KernelSound(c[j])
    {
      assert Licensed(c[j], Previous(c, j), from, e.dir.id, e.dir.entries[i], chain + [e.dir], src, dst, quiet);
    }
    LicensedTrans(a, b, c, from, parent, e, chain, src, dst, quiet);
  }

  /** The ledger writes down this name in this directory. */
  ghost predicate Recorded(dir: Key, name: string, parent: Key, e: CopiedEntry)
    decreases e
  {
    || (dir == parent && name == e.name)
    || (e.DirEntry? && exists i :: 0 <= i < |e.dir.entries| && Recorded(dir, name, e.dir.id, e.dir.entries[i]))
  }

  /** x is the entry at the end of this chain of recorded directories, and is in dir. */
  ghost predicate InLedger(x: CopiedEntry, dir: Key, above: seq<CopiedDir>, parent: Key, e: CopiedEntry)
    decreases e
  {
    || (x == e && dir == parent && above == [])
    || (e.DirEntry? && |above| > 0 && above[0] == e.dir
        && exists i :: 0 <= i < |e.dir.entries| && InLedger(x, dir, above[1..], e.dir.id, e.dir.entries[i]))
  }

  lemma {:induction false} LicensedIsRecorded(r: Removal, prev: Option<Removal>, from: nat, parent: Key, e: CopiedEntry, chain: seq<CopiedDir>,
                                              src: nat, dst: nat, quiet: set<Key>)
    requires Licensed(r, prev, from, parent, e, chain, src, dst, quiet)
    ensures Recorded(r.dir, r.name, parent, e)
    decreases e
  {
    if !(r.dir == parent && r.name == e.name) {
      var i :| 0 <= i < |e.dir.entries| && Licensed(r, prev, from, e.dir.id, e.dir.entries[i], chain + [e.dir], src, dst, quiet);
      LicensedIsRecorded(r, prev, from, e.dir.id, e.dir.entries[i], chain + [e.dir], src, dst, quiet);
    }
  }

  /** Each removal is answered for by one entry of the ledger, with every directory above
      that entry looked at again since the removal before it. */
  lemma {:induction false} LicensedByOneEntry(r: Removal, prev: Option<Removal>, from: nat, parent: Key, e: CopiedEntry, chain: seq<CopiedDir>,
                                              src: nat, dst: nat, quiet: set<Key>)
    returns (x: CopiedEntry, above: seq<CopiedDir>)
    requires Licensed(r, prev, from, parent, e, chain, src, dst, quiet)
    ensures InLedger(x, r.dir, above, parent, e) && r.name == x.name
    ensures EntryProved(r, prev, from, x, chain + above, src, dst, quiet)
    ensures ChainHeld(r.past, Since(prev, from), chain + above)
    decreases e
  {
    hide HeldSince, RegularProved, LinkProved, DirProved, Since;
    if r.dir == parent && r.name == e.name && EntryProved(r, prev, from, e, chain, src, dst, quiet) {
      x, above := e, [];
      assert chain + above == chain;
      if e.DirEntry? {
        assert forall i | 0 <= i < |chain| :: (chain + [e.dir])[i] == chain[i];
      }
    } else {
      var i :| 0 <= i < |e.dir.entries| && Licensed(r, prev, from, e.dir.id, e.dir.entries[i], chain + [e.dir], src, dst, quiet);
      var rest;
      x, rest := LicensedByOneEntry(r, prev, from, e.dir.id, e.dir.entries[i], chain + [e.dir], src, dst, quiet);
      above := [e.dir] + rest;
      assert above[1..] == rest && chain + [e.dir] + rest == chain + above;
    }
  }

  /** Nothing this job did not write down is removed, and a directory that still holds
      anything stays, so every ancestor of an unrecorded entry stays too. */
  lemma UnrecordedStays(log: seq<Removal>, from: nat, parent: Key, e: CopiedEntry, src: nat, dst: nat, quiet: set<Key>, dir: Key, name: string)
    requires NewlyLicensed([], log, from, parent, e, [], src, dst, quiet)
    ensures !Recorded(dir, name, parent, e) ==> forall r | r in log :: !(r.dir == dir && r.name == name)
    ensures forall r | r in log :: Named(r.before, dir, name).Some? ==> r.key != dir
  {
    forall i | 0 <= i < |log|
      ensures (log[i].dir == dir && log[i].name == name ==> Recorded(dir, name, parent, e))
              && (Named(log[i].before, dir, name).Some? ==> log[i].key != dir)
    {
      LicensedIsRecorded(log[i], Previous(log, i), from, parent, e, [], src, dst, quiet);
    }
  }

  /** What a removed regular file was: either a recorded file still in its recorded
      state, of which the published copy held exactly the bytes at an instant of the
      delete after which it was never written; or something another process put at the
      name of a recorded link after both looks at it, in a directory within others'
      reach. */
  ghost predicate FileAccounted(r: Removal, from: nat, x: CopiedEntry, quiet: set<Key>) {
    && x.LeafEntry? && x.recorded && x.name == r.name
    && match x.kind
       case KindRegular => exists i: nat :: RegularProved(r, x, from, i)
       case KindLink =>
         && r.dir !in quiet
         && exists i: nat, j: nat, k: nat ::
              && LinkProved(r, x, quiet, from, i, j, k)
              && Repointed(r.past[i].at, r.before, r.dir, r.name) && Repointed(r.past[j].at, r.before, r.dir, r.name)
  }

  /** Every regular file a move unlinked, where each side is one filesystem. */
  lemma RemovedFilesAreAtTheDestination(log: seq<Removal>, i: nat, from: nat, parent: Key, e: CopiedEntry, src: nat, dst: nat, quiet: set<Key>)
    returns (x: CopiedEntry, above: seq<CopiedDir>)
    requires NewlyLicensed([], log, from, parent, e, [], src, dst, quiet) && i < |log|
    requires log[i].before.inodes[log[i].key].body.FileBody?
    requires forall x, dir, above | InLedger(x, dir, above, parent, e) && x.LeafEntry? :: x.id.dev == src && x.dstId.dev == dst
    ensures InLedger(x, log[i].dir, above, parent, e) && FileAccounted(log[i], from, x, quiet)
    ensures ChainHeld(log[i].past, Since(Previous(log, i), from), above)
    ensures log[i].dir in quiet ==> x.kind.KindRegular? && exists n: nat :: RegularProved(log[i], x, from, n)
  {
    hide ChainHeld, RegularProved;
    var r := log[i];
    x, above := LicensedByOneEntry(r, Previous(log, i), from, parent, e, [], src, dst, quiet);
    assert [] + above == above;
    assert x.LeafEntry?;
    if x.kind.KindLink? {
      var a: nat, b: nat, c: nat :| LinkProved(r, x, quiet, from, a, b, c);
      RemovedLinkIsTheRecordedIff(r, x, quiet, from, a, b, c);
    }
  }
}
