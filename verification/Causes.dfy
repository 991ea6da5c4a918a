/** Why a move keeps something.  Each cause is an entry of the run, or a line of the
    ledger: where there is none, what was copied is removed. */
module Causes {
  import opened Basics
  import opened World
  import opened Ledger

  /** The first reading of a clock, and how many more are waited for. */
  const CTIME_WAIT_TRIES: nat := 10
  const CLOCK_READINGS: nat := CTIME_WAIT_TRIES + 1

  /** A call that did not do what it was asked. */
  predicate CallFailed(c: Call) {
    match c
    case DidLstat(_, _, answer) => answer.Failed?
    case DidFstat(_, ok) => !ok
    case DidOpen(_, _, held) => held.None?
    case DidRead(_, failed) => failed
    case DidClock(_, now) => now.None?
    case DidSync(_, ok) => !ok
    case DidUnlink(_, _, gone) => gone.None?
    case DidWrite(_, ok) => !ok
    case DidOwn(_, ok) => !ok
    case DidClose(_, ok) => !ok
    case DidFail => true
    case _ => false
  }

  ghost predicate SomeFailed(past: seq<Event>, from: nat) {
    exists i :: from <= i < |past| && CallFailed(past[i].call)
  }

  /** A look found the inode otherwise than an earlier one did. */
  ghost predicate Changed(past: seq<Event>, from: nat, k: Key) {
    exists i, j :: from <= i < j < |past| && Differs(past[i].at, past[j].at, k)
  }

  predicate Differs(a: World, b: World, k: Key) {
    k in a.inodes && k in b.inodes && a.inodes[k] != b.inodes[k]
  }

  /** The clock was read once and ten times more, and was never past ct. */
  ghost predicate Pending(past: seq<Event>, from: nat, dir: Key, ct: int) {
    exists i: nat :: from <= i && NotPast(past, i, CLOCK_READINGS, dir, ct)
  }

  ghost predicate NotPast(past: seq<Event>, i: nat, n: nat, dir: Key, ct: int) {
    && i + n <= |past|
    && forall h | i <= h < i + n :: past[h].call.DidClock? && past[h].call.dir == dir
                                    && past[h].call.now.Some? && past[h].call.now.value <= ct
  }

  ghost predicate NotSettled(past: seq<Event>, from: nat, dir: Key, ct: int) {
    SomeFailed(past, from) || Pending(past, from, dir, ct)
  }

  // ----- one copied file or link -----

  /** The source's name is gone or means another inode, or its inode is not as it was
      recorded. */
  predicate SourceOff(x: Event, parent: Key, e: CopiedEntry)
    requires e.LeafEntry?
  {
    match x.call
    case DidLstat(d, n, answer) =>
      && d == parent && n == e.name
      && (answer.NotExist? || (answer.Found? && (!MatchesRecord(answer.key, answer.node, e) || TextOff(answer.node, e))))
    case DidOpen(d, n, held) => d == parent && n == e.name && held.Some? && held != Some(e.id)
    case DidFstat(k, ok) => ok && k == e.id && k in x.at.inodes && !MatchesRecord(k, x.at.inodes[k], e)
    case _ => false
  }

  /** Of a link, the target text is not the recorded one. */
  predicate TextOff(node: Inode, e: CopiedEntry)
    requires e.LeafEntry?
  {
    e.kind.KindLink? && node.body != LinkBody(e.link)
  }

  /** And the same of the published copy, which may also be gone. */
  predicate CopyOff(x: Event, dstDir: Key, e: CopiedEntry)
    requires e.LeafEntry?
  {
    match x.call
    case DidLstat(d, n, answer) =>
      d == dstDir && n == e.dstName && (answer.NotExist? || (answer.Found? && !PublishedMatches(answer.key, answer.node, e)))
    case DidOpen(d, n, held) => d == dstDir && n == e.dstName && held.Some? && held != Some(e.dstId)
    case DidFstat(k, ok) =>
      ok && k == e.dstId && k in x.at.inodes && (!PublishedMatches(k, x.at.inodes[k], e) || TextOff(x.at.inodes[k], e))
    case _ => false
  }

  /** At this instant the two files held different bytes. */
  predicate BytesDiffer(x: Event, e: CopiedEntry)
    requires e.LeafEntry?
  {
    && e.id in x.at.inodes && e.dstId in x.at.inodes
    && x.at.inodes[e.id].body != x.at.inodes[e.dstId].body
  }

  ghost predicate SourceTrouble(past: seq<Event>, from: nat, parent: Key, e: CopiedEntry)
    requires e.LeafEntry?
  {
    exists i :: from <= i < |past| && SourceOff(past[i], parent, e)
  }

  /** What the source's half of a comparison stops at. */
  ghost predicate SourceCause(past: seq<Event>, from: nat, parent: Key, e: CopiedEntry, clock: Key)
    requires e.LeafEntry?
  {
    || SomeFailed(past, from) || SourceTrouble(past, from, parent, e)
    || Changed(past, from, e.id) || SourceUnsettled(past, from, clock, e.id)
  }

  ghost predicate CopyCause(past: seq<Event>, from: nat, dstDir: Key, e: CopiedEntry)
    requires e.LeafEntry?
  {
    SomeFailed(past, from) || CopyTrouble(past, from, dstDir, e)
  }

  /** Two held files looked at: a call failed, one is not as it was, or they differ. */
  predicate HeldOff(x: Event, a: Key, b: Key, na: Inode, nb: Inode) {
    || CallFailed(x.call)
    || (a in x.at.inodes && b in x.at.inodes
        && (x.at.inodes[a] != na || x.at.inodes[b] != nb || x.at.inodes[a].body != x.at.inodes[b].body))
  }

  ghost predicate HeldCause(past: seq<Event>, from: nat, a: Key, b: Key, na: Inode, nb: Inode) {
    exists i :: from <= i < |past| && HeldOff(past[i], a, b, na, nb)
  }

  ghost predicate CopyTrouble(past: seq<Event>, from: nat, dstDir: Key, e: CopiedEntry)
    requires e.LeafEntry?
  {
    !e.haveDst || exists i :: from <= i < |past| && CopyOff(past[i], dstDir, e)
  }

  ghost predicate BytesTrouble(past: seq<Event>, from: nat, e: CopiedEntry)
    requires e.LeafEntry?
  {
    e.size != e.dstSize || exists i :: from <= i < |past| && BytesDiffer(past[i], e)
  }

  /** The source was looked at, and the clock could not be shown to be past it. */
  ghost predicate SourceUnsettled(past: seq<Event>, from: nat, clock: Key, k: Key) {
    exists i :: from <= i < |past| && past[i].call == DidFstat(k, true) && k in past[i].at.inodes
                && Pending(past, from, clock, past[i].at.inodes[k].ctime)
  }

  /** Everything a recorded file or link is kept for.  srcClock and dstClock are the
      directories whose clocks are read; of a file on another filesystem than theirs
      nothing is known. */
  ghost predicate LeafCause(past: seq<Event>, from: nat, parent: Key, dstDir: Key, e: CopiedEntry, srcClock: Key, dstClock: Key)
    requires e.LeafEntry?
  {
    || !e.recorded || SomeFailed(past, from)
    || SourceTrouble(past, from, parent, e) || CopyTrouble(past, from, dstDir, e)
    || (e.kind.KindRegular?
        && (|| BytesTrouble(past, from, e) || Changed(past, from, e.id) || Changed(past, from, e.dstId)
            || SourceUnsettled(past, from, srcClock, e.id) || Pending(past, from, dstClock, e.dstCtime)
            || e.id.dev != srcClock.dev || e.dstId.dev != dstClock.dev))
  }

  // ----- directories -----

  /** A look at a held directory found other permissions or another owner. */
  predicate DirOff(x: Event, rec: CopiedDir) {
    x.call == DidFstat(rec.id, true) && rec.id in x.at.inodes && !StillTheRecorded(rec.id, x.at.inodes[rec.id], rec)
  }

  ghost predicate DirTrouble(past: seq<Event>, from: nat, rec: CopiedDir) {
    exists i :: from <= i < |past| && DirOff(past[i], rec)
  }

  /** Its name, or its copy's, means another inode. */
  predicate NameOff(x: Event, parent: Key, dstParent: Key, name: string, rec: CopiedDir) {
    match x.call
    case DidLstat(d, n, answer) => d == parent && n == name && answer.Found? && answer.key != rec.id
    case DidOpen(d, n, held) =>
      || (d == parent && n == name && held.Some? && held != Some(rec.id))
      || (d == dstParent && n == rec.dstName && held.Some? && held != Some(rec.dstId))
    case _ => false
  }

  ghost predicate NameTrouble(past: seq<Event>, from: nat, parent: Key, dstParent: Key, name: string, rec: CopiedDir) {
    exists i :: from <= i < |past| && NameOff(past[i], parent, dstParent, name, rec)
  }

  ghost predicate ChainTrouble(past: seq<Event>, from: nat, chain: seq<CopiedDir>) {
    exists i :: 0 <= i < |chain| && DirTrouble(past, from, chain[i])
  }

  /** Why an entry of the ledger is kept: itself, or something in it. */
  ghost predicate Cause(past: seq<Event>, from: nat, parent: Key, dstParent: Key, e: CopiedEntry, srcClock: Key, dstClock: Key)
    decreases e
  {
    match e
    case LeafEntry(_, _, _, _, _, _, _, _, _, _, _, _, _, _, _, _, _, _) =>
      LeafCause(past, from, parent, dstParent, e, srcClock, dstClock)
    case DirEntry(name, rec) =>
      || DirCause(past, from, parent, dstParent, name, rec)
      || exists i :: 0 <= i < |rec.entries| && Cause(past, from, rec.id, rec.dstId, rec.entries[i], srcClock, dstClock)
  }

  /** And the directory's own causes, apart from what is in it. */
  ghost predicate DirCause(past: seq<Event>, from: nat, parent: Key, dstParent: Key, name: string, rec: CopiedDir) {
    || rec.dstName == "" || !rec.haveDst || SomeFailed(past, from)
    || DirTrouble(past, from, rec) || NameTrouble(past, from, parent, dstParent, name, rec)
  }

  // ----- a cause stays one in any longer part of the run -----

  lemma PendingLater(past: seq<Event>, past': seq<Event>, from: nat, from': nat, dir: Key, ct: int)
    requires past <= past' && from' <= from && Pending(past, from, dir, ct)
    ensures Pending(past', from', dir, ct)
  {
    var i: nat :| from <= i && NotPast(past, i, CLOCK_READINGS, dir, ct);
    assert NotPast(past', i, CLOCK_READINGS, dir, ct);
  }

  lemma FailedLater(past: seq<Event>, past': seq<Event>, from: nat, from': nat)
    requires past <= past' && from' <= from && SomeFailed(past, from)
    ensures SomeFailed(past', from')
  {
    var i :| from <= i < |past| && CallFailed(past[i].call);
    assert CallFailed(past'[i].call);
  }

  lemma ChangedLater(past: seq<Event>, past': seq<Event>, from: nat, from': nat, k: Key)
    requires past <= past' && from' <= from && Changed(past, from, k)
    ensures Changed(past', from', k)
  {
    var i, j :| from <= i < j < |past| && Differs(past[i].at, past[j].at, k);
    assert Differs(past'[i].at, past'[j].at, k);
  }

  lemma DirTroubleLater(past: seq<Event>, past': seq<Event>, from: nat, from': nat, rec: CopiedDir)
    requires past <= past' && from' <= from && DirTrouble(past, from, rec)
    ensures DirTrouble(past', from', rec)
  {
    var i :| from <= i < |past| && DirOff(past[i], rec);
    assert DirOff(past'[i], rec);
  }

  lemma ChainTroubleLater(past: seq<Event>, past': seq<Event>, from: nat, from': nat, chain: seq<CopiedDir>)
    requires past <= past' && from' <= from && ChainTrouble(past, from, chain)
    ensures ChainTrouble(past', from', chain)
  {
    var i :| 0 <= i < |chain| && DirTrouble(past, from, chain[i]);
    DirTroubleLater(past, past', from, from', chain[i]);
  }

  lemma UnsettledLater(past: seq<Event>, past': seq<Event>, from: nat, from': nat, clock: Key, k: Key)
    requires past <= past' && from' <= from && SourceUnsettled(past, from, clock, k)
    ensures SourceUnsettled(past', from', clock, k)
  {
    var i :| from <= i < |past| && past[i].call == DidFstat(k, true) && k in past[i].at.inodes
             && Pending(past, from, clock, past[i].at.inodes[k].ctime);
    assert past'[i] == past[i];
    PendingLater(past, past', from, from', clock, past[i].at.inodes[k].ctime);
  }

  lemma LeafLater(past: seq<Event>, past': seq<Event>, from: nat, from': nat, parent: Key, dstDir: Key, e: CopiedEntry, s: Key, d: Key)
    requires past <= past' && from' <= from && e.LeafEntry? && LeafCause(past, from, parent, dstDir, e, s, d)
    ensures LeafCause(past', from', parent, dstDir, e, s, d)
  {
    hide SourceOff, CopyOff, BytesDiffer, Pending, SomeFailed, Changed, SourceUnsettled;
    if SomeFailed(past, from) { FailedLater(past, past', from, from'); }
    if SourceTrouble(past, from, parent, e) {
      var i :| from <= i < |past| && SourceOff(past[i], parent, e);
      assert SourceOff(past'[i], parent, e);
    }
    if e.haveDst && CopyTrouble(past, from, dstDir, e) {
      var i :| from <= i < |past| && CopyOff(past[i], dstDir, e);
      assert CopyOff(past'[i], dstDir, e);
    }
    if e.size == e.dstSize && BytesTrouble(past, from, e) {
      var i :| from <= i < |past| && BytesDiffer(past[i], e);
      assert BytesDiffer(past'[i], e);
    }
    if Changed(past, from, e.id) { ChangedLater(past, past', from, from', e.id); }
    if Changed(past, from, e.dstId) { ChangedLater(past, past', from, from', e.dstId); }
    if SourceUnsettled(past, from, s, e.id) { UnsettledLater(past, past', from, from', s, e.id); }
    if Pending(past, from, d, e.dstCtime) { PendingLater(past, past', from, from', d, e.dstCtime); }
  }

  lemma {:induction false} CauseLater(past: seq<Event>, past': seq<Event>, from: nat, from': nat, parent: Key, dstParent: Key,
                                      e: CopiedEntry, s: Key, d: Key)
    requires past <= past' && from' <= from && Cause(past, from, parent, dstParent, e, s, d)
    ensures Cause(past', from', parent, dstParent, e, s, d)
    decreases e
  {
    hide LeafCause, DirCause;
    match e
    case LeafEntry(_, _, _, _, _, _, _, _, _, _, _, _, _, _, _, _, _, _) =>
      LeafLater(past, past', from, from', parent, dstParent, e, s, d);
    case DirEntry(name, rec) =>
      if DirCause(past, from, parent, dstParent, name, rec) {
        DirCauseLater(past, past', from, from', parent, dstParent, name, rec);
      } else {
        var i :| 0 <= i < |rec.entries| && Cause(past, from, rec.id, rec.dstId, rec.entries[i], s, d);
        CauseLater(past, past', from, from', rec.id, rec.dstId, rec.entries[i], s, d);
      }
  }

  lemma DirCauseLater(past: seq<Event>, past': seq<Event>, from: nat, from': nat, parent: Key, dstParent: Key, name: string, rec: CopiedDir)
    requires past <= past' && from' <= from && DirCause(past, from, parent, dstParent, name, rec)
    ensures DirCause(past', from', parent, dstParent, name, rec)
  {
    hide SomeFailed, DirTrouble, NameTrouble;
    if SomeFailed(past, from) { FailedLater(past, past', from, from'); }
    if DirTrouble(past, from, rec) { DirTroubleLater(past, past', from, from', rec); }
    if NameTrouble(past, from, parent, dstParent, name, rec) {
      NameTroubleLater(past, past', from, from', parent, dstParent, name, rec);
    }
  }

  lemma NameTroubleLater(past: seq<Event>, past': seq<Event>, from: nat, from': nat, parent: Key, dstParent: Key, name: string, rec: CopiedDir)
    requires past <= past' && from' <= from && NameTrouble(past, from, parent, dstParent, name, rec)
    ensures NameTrouble(past', from', parent, dstParent, name, rec)
  {
    var i :| from <= i < |past| && NameOff(past[i], parent, dstParent, name, rec);
    assert NameOff(past'[i], parent, dstParent, name, rec);
  }

  // ----- from the parts to the entry -----

  lemma FailedIsCause(past: seq<Event>, from: nat, i: nat)
    requires from <= i < |past| && CallFailed(past[i].call)
    ensures SomeFailed(past, from)
  {
  }

  lemma SourceIsLeafCause(past: seq<Event>, past': seq<Event>, from: nat, from': nat, parent: Key, dstDir: Key, e: CopiedEntry, s: Key, d: Key)
    requires past <= past' && from' <= from && e.LeafEntry?
    requires SourceCause(past, from, parent, e, s) && (e.kind.KindRegular? || SomeFailed(past, from) || SourceTrouble(past, from, parent, e))
    ensures LeafCause(past', from', parent, dstDir, e, s, d)
  {
    hide SourceTrouble, CopyTrouble, BytesTrouble, Pending, SomeFailed, Changed, SourceUnsettled;
    assert LeafCause(past, from, parent, dstDir, e, s, d);
    LeafLater(past, past', from, from', parent, dstDir, e, s, d);
  }

  lemma CopyIsLeafCause(past: seq<Event>, past': seq<Event>, from: nat, from': nat, parent: Key, dstDir: Key, e: CopiedEntry, s: Key, d: Key)
    requires past <= past' && from' <= from && e.LeafEntry? && CopyCause(past, from, dstDir, e)
    ensures LeafCause(past', from', parent, dstDir, e, s, d)
  {
    hide SourceTrouble, CopyTrouble, BytesTrouble, Pending, SomeFailed, Changed, SourceUnsettled;
    assert LeafCause(past, from, parent, dstDir, e, s, d);
    LeafLater(past, past', from, from', parent, dstDir, e, s, d);
  }

  /** The held files were the recorded source and the published copy, each in the state
      an earlier look had found. */
  lemma HeldIsLeafCause(past: seq<Event>, from: nat, later: nat, g: nat, h: nat, parent: Key, dstDir: Key, e: CopiedEntry,
                        na: Inode, nb: Inode, s: Key, d: Key)
    requires e.LeafEntry? && e.kind.KindRegular? && HeldCause(past, later, e.id, e.dstId, na, nb)
    requires from <= g < later <= |past| && from <= h < later
    requires e.id in past[g].at.inodes && past[g].at.inodes[e.id] == na
    requires e.dstId in past[h].at.inodes && past[h].at.inodes[e.dstId] == nb
    ensures LeafCause(past, from, parent, dstDir, e, s, d)
  {
    hide SourceTrouble, CopyTrouble, Pending, SourceUnsettled;
    var i :| later <= i < |past| && HeldOff(past[i], e.id, e.dstId, na, nb);
    var w := past[i].at;
    if !CallFailed(past[i].call) {
      if w.inodes[e.id] != na {
        assert Differs(past[g].at, w, e.id);
      } else if w.inodes[e.dstId] != nb {
        assert Differs(past[h].at, w, e.dstId);
      } else {
        assert BytesDiffer(past[i], e);
      }
    }
  }

  /** The source was held and looked at, and then not settled; or looked at again and
      found with another change time. */
  lemma UnsettledIsCause(past: seq<Event>, past': seq<Event>, from: nat, parent: Key, e: CopiedEntry, clock: Key, ct: int)
    requires e.LeafEntry? && past <= past' && from < |past| && past[|past| - 1].call == DidFstat(e.id, true)
    requires e.id in past[|past| - 1].at.inodes && past[|past| - 1].at.inodes[e.id].ctime == ct
    requires NotSettled(past', |past|, clock, ct)
    ensures SourceCause(past', from, parent, e, clock)
  {
    if SomeFailed(past', |past|) {
      FailedLater(past', past', |past|, from);
    } else {
      PendingLater(past', past', |past|, from, clock, ct);
      assert past'[|past| - 1] == past[|past| - 1];
    }
  }

  lemma MovedIsCause(past: seq<Event>, past': seq<Event>, from: nat, parent: Key, e: CopiedEntry, clock: Key, ct: int)
    requires e.LeafEntry? && past <= past' && from < |past| && past[|past| - 1].call == DidFstat(e.id, true)
    requires e.id in past[|past| - 1].at.inodes && past[|past| - 1].at.inodes[e.id].ctime == ct
    requires SomeFailed(past', |past|)
             || (|past'| > |past| && e.id in past'[|past'| - 1].at.inodes && past'[|past'| - 1].at.inodes[e.id].ctime != ct)
    ensures SourceCause(past', from, parent, e, clock)
  {
    if SomeFailed(past', |past|) {
      FailedLater(past', past', |past|, from);
    } else {
      assert past'[|past| - 1] == past[|past| - 1];
      assert Differs(past'[|past| - 1].at, past'[|past'| - 1].at, e.id);
    }
  }

  lemma DifferentIsCause(past: seq<Event>, from: nat, a: Key, b: Key, na: Inode, nb: Inode)
    requires from < |past| && a in past[|past| - 1].at.inodes && b in past[|past| - 1].at.inodes
    requires var w := past[|past| - 1].at;
             w.inodes[a] == na && w.inodes[b] == nb && !SomeFailed(past, from) ==> na.body != nb.body
    ensures HeldCause(past, from, a, b, na, nb)
  {
    if SomeFailed(past, from) {
      var i :| from <= i < |past| && CallFailed(past[i].call);
      assert HeldOff(past[i], a, b, na, nb);
    } else {
      assert HeldOff(past[|past| - 1], a, b, na, nb);
    }
  }

  lemma HeldLater(past: seq<Event>, from: nat, later: nat, a: Key, b: Key, na: Inode, nb: Inode)
    requires from <= later && HeldCause(past, later, a, b, na, nb)
    ensures HeldCause(past, from, a, b, na, nb)
  {
  }

  lemma CopyOrSizeIsCause(past: seq<Event>, from: nat, later: nat, parent: Key, dstDir: Key, e: CopiedEntry, s: Key, d: Key)
    requires from <= later && e.LeafEntry? && e.kind.KindRegular? && (CopyCause(past, later, dstDir, e) || e.dstSize != e.size)
    ensures LeafCause(past, from, parent, dstDir, e, s, d)
  {
    if CopyCause(past, later, dstDir, e) {
      CopyIsLeafCause(past, past, later, from, parent, dstDir, e, s, d);
    } else {
      assert BytesTrouble(past, from, e);
    }
  }

  lemma FailedIsLeafCause(past: seq<Event>, from: nat, later: nat, parent: Key, dstDir: Key, e: CopiedEntry, s: Key, d: Key)
    requires from <= later && e.LeafEntry? && SomeFailed(past, later)
    ensures LeafCause(past, from, parent, dstDir, e, s, d)
  {
    FailedLater(past, past, later, from);
  }

  lemma OtherDeviceIsCause(past: seq<Event>, from: nat, parent: Key, dstDir: Key, e: CopiedEntry, s: Key, d: Key)
    requires e.LeafEntry? && e.kind.KindRegular? && (e.id.dev != s.dev || e.dstId.dev != d.dev)
    ensures LeafCause(past, from, parent, dstDir, e, s, d)
  {
  }

  lemma CopyCauseLater(past: seq<Event>, from: nat, later: nat, dstDir: Key, e: CopiedEntry)
    requires e.LeafEntry? && from <= later && CopyCause(past, later, dstDir, e)
    ensures CopyCause(past, from, dstDir, e)
  {
    if SomeFailed(past, later) { FailedLater(past, past, later, from); }
  }

  lemma UnrecordedIsCause(past: seq<Event>, from: nat, parent: Key, dstDir: Key, e: CopiedEntry, s: Key, d: Key)
    requires e.LeafEntry? && !e.recorded
    ensures LeafCause(past, from, parent, dstDir, e, s, d)
  {
  }

  lemma ClockIsCause(past: seq<Event>, from: nat, parent: Key, dstDir: Key, e: CopiedEntry, s: Key, d: Key)
    requires e.LeafEntry? && e.kind.KindRegular? && NotSettled(past, from, d, e.dstCtime)
    ensures LeafCause(past, from, parent, dstDir, e, s, d)
  {
  }

  /** A look at the name that failed or found something else. */
  lemma LookIsCause(past: seq<Event>, from: nat, i: nat, parent: Key, dstDir: Key, e: CopiedEntry, s: Key, d: Key)
    requires e.LeafEntry? && from <= i < |past| && past[i].call.DidLstat? && past[i].call.dir == parent && past[i].call.name == e.name
    requires var a := past[i].call.answer; a.Failed? || (a.Found? && !MatchesRecord(a.key, a.node, e))
    ensures LeafCause(past, from, parent, dstDir, e, s, d)
  {
    if past[i].call.answer.Failed? {
      FailedIsCause(past, from, i);
    } else {
      assert SourceOff(past[i], parent, e);
    }
  }

  lemma MovedSinceIsCause(past: seq<Event>, from: nat, i: nat, j: nat, parent: Key, dstDir: Key, e: CopiedEntry, state: Inode, s: Key, d: Key)
    requires e.LeafEntry? && e.kind.KindRegular? && j < |past|
    requires e.id.dev == s.dev && e.dstId.dev == d.dev ==>
               from <= i < j && e.id in past[i].at.inodes && past[i].at.inodes[e.id] == state
    requires e.id in past[j].at.inodes && !SameFileState(e.id, past[j].at.inodes[e.id], e.id, state)
    ensures LeafCause(past, from, parent, dstDir, e, s, d)
  {
    if e.id.dev == s.dev && e.dstId.dev == d.dev {
      assert Differs(past[i].at, past[j].at, e.id);
    }
  }

  lemma LinkIsLeafCause(past: seq<Event>, from: nat, parent: Key, dstDir: Key, e: CopiedEntry, s: Key, d: Key)
    requires e.LeafEntry? && (SomeFailed(past, from) || SourceTrouble(past, from, parent, e) || CopyCause(past, from, dstDir, e))
    ensures LeafCause(past, from, parent, dstDir, e, s, d)
  {
  }

  lemma OwnCause(past: seq<Event>, from: nat, later: nat, parent: Key, dstParent: Key, e: CopiedEntry, s: Key, d: Key)
    requires e.DirEntry? && from <= later && DirCause(past, later, parent, dstParent, e.name, e.dir)
    ensures Cause(past, from, parent, dstParent, e, s, d)
  {
    DirCauseLater(past, past, later, from, parent, dstParent, e.name, e.dir);
  }

  /** A look at the whole chain failed: for a directory above, or for this one. */
  lemma LevelsCause(past: seq<Event>, from: nat, later: nat, parent: Key, dstParent: Key, e: CopiedEntry, above: seq<CopiedDir>, s: Key, d: Key)
    requires e.DirEntry? && from <= later && (SomeFailed(past, later) || ChainTrouble(past, later, above + [e.dir]))
    ensures Cause(past, from, parent, dstParent, e, s, d) || ChainTrouble(past, from, above)
  {
    if SomeFailed(past, later) {
      FailedLater(past, past, later, from);
    } else {
      var i :| 0 <= i < |above + [e.dir]| && DirTrouble(past, later, (above + [e.dir])[i]);
      DirTroubleLater(past, past, later, from, (above + [e.dir])[i]);
      if i < |above| { assert DirTrouble(past, from, above[i]); }
    }
  }

  lemma CauseOrChainLater(past: seq<Event>, past': seq<Event>, from: nat, from': nat, parent: Key, dstParent: Key, e: CopiedEntry,
                          chain: seq<CopiedDir>, s: Key, d: Key)
    requires past <= past' && from' <= from && (Cause(past, from, parent, dstParent, e, s, d) || ChainTrouble(past, from, chain))
    ensures Cause(past', from', parent, dstParent, e, s, d) || ChainTrouble(past', from', chain)
  {
    if Cause(past, from, parent, dstParent, e, s, d) {
      CauseLater(past, past', from, from', parent, dstParent, e, s, d);
    } else {
      ChainTroubleLater(past, past', from, from', chain);
    }
  }

  /** What keeps a child keeps its directory. */
  lemma ChildCause(past: seq<Event>, from: nat, later: nat, parent: Key, dstParent: Key, e: CopiedEntry, i: nat, above: seq<CopiedDir>,
                   s: Key, d: Key)
    requires e.DirEntry? && i < |e.dir.entries| && from <= later
    requires || Cause(past, later, e.dir.id, e.dir.dstId, e.dir.entries[i], s, d)
             || ChainTrouble(past, later, above + [e.dir])
    ensures Cause(past, from, parent, dstParent, e, s, d) || ChainTrouble(past, from, above)
  {
    if Cause(past, later, e.dir.id, e.dir.dstId, e.dir.entries[i], s, d) {
      CauseLater(past, past, later, from, e.dir.id, e.dir.dstId, e.dir.entries[i], s, d);
    } else {
      LevelsCause(past, from, later, parent, dstParent, e, above, s, d);
    }
  }

  lemma OtherInodeIsCause(past: seq<Event>, from: nat, i: nat, parent: Key, dstDir: Key, e: CopiedEntry, s: Key, d: Key)
    requires e.LeafEntry? && from <= i < |past| && past[i].call.DidLstat? && past[i].call.dir == parent && past[i].call.name == e.name
    requires var a := past[i].call.answer; a.Failed? || (a.Found? && a.key != e.id)
    ensures LeafCause(past, from, parent, dstDir, e, s, d)
  {
    LookIsCause(past, from, i, parent, dstDir, e, s, d);
  }

  lemma LeafIsCause(past: seq<Event>, from: nat, parent: Key, dstDir: Key, e: CopiedEntry, s: Key, d: Key)
    requires e.LeafEntry? && LeafCause(past, from, parent, dstDir, e, s, d)
    ensures Cause(past, from, parent, dstDir, e, s, d)
  {
  }

  lemma FailedIsDirCause(past: seq<Event>, from: nat, i: nat, parent: Key, dstParent: Key, name: string, rec: CopiedDir)
    requires from <= i < |past| && CallFailed(past[i].call)
    ensures DirCause(past, from, parent, dstParent, name, rec)
  {
    FailedIsCause(past, from, i);
  }

  lemma DirOffIsDirCause(past: seq<Event>, from: nat, i: nat, parent: Key, dstParent: Key, name: string, rec: CopiedDir)
    requires from <= i < |past| && (DirOff(past[i], rec) || NameOff(past[i], parent, dstParent, name, rec))
    ensures DirCause(past, from, parent, dstParent, name, rec)
  {
  }
}
