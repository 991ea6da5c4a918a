/** The second half of a move between filesystems: prove each copied entry against the
    ledger, compare every regular file with its copy byte for byte, and only then remove
    the original. */
module Move {
  import opened Basics
  import opened World
  import opened Ledger
  import opened Causes

  const COPY_BUF_SIZE: nat := 0x10_0000

  datatype Settle = SettleOK(state: Inode) | SettleUnverifiable | SettleChanged

  datatype Fill = Full | Ended | Broken

  datatype Comparison = Same | Different | Cancelled | Unreadable

  datatype Proof = Matched(state: Inode) | NotMatched | Stopped | NotCompared

  /** node is a state k was observed in when the clock had already passed it. */
  ghost predicate Baseline(w0: World, w: World, k: Key, node: Inode) {
    Evolves(w0, w) && k in w0.inodes && w0.inodes[k] == node && node.ctime < Stamp(w0, k.dev)
  }

  /** Where clock and file are on one filesystem, the proof has its baseline. */
  ghost predicate SureBaseline(sure: bool, w0: World, w: World, k: Key, node: Inode) {
    sure ==> Baseline(w0, w, k, node)
  }

  lemma BaselineIsFrozen(w0: World, w: World, w': World, k: Key, node: Inode)
    requires Baseline(w0, w, k, node) && Evolves(w, w') && w'.inodes[k].ctime == node.ctime
    ensures w.inodes[k] == node && w'.inodes[k] == node
  {
    SettledIsFrozen(w0, w, w', k);
  }

  lemma SureLater(sure: bool, w0: World, w: World, w': World, k: Key, node: Inode)
    requires SureBaseline(sure, w0, w, k, node) && Evolves(w, w')
    ensures SureBaseline(sure, w0, w', k, node)
  {
    if sure {
      EvolvesTrans(w0, w, w');
    }
  }

  lemma NotSettledLater(past: seq<Event>, past': seq<Event>, from: nat, from': nat, dir: Key, ct: int)
    requires past <= past' && from' <= from && NotSettled(past, from, dir, ct)
    ensures NotSettled(past', from', dir, ct)
  {
    if SomeFailed(past, from) { FailedLater(past, past', from, from'); } else { PendingLater(past, past', from, from', dir, ct); }
  }

  class Copier {
    const m: Machine
    /** the destination container: where destination clock readings are taken */
    const dst: Key
    /** the held parent of the root being moved: where source clock readings are taken */
    var srcRootParent: Key
    /** the latest instant each filesystem's clock has been seen to reach */
    var clockSeen: map<nat, int>

    ghost predicate Valid()
      reads this, m
    {
      && dst in m.w.inodes && srcRootParent in m.w.inodes
      && (|m.removed| > 0 ==> |m.removed[|m.removed| - 1].past| < |m.past|)
      && forall dev | dev in clockSeen :: clockSeen[dev] <= Stamp(m.w, dev)
    }

    /** The last name this job removed, if any. */
    ghost function Last(): Option<Removal>
      reads this, m
    {
      Previous(m.removed, |m.removed|)
    }

    twostate lemma StillValid()
      requires old(Valid()) && Evolves(old(m.w), m.w)
      requires old(m.past) <= m.past
      requires m.removed == old(m.removed) || (|m.removed| > 0 && |m.removed[|m.removed| - 1].past| < |m.past|)
      requires clockSeen == old(clockSeen) && srcRootParent == old(srcRootParent)
      ensures Valid()
    {
      forall dev | dev in clockSeen ensures clockSeen[dev] <= Stamp(m.w, dev) {
        StampMonotone(old(m.w), m.w, dev);
      }
    }

    constructor (m: Machine, dst: Key, srcRootParent: Key)
      requires dst in m.w.inodes && srcRootParent in m.w.inodes
      requires |m.removed| > 0 ==> |m.removed[|m.removed| - 1].past| < |m.past|
      ensures Valid() && this.m == m && this.dst == dst && this.srcRootParent == srcRootParent
    {
      this.m, this.dst, this.srcRootParent, clockSeen := m, dst, srcRootParent, map[];
    }

    /** Prove that ct lies strictly before the current tick of dir's filesystem. */
    method Settled(dir: Key, ct: int) returns (ok: bool)
      requires Valid() && dir in m.w.inodes
      modifies this`clockSeen, m`w, m`past
      ensures Valid() && Later(old(m.w), m.w) && old(m.past) <= m.past
      ensures NamesNothing(old(m.past), m.past)
      ensures ok ==> ct < Stamp(m.w, dir.dev)
      ensures !ok ==> NotSettled(m.past, |old(m.past)|, dir, ct)
    {
      hide LinksKept, Untouched, Stamp, Granularity, Named;
      m.Interfere();
      StillValid();
      if m.w.now - ct > CTIME_RECENT {
        OldIsPast(m.w, dir.dev, ct);
        return true;
      }
      label beforeStat:
      var fi := m.Fstat(dir);
      StillValid@beforeStat();
      var hasDev := fi.Some?;
      if hasDev && dir.dev in clockSeen && ct < clockSeen[dir.dev] {
        return true;
      }
      ghost var past1 := m.past;
      ok := WaitForTick(dir, ct, hasDev);
      if !ok { NotSettledLater(m.past, m.past, |past1|, |old(m.past)|, dir, ct); }
    }

    /** Read the clock until ct is in its past, ten times more at most. */
    method WaitForTick(dir: Key, ct: int, hasDev: bool) returns (ok: bool)
      requires Valid() && dir in m.w.inodes
      modifies this`clockSeen, m`w, m`past
      ensures Valid() && Later(old(m.w), m.w) && old(m.past) <= m.past
      ensures NamesNothing(old(m.past), m.past)
      ensures ok ==> ct < Stamp(m.w, dir.dev)
      ensures !ok ==> NotSettled(m.past, |old(m.past)|, dir, ct)
    {
      hide LinksKept, Untouched, Stamp, Granularity, Named;
      EvolvesIsLater(m.w, m.w);
      var try := 0;
      while true
        invariant Valid() && Later(old(m.w), m.w) && old(m.past) <= m.past && dir in m.w.inodes
        invariant NamesNothing(old(m.past), m.past)
        invariant 0 <= try <= CTIME_WAIT_TRIES && |m.past| == |old(m.past)| + try
        invariant NotPast(m.past, |old(m.past)|, try, dir, ct)
        decreases CTIME_WAIT_TRIES - try
      {
        label beforeClock:
        var now := m.ClockAt(dir);
        StillValid@beforeClock();
        if now.None? {
          FailedIsCause(m.past, |old(m.past)|, |m.past| - 1);
          return false;
        }
        if hasDev && (dir.dev !in clockSeen || clockSeen[dir.dev] < now.value) {
          clockSeen := clockSeen[dir.dev := now.value];
        }
        if ct < now.value {
          return true;
        }
        if try >= CTIME_WAIT_TRIES {
          assert NotPast(m.past, |old(m.past)|, CLOCK_READINGS, dir, ct);
          return false;
        }
        try := try + 1;
      }
    }

    /** Settle first, then look once more and require that nothing moved. */
    method SettleObserved(dir: Key, base: Inode, k: Key) returns (r: Settle)
      requires Valid() && dir in m.w.inodes && k in m.w.inodes
      modifies this`clockSeen, m`w, m`past
      ensures Valid() && Later(old(m.w), m.w) && old(m.past) <= m.past
      ensures NamesNothing(old(m.past), m.past)
      ensures r.SettleOK? ==>
                && |m.past| > |old(m.past)| && m.past[|m.past| - 1] == Event(DidFstat(k, true), m.w, m.w)
                && r.state == m.w.inodes[k] && r.state.ctime == base.ctime
                && r.state.ctime < Stamp(m.w, dir.dev)
      ensures r.SettleUnverifiable? ==> NotSettled(m.past, |old(m.past)|, dir, base.ctime)
      ensures r.SettleChanged? ==>
                || SomeFailed(m.past, |old(m.past)|)
                || (|m.past| > |old(m.past)| && m.past[|m.past| - 1] == Event(DidFstat(k, true), m.w, m.w)
                    && m.w.inodes[k].ctime != base.ctime)
    {
      hide Pending, LinksKept, Untouched;
      var ok := Settled(dir, base.ctime);
      if !ok {
        return SettleUnverifiable;
      }
      label settled:
      var after := m.Fstat(k);
      StillValid@settled();
      StampMonotone(old@settled(m.w), m.w, dir.dev);
      if after.None? || after.value.ctime != base.ctime {
        if after.None? { FailedIsCause(m.past, |old(m.past)|, |m.past| - 1); }
        return SettleChanged;
      }
      r := SettleOK(after.value);
    }

    /** io.ReadFull on a descriptor at an offset.  If the file is still in its baseline
        state afterwards, what was read is its content. */
    method ReadFull(k: Key, pos: nat, max: nat, ghost sure: bool, ghost w0: World, ghost node: Inode)
      returns (data: seq<Byte>, status: Fill)
      requires k in m.w.inodes && SureBaseline(sure, w0, m.w, k, node) && 0 < max
      modifies m`w, m`past
      ensures Later(old(m.w), m.w) && old(m.past) <= m.past
      ensures |data| <= max && (status.Full? ==> |data| == max) && (status.Ended? ==> |data| < max)
      ensures |m.past| > |old(m.past)| && m.past[|m.past| - 1].at == m.w
      ensures status.Broken? ==> SomeFailed(m.past, |old(m.past)|)
      ensures sure && !status.Broken? && m.w.inodes[k] == node ==>
                IsChunk(node.body, pos, data, status)
    {
      data := [];
      EvolvesIsLater(m.w, m.w);
      while |data| < max
        invariant Later(old(m.w), m.w) && old(m.past) <= m.past && k in m.w.inodes && SureBaseline(sure, w0, m.w, k, node)
        invariant |data| <= max
        invariant |data| > 0 ==> |m.past| > |old(m.past)| && m.past[|m.past| - 1].at == m.w
        invariant sure && m.w.inodes[k] == node && |data| > 0 ==>
                    && node.body.FileBody? && pos + |data| <= |node.body.bytes|
                    && data == node.body.bytes[pos..pos + |data|]
        decreases max - |data|
      {
        ghost var before := m.w;
        var got := m.Read(k, pos + |data|, max - |data|);
        if sure && m.w.inodes[k] == node {
          BaselineIsFrozen(w0, before, m.w, k, node);
        }
        match got
        case ReadError =>
          FailedIsCause(m.past, |old(m.past)|, |m.past| - 1);
          return data, Broken;
        case Eof => return data, Ended;
        case Data(bytes) => data := data + bytes;
      }
      status := Full;
    }

    /** One buffer from each file, at the same offset. */
    method ReadBoth(a: Key, b: Key, pos: nat, ghost sure: bool, ghost wa: World, ghost na: Inode, ghost wb: World, ghost nb: Inode)
      returns (da: seq<Byte>, sa: Fill, db: seq<Byte>, sb: Fill)
      requires a in m.w.inodes && b in m.w.inodes
      requires SureBaseline(sure, wa, m.w, a, na) && SureBaseline(sure, wb, m.w, b, nb)
      modifies m`w, m`past
      ensures Later(old(m.w), m.w) && old(m.past) <= m.past
      ensures |da| <= COPY_BUF_SIZE && (sa.Full? ==> |da| == COPY_BUF_SIZE) && (sa.Ended? ==> |da| < COPY_BUF_SIZE)
      ensures |db| <= COPY_BUF_SIZE && (sb.Full? ==> |db| == COPY_BUF_SIZE) && (sb.Ended? ==> |db| < COPY_BUF_SIZE)
      ensures |m.past| > |old(m.past)| && m.past[|m.past| - 1].at == m.w
      ensures sa.Broken? || sb.Broken? ==> SomeFailed(m.past, |old(m.past)|)
      ensures sure && m.w.inodes[a] == na && m.w.inodes[b] == nb ==>
                && old(m.w).inodes[a] == na && old(m.w).inodes[b] == nb
                && (!sa.Broken? ==> IsChunk(na.body, pos, da, sa)) && (!sb.Broken? ==> IsChunk(nb.body, pos, db, sb))
    {
      ghost var w1 := m.w;
      da, sa := ReadFull(a, pos, COPY_BUF_SIZE, sure, wa, na);
      ghost var w2, past1 := m.w, m.past;
      db, sb := ReadFull(b, pos, COPY_BUF_SIZE, sure, wb, nb);
      if sure && m.w.inodes[a] == na && m.w.inodes[b] == nb {
        BaselineIsFrozen(wa, w2, m.w, a, na);
        BaselineIsFrozen(wa, w1, w2, a, na);
        BaselineIsFrozen(wb, w1, m.w, b, nb);
      }
      if sa.Broken? { FailedLater(past1, m.past, |old(m.past)|, |old(m.past)|); }
      if sb.Broken? { FailedLater(m.past, m.past, |past1|, |old(m.past)|); }
    }

    /** Compare two open files a megabyte at a time.  Both answers mean what they say of
        files still in their settled states: the same bytes, or, unless a read failed,
        other bytes. */
    method SameBytes(a: Key, b: Key, ghost sure: bool, ghost wa: World, ghost na: Inode, ghost wb: World, ghost nb: Inode)
      returns (r: Comparison)
      requires a in m.w.inodes && b in m.w.inodes
      requires SureBaseline(sure, wa, m.w, a, na) && SureBaseline(sure, wb, m.w, b, nb)
      modifies m`w, m`past, m`checks
      ensures Later(old(m.w), m.w) && old(m.past) <= m.past
      ensures sure && r.Same? && m.w.inodes[a] == na && m.w.inodes[b] == nb ==> na.body == nb.body && na.body.FileBody?
      ensures sure && r.Different? && m.w.inodes[a] == na && m.w.inodes[b] == nb && !SomeFailed(m.past, |old(m.past)|) ==>
                na.body != nb.body
      ensures r.Different? ==> |m.past| > |old(m.past)| && m.past[|m.past| - 1].at == m.w
      ensures r.Unreadable? ==> SomeFailed(m.past, |old(m.past)|)
      ensures r.Cancelled? ==> m.checks == 0
    {
      hide SomeFailed;
      var pos: nat := 0;
      EvolvesIsLater(m.w, m.w);
      while true
        invariant Later(old(m.w), m.w) && old(m.past) <= m.past && a in m.w.inodes && b in m.w.inodes
        invariant SureBaseline(sure, wa, m.w, a, na) && SureBaseline(sure, wb, m.w, b, nb)
        invariant sure && m.w.inodes[a] == na && m.w.inodes[b] == nb && pos > 0 ==>
                    && na.body.FileBody? && nb.body.FileBody?
                    && pos <= |na.body.bytes| && pos <= |nb.body.bytes|
                    && na.body.bytes[..pos] == nb.body.bytes[..pos]
        decreases m.checks
      {
        var stop := m.Cancelled();
        if stop {
          return Cancelled;
        }
        ghost var past1 := m.past;
        var da, sa, db, sb := ReadBoth(a, b, pos, sure, wa, na, wb, nb);
        ghost var both := sure && m.w.inodes[a] == na && m.w.inodes[b] == nb;
        if sa.Broken? || sb.Broken? {
          FailedLater(m.past, m.past, |past1|, |old(m.past)|);
        }
        if da != db {
          if both && !sa.Broken? && !sb.Broken? {
            ChunksDiffer(na.body, nb.body, pos, da, sa, db, sb);
          }
          return Different;
        }
        if sa.Full? && sb.Full? {
          if both {
            ChunkCompared(na.body.bytes, nb.body.bytes, pos, da);
          }
          pos := pos + COPY_BUF_SIZE;
          continue;
        }
        if sa.Ended? && sb.Ended? {
          if both {
            AllCompared(na.body.bytes, nb.body.bytes, pos, da);
          }
          return Same;
        }
        if sa.Broken? || sb.Broken? {
          return Unreadable;
        }
        return Different;
      }
    }

    /** The source's descriptor and settled state, both put through the record. */
    method PinSource(parent: Key, e: CopiedEntry) returns (r: Proof, a: Key)
      requires Valid() && e.LeafEntry?
      modifies this`clockSeen, m`w, m`past
      ensures Valid() && Later(old(m.w), m.w) && old(m.past) <= m.past
      ensures r.Matched? ==>
                && a in m.w.inodes && r.state == m.w.inodes[a] && r.state.body.FileBody?
                && MatchesRecord(a, r.state, e) && r.state.ctime < Stamp(m.w, srcRootParent.dev)
                && |m.past| > |old(m.past)| && m.past[|m.past| - 1].at == m.w
      ensures e.kind.KindRegular? && !r.Matched? ==> SourceCause(m.past, |old(m.past)|, parent, e, srcRootParent)
      ensures !r.Stopped?
    {
      hide Valid, Pending, LinksKept, Untouched, Stamp;
      ghost var n := |m.past|;
      a := srcRootParent;
      var src := m.Open(parent, e.name);
      if src.None? {
        StillValid();
        FailedIsCause(m.past, n, n);
        return NotCompared, a;
      }
      a := src.value;
      var sfi := m.Fstat(a);
      StillValid();
      ghost var past1 := m.past;
      if sfi.None? {
        FailedIsCause(m.past, n, n + 1);
        return NotCompared, a;
      }
      if !sfi.value.body.FileBody? || !MatchesRecord(a, sfi.value, e) {
        if e.kind.KindRegular? {
          assert SourceOff(m.past[n], parent, e) || SourceOff(m.past[n + 1], parent, e);
        }
        return NotMatched, a;
      }
      var s := SettleObserved(srcRootParent, sfi.value, a);
      match s
      case SettleOK(state) =>
        if !MatchesRecord(a, state, e) {
          assert SourceOff(m.past[|m.past| - 1], parent, e);
        }
        r := if MatchesRecord(a, state, e) then Matched(state) else NotMatched;
      case SettleUnverifiable =>
        UnsettledIsCause(past1, m.past, n, parent, e, srcRootParent, sfi.value.ctime);
        r := NotCompared;
      case SettleChanged =>
        MovedIsCause(past1, m.past, n, parent, e, srcRootParent, sfi.value.ctime);
        r := NotCompared;
    }

    /** The copy's descriptor, put through the record taken when it was published. */
    method PinCopy(dstDir: Key, e: CopiedEntry, size: nat) returns (r: Proof, b: Key)
      requires Valid() && e.LeafEntry?
      modifies m`w, m`past
      ensures Valid() && Later(old(m.w), m.w) && old(m.past) <= m.past
      ensures r.Matched? ==>
                && b in m.w.inodes && r.state == m.w.inodes[b] && r.state.body.FileBody?
                && PublishedMatches(b, r.state, e) && Size(r.state) == size
                && |m.past| > |old(m.past)| && m.past[|m.past| - 1].at == m.w
      ensures e.kind.KindRegular? && !r.Matched? ==> CopyCause(m.past, |old(m.past)|, dstDir, e) || e.dstSize != size
      ensures !r.Stopped?
    {
      hide LinksKept, Untouched, Stamp;
      ghost var n := |m.past|;
      b := dst;
      var d := m.Open(dstDir, e.dstName);
      if d.None? {
        StillValid();
        FailedIsCause(m.past, n, n);
        return NotCompared, b;
      }
      b := d.value;
      var dfi := m.Fstat(b);
      StillValid();
      if dfi.None? {
        FailedIsCause(m.past, n, n + 1);
        return NotCompared, b;
      }
      if !dfi.value.body.FileBody? || !PublishedMatches(b, dfi.value, e) || Size(dfi.value) != size {
        if e.kind.KindRegular? && e.haveDst && e.dstSize == size {
          assert CopyOff(m.past[n], dstDir, e) || CopyOff(m.past[n + 1], dstDir, e);
        }
        return NotMatched, b;
      }
      r := Matched(dfi.value);
    }

    /** Both ends looked at once more after the comparison.  seen is the source's last
        fstat, an instant at which both are known to have been in their baseline state. */
    method BothUnmoved(a: Key, b: Key, na: Inode, nb: Inode, ghost sure: bool, ghost wa: World, ghost wb: World)
      returns (r: Proof, ghost seen: nat)
      requires Valid() && a in m.w.inodes && b in m.w.inodes
      requires SureBaseline(sure, wa, m.w, a, na) && SureBaseline(sure, wb, m.w, b, nb)
      modifies m`w, m`past
      ensures Valid() && Later(old(m.w), m.w) && old(m.past) <= m.past
      ensures r.Matched? ==>
                && |old(m.past)| <= seen < |m.past| && m.past[seen].call == DidFstat(a, true)
                && Later(old(m.w), m.past[seen].at) && Evolves(m.past[seen].at, m.w)
      ensures sure && r.Matched? ==>
                && m.past[seen].at.inodes[a] == na && m.past[seen].at.inodes[b] == nb && r.state == na
                && old(m.w).inodes[a] == na && old(m.w).inodes[b] == nb
      ensures !r.Matched? ==> HeldCause(m.past, |old(m.past)|, a, b, na, nb)
      ensures !r.Stopped? && (r.NotCompared? ==> SomeFailed(m.past, |old(m.past)|))
    {
      hide LinksKept, Untouched;
      ghost var w0 := m.w;
      seen := |m.past|;
      var sAfter := m.Fstat(a);
      ghost var w1 := m.w;
      var dAfter := m.Fstat(b);
      StillValid();
      if sAfter.None? || dAfter.None? {
        assert HeldOff(m.past[seen], a, b, na, nb) || HeldOff(m.past[seen + 1], a, b, na, nb);
        FailedIsCause(m.past, seen, if sAfter.None? then seen else seen + 1);
        return NotCompared, seen;
      }
      if !SameFileState(a, na, a, sAfter.value) || !SameFileState(b, nb, b, dAfter.value) {
        assert HeldOff(m.past[seen], a, b, na, nb) || HeldOff(m.past[seen + 1], a, b, na, nb);
        return NotMatched, seen;
      }
      if sure {
        BaselineIsFrozen(wa, w0, w1, a, na);
        BaselineIsFrozen(wb, w0, m.w, b, nb);
        BaselineIsFrozen(wb, w1, m.w, b, nb);
      }
      r := Matched(sAfter.value);
    }

    /** The bytes of two held files in their baseline states, and both unmoved after. */
    method CompareHeld(a: Key, b: Key, na: Inode, nb: Inode, ghost sure: bool, ghost wa: World, ghost wb: World)
      returns (r: Proof, ghost seen: nat)
      requires Valid() && a in m.w.inodes && b in m.w.inodes
      requires SureBaseline(sure, wa, m.w, a, na) && SureBaseline(sure, wb, m.w, b, nb)
      modifies m`w, m`past, m`checks
      ensures Valid() && Later(old(m.w), m.w) && old(m.past) <= m.past
      ensures r.Matched? ==>
                && |old(m.past)| <= seen < |m.past| && m.past[seen].call == DidFstat(a, true)
                && Later(old(m.w), m.past[seen].at) && Evolves(m.past[seen].at, m.w)
      ensures sure && r.Matched? ==>
                && m.past[seen].at.inodes[a] == na && m.past[seen].at.inodes[b] == nb && r.state == na
                && na.body == nb.body && na.body.FileBody?
      ensures sure && r.NotMatched? ==> HeldCause(m.past, |old(m.past)|, a, b, na, nb)
      ensures r.NotCompared? ==> SomeFailed(m.past, |old(m.past)|)
      ensures r.Stopped? ==> m.checks == 0
    {
      hide LinksKept, Untouched, Named, Stamp, SameFileState, Baseline;
      seen := 0;
      ghost var w0, n := m.w, |m.past|;
      var same := SameBytes(a, b, sure, wa, na, wb, nb);
      StillValid();
      if !same.Same? {
        if sure && same.Different? {
          DifferentIsCause(m.past, n, a, b, na, nb);
        }
        return if same.Different? then NotMatched else if same.Cancelled? then Stopped else NotCompared, seen;
      }
      SureLater(sure, wa, w0, m.w, a, na);
      SureLater(sure, wb, w0, m.w, b, nb);
      ghost var past1 := m.past;
      r, seen := BothUnmoved(a, b, na, nb, sure, wa, wb);
      if !r.Matched? { HeldLater(m.past, n, |past1|, a, b, na, nb); }
      if r.NotCompared? { FailedLater(m.past, m.past, |past1|, n); }
    }

    /** The proof every regular file's removal rests on: settle, compare the bytes
        through two held descriptors, and require both ends unmoved afterwards.  seen is
        one of the looks made here. */
    method ContentMatches(parent: Key, dstDir: Key, e: CopiedEntry) returns (r: Proof, ghost seen: nat)
      requires Valid() && e.LeafEntry?
      requires e.haveDst ==> e.dstCtime < Stamp(m.w, dst.dev)
      modifies this`clockSeen, m`w, m`past, m`checks
      ensures Valid() && Later(old(m.w), m.w) && old(m.past) <= m.past
      ensures r.Matched? && e.id.dev == srcRootParent.dev && e.dstId.dev == dst.dev ==>
                && |old(m.past)| <= seen < |m.past| && m.past[seen].call == DidFstat(e.id, true)
                && Compared(e, r.state, m.past[seen].at, m.w)
                && e.id in m.past[seen].at.inodes && m.past[seen].at.inodes[e.id] == r.state
      ensures e.kind.KindRegular? && (r.NotMatched? || r.NotCompared?) ==>
                LeafCause(m.past, |old(m.past)|, parent, dstDir, e, srcRootParent, dst)
      ensures r.Stopped? ==> m.checks == 0
    {
      hide LinksKept, Untouched, Named, Stamp, SameFileState, LeafCause, SourceCause, HeldCause, SomeFailed, Compared, Size;
      ghost var w0, n := m.w, |m.past|;
      var src, a := PinSource(parent, e);
      seen := 0;
      if !src.Matched? {
        if e.kind.KindRegular? { SourceIsLeafCause(m.past, m.past, n, n, parent, dstDir, e, srcRootParent, dst); }
        return src, seen;
      }
      ghost var wa, past1 := m.w, m.past;
      var copy, b := PinCopy(dstDir, e, Size(src.state));
      if !copy.Matched? {
        if e.kind.KindRegular? { CopyOrSizeIsCause(m.past, n, |past1|, parent, dstDir, e, srcRootParent, dst); }
        return copy, seen;
      }
      ghost var wb, past2 := m.w, m.past;
      StampEvolves(w0, wb, dst.dev);
      ghost var sure := a.dev == srcRootParent.dev && b.dev == dst.dev;
      r, seen := CompareHeld(a, b, src.state, copy.state, sure, wa, wb);
      if sure && r.Matched? {
        ComparedThen(e, r.state, copy.state, wa, wb, m.past[seen].at, m.w);
      }
      if e.kind.KindRegular? && (r.NotMatched? || r.NotCompared?) {
        if r.NotCompared? {
          FailedIsLeafCause(m.past, n, |past2|, parent, dstDir, e, srcRootParent, dst);
        } else if sure {
          HeldIsLeafCause(m.past, n, |past2|, |past1| - 1, |past2| - 1, parent, dstDir, e, src.state, copy.state, srcRootParent, dst);
        } else {
          OtherDeviceIsCause(m.past, n, parent, dstDir, e, srcRootParent, dst);
        }
      }
    }

    /** The copy this job published is still there: at the lookup its name meant the
        recorded inode, of the recorded kind, and a file was in its recorded state; a
        link's target text is read after that. */
    method CopyStillThere(dstDir: Key, e: CopiedEntry) returns (ok: bool, ghost there: nat, ghost copy: nat)
      requires Valid() && e.LeafEntry?
      modifies m`w, m`past
      ensures Valid() && Later(old(m.w), m.w) && old(m.past) <= m.past && LinksKept(m.hidden, old(m.w), m.w)
      ensures ok ==>
                && |old(m.past)| <= there < |m.past| && IsLookAt(m.past[there].call, dstDir, e.dstName)
                && e.haveDst && Named(m.past[there].at, dstDir, e.dstName) == Some(e.dstId)
                && KindOf(m.past[there].at.inodes[e.dstId]) == e.kind
                && (e.kind.KindRegular? ==> PublishedMatches(e.dstId, m.past[there].at.inodes[e.dstId], e))
      ensures ok && e.kind.KindLink? ==>
                && there < copy < |m.past| && m.past[copy].call == DidFstat(e.dstId, true)
                && e.dstId in m.past[copy].at.inodes && m.past[copy].at.inodes[e.dstId].body == LinkBody(e.link)
      ensures !ok ==> CopyCause(m.past, |old(m.past)|, dstDir, e)
    {
      hide Untouched, LinksKept, Stamp;
      there, copy := |m.past|, |m.past|;
      ghost var w0 := m.w;
      var at := m.Lstat(dstDir, e.dstName);
      StillValid();
      if !at.Found? || KindOf(at.node) != e.kind || !e.haveDst || at.key != e.dstId {
        assert !e.haveDst || CallFailed(m.past[there].call) || CopyOff(m.past[there], dstDir, e);
        return false, there, copy;
      }
      if e.kind.KindRegular? {
        ok := Size(at.node) == e.dstSize && at.node.mtime == e.dstMtime && at.node.ctime == e.dstCtime;
        assert !ok ==> CopyOff(m.past[there], dstDir, e);
        return;
      }
      ghost var past1 := m.past;
      ghost var w1 := m.w;
      ok, copy := CopiedLinkReads(dstDir, e);
      LinksKeptTrans(m.hidden, w0, w1, m.w);
      if !ok { CopyCauseLater(m.past, there, |past1|, dstDir, e); }
    }

    /** The link at the copy's name, held, is the one published and has its text. */
    method CopiedLinkReads(dstDir: Key, e: CopiedEntry) returns (ok: bool, ghost copy: nat)
      requires Valid() && e.LeafEntry?
      modifies m`w, m`past
      ensures Valid() && Later(old(m.w), m.w) && old(m.past) <= m.past && LinksKept(m.hidden, old(m.w), m.w)
      ensures ok ==>
                && |old(m.past)| <= copy < |m.past| && m.past[copy].call == DidFstat(e.dstId, true)
                && e.dstId in m.past[copy].at.inodes && m.past[copy].at.inodes[e.dstId].body == LinkBody(e.link)
      ensures !ok && e.kind.KindLink? ==> CopyCause(m.past, |old(m.past)|, dstDir, e)
    {
      hide Untouched, LinksKept, Stamp, Size, KindOf;
      copy := 0;
      ghost var w0, n := m.w, |m.past|;
      var pin := m.Open(dstDir, e.dstName);
      StillValid();
      if pin.None? {
        FailedIsCause(m.past, n, n);
        return false, copy;
      }
      ghost var w1 := m.w;
      var fi := m.Fstat(pin.value);
      StillValid();
      LinksKeptTrans(m.hidden, w0, w1, m.w);
      if fi.None? || !PublishedMatches(pin.value, fi.value, e) {
        assert CallFailed(m.past[n + 1].call) || CopyOff(m.past[n], dstDir, e) || CopyOff(m.past[n + 1], dstDir, e);
        return false, copy;
      }
      copy := |m.past|;
      ghost var w2 := m.w;
      var link := m.Fstat(pin.value);
      StillValid();
      LinksKeptTrans(m.hidden, w0, w2, m.w);
      ok := link.Some? && link.value.body == LinkBody(e.link);
      assert !ok && e.kind.KindLink? ==> CallFailed(m.past[copy].call) || CopyOff(m.past[copy], dstDir, e);
    }

    /** The clock proof for a published copy, made before anything is stat'ed. */
    method DestClockSettled(e: CopiedEntry) returns (ok: bool)
      requires Valid() && e.LeafEntry?
      modifies this`clockSeen, m`w, m`past
      ensures Valid() && Later(old(m.w), m.w) && old(m.past) <= m.past
      ensures ok && e.kind.KindRegular? && e.haveDst ==> e.dstCtime < Stamp(m.w, dst.dev)
      ensures !ok ==> e.kind.KindRegular? && NotSettled(m.past, |old(m.past)|, dst, e.dstCtime)
    {
      if !e.kind.KindRegular? || !e.haveDst {
        EvolvesIsLater(m.w, m.w);
        return true;
      }
      ok := Settled(dst, e.dstCtime);
    }

    /** Remove one non-directory, or keep it.  err is the job being cancelled.  from is
        where in the run the delete began. */
    method DeleteRecordedEntry(parent: Key, dstDir: Key, e: CopiedEntry, ghost from: nat, ghost chain: seq<CopiedDir>)
      returns (kept: bool, err: bool)
      requires Valid() && from <= |m.past| && ChainHeld(m.past, Since(Last(), from), chain)
      modifies this`clockSeen, m`w, m`past, m`checks, m`removed
      ensures Valid() && Later(old(m.w), m.w) && old(m.past) <= m.past
      ensures err ==> kept
      ensures kept ==> m.removed == old(m.removed)
      ensures err ==> m.checks == 0
      ensures e.LeafEntry? && kept && !err ==> LeafCause(m.past, |old(m.past)|, parent, dstDir, e, srcRootParent, dst)
      ensures !kept ==> Named(m.w, parent, e.name) == None
      ensures NewlyLicensed(old(m.removed), m.removed, from, parent, e, chain, srcRootParent.dev, dst.dev, m.hidden)
      ensures AllWithin(old(m.past), m.past, old(m.removed), m.removed)
    {
      hide Licensed, ChainHeld, Evolves, Untouched, LinksKept, MatchesRecord, Since, LeafCause, SourceCause, CopyCause, NotSettled;
      EvolvesIsLater(m.w, m.w);
      if !e.LeafEntry? || !e.recorded {
        if e.LeafEntry? { UnrecordedIsCause(m.past, |m.past|, parent, dstDir, e, srcRootParent, dst); }
        return true, false;
      }
      ghost var w0, past0, since := m.w, m.past, Since(Last(), from);
      var past := DestClockSettled(e);
      ghost var n := |past0|;
      if !past {
        ClockIsCause(m.past, n, parent, dstDir, e, srcRootParent, dst);
        return true, false;
      }
      label past:
      ghost var wp := m.w;
      var at := m.Lstat(parent, e.name);
      StillValid@past();
      if at.NotExist? {
        return false, false;
      }
      if at.Failed? || !MatchesRecord(at.key, at.node, e) {
        LookIsCause(m.past, n, |m.past| - 1, parent, dstDir, e, srcRootParent, dst);
        return true, false;
      }
      if e.kind.KindLink? {
        ghost var past1 := m.past;
        ChainHeldLater(past0, past1, since, chain);
        kept := CheckAndUnlinkLink(parent, dstDir, e, from, chain);
        AllWithinEarlier(past0, past1, m.past, old(m.removed), m.removed);
        if kept { LeafLater(m.past, m.past, |past1|, n, parent, dstDir, e, srcRootParent, dst); }
        return kept, false;
      }
      ghost var past1 := m.past;
      var there, _, _ := CopyStillThere(dstDir, e);
      if !there {
        CopyIsLeafCause(m.past, m.past, |past1|, n, parent, dstDir, e, srcRootParent, dst);
        return true, false;
      }
      StampEvolves(wp, m.w, dst.dev);
      ghost var past2 := m.past;
      ChainHeldLater(past0, past2, since, chain);
      kept, err := CompareAndUnlink(parent, dstDir, e, from, chain);
      AllWithinEarlier(past0, past2, m.past, old(m.removed), m.removed);
      if kept && !err { LeafLater(m.past, m.past, |past2|, n, parent, dstDir, e, srcRootParent, dst); }
    }

    /** A symlink's half.  Its own state was matched by the caller's last look; what is
        proved here is both target texts. */
    method CheckAndUnlinkLink(parent: Key, dstDir: Key, e: CopiedEntry, ghost from: nat, ghost chain: seq<CopiedDir>)
      returns (kept: bool)
      requires Valid() && ChainHeld(m.past, Since(Last(), from), chain) && e.LeafEntry? && e.recorded && e.kind.KindLink?
      requires from < |m.past| && IsLookAt(m.past[|m.past| - 1].call, parent, e.name) && m.past[|m.past| - 1].at == m.w
      requires Named(m.w, parent, e.name).Some?
      requires var k := Named(m.w, parent, e.name).value; MatchesRecord(k, m.w.inodes[k], e)
      modifies m`w, m`past, m`removed
      ensures Valid() && Later(old(m.w), m.w) && old(m.past) <= m.past
      ensures kept ==> m.removed == old(m.removed)
      ensures kept ==> LeafCause(m.past, |old(m.past)|, parent, dstDir, e, srcRootParent, dst)
      ensures !kept ==> Named(m.w, parent, e.name) == None
      ensures NewlyLicensed(old(m.removed), m.removed, from, parent, e, chain, srcRootParent.dev, dst.dev, m.hidden)
      ensures AllWithin(old(m.past), m.past, old(m.removed), m.removed)
    {
      hide Valid, Evolves, Licensed, ChainHeld, MatchesRecord, LinksKept, Untouched, Since, Stamp, LeafCause, SourceCause, CopyCause;
      ghost var seen, past0, removed0, since := m.w, m.past, m.removed, Since(Last(), from);
      var same, copy := LinkTextsMatch(parent, dstDir, e);
      if !same {
        LinkIsLeafCause(m.past, |past0|, parent, dstDir, e, srcRootParent, dst);
        return true;
      }
      label checked:
      ghost var before, past1 := m.w, m.past;
      var u := m.Unlink(parent, e.name, false);
      StillValid@checked();
      if u.Unlinked? {
        ChainHeldLater(past0, past1, since, chain);
        ghost var r := m.removed[|removed0|];
        QuietLink(m.hidden, seen, past1[|past0|].at, before, parent, e);
        assert LinkProved(r, e, m.hidden, from, |past0| - 1, |past0|, copy);
        LinkRemovalIsLicensed(removed0, r, from, e, chain, srcRootParent.dev, dst.dev, m.hidden, |past0| - 1, |past0|, copy);
      }
      kept := u.NotEmpty? || u.Refused?;
      if kept {
        FailedIsCause(m.past, |past0|, |past1|);
        FailedIsLeafCause(m.past, |past0|, |past0|, parent, dstDir, e, srcRootParent, dst);
      }
    }

    /** The target texts of source and copy, each read in a call of its own. */
    method LinkTextsMatch(parent: Key, dstDir: Key, e: CopiedEntry) returns (same: bool, ghost copy: nat)
      requires Valid() && e.LeafEntry? && e.kind.KindLink?
      modifies m`w, m`past
      ensures Valid() && Later(old(m.w), m.w) && old(m.past) <= m.past && LinksKept(m.hidden, old(m.w), m.w)
      ensures same ==>
                && |old(m.past)| < copy < |m.past| && IsLookAt(m.past[|old(m.past)|].call, parent, e.name)
                && var read := m.past[|old(m.past)|].at;
                   && Named(read, parent, e.name).Some?
                   && read.inodes[Named(read, parent, e.name).value].body == LinkBody(e.link)
                   && LinksKept(m.hidden, read, m.w)
      ensures same ==>
                && m.past[copy].call == DidFstat(e.dstId, true) && e.haveDst
                && e.dstId in m.past[copy].at.inodes && m.past[copy].at.inodes[e.dstId].body == LinkBody(e.link)
      ensures !same ==>
                || SomeFailed(m.past, |old(m.past)|) || SourceTrouble(m.past, |old(m.past)|, parent, e)
                || CopyCause(m.past, |old(m.past)|, dstDir, e)
    {
      hide Evolves, LinksKept, Untouched, Stamp, Size, KindOf, PublishedMatches;
      copy := 0;
      ghost var w0, n := m.w, |m.past|;
      var target := m.Lstat(parent, e.name);
      StillValid();
      ghost var w1 := m.w;
      if !target.Found? || target.node.body != LinkBody(e.link) {
        if target.Failed? { FailedIsCause(m.past, n, n); } else { assert SourceOff(m.past[n], parent, e); }
        return false, copy;
      }
      ghost var there;
      same, there, copy := CopyStillThere(dstDir, e);
      LinksKeptTrans(m.hidden, w0, w1, m.w);
      if !same { CopyCauseLater(m.past, n, n + 1, dstDir, e); }
    }

    /** The regular file's half: the comparison, one more lookup of the name against the
        state the comparison ended on, and the unlink directly after it. */
    method CompareAndUnlink(parent: Key, dstDir: Key, e: CopiedEntry, ghost from: nat, ghost chain: seq<CopiedDir>)
      returns (kept: bool, err: bool)
      requires Valid() && from <= |m.past| && ChainHeld(m.past, Since(Last(), from), chain)
      requires e.LeafEntry? && e.recorded && e.kind.KindRegular?
      requires e.haveDst ==> e.dstCtime < Stamp(m.w, dst.dev)
      modifies this`clockSeen, m`w, m`past, m`checks, m`removed
      ensures Valid() && Later(old(m.w), m.w) && old(m.past) <= m.past
      ensures err ==> kept
      ensures kept ==> m.removed == old(m.removed)
      ensures err ==> m.checks == 0
      ensures kept && !err ==> LeafCause(m.past, |old(m.past)|, parent, dstDir, e, srcRootParent, dst)
      ensures !kept ==> Named(m.w, parent, e.name) == None
      ensures NewlyLicensed(old(m.removed), m.removed, from, parent, e, chain, srcRootParent.dev, dst.dev, m.hidden)
      ensures AllWithin(old(m.past), m.past, old(m.removed), m.removed)
    {
      hide Valid, Licensed, ChainHeld, MatchesRecord, Untouched, LinksKept, Stamp, Size, KindOf, Compared, Evolves, Since, LeafCause,
           SomeFailed;
      ghost var past0, since := m.past, Since(Last(), from);
      var p, seen := ContentMatches(parent, dstDir, e);
      ghost var w1, removed0, past1 := m.w, m.removed, m.past;
      if !p.Matched? {
        return true, p.Stopped?;
      }
      label proved:
      var again := m.Lstat(parent, e.name);
      StillValid@proved();
      if again.Failed? || (again.Found? && !SameFileState(again.key, again.node, e.id, p.state)) {
        if again.Failed? || again.key != e.id {
          OtherInodeIsCause(m.past, |past0|, |past1|, parent, dstDir, e, srcRootParent, dst);
        } else {
          MovedSinceIsCause(m.past, |past0|, seen, |past1|, parent, dstDir, e, p.state, srcRootParent, dst);
        }
        return true, false;
      }
      label looked:
      ghost var before, past2 := m.w, m.past;
      var u := m.Unlink(parent, e.name, false);
      StillValid@looked();
      if u.Unlinked? {
        ghost var r := m.removed[|removed0|];
        ChainHeldLater(past0, past2, since, chain);
        if e.id.dev == srcRootParent.dev && e.dstId.dev == dst.dev {
          StillCompared(r, e, p.state, from, seen, w1);
        }
        RegularRemovalIsLicensed(removed0, r, from, e, chain, srcRootParent.dev, dst.dev, m.hidden, seen);
      }
      kept := u.NotEmpty? || u.Refused?;
      if kept {
        FailedIsCause(m.past, |past0|, |past2|);
        FailedIsLeafCause(m.past, |past0|, |past0|, parent, dstDir, e, srcRootParent, dst);
      }
      err := false;
    }

    /** Every source directory from the root down is still the one recorded, asked of the
        held descriptors: each is looked at here, after the last removal. */
    method LevelsUnchanged(levels: seq<Level>) returns (ok: bool)
      requires Valid() && forall l | l in levels :: l.key in m.w.inodes && l.key == l.rec.id
      modifies m`w, m`past
      ensures Valid() && Later(old(m.w), m.w) && old(m.past) <= m.past
      ensures ok ==> ChainHeld(m.past, |old(m.past)|, Recs(levels))
      ensures !ok ==> SomeFailed(m.past, |old(m.past)|) || ChainTrouble(m.past, |old(m.past)|, Recs(levels))
    {
      hide LinksKept, Untouched, Stamp, Named, StillTheRecorded;
      EvolvesIsLater(m.w, m.w);
      ghost var all := Recs(levels);
      for i := 0 to |levels|
        invariant Valid() && Later(old(m.w), m.w) && old(m.past) <= m.past
        invariant ChainHeld(m.past, |old(m.past)|, all[..i])
      {
        label before:
        ghost var past1 := m.past;
        var fi := m.Fstat(levels[i].key);
        StillValid@before();
        if fi.None? || !StillTheRecorded(levels[i].key, fi.value, levels[i].rec) {
          if fi.None? {
            FailedIsCause(m.past, |old(m.past)|, |past1|);
          } else {
            assert DirOff(m.past[|past1|], all[i]);
            assert DirTrouble(m.past, |old(m.past)|, all[i]);
          }
          return false;
        }
        ChainHeldLater(past1, m.past, |old(m.past)|, all[..i]);
        assert IsLookedAt(m.past[|past1|], all[i]);
        assert HeldSince(m.past, |old(m.past)|, all[i]);
        assert all[..i + 1] == all[..i] + [all[i]];
      }
      assert all[..|levels|] == all;
      ok := true;
    }

    /** The destination directory a recorded source directory was copied into. */
    method OpenRecordedDest(ghost parent: Key, dstParent: Key, ghost name: string, rec: CopiedDir) returns (d: Option<Key>)
      requires Valid()
      modifies m`w, m`past
      ensures Valid() && Later(old(m.w), m.w) && old(m.past) <= m.past
      ensures d.Some? ==> d.value == rec.dstId && rec.haveDst && d.value in m.w.inodes
      ensures d.None? ==> DirCause(m.past, |old(m.past)|, parent, dstParent, name, rec)
    {
      hide DirTrouble, LinksKept, Untouched;
      ghost var n := |m.past|;
      EvolvesIsLater(m.w, m.w);
      if rec.dstName == "" {
        return None;
      }
      d := m.Open(dstParent, rec.dstName);
      if d.None? {
        FailedIsCause(m.past, n, n);
        StillValid();
        return None;
      }
      var fi := m.Fstat(d.value);
      StillValid();
      if fi.None? || !rec.haveDst || d.value != rec.dstId {
        if fi.None? { FailedIsCause(m.past, n, n + 1); }
        assert d.value != rec.dstId ==> NameOff(m.past[n], parent, dstParent, name, rec);
        d := None;
      }
    }

    /** The directory's own name, once it may be empty: it has to still be the held
        descriptor, and the rmdir directly follows. */
    method RemoveDirectory(parent: Key, ghost dstParent: Key, name: string, dir: Key, rec: CopiedDir, keptBelow: bool, ghost from: nat,
                           ghost chain: seq<CopiedDir>)
      returns (kept: bool)
      requires Valid() && dir in m.w.inodes && dir == rec.id && ChainHeld(m.past, Since(Last(), from), chain + [rec])
      modifies m`w, m`past, m`removed
      ensures Valid() && Later(old(m.w), m.w) && old(m.past) <= m.past
      ensures keptBelow ==> kept
      ensures kept && !keptBelow ==> DirCause(m.past, |old(m.past)|, parent, dstParent, name, rec)
      ensures !kept ==> Named(m.w, parent, name) == None
      ensures NewlyLicensed(old(m.removed), m.removed, from, parent, DirEntry(name, rec), chain, srcRootParent.dev, dst.dev, m.hidden)
      ensures AllWithin(old(m.past), m.past, old(m.removed), m.removed)
    {
      hide Licensed, ChainHeld, Evolves, Untouched, LinksKept, Since, DirTrouble;
      ghost var past0, since := m.past, Since(Last(), from);
      var at := m.Lstat(parent, name);
      StillValid();
      if at.Failed? || (at.Found? && at.key != dir) {
        if at.Failed? { FailedIsCause(m.past, |past0|, |past0|); }
        assert at.Found? ==> NameOff(m.past[|past0|], parent, dstParent, name, rec);
        return true;
      }
      label named:
      ghost var removed0, past1 := m.removed, m.past;
      var u := m.Unlink(parent, name, true);
      StillValid@named();
      if u.Unlinked? {
        ChainHeldLater(past0, past1, since, chain + [rec]);
        DirRemovalIsLicensed(removed0, m.removed[|removed0|], from, rec, chain, srcRootParent.dev, dst.dev, m.hidden);
      }
      if !u.Unlinked? { FailedIsCause(m.past, |past0|, |past1|); }
      kept := if u.NoEntry? || u.Unlinked? then keptBelow else true;
    }

    /** A recorded directory's two descriptors: itself, still as it was recorded, and the
        directory its copy is in.  held: its identity could be read again. */
    method PinDirectory(parent: Key, dstParent: Key, e: CopiedEntry) returns (r: Option<Pinned>, ghost seen: nat)
      requires Valid() && e.DirEntry?
      modifies m`w, m`past
      ensures Valid() && Later(old(m.w), m.w) && old(m.past) <= m.past
      ensures r.Some? ==> r.value.dir in m.w.inodes && r.value.dir == e.dir.id && r.value.dstDir == e.dir.dstId
      ensures r.Some? ==> |old(m.past)| <= seen < |m.past| && IsLookedAt(m.past[seen], e.dir)
      ensures r.None? || !r.value.held ==> DirCause(m.past, |old(m.past)|, parent, dstParent, e.name, e.dir)
    {
      hide LinksKept, Untouched, Stamp, DirCause, Valid, Last;
      ghost var n := |m.past|;
      seen := 0;
      var child := m.Open(parent, e.name);
      StillValid();
      if child.None? {
        FailedIsDirCause(m.past, n, n, parent, dstParent, e.name, e.dir);
        return None, seen;
      }
      var dir := child.value;
      seen := |m.past|;
      var fi := m.Fstat(dir);
      StillValid();
      if fi.None? || !StillTheRecorded(dir, fi.value, e.dir) {
        if fi.None? {
          FailedIsDirCause(m.past, n, n + 1, parent, dstParent, e.name, e.dir);
        } else {
          DirOffIsDirCause(m.past, n, if dir == e.dir.id then n + 1 else n, parent, dstParent, e.name, e.dir);
        }
        return None, seen;
      }
      label described:
      var held := m.Fstat(dir);
      StillValid@described();
      ghost var past2 := m.past;
      var dstDir := OpenRecordedDest(parent, dstParent, e.name, e.dir);
      if held.None? { FailedIsDirCause(m.past, n, n + 2, parent, dstParent, e.name, e.dir); }
      if dstDir.None? { DirCauseLater(m.past, m.past, |past2|, n, parent, dstParent, e.name, e.dir); }
      r := if dstDir.None? then None else Some(Pinned(dir, dstDir.value, held.Some?));
    }

    /** Remove the source of a move: post-order, one proved entry at a time, and each
        directory only when nothing recorded or added is left in it. */
    method DeleteRecorded(parent: Key, dstParent: Key, e: CopiedEntry, ghost from: nat, chain: seq<Level>)
      returns (kept: bool, err: bool)
      requires Valid() && forall l | l in chain :: l.key in m.w.inodes && l.key == l.rec.id
      requires from <= |m.past| && ChainHeld(m.past, Since(Last(), from), Recs(chain))
      modifies this`clockSeen, m`w, m`past, m`checks, m`removed
      ensures Valid() && Later(old(m.w), m.w) && old(m.past) <= m.past
      ensures err ==> kept && m.checks == 0
      ensures kept && !err ==>
                || Cause(m.past, |old(m.past)|, parent, dstParent, e, srcRootParent, dst)
                || ChainTrouble(m.past, |old(m.past)|, Recs(chain))
      ensures !kept ==> Named(m.w, parent, e.name) == None
      ensures NewlyLicensed(old(m.removed), m.removed, from, parent, e, Recs(chain), srcRootParent.dev, dst.dev, m.hidden)
      ensures AllWithin(old(m.past), m.past, old(m.removed), m.removed)
      decreases e, 2
    {
      hide Licensed, KernelSound, ChainHeld, NewlyLicensed, AllWithin, LinksKept, Untouched, Stamp, Named, LeafCause, DirCause,
           ChainTrouble, Cause;
      EvolvesIsLater(m.w, m.w);
      NothingNew(m.removed, from, parent, e, Recs(chain), srcRootParent.dev, dst.dev, m.hidden);
      ghost var past0 := m.past;
      var stop := m.Cancelled();
      if stop {
        NothingWithin(past0, m.past, m.removed);
        return true, true;
      }
      if e.LeafEntry? {
        kept, err := DeleteRecordedEntry(parent, dstParent, e, from, Recs(chain));
        if kept && !err { LeafIsCause(m.past, |past0|, parent, dstParent, e, srcRootParent, dst); }
        return;
      }
      kept, err := DeleteDirectory(parent, dstParent, e, from, chain);
    }

    /** A recorded directory: pinned, emptied of what was recorded in it, and removed. */
    method DeleteDirectory(parent: Key, dstParent: Key, e: CopiedEntry, ghost from: nat, chain: seq<Level>)
      returns (kept: bool, err: bool)
      requires Valid() && e.DirEntry? && forall l | l in chain :: l.key in m.w.inodes && l.key == l.rec.id
      requires from <= |m.past|
      modifies this`clockSeen, m`w, m`past, m`checks, m`removed
      ensures Valid() && Later(old(m.w), m.w) && old(m.past) <= m.past
      ensures err ==> kept && m.checks == 0
      ensures kept && !err ==>
                || Cause(m.past, |old(m.past)|, parent, dstParent, e, srcRootParent, dst)
                || ChainTrouble(m.past, |old(m.past)|, Recs(chain))
      ensures !kept ==> Named(m.w, parent, e.name) == None
      ensures NewlyLicensed(old(m.removed), m.removed, from, parent, e, Recs(chain), srcRootParent.dev, dst.dev, m.hidden)
      ensures AllWithin(old(m.past), m.past, old(m.removed), m.removed)
      decreases e, 1
    {
      hide Valid, Licensed, KernelSound, ChainHeld, NewlyLicensed, AllWithin, LinksKept, Untouched, Stamp, Named, LeafCause, DirCause,
           ChainTrouble, Cause;
      ghost var past0 := m.past;
      NothingNew(m.removed, from, parent, e, Recs(chain), srcRootParent.dev, dst.dev, m.hidden);
      var pin, _ := PinDirectory(parent, dstParent, e);
      ghost var past1 := m.past;
      if pin.None? {
        NothingWithin(past0, m.past, m.removed);
        OwnCause(m.past, |past0|, |past0|, parent, dstParent, e, srcRootParent, dst);
        return true, false;
      }
      var dir, dstDir := pin.value.dir, pin.value.dstDir;
      var levels := chain + [Level(dir, e.dir)];
      assert Recs(levels) == Recs(chain) + [e.dir];
      var keptBelow, abandoned;
      keptBelow, abandoned, err := DeleteEntries(parent, dstParent, dir, dstDir, e, from, Recs(chain), levels);
      ghost var past2, removed2 := m.past, m.removed;
      AllWithinEarlier(past0, past1, past2, old(m.removed), removed2);
      if !err && keptBelow {
        CauseOrChainLater(past2, past2, |past1|, |past0|, parent, dstParent, e, Recs(chain), srcRootParent, dst);
      }
      if err || abandoned {
        return true, err;
      }
      kept := FinishDirectory(parent, dstParent, e, pin.value.held, keptBelow, from, Recs(chain), levels);
      LicensedTrans(old(m.removed), removed2, m.removed, from, parent, e, Recs(chain), srcRootParent.dev, dst.dev, m.hidden);
      AllWithinTrans(past0, past2, m.past, old(m.removed), removed2, m.removed);
      if keptBelow {
        CauseOrChainLater(past2, m.past, |past0|, |past0|, parent, dstParent, e, Recs(chain), srcRootParent, dst);
      } else if !pin.value.held {
        DirCauseLater(past1, m.past, |past0|, |past0|, parent, dstParent, e.name, e.dir);
        OwnCause(m.past, |past0|, |past0|, parent, dstParent, e, srcRootParent, dst);
      } else if kept {
        CauseOrChainLater(m.past, m.past, |past2|, |past0|, parent, dstParent, e, Recs(chain), srcRootParent, dst);
      }
    }

    /** Once the recorded is gone: the whole chain looked at again, and the rmdir. */
    method FinishDirectory(parent: Key, ghost dstParent: Key, e: CopiedEntry, held: bool, keptBelow: bool, ghost from: nat,
                           ghost above: seq<CopiedDir>, levels: seq<Level>)
      returns (kept: bool)
      requires Valid() && e.DirEntry? && from <= |m.past| && e.dir.id in m.w.inodes && Recs(levels) == above + [e.dir]
      requires forall l | l in levels :: l.key in m.w.inodes && l.key == l.rec.id
      modifies m`w, m`past, m`removed
      ensures Valid() && Later(old(m.w), m.w) && old(m.past) <= m.past
      ensures keptBelow ==> kept
      ensures kept && !keptBelow && held ==>
                || Cause(m.past, |old(m.past)|, parent, dstParent, e, srcRootParent, dst)
                || ChainTrouble(m.past, |old(m.past)|, above)
      ensures !kept ==> Named(m.w, parent, e.name) == None
      ensures NewlyLicensed(old(m.removed), m.removed, from, parent, e, above, srcRootParent.dev, dst.dev, m.hidden)
      ensures AllWithin(old(m.past), m.past, old(m.removed), m.removed)
    {
      hide Licensed, KernelSound, ChainHeld, NewlyLicensed, AllWithin, LinksKept, Untouched, Stamp, Named, LeafCause, DirCause,
           ChainTrouble, Cause;
      ghost var past2, removed2 := m.past, m.removed;
      NothingNew(m.removed, from, parent, e, above, srcRootParent.dev, dst.dev, m.hidden);
      var same := LevelsUnchanged(levels);
      ghost var past3 := m.past;
      if !same || !held {
        NothingWithin(past2, past3, removed2);
        if !same {
          LevelsCause(past3, |past2|, |past2|, parent, dstParent, e, above, srcRootParent, dst);
        }
        return true;
      }
      LookedAtLater(past3, Last(), from, |past2|, Recs(levels));
      kept := RemoveDirectory(parent, dstParent, e.name, e.dir.id, e.dir, keptBelow, from, above);
      AllWithinEarlier(past2, past3, m.past, removed2, m.removed);
      if kept && !keptBelow {
        OwnCause(m.past, |past2|, |past3|, parent, dstParent, e, srcRootParent, dst);
      }
    }

    /** The children of one recorded directory, each judged against the whole chain
        above it immediately before it is touched. */
    method DeleteEntries(ghost parent: Key, ghost dstParent: Key, dir: Key, dstDir: Key, e: CopiedEntry, ghost from: nat, ghost above: seq<CopiedDir>,
                         levels: seq<Level>)
      returns (keptBelow: bool, abandoned: bool, err: bool)
      requires Valid() && e.DirEntry? && dir == e.dir.id && dstDir == e.dir.dstId && Recs(levels) == above + [e.dir] && from <= |m.past|
      requires forall l | l in levels :: l.key in m.w.inodes && l.key == l.rec.id
      modifies this`clockSeen, m`w, m`past, m`checks, m`removed
      ensures Valid() && Later(old(m.w), m.w) && old(m.past) <= m.past
      ensures err ==> m.checks == 0
      ensures abandoned ==> keptBelow
      ensures keptBelow && !err ==>
                || Cause(m.past, |old(m.past)|, parent, dstParent, e, srcRootParent, dst)
                || ChainTrouble(m.past, |old(m.past)|, above)
      ensures NewlyLicensed(old(m.removed), m.removed, from, parent, e, above, srcRootParent.dev, dst.dev, m.hidden)
      ensures AllWithin(old(m.past), m.past, old(m.removed), m.removed)
      decreases e, 0
    {
      hide Licensed, KernelSound, ChainHeld, NewlyLicensed, AllWithin, LinksKept, Untouched, Stamp, Named, LeafCause, DirCause,
           ChainTrouble, Cause;
      keptBelow, abandoned, err := false, false, false;
      EvolvesIsLater(m.w, m.w);
      NothingNew(m.removed, from, parent, e, above, srcRootParent.dev, dst.dev, m.hidden);
      NothingWithin(m.past, m.past, m.removed);
      ghost var w0, past0, removed0, root, src, quiet := m.w, m.past, m.removed, srcRootParent, srcRootParent.dev, m.hidden;
      for i := 0 to |e.dir.entries|
        invariant Valid() && Later(w0, m.w) && past0 <= m.past && srcRootParent == root && srcRootParent.dev == src && !err
        invariant forall l | l in levels :: l.key in m.w.inodes
        invariant NewlyLicensed(removed0, m.removed, from, parent, e, above, src, dst.dev, quiet)
        invariant AllWithin(past0, m.past, removed0, m.removed)
        invariant keptBelow ==>
                    || Cause(m.past, |past0|, parent, dstParent, e, srcRootParent, dst)
                    || ChainTrouble(m.past, |past0|, above)
      {
        var stop := m.Cancelled();
        if stop {
          return true, false, true;
        }
        ghost var past1, removed1 := m.past, m.removed;
        var same := LevelsUnchanged(levels);
        ghost var past2 := m.past;
        NothingWithin(past1, past2, removed1);
        AllWithinTrans(past0, past1, past2, removed0, removed1, removed1);
        if keptBelow { CauseOrChainLater(past1, past2, |past0|, |past0|, parent, dstParent, e, above, root, dst); }
        if !same {
          LevelsCause(past2, |past0|, |past1|, parent, dstParent, e, above, root, dst);
          return true, true, false;
        }
        LookedAtLater(past2, Last(), from, |past1|, Recs(levels));
        var child := e.dir.entries[i];
        var below;
        if child.DirEntry? {
          below, err := DeleteRecorded(dir, dstDir, child, from, levels);
        } else {
          below, err := DeleteRecordedEntry(dir, dstDir, child, from, Recs(levels));
          if below && !err { LeafIsCause(m.past, |past2|, dir, dstDir, child, root, dst); }
        }
        ChildIsLicensed(removed0, removed1, m.removed, from, parent, e, i, above, src, dst.dev, quiet);
        AllWithinTrans(past0, past2, m.past, removed0, removed1, m.removed);
        if err {
          return true, false, true;
        }
        if keptBelow { CauseOrChainLater(past2, m.past, |past0|, |past0|, parent, dstParent, e, above, root, dst); }
        if below { ChildCause(m.past, |past0|, |past2|, parent, dstParent, e, i, above, root, dst); }
        keptBelow := keptBelow || below;
      }
    }

    /** What a root that is not a directory was recorded as; with no record, nothing. */
    function RootEntry(name: string, isDir: bool, rec: CopiedDir): CopiedEntry {
      if isDir then DirEntry(name, rec)
      else if |rec.entries| == 1 then rec.entries[0]
      else LeafEntry(name, false, KindRegular, rec.id, 0, 0, 0, 0, 0, 0, 0, "", "", false, rec.id, 0, 0, 0)
    }

    /** Decide whether a copied root's source may go, and remove it if so.  Before the
        first removal, in this order: a look at which the root's name still meant the
        reference held since the copy began, and an fsync of the copy's container. */
    method FinishMove(name: string, ref: Key, isDir: bool, rec: CopiedDir, ledgerFull: bool, warns: nat, skips: nat)
      returns (kept: bool, err: bool, ghost looked: nat, ghost from: nat)
      requires Valid()
      modifies this`clockSeen, m`w, m`past, m`checks, m`removed
      ensures Valid() && Later(old(m.w), m.w) && old(m.past) <= m.past
      ensures warns > 0 || skips > 0 || ledgerFull ==> kept && m.removed == old(m.removed)
      ensures err ==> kept && m.checks == 0
      ensures kept && !err ==>
                || warns > 0 || skips > 0 || ledgerFull || SomeFailed(m.past, |old(m.past)|)
                || (|old(m.past)| < |m.past| && m.past[|old(m.past)|].call.DidOpen?
                    && m.past[|old(m.past)|].call == DidOpen(srcRootParent, name, m.past[|old(m.past)|].call.held)
                    && m.past[|old(m.past)|].call.held != Some(ref))
                || Cause(m.past, |old(m.past)|, srcRootParent, dst, RootEntry(name, isDir, rec), srcRootParent, dst)
      ensures !kept ==> Named(m.w, srcRootParent, RootEntry(name, isDir, rec).name) == None
      ensures NewlyLicensed(old(m.removed), m.removed, from, srcRootParent, RootEntry(name, isDir, rec), [],
                            srcRootParent.dev, dst.dev, m.hidden)
      ensures m.removed != old(m.removed) || !kept ==>
                && |old(m.past)| <= looked < from - 1 < |m.past|
                && m.past[looked].call == DidOpen(srcRootParent, name, Some(ref))
                && Named(m.past[looked].at, srcRootParent, name) == Some(ref)
                && m.past[from - 1].call == DidSync(dst, true)
                && AllWithin(m.past[..from], m.past, old(m.removed), m.removed)
    {
      hide Valid, Licensed, LinksKept, Untouched, LeafCause, DirCause;
      EvolvesIsLater(m.w, m.w);
      looked, from := |m.past|, |m.past|;
      if warns > 0 || skips > 0 || ledgerFull {
        return true, false, looked, from;
      }
      label start:
      var now := m.Open(srcRootParent, name);
      StillValid@start();
      if now != Some(ref) {
        return true, false, looked, from;
      }
      label named:
      var persisted := m.Fsync(dst);
      StillValid@named();
      if !persisted {
        FailedIsCause(m.past, |old(m.past)|, |m.past| - 1);
        return true, false, looked, from;
      }
      from := |m.past|;
      ghost var past1 := m.past;
      kept, err := DeleteRecorded(srcRootParent, dst, RootEntry(name, isDir, rec), from, []);
      assert m.past[..from] == past1;
      if kept && !err {
        CauseLater(m.past, m.past, from, |old(m.past)|, srcRootParent, dst, RootEntry(name, isDir, rec), srcRootParent, dst);
      }
    }
  }

  datatype Pinned = Pinned(dir: Key, dstDir: Key, held: bool)

  /** One held source directory of the chain above an entry. */
  datatype Level = Level(key: Key, rec: CopiedDir)

  /** The records of a chain of held directories. */
  function Recs(levels: seq<Level>): (r: seq<CopiedDir>)
    ensures |r| == |levels| && forall i | 0 <= i < |levels| :: r[i] == levels[i].rec
  {
    seq(|levels|, i requires 0 <= i < |levels| => levels[i].rec)
  }

  /** Everything removed was removed in this part of the run. */
  ghost predicate AllWithin(begin: seq<Event>, end: seq<Event>, was: seq<Removal>, now: seq<Removal>) {
    && begin <= end && was <= now
    && forall i | |was| <= i < |now| :: begin <= now[i].past && now[i].past < end
  }

  lemma NothingWithin(begin: seq<Event>, end: seq<Event>, log: seq<Removal>)
    requires begin <= end
    ensures AllWithin(begin, end, log, log)
  {
  }

  lemma AllWithinEarlier(a: seq<Event>, b: seq<Event>, c: seq<Event>, was: seq<Removal>, now: seq<Removal>)
    requires a <= b && AllWithin(b, c, was, now)
    ensures AllWithin(a, c, was, now)
  {
  }

  lemma AllWithinTrans(a: seq<Event>, b: seq<Event>, c: seq<Event>, x: seq<Removal>, y: seq<Removal>, z: seq<Removal>)
    requires AllWithin(a, b, x, y) && AllWithin(b, c, y, z)
    ensures AllWithin(a, c, x, z)
  {
    forall i | |x| <= i < |z| ensures a <= z[i].past && z[i].past < c {
      if i < |y| { assert z[i] == y[i]; }
    }
  }

  /** Looks made from here on are looks since the last removal. */
  lemma LookedAtLater(past: seq<Event>, last: Option<Removal>, from: nat, n: nat, chain: seq<CopiedDir>)
    requires ChainHeld(past, n, chain) && from <= n && (last.Some? ==> |last.value.past| < n)
    ensures ChainHeld(past, Since(last, from), chain)
  {
    forall i | 0 <= i < |chain| ensures HeldSince(past, Since(last, from), chain[i]) {
      assert HeldSince(past, n, chain[i]);
      var k :| n <= k < |past| && IsLookedAt(past[k], chain[i]);
    }
  }

  lemma ComparedThen(e: CopiedEntry, na: Inode, nb: Inode, wa: World, wb: World, seen: World, now: World)
    requires e.LeafEntry? && Evolves(wa, seen) && Evolves(wb, seen) && Evolves(seen, now)
    requires MatchesRecord(e.id, na, e) && na.ctime < Stamp(wa, e.id.dev)
    requires PublishedMatches(e.dstId, nb, e) && e.dstCtime < Stamp(wb, e.dstId.dev)
    requires e.id in seen.inodes && seen.inodes[e.id] == na && e.dstId in seen.inodes && seen.inodes[e.dstId] == nb
    requires na.body == nb.body && na.body.FileBody?
    ensures Compared(e, na, seen, now)
  {
    StampEvolves(wa, seen, e.id.dev);
    StampEvolves(wb, seen, e.dstId.dev);
  }

  /** The comparison's states still hold at the instant of the unlink. */
  lemma StillCompared(r: Removal, e: CopiedEntry, state: Inode, from: nat, i: nat, now: World)
    requires e.LeafEntry? && from <= i < |r.past| && r.past[i].call == DidFstat(e.id, true)
    requires Compared(e, state, r.past[i].at, now) && Evolves(now, r.before)
    requires KernelSound(r) && SameFileState(r.key, r.before.inodes[r.key], e.id, state)
    ensures RegularProved(r, e, from, i)
  {
    EvolvesTrans(r.past[i].at, now, r.before);
    SettledIsFrozen(r.past[i].at, now, r.before, e.id);
  }

  /** In a directory nobody else reaches, the name still means the link looked at. */
  lemma QuietLink(hidden: set<Key>, seen: World, read: World, before: World, dir: Key, e: CopiedEntry)
    requires e.LeafEntry? && e.kind.KindLink?
    requires LinksKept(hidden, seen, before) && LinksKept(hidden, read, before)
    requires var k := Named(seen, dir, e.name); k.Some? && MatchesRecord(k.value, seen.inodes[k.value], e)
    requires var k := Named(read, dir, e.name); k.Some? && read.inodes[k.value].body == LinkBody(e.link)
    ensures dir in hidden ==> !Repointed(seen, before, dir, e.name) && !Repointed(read, before, dir, e.name)
  {
  }

  /** What a successful comparison says: at seen, when the clock was already past the
      source's change time, the recorded source and the published copy were in their
      recorded states and held the same bytes. */
  ghost predicate Compared(e: CopiedEntry, state: Inode, seen: World, now: World)
    requires e.LeafEntry?
  {
    && Evolves(seen, now) && e.id in seen.inodes && e.dstId in seen.inodes
    && seen.inodes[e.id] == state && state.ctime < Stamp(seen, e.id.dev) && e.dstCtime < Stamp(seen, e.dstId.dev)
    && state.body.FileBody? && MatchesRecord(e.id, state, e)
    && PublishedMatches(e.dstId, seen.inodes[e.dstId], e)
    && seen.inodes[e.dstId].body == state.body
  }

  /** data is what a file in this state has at pos, and an end was its end. */
  ghost predicate IsChunk(body: Body, pos: nat, data: seq<Byte>, status: Fill) {
    && body.FileBody?
    && (|data| > 0 ==> pos + |data| <= |body.bytes| && data == body.bytes[pos..pos + |data|])
    && (status.Ended? ==> |body.bytes| <= pos + |data|)
  }

  lemma ChunkCompared(x: seq<Byte>, y: seq<Byte>, pos: nat, data: seq<Byte>)
    requires pos + |data| <= |x| && pos + |data| <= |y|
    requires pos > 0 ==> x[..pos] == y[..pos]
    requires x[pos..pos + |data|] == data && y[pos..pos + |data|] == data
    ensures x[..pos + |data|] == y[..pos + |data|]
  {
    assert x[..pos + |data|] == x[..pos] + data;
    assert y[..pos + |data|] == y[..pos] + data;
  }

  /** Two chunks read whole that differ are of different contents. */
  lemma ChunksDiffer(x: Body, y: Body, pos: nat, da: seq<Byte>, sa: Fill, db: seq<Byte>, sb: Fill)
    requires IsChunk(x, pos, da, sa) && IsChunk(y, pos, db, sb) && !sa.Broken? && !sb.Broken? && da != db
    requires |da| <= COPY_BUF_SIZE && (sa.Full? ==> |da| == COPY_BUF_SIZE)
    requires |db| <= COPY_BUF_SIZE && (sb.Full? ==> |db| == COPY_BUF_SIZE)
    ensures x != y
  {
  }

  lemma AllCompared(x: seq<Byte>, y: seq<Byte>, pos: nat, tail: seq<Byte>)
    requires pos > 0 ==> pos <= |x| && pos <= |y| && x[..pos] == y[..pos]
    requires |tail| > 0 ==> pos + |tail| <= |x| && pos + |tail| <= |y|
    requires |tail| > 0 ==> x[pos..pos + |tail|] == tail && y[pos..pos + |tail|] == tail
    requires |x| <= pos + |tail| && |y| <= pos + |tail|
    ensures x == y
  {
    if |tail| > 0 {
      assert x == x[..pos] + tail && y == y[..pos] + tail;
    } else if pos > 0 {
      assert x == x[..pos] && y == y[..pos];
    }
  }
}
