/** What the recursive merge promises about the destination: nothing changes kind, skip
    and keep-both alter nothing that was there, a job that skipped nothing has copied
    everything, and every directory made ends with its source's time. */
module MergeLaws {
  import opened Basics
  import opened KeepBoth
  import opened CopyTree

  /** Everything in a is in b and of the same kind; exact: files and links too are as
      they were. */
  ghost predicate Keeps(a: Node, b: Node, exact: bool)
    decreases a
  {
    && KindOf(a) == KindOf(b)
    && (a.Entry? && exact ==> a == b)
    && (a.Dir? ==> forall n | n in a.entries :: n in b.entries && Keeps(a.entries[n], b.entries[n], exact))
  }

  lemma {:induction false} KeepsItself(a: Node, exact: bool)
    ensures Keeps(a, a, exact)
    decreases a
  {
    if a.Dir? {
      forall n | n in a.entries ensures Keeps(a.entries[n], a.entries[n], exact) {
        KeepsItself(a.entries[n], exact);
      }
    }
  }

  lemma {:induction false} KeepsTrans(a: Node, b: Node, c: Node, exact: bool)
    requires Keeps(a, b, exact) && Keeps(b, c, exact)
    ensures Keeps(a, c, exact)
    decreases a
  {
    if a.Dir? {
      forall n | n in a.entries ensures n in c.entries && Keeps(a.entries[n], c.entries[n], exact) {
        KeepsTrans(a.entries[n], b.entries[n], c.entries[n], exact);
      }
    }
  }

  /** In terms of paths. */
  lemma {:induction false} KeptAtEveryPath(a: Node, b: Node, exact: bool, p: Path)
    requires Keeps(a, b, exact) && Has(a, p)
    ensures Has(b, p) && KindOf(Get(b, p)) == KindOf(Get(a, p))
    ensures exact && Get(a, p).Entry? ==> Get(b, p) == Get(a, p)
    decreases p
  {
    if p != [] {
      KeptAtEveryPath(a.entries[p[0]], b.entries[p[0]], exact, p[1..]);
    }
  }

  lemma KeepsOneChanged(d: Node, name: string, x: Node, mtime: Option<int>, exact: bool)
    requires d.Dir? && (name in d.entries ==> Keeps(d.entries[name], x, exact))
    ensures Keeps(d, Dir(d.entries[name := x], mtime), exact)
  {
    forall n | n in d.entries ensures Keeps(d.entries[n], d.entries[name := x][n], exact) {
      if n != name { KeepsItself(d.entries[n], exact); }
    }
  }

  /** Whatever the policy, the source and the failures, no existing entry becomes
      another kind of thing; unless the policy is to overwrite, none is altered. */
  lemma {:induction false} KidKeepsWhatWasThere(m: Merged, at: Path, kid: Kid, env: Env)
    requires m.dir.Dir?
    ensures Keeps(m.dir, MergeKid(m, at, kid, env).dir, !env.policy.Overwrite?)
    decreases kid
  {
    hide Ancestors, MergeKids, Place, Keeps;
    var exact := !env.policy.Overwrite?;
    KeepsItself(m.dir, exact);
    var (ok, changed, skip) := Ancestors(m.changed, kid.tightened, 0);
    var m1 := m.(changed := changed, skips := m.skips + skip);
    if ok && kid.src.SrcLeaf? && kid.src != SrcLeaf(Special) {
      LeafKeepsWhatWasThere(m1, at, kid.name, kid.src.leaf, env);
    } else if ok && kid.src.SrcDir? {
      var p := Place(m.dir, at, kid.name, KindDir, env);
      if !p.Refused? && kid.src.opening.Opens? && at + [kid.name] !in env.unmade {
        PlaceOfADir(m.dir, at, kid.name, env);
        DirKeepsWhatWasThere(m1, at, kid.name, p.Create?, kid.src, env);
      }
    }
  }

  lemma PlaceOfADir(d: Node, at: Path, name: string, env: Env)
    requires d.Dir?
    ensures Place(d, at, name, KindDir, env) == Create(name) || Place(d, at, name, KindDir, env) in {Merge, Refused}
    ensures Place(d, at, name, KindDir, env) == Create(name) ==> name !in d.entries
  {
  }

  lemma LeafKeepsWhatWasThere(m: Merged, at: Path, name: string, leaf: Leaf, env: Env)
    requires m.dir.Dir?
    ensures Keeps(m.dir, MergeLeaf(m, at, name, leaf, env).dir, !env.policy.Overwrite?)
  {
    hide Keeps, FreeName;
    var exact := !env.policy.Overwrite?;
    var p := Place(m.dir, at, name, KindOfLeaf(leaf), env);
    var final := if p.Create? then p.name else name;
    KeepsItself(m.dir, exact);
    if !p.Refused? && at + [final] !in env.unmade {
      if p.Replace? {
        SameKindOfLeaf(m.dir.entries[name], Entry(leaf));
      }
      KeepsOneChanged(m.dir, final, Entry(leaf), None, exact);
    }
  }

  lemma SameKindOfLeaf(a: Node, b: Node)
    requires a.Entry? && b.Entry? && KindOf(a) == KindOf(b)
    ensures Keeps(a, b, false)
  {
  }

  lemma {:induction false} DirKeepsWhatWasThere(m: Merged, at: Path, name: string, created: bool, src: Src, env: Env)
    requires m.dir.Dir? && src.SrcDir?
    requires !created ==> name in m.dir.entries && m.dir.entries[name].Dir?
    requires created ==> name !in m.dir.entries
    ensures Keeps(m.dir, MergeDir(m, at, name, created, src, env).dir, !env.policy.Overwrite?)
    decreases src, |src.kids| + 1
  {
    hide Keeps, MergeKids;
    var exact := !env.policy.Overwrite?;
    var e := Entered(m, name, created);
    KidsKeepWhatWasThere(e, at + [name], src, |src.kids|, env);
    var inner := MergeKids(e, at + [name], src, |src.kids|, env);
    var r := MergeDir(m, at, name, created, src, env);
    KeepsOneChanged(m.dir, name, r.dir.entries[name], r.dir.mtime, exact);
  }

  lemma {:induction false} KidsKeepWhatWasThere(m: Merged, at: Path, src: Src, n: nat, env: Env)
    requires m.dir.Dir? && src.SrcDir? && n <= |src.kids|
    ensures Keeps(m.dir, MergeKids(m, at, src, n, env).dir, !env.policy.Overwrite?)
    decreases src, n
  {
    hide Keeps, MergeKid;
    var exact := !env.policy.Overwrite?;
    if n == 0 {
      KeepsItself(m.dir, exact);
    } else {
      var before := MergeKids(m, at, src, n - 1, env);
      KidsKeepWhatWasThere(m, at, src, n - 1, env);
      KidKeepsWhatWasThere(before, at, src.kids[n - 1], env);
      KeepsTrans(m.dir, before.dir, MergeKid(before, at, src.kids[n - 1], env).dir, exact);
    }
  }

  // ----- one entry's work is its own -----

  /** Copying one entry leaves every entry of another name exactly as it was, and adds at
      most one name: its own, or a numbered one where keeping both. */
  lemma OnlyItsOwnName(m: Merged, at: Path, kid: Kid, env: Env, n: string)
    requires m.dir.Dir?
    ensures n in m.dir.entries && n != kid.name ==>
              n in MergeKid(m, at, kid, env).dir.entries && MergeKid(m, at, kid, env).dir.entries[n] == m.dir.entries[n]
    ensures n !in m.dir.entries && n in MergeKid(m, at, kid, env).dir.entries ==>
              n == kid.name || (env.policy.KeepTheOld? && NumberedName(kid.name, n))
  {
    hide Ancestors, MergeKids, NumberedName, FreeName;
    if kid.src.SrcLeaf? {
      LeafOnlyItsOwnName(m, at, kid.name, kid.src.leaf, env, n);
    } else if kid.src.SrcDir? {
      var (_, changed, skip) := Ancestors(m.changed, kid.tightened, 0);
      var m1 := m.(changed := changed, skips := m.skips + skip);
      var p := Place(m.dir, at, kid.name, KindDir, env);
      if p.Create? || p.Merge? {
        assert MergeDir(m1, at, kid.name, p.Create?, kid.src, env).dir.entries.Keys == m.dir.entries.Keys + {kid.name};
      }
    }
  }

  lemma LeafOnlyItsOwnName(m: Merged, at: Path, name: string, leaf: Leaf, env: Env, n: string)
    requires m.dir.Dir?
    ensures var d := MergeLeaf(m, at, name, leaf, env).dir;
            n !in m.dir.entries && n in d.entries ==> n == name || (env.policy.KeepTheOld? && NumberedName(name, n))
  {
    hide NumberedName, FreeName;
    var p := Place(m.dir, at, name, KindOfLeaf(leaf), env);
    assert p.Create? ==> p.name == name || (env.policy.KeepTheOld? && NumberedName(name, p.name));
  }

  ghost predicate DistinctNames(src: Src)
    requires src.SrcDir?
  {
    forall i, j :: 0 <= i < j < |src.kids| ==> src.kids[i].name != src.kids[j].name
  }

  /** Later siblings leave an entry with the name of an earlier one as it is. */
  lemma {:induction false} SiblingsLeaveIt(m: Merged, at: Path, src: Src, i: nat, n: nat, env: Env)
    requires m.dir.Dir? && src.SrcDir? && i < n <= |src.kids| && DistinctNames(src)
    ensures var name := src.kids[i].name;
            name in MergeKids(m, at, src, i + 1, env).dir.entries ==>
              && name in MergeKids(m, at, src, n, env).dir.entries
              && MergeKids(m, at, src, n, env).dir.entries[name] == MergeKids(m, at, src, i + 1, env).dir.entries[name]
    decreases n
  {
    hide MergeKid;
    if i + 1 < n {
      SiblingsLeaveIt(m, at, src, i, n - 1, env);
      OnlyItsOwnName(MergeKids(m, at, src, n - 1, env), at, src.kids[n - 1], env, src.kids[i].name);
    }
  }

  /** A directory this job made has its source's time when its parent is finished,
      whatever was copied into it and after it. */
  lemma MadeDirectoryKeepsItsTime(m: Merged, at: Path, src: Src, i: nat, n: nat, env: Env)
    requires m.dir.Dir? && src.SrcDir? && i < n <= |src.kids| && DistinctNames(src)
    requires src.kids[i].src.SrcDir?
    requires src.kids[i].name !in MergeKids(m, at, src, i, env).dir.entries
    requires src.kids[i].name in MergeKids(m, at, src, i + 1, env).dir.entries
    ensures var name := src.kids[i].name;
            && name in MergeKids(m, at, src, n, env).dir.entries
            && MergeKids(m, at, src, n, env).dir.entries[name].Dir?
            && MergeKids(m, at, src, n, env).dir.entries[name].mtime == Some(src.kids[i].src.mtime)
  {
    hide MergeKid;
    SiblingsLeaveIt(m, at, src, i, n, env);
    MadeIsStamped(MergeKids(m, at, src, i, env), at, src.kids[i], env);
  }

  lemma MadeIsStamped(m: Merged, at: Path, kid: Kid, env: Env)
    requires m.dir.Dir? && kid.src.SrcDir? && kid.name !in m.dir.entries
    ensures var r := MergeKid(m, at, kid, env);
            kid.name in r.dir.entries ==>
              r.dir.entries[kid.name].Dir? && r.dir.entries[kid.name].mtime == Some(kid.src.mtime)
  {
    hide Ancestors, MergeKids, FreeName, NumberedName;
  }

  // ----- a job that skipped nothing -----

  ghost predicate DistinctBelow(src: Src)
    decreases src
  {
    src.SrcDir? ==> DistinctNames(src) && forall k | k in src.kids :: DistinctBelow(k.src)
  }

  /** The copy of an entry is there: a leaf under its own name, or under a numbered one
      where keeping both, and a directory, enumerated to its end, with a copy of everything
      in it. */
  ghost predicate Copied(kid: Kid, d: Node, env: Env)
    decreases kid
  {
    d.Dir? && match kid.src
      case SrcMount => false
      case SrcLeaf(leaf) => exists n | n in d.entries ::
        (n == kid.name || (env.policy.KeepTheOld? && NumberedName(kid.name, n))) && d.entries[n] == Entry(leaf)
      case SrcDir(_, _, kids, cut) =>
        && !cut && kid.name in d.entries && d.entries[kid.name].Dir?
        && forall k | k in kids :: Copied(k, d.entries[kid.name], env)
  }

  predicate Unmarked(changed: seq<bool>) {
    forall i :: 0 <= i < |changed| ==> !changed[i]
  }

  lemma {:induction false} CleanAncestors(changed: seq<bool>, tightened: set<nat>, i: nat)
    requires i <= |changed| && Unmarked(changed)
    ensures var (ok, c, n) := Ancestors(changed, tightened, i); if ok then n == 0 && c == changed else n == 1
    decreases |changed| - i
  {
    if i < |changed| && i !in tightened { CleanAncestors(changed, tightened, i + 1); }
  }

  /** The first directory above, from i on, that was found different before or is now. */
  predicate BarredAt(changed: seq<bool>, tightened: set<nat>, i: nat, k: nat) {
    i <= k && BarredBy(changed, tightened, k) && forall j :: i <= j < k ==> !BarredBy(changed, tightened, j)
  }

  /** The job goes on exactly when there is none.  The first is marked, and reported if it
      had not been. */
  lemma {:induction false} AncestorsMean(changed: seq<bool>, tightened: set<nat>, i: nat)
    requires i <= |changed|
    ensures Ancestors(changed, tightened, i).0 <==> forall k :: i <= k < |changed| ==> !BarredBy(changed, tightened, k)
    ensures Ancestors(changed, tightened, i).0 ==> Ancestors(changed, tightened, i) == (true, changed, 0)
    ensures forall k: nat | BarredAt(changed, tightened, i, k) ::
              Ancestors(changed, tightened, i) == (false, changed[k := true], if changed[k] then 0 else 1)
    decreases |changed| - i
  {
    if i < |changed| {
      AncestorsMean(changed, tightened, i + 1);
      assert BarredBy(changed, tightened, i) <==> changed[i] || i in tightened;
      if BarredBy(changed, tightened, i) {
        assert changed[i] ==> changed[i := true] == changed;
      } else {
        assert Ancestors(changed, tightened, i) == Ancestors(changed, tightened, i + 1);
        forall k: nat | BarredAt(changed, tightened, i, k) ensures BarredAt(changed, tightened, i + 1, k) {
        }
      }
    }
  }

  /** Candidate k can be looked up and is taken. */
  predicate Taken(d: Node, at: Path, name: string, k: nat, env: Env)
    requires d.Dir?
  {
    var cand := KeepBothWithin(name, false, k);
    cand.Some? && at + [cand.value] !in env.unreadable && cand.value in d.entries
  }

  /** Every candidate from n up to k is taken. */
  ghost predicate AllTaken(d: Node, at: Path, name: string, n: nat, k: nat, env: Env)
    requires d.Dir?
  {
    forall j :: n <= j < k ==> Taken(d, at, name, j, env)
  }

  ghost predicate FreeAt(d: Node, at: Path, name: string, n: nat, k: nat, env: Env, c: string)
    requires d.Dir?
  {
    && n <= k < 2 + MAX_KEEP_BOTH_TRIES && AllTaken(d, at, name, n, k, env)
    && KeepBothWithin(name, false, k) == Some(c) && c !in d.entries && at + [c] !in env.unreadable
  }

  ghost predicate StuckAt(d: Node, at: Path, name: string, n: nat, k: nat, env: Env)
    requires d.Dir?
  {
    && n <= k <= 2 + MAX_KEEP_BOTH_TRIES && AllTaken(d, at, name, n, k, env)
    && (k == 2 + MAX_KEEP_BOTH_TRIES || KeepBothWithin(name, false, k).None?
        || at + [KeepBothWithin(name, false, k).value] in env.unreadable)
  }

  /** "Keep both" takes the first name nothing answers to, and gives up only where a name
      cannot be made or looked up, or the whole range is taken. */
  lemma {:induction false} FreeNameIsFirst(d: Node, at: Path, name: string, n: nat, env: Env)
    requires d.Dir? && n <= 2 + MAX_KEEP_BOTH_TRIES
    ensures var p := FreeName(d, at, name, n, env);
            if p.Create? then exists k :: FreeAt(d, at, name, n, k, env, p.name) else exists k :: StuckAt(d, at, name, n, k, env)
    decreases 2 + MAX_KEEP_BOTH_TRIES - n
  {
    hide KeepBothWithin, NumberedName;
    if n < 2 + MAX_KEEP_BOTH_TRIES && Taken(d, at, name, n, env) {
      FreeNameIsFirst(d, at, name, n + 1, env);
      var p := FreeName(d, at, name, n + 1, env);
      assert p == FreeName(d, at, name, n, env);
      if p.Create? {
        var k :| FreeAt(d, at, name, n + 1, k, env, p.name);
        assert FreeAt(d, at, name, n, k, env, p.name);
      } else {
        var k :| StuckAt(d, at, name, n + 1, k, env);
        assert StuckAt(d, at, name, n, k, env);
      }
    } else {
      var p := FreeName(d, at, name, n, env);
      if p.Create? {
        assert FreeAt(d, at, name, n, n, env, p.name);
      } else {
        assert StuckAt(d, at, name, n, n, env);
      }
    }
  }

  /** Nothing that keeps a destination exactly can lose a copy in it. */
  lemma {:induction false} CopiedIsKept(kid: Kid, a: Node, b: Node, env: Env)
    requires Copied(kid, a, env) && Keeps(a, b, true)
    ensures Copied(kid, b, env)
    decreases kid
  {
    match kid.src
    case SrcLeaf(leaf) =>
      var n :| n in a.entries && (n == kid.name || (env.policy.KeepTheOld? && NumberedName(kid.name, n))) && a.entries[n] == Entry(leaf);
      assert b.entries[n] == Entry(leaf);
    case SrcDir(_, _, kids, _) =>
      forall k | k in kids ensures Copied(k, b.entries[kid.name], env) {
        CopiedIsKept(k, a.entries[kid.name], b.entries[kid.name], env);
      }
    case SrcMount =>
  }

  /** A sibling of another name cannot lose it either. */
  lemma CopiedSurvives(kid: Kid, m: Merged, at: Path, other: Kid, env: Env)
    requires m.dir.Dir? && Copied(kid, m.dir, env) && other.name != kid.name
    ensures Copied(kid, MergeKid(m, at, other, env).dir, env)
  {
    hide Keeps, MergeKid, NumberedName;
    if env.policy.Overwrite? {
      OnlyItsOwnName(m, at, other, env, kid.name);
    } else {
      KidKeepsWhatWasThere(m, at, other, env);
      CopiedIsKept(kid, m.dir, MergeKid(m, at, other, env).dir, env);
    }
  }

  // ----- why an entry is skipped -----

  /** A directory above was found different before, or is now. */
  ghost predicate Barred(changed: seq<bool>, tightened: set<nat>) {
    exists k :: BarredBy(changed, tightened, k)
  }

  predicate BarredBy(changed: seq<bool>, tightened: set<nat>, k: nat) {
    k < |changed| && (changed[k] || k in tightened)
  }

  /** What is there, or cannot be seen, stands in the way of a file or a link. */
  ghost predicate InTheWay(d: Node, at: Path, name: string, kind: Kind, env: Env)
    requires d.Dir?
  {
    || at + [name] in env.unreadable
    || (name in d.entries
        && (|| KindOf(d.entries[name]) != kind || env.policy.SkipExisting?
            || (env.policy.KeepTheOld? && exists k :: StuckAt(d, at, name, 2, k, env))))
  }

  /** The name a file or link gets: its own, or the first free numbered one. */
  ghost predicate GetsName(d: Node, at: Path, name: string, env: Env, c: string)
    requires d.Dir?
  {
    if name in d.entries && env.policy.KeepTheOld? then exists k :: FreeAt(d, at, name, 2, k, env, c) else c == name
  }

  /** Everything that makes the job skip a file or a link. */
  ghost predicate LeafCause(m: Merged, at: Path, kid: Kid, env: Env)
    requires m.dir.Dir? && kid.src.SrcLeaf?
  {
    || Barred(m.changed, kid.tightened) || kid.src.leaf.Special?
    || InTheWay(m.dir, at, kid.name, KindOfLeaf(kid.src.leaf), env)
    || exists c :: GetsName(m.dir, at, kid.name, env, c) && at + [c] in env.unmade
  }

  /** And a directory. */
  ghost predicate DirCause(m: Merged, at: Path, kid: Kid, env: Env)
    requires m.dir.Dir? && kid.src.SrcDir?
  {
    || Barred(m.changed, kid.tightened) || !kid.src.opening.Opens?
    || at + [kid.name] in env.unreadable || at + [kid.name] in env.unmade
    || (kid.name in m.dir.entries && !m.dir.entries[kid.name].Dir?)
  }

  lemma FreeIsNotStuck(d: Node, at: Path, name: string, k: nat, l: nat, env: Env, c: string)
    requires d.Dir? && FreeAt(d, at, name, 2, k, env, c)
    ensures !StuckAt(d, at, name, 2, l, env)
    ensures forall c' :: FreeAt(d, at, name, 2, l, env, c') ==> c' == c
  {
    hide KeepBothWithin;
    assert !Taken(d, at, name, k, env);
    assert 2 <= l < k ==> Taken(d, at, name, l, env);
  }

  /** The name that is free is the one that is taken. */
  lemma FreeNameMeans(d: Node, at: Path, name: string, env: Env)
    requires d.Dir?
    ensures FreeName(d, at, name, 2, env).Refused? <==> exists k :: StuckAt(d, at, name, 2, k, env)
    ensures forall c, k: nat | FreeAt(d, at, name, 2, k, env, c) :: FreeName(d, at, name, 2, env) == Create(c)
    ensures FreeName(d, at, name, 2, env).Create? ==> exists k :: FreeAt(d, at, name, 2, k, env, FreeName(d, at, name, 2, env).name)
  {
    hide FreeName, FreeAt, StuckAt;
    FreeNameIsFirst(d, at, name, 2, env);
    var p := FreeName(d, at, name, 2, env);
    if p.Create? {
      var k :| FreeAt(d, at, name, 2, k, env, p.name);
      forall l: nat ensures !StuckAt(d, at, name, 2, l, env) {
        FreeIsNotStuck(d, at, name, k, l, env, p.name);
      }
      forall l: nat, c | FreeAt(d, at, name, 2, l, env, c) ensures c == p.name {
        FreeIsNotStuck(d, at, name, k, l, env, p.name);
      }
    } else {
      var l :| StuckAt(d, at, name, 2, l, env);
      forall k: nat, c | FreeAt(d, at, name, 2, k, env, c) ensures false {
        FreeIsNotStuck(d, at, name, k, l, env, c);
      }
    }
  }

  /** What placing it decides. */
  lemma LeafIsPlaced(d: Node, at: Path, name: string, kind: Kind, env: Env)
    requires d.Dir? && !kind.KindDir?
    ensures var p := Place(d, at, name, kind, env);
            && (p.Refused? <==> InTheWay(d, at, name, kind, env))
            && (!p.Refused? ==> forall c :: GetsName(d, at, name, env, c) <==> c == if p.Create? then p.name else name)
  {
    hide FreeName, FreeAt, StuckAt, NumberedName;
    FreeNameMeans(d, at, name, env);
  }

  /** A file or a link is skipped for exactly these causes, and then nothing is touched;
      otherwise it is put under its name and nothing else is changed. */
  lemma LeafIsSkippedIff(m: Merged, at: Path, kid: Kid, env: Env)
    requires m.dir.Dir? && kid.src.SrcLeaf?
    ensures var r := MergeKid(m, at, kid, env);
            if LeafCause(m, at, kid, env) then r == m.(changed := r.changed, skips := r.skips)
            else exists c ::
              && GetsName(m.dir, at, kid.name, env, c)
              && r == m.(dir := Insert(m.dir, c, Entry(kid.src.leaf)), files := m.files + 1)
    ensures LeafCause(m, at, kid, env) && !Barred(m.changed, kid.tightened) ==>
              MergeKid(m, at, kid, env) == m.(skips := m.skips + 1)
  {
    hide Ancestors, Place, InTheWay, GetsName;
    AncestorsMean(m.changed, kid.tightened, 0);
    LeafIsPlaced(m.dir, at, kid.name, KindOfLeaf(kid.src.leaf), env);
    if !Barred(m.changed, kid.tightened) {
      assert Ancestors(m.changed, kid.tightened, 0) == (true, m.changed, 0);
      var p := Place(m.dir, at, kid.name, KindOfLeaf(kid.src.leaf), env);
      if !kid.src.leaf.Special? && !p.Refused? {
        assert GetsName(m.dir, at, kid.name, env, if p.Create? then p.name else kid.name);
      }
    }
  }

  /** So is a directory; otherwise it is merged into what is there, or into a new one. */
  lemma {:induction false} DirIsSkippedIff(m: Merged, at: Path, kid: Kid, env: Env)
    requires m.dir.Dir? && kid.src.SrcDir?
    ensures var r := MergeKid(m, at, kid, env);
            if DirCause(m, at, kid, env) then r == m.(changed := r.changed, skips := r.skips)
            else r == MergeDir(m, at, kid.name, kid.name !in m.dir.entries, kid.src, env)
    ensures DirCause(m, at, kid, env) && !Barred(m.changed, kid.tightened) ==>
              m.skips < MergeKid(m, at, kid, env).skips
  {
    hide Ancestors, FreeName, MergeDir;
    AncestorsMean(m.changed, kid.tightened, 0);
    if !Barred(m.changed, kid.tightened) {
      assert Ancestors(m.changed, kid.tightened, 0) == (true, m.changed, 0);
      var p := Place(m.dir, at, kid.name, KindDir, env);
      assert p.Create? ==> p == Create(kid.name) by { PlaceOfADir(m.dir, at, kid.name, env); }
    }
  }

  /** A file or a link with no cause has its copy when the directory is finished, whatever
      the policy and whatever became of its siblings. */
  lemma UncausedIsCopied(m: Merged, at: Path, src: Src, i: nat, n: nat, env: Env)
    requires m.dir.Dir? && src.SrcDir? && i < n <= |src.kids| && DistinctNames(src) && src.kids[i].src.SrcLeaf?
    requires !LeafCause(MergeKids(m, at, src, i, env), at, src.kids[i], env)
    ensures Copied(src.kids[i], MergeKids(m, at, src, n, env).dir, env)
    decreases n
  {
    hide LeafCause, MergeKid, GetsName, FreeAt, NumberedName;
    if i + 1 < n {
      UncausedIsCopied(m, at, src, i, n - 1, env);
      CopiedSurvives(src.kids[i], MergeKids(m, at, src, n - 1, env), at, src.kids[n - 1], env);
    } else {
      var before, kid := MergeKids(m, at, src, i, env), src.kids[i];
      LeafIsSkippedIff(before, at, kid, env);
      var r := MergeKid(before, at, kid, env);
      var c :| GetsName(before.dir, at, kid.name, env, c)
               && r == before.(dir := Insert(before.dir, c, Entry(kid.src.leaf)), files := before.files + 1);
      ItsNameOrNumbered(before.dir, at, kid.name, env, c);
      assert r.dir.entries[c] == Entry(kid.src.leaf);
    }
  }

  lemma ItsNameOrNumbered(d: Node, at: Path, name: string, env: Env, c: string)
    requires d.Dir? && GetsName(d, at, name, env, c)
    ensures c == name || (env.policy.KeepTheOld? && NumberedName(name, c))
  {
  }

  // ----- nothing stands in the way of an entry, so it is there -----

  /** When this entry, or one below it, is reached, one of the first depth directories
      above no longer matches its record. */
  ghost predicate Disturbs(kid: Kid, depth: nat)
    decreases kid
  {
    || (exists d :: d in kid.tightened && d < depth)
    || (kid.src.SrcDir? && exists k :: k in kid.src.kids && Disturbs(k, depth))
  }

  ghost predicate Calm(changed: seq<bool>, depth: nat) {
    depth <= |changed| && forall i :: 0 <= i < depth ==> !changed[i]
  }

  lemma {:induction false} StaysCalm(m: Merged, at: Path, kid: Kid, env: Env, depth: nat)
    requires m.dir.Dir? && Calm(m.changed, depth) && !Disturbs(kid, depth)
    ensures Calm(MergeKid(m, at, kid, env).changed, depth)
    decreases kid
  {
    hide Ancestors, MergeKids, Place, FreeName, MergeLeaf;
    AncestorsStayCalm(m.changed, kid.tightened, 0, depth);
    var (ok, changed, skip) := Ancestors(m.changed, kid.tightened, 0);
    var p := Place(m.dir, at, kid.name, KindDir, env);
    if ok && kid.src.SrcDir? && !p.Refused? && kid.src.opening.Opens? && at + [kid.name] !in env.unmade {
      PlaceOfADir(m.dir, at, kid.name, env);
      AllStayCalm(Entered(m.(changed := changed, skips := m.skips + skip), kid.name, p.Create?),
                  at + [kid.name], kid.src, |kid.src.kids|, env, depth);
    }
  }

  lemma {:induction false} AncestorsStayCalm(changed: seq<bool>, tightened: set<nat>, i: nat, depth: nat)
    requires i <= |changed| && Calm(changed, depth) && forall d :: d in tightened ==> depth <= d
    ensures Calm(Ancestors(changed, tightened, i).1, depth)
    decreases |changed| - i
  {
    if i < |changed| { AncestorsStayCalm(changed, tightened, i + 1, depth); }
  }

  lemma {:induction false} AllStayCalm(m: Merged, at: Path, src: Src, n: nat, env: Env, depth: nat)
    requires m.dir.Dir? && src.SrcDir? && n <= |src.kids| && Calm(m.changed, depth)
    requires forall j :: 0 <= j < n ==> !Disturbs(src.kids[j], depth)
    ensures Calm(MergeKids(m, at, src, n, env).changed, depth)
    decreases src, n
  {
    hide MergeKid, Disturbs;
    if n > 0 {
      AllStayCalm(m, at, src, n - 1, env, depth);
      StaysCalm(MergeKids(m, at, src, n - 1, env), at, src.kids[n - 1], env, depth);
    }
  }

  /** What a destination directory, if there is one, holds under a name. */
  function There(d: Option<Node>, name: string): Option<Node> {
    if d.Some? && d.value.Dir? && name in d.value.entries then Some(d.value.entries[name]) else None
  }

  /** Nothing stands in the way of the entry this route of positions leads to: on the way
      every name can be looked up and made, every directory opens, nothing of another kind
      is there, and no directory above had been found different.  Only a file to be
      overwritten may be there.  was is what the destination held before the job. */
  ghost predicate Clear(was: Option<Node>, at: Path, src: Src, depth: nat, route: seq<nat>, env: Env)
    decreases route
  {
    && src.SrcDir? && route != [] && route[0] < |src.kids|
    && var kid := src.kids[route[0]];
       var there := There(was, kid.name);
       && (forall j :: 0 <= j < route[0] ==> !Disturbs(src.kids[j], depth))
       && (forall d :: d in kid.tightened ==> depth <= d)
       && at + [kid.name] !in env.unreadable && at + [kid.name] !in env.unmade
       && match kid.src
          case SrcMount => false
          case SrcLeaf(leaf) =>
            && |route| == 1 && !leaf.Special?
            && (there.None? || (env.policy.Overwrite? && KindOf(there.value) == KindOfLeaf(leaf)))
          case SrcDir(_, opening, _, _) =>
            && opening.Opens? && (there.None? || there.value.Dir?)
            && (|route| > 1 ==> Clear(there, at + [kid.name], kid.src, depth + 1, route[1..], env))
  }

  /** The entry is there as the source has it: the same names lead to it. */
  ghost predicate IsThere(d: Node, src: Src, route: seq<nat>)
    decreases route
  {
    && d.Dir? && src.SrcDir? && route != [] && route[0] < |src.kids|
    && var kid := src.kids[route[0]];
       && kid.name in d.entries
       && var x := d.entries[kid.name];
          if |route| > 1 then IsThere(x, kid.src, route[1..])
          else match kid.src
            case SrcMount => false
            case SrcLeaf(leaf) => x == Entry(leaf)
            case SrcDir(_, _, _, _) => x.Dir?
  }

  /** A directory just made holds what nothing holds. */
  lemma ClearInANewOne(at: Path, src: Src, depth: nat, route: seq<nat>, env: Env)
    requires Clear(None, at, src, depth, route, env)
    ensures Clear(Some(Dir(map[], None)), at, src, depth, route, env)
  {
    hide Disturbs;
    assert There(Some(Dir(map[], None)), src.kids[route[0]].name) == None;
  }

  /** Siblings before an entry leave its name as it was, unless numbered names are made. */
  lemma {:induction false} NotReachedYet(m: Merged, at: Path, src: Src, i: nat, n: nat, env: Env)
    requires m.dir.Dir? && src.SrcDir? && n <= i < |src.kids| && DistinctNames(src) && !env.policy.KeepTheOld?
    ensures There(Some(MergeKids(m, at, src, n, env).dir), src.kids[i].name) == There(Some(m.dir), src.kids[i].name)
    decreases n
  {
    hide MergeKid;
    if n > 0 {
      NotReachedYet(m, at, src, i, n - 1, env);
      OnlyItsOwnName(MergeKids(m, at, src, n - 1, env), at, src.kids[n - 1], env, src.kids[i].name);
    }
  }

  /** Where existing files are overwritten or skipped: an entry with nothing in its way is
      there when the directory is finished, at whatever depth, and whatever else of the
      job was skipped. */
  lemma {:induction false} ClearIsCopied(m: Merged, at: Path, src: Src, n: nat, route: seq<nat>, env: Env)
    requires m.dir.Dir? && src.SrcDir? && n <= |src.kids| && DistinctBelow(src) && !env.policy.KeepTheOld?
    requires Calm(m.changed, |m.changed|) && Clear(Some(m.dir), at, src, |m.changed|, route, env) && route[0] < n
    ensures IsThere(MergeKids(m, at, src, n, env).dir, src, route)
    decreases |route|
  {
    hide MergeKid, Disturbs, LeafCause, DirCause, MergeDir;
    var i := route[0];
    var before, kid := MergeKids(m, at, src, i, env), src.kids[i];
    NotReachedYet(m, at, src, i, i, env);
    AllStayCalm(m, at, src, i, env, |m.changed|);
    SiblingsLeaveIt(m, at, src, i, n, env);
    assert kid in src.kids;
    assert MergeKids(m, at, src, i + 1, env) == MergeKid(before, at, kid, env);
    if kid.src.SrcLeaf? {
      ClearLeaf(before, at, kid, env);
    } else {
      ClearDir(before, at, kid, env);
      if |route| > 1 {
        var created := kid.name !in before.dir.entries;
        var e := Entered(before, kid.name, created);
        if created { ClearInANewOne(at + [kid.name], kid.src, |e.changed|, route[1..], env); }
        assert Calm(e.changed, |e.changed|);
        ClearIsCopied(e, at + [kid.name], kid.src, |kid.src.kids|, route[1..], env);
        FilledIsThere(before, at, kid, created, env, route[1..]);
      }
    }
  }

  lemma ClearLeaf(m: Merged, at: Path, kid: Kid, env: Env)
    requires m.dir.Dir? && kid.src.SrcLeaf? && !kid.src.leaf.Special? && !env.policy.KeepTheOld?
    requires Calm(m.changed, |m.changed|) && (forall d :: d in kid.tightened ==> |m.changed| <= d)
    requires at + [kid.name] !in env.unreadable && at + [kid.name] !in env.unmade
    requires kid.name in m.dir.entries ==> env.policy.Overwrite? && KindOf(m.dir.entries[kid.name]) == KindOfLeaf(kid.src.leaf)
    ensures var d := MergeKid(m, at, kid, env).dir; kid.name in d.entries && d.entries[kid.name] == Entry(kid.src.leaf)
  {
    hide MergeKid, StuckAt, FreeAt;
    LeafIsSkippedIff(m, at, kid, env);
  }

  lemma {:induction false} ClearDir(m: Merged, at: Path, kid: Kid, env: Env)
    requires m.dir.Dir? && kid.src.SrcDir? && kid.src.opening.Opens?
    requires Calm(m.changed, |m.changed|) && (forall d :: d in kid.tightened ==> |m.changed| <= d)
    requires at + [kid.name] !in env.unreadable && at + [kid.name] !in env.unmade
    requires kid.name in m.dir.entries ==> m.dir.entries[kid.name].Dir?
    ensures MergeKid(m, at, kid, env) == MergeDir(m, at, kid.name, kid.name !in m.dir.entries, kid.src, env)
    ensures var d := MergeKid(m, at, kid, env).dir; kid.name in d.entries && d.entries[kid.name].Dir?
  {
    hide MergeKid, MergeKids;
    DirIsSkippedIff(m, at, kid, env);
  }

  lemma {:induction false} FilledIsThere(m: Merged, at: Path, kid: Kid, created: bool, env: Env, route: seq<nat>)
    requires m.dir.Dir? && kid.src.SrcDir?
    requires !created ==> kid.name in m.dir.entries && m.dir.entries[kid.name].Dir?
    requires IsThere(MergeKids(Entered(m, kid.name, created), at + [kid.name], kid.src, |kid.src.kids|, env).dir, kid.src, route)
    ensures var d := MergeDir(m, at, kid.name, created, kid.src, env).dir;
            kid.name in d.entries && IsThere(d.entries[kid.name], kid.src, route)
  {
    hide MergeKids;
  }

  // ----- nothing skipped, everything copied -----

  /** A job that reported no skip has copied every entry it was given: for every source,
      destination, policy and set of failures. */
  lemma {:induction false} NoSkipMeansCopied(m: Merged, at: Path, kid: Kid, env: Env)
    requires m.dir.Dir? && Unmarked(m.changed) && DistinctBelow(kid.src)
    ensures var r := MergeKid(m, at, kid, env);
            r.skips >= m.skips && (r.skips == m.skips ==> Unmarked(r.changed) && Copied(kid, r.dir, env))
    decreases kid
  {
    hide Ancestors, MergeKids, Place, FreeName, NumberedName;
    CleanAncestors(m.changed, kid.tightened, 0);
    if kid.src.SrcLeaf? { LeafCopied(m, at, kid, env); }
    var (ok, changed, skip) := Ancestors(m.changed, kid.tightened, 0);
    if ok && kid.src.SrcDir? {
      var p := Place(m.dir, at, kid.name, KindDir, env);
      if !p.Refused? && kid.src.opening.Opens? && at + [kid.name] !in env.unmade {
        PlaceOfADir(m.dir, at, kid.name, env);
        var e := Entered(m, kid.name, p.Create?);
        NoSkipMeansAllCopied(e, at + [kid.name], kid.src, |kid.src.kids|, env);
        var inner := MergeKids(e, at + [kid.name], kid.src, |kid.src.kids|, env);
        var d := MergeKid(m, at, kid, env).dir.entries[kid.name];
        if inner.skips == e.skips {
          forall k | k in kid.src.kids ensures Copied(k, d, env) {
            OnlyTheTimeDiffers(k, inner.dir, d, env);
          }
        }
      }
    }
  }

  lemma LeafCopied(m: Merged, at: Path, kid: Kid, env: Env)
    requires m.dir.Dir? && kid.src.SrcLeaf?
    ensures var r := MergeLeaf(m, at, kid.name, kid.src.leaf, env);
            r.skips >= m.skips && (r.skips == m.skips ==> Copied(kid, r.dir, env))
  {
    hide NumberedName;
    var p := Place(m.dir, at, kid.name, KindOfLeaf(kid.src.leaf), env);
    assert p.Create? ==> p.name == kid.name || (env.policy.KeepTheOld? && NumberedName(kid.name, p.name));
    var n := if p.Create? then p.name else kid.name;
    var r := MergeLeaf(m, at, kid.name, kid.src.leaf, env);
    assert r.skips == m.skips ==> n in r.dir.entries && r.dir.entries[n] == Entry(kid.src.leaf);
  }

  lemma OnlyTheTimeDiffers(kid: Kid, a: Node, b: Node, env: Env)
    requires a.Dir? && b.Dir? && a.entries == b.entries && Copied(kid, a, env)
    ensures Copied(kid, b, env)
  {
  }

  lemma {:induction false} NoSkipMeansAllCopied(m: Merged, at: Path, src: Src, n: nat, env: Env)
    requires m.dir.Dir? && Unmarked(m.changed) && src.SrcDir? && n <= |src.kids| && DistinctBelow(src)
    ensures var r := MergeKids(m, at, src, n, env);
            r.skips >= m.skips
            && (r.skips == m.skips ==> Unmarked(r.changed) && forall i :: 0 <= i < n ==> Copied(src.kids[i], r.dir, env))
    decreases src, n
  {
    hide MergeKid, Copied;
    if n > 0 {
      NoSkipMeansAllCopied(m, at, src, n - 1, env);
      var before := MergeKids(m, at, src, n - 1, env);
      assert src.kids[n - 1] in src.kids;
      SkipsGrow(before, at, src.kids[n - 1], env);
      if before.skips == m.skips {
        NoSkipMeansCopied(before, at, src.kids[n - 1], env);
        forall i | 0 <= i < n - 1 ensures Copied(src.kids[i], MergeKid(before, at, src.kids[n - 1], env).dir, env) {
          CopiedSurvives(src.kids[i], before, at, src.kids[n - 1], env);
        }
      }
    }
  }

  lemma {:induction false} SkipsGrow(m: Merged, at: Path, kid: Kid, env: Env)
    requires m.dir.Dir?
    ensures MergeKid(m, at, kid, env).skips >= m.skips
    decreases kid
  {
    hide Ancestors, MergeKids, Place, FreeName, NumberedName;
    var (ok, changed, skip) := Ancestors(m.changed, kid.tightened, 0);
    if ok && kid.src.SrcDir? {
      var p := Place(m.dir, at, kid.name, KindDir, env);
      if !p.Refused? && kid.src.opening.Opens? && at + [kid.name] !in env.unmade {
        PlaceOfADir(m.dir, at, kid.name, env);
        SkipsGrowAll(Entered(m.(changed := changed, skips := m.skips + skip), kid.name, p.Create?),
                     at + [kid.name], kid.src, |kid.src.kids|, env);
      }
    }
  }

  lemma {:induction false} SkipsGrowAll(m: Merged, at: Path, src: Src, n: nat, env: Env)
    requires m.dir.Dir? && src.SrcDir? && n <= |src.kids|
    ensures MergeKids(m, at, src, n, env).skips >= m.skips
    decreases src, n
  {
    hide MergeKid;
    if n > 0 {
      SkipsGrowAll(m, at, src, n - 1, env);
      SkipsGrow(MergeKids(m, at, src, n - 1, env), at, src.kids[n - 1], env);
    }
  }

  // ----- times are reproduced once -----

  /** The part of a destination path below at. */
  predicate Under(p: Path, at: Path) {
    |at| <= |p| && p[..|at|] == at
  }

  /** No path is stamped twice, and every stamped path under at is there. */
  ghost predicate Stamped(m: Merged, at: Path) {
    && (forall i, j :: 0 <= i < j < |m.stamps| ==> m.stamps[i] != m.stamps[j])
    && (forall p | p in m.stamps && Under(p, at) && p != at :: Has(m.dir, p[|at|..]))
  }

  /** Later stamps are all of directories strictly below at. */
  ghost predicate StampsGrewUnder(was: seq<Path>, now: seq<Path>, at: Path) {
    was <= now && forall i :: |was| <= i < |now| ==> Under(now[i], at) && now[i] != at
  }

  lemma StillThere(m: Merged, r: Merged, at: Path, p: Path, exact: bool)
    requires Keeps(m.dir, r.dir, exact) && Stamped(m, at) && p in m.stamps && Under(p, at) && p != at
    ensures Has(r.dir, p[|at|..])
  {
    KeptAtEveryPath(m.dir, r.dir, exact, p[|at|..]);
  }

  /** Entering a directory, what is stamped below it is there. */
  lemma StampedInside(m: Merged, at: Path, name: string, created: bool)
    requires m.dir.Dir? && Stamped(m, at)
    requires if created then name !in m.dir.entries else name in m.dir.entries && m.dir.entries[name].Dir?
    ensures Stamped(Entered(m, name, created), at + [name])
    ensures created ==> at + [name] !in m.stamps
  {
    forall p | p in m.stamps && Under(p, at + [name])
      ensures !created && Has(m.dir.entries[name], p[|at| + 1..])
    {
      assert p[|at|] == name && Under(p, at);
      assert p[|at|..][0] == name && p[|at|..][1..] == p[|at| + 1..];
    }
    assert created ==> at + [name] !in m.stamps by {
      if at + [name] in m.stamps { assert Under(at + [name], at + [name]); }
    }
  }

  /** A directory is stamped at most once in a job, and what is stamped stays. */
  lemma {:induction false} StampedOnce(m: Merged, at: Path, kid: Kid, env: Env)
    requires m.dir.Dir? && Stamped(m, at)
    ensures var r := MergeKid(m, at, kid, env); Stamped(r, at) && StampsGrewUnder(m.stamps, r.stamps, at)
    decreases kid
  {
    hide Ancestors, MergeKids, Place, FreeName, NumberedName, Keeps, Has, MergeDir, Stamped;
    var r := MergeKid(m, at, kid, env);
    KidKeepsWhatWasThere(m, at, kid, env);
    var (ok, changed, skip) := Ancestors(m.changed, kid.tightened, 0);
    var p := Place(m.dir, at, kid.name, KindDir, env);
    if ok && kid.src.SrcDir? && !p.Refused? && kid.src.opening.Opens? && at + [kid.name] !in env.unmade {
      PlaceOfADir(m.dir, at, kid.name, env);
      var m1 := m.(changed := changed, skips := m.skips + skip);
      StampedIgnores(m, m1, at);
      DirStampedOnce(m1, at, kid.name, p.Create?, kid.src, env);
    } else {
      SameStamps(m, r, at, !env.policy.Overwrite?);
    }
  }

  lemma StampedIgnores(m: Merged, r: Merged, at: Path)
    requires Stamped(m, at) && r.dir == m.dir && r.stamps == m.stamps
    ensures Stamped(r, at)
  {
  }

  lemma SameStamps(m: Merged, r: Merged, at: Path, exact: bool)
    requires Stamped(m, at) && r.stamps == m.stamps && Keeps(m.dir, r.dir, exact)
    ensures Stamped(r, at)
  {
    forall p | p in m.stamps && Under(p, at) && p != at ensures Has(r.dir, p[|at|..]) {
      StillThere(m, r, at, p, exact);
    }
  }

  lemma {:induction false} DirStampedOnce(m: Merged, at: Path, name: string, created: bool, src: Src, env: Env)
    requires m.dir.Dir? && Stamped(m, at) && src.SrcDir?
    requires if created then name !in m.dir.entries else name in m.dir.entries && m.dir.entries[name].Dir?
    ensures var r := MergeDir(m, at, name, created, src, env);
            Stamped(r, at) && StampsGrewUnder(m.stamps, r.stamps, at)
    decreases src, |src.kids| + 1
  {
    hide MergeKids, Keeps;
    var e := Entered(m, name, created);
    StampedInside(m, at, name, created);
    KidsStampedOnce(e, at + [name], src, |src.kids|, env);
    var inner := MergeKids(e, at + [name], src, |src.kids|, env);
    var r := MergeDir(m, at, name, created, src, env);
    DirKeepsWhatWasThere(m, at, name, created, src, env);
    forall i | |m.stamps| <= i < |inner.stamps| ensures Under(inner.stamps[i], at) && inner.stamps[i] != at && inner.stamps[i] != at + [name] {
      assert inner.stamps[i][..|at|] == inner.stamps[i][..|at + [name]|][..|at|];
    }
    forall p | p in r.stamps && Under(p, at) && p != at ensures Has(r.dir, p[|at|..]) {
      if p in m.stamps {
        StillThere(m, r, at, p, !env.policy.Overwrite?);
      } else if p != at + [name] {
        assert p in inner.stamps && Under(p, at + [name]);
        assert p[|at|..][0] == p[..|at + [name]|][|at|] == name && p[|at|..][1..] == p[|at + [name]|..];
        SameBelow(inner.dir, r.dir.entries[name], p[|at + [name]|..]);
      } else {
        assert p[|at|..] == [name];
      }
    }
  }

  lemma SameBelow(a: Node, b: Node, p: Path)
    requires a.Dir? && b.Dir? && a.entries == b.entries && Has(a, p)
    ensures Has(b, p)
  {
  }

  lemma {:induction false} KidsStampedOnce(m: Merged, at: Path, src: Src, n: nat, env: Env)
    requires m.dir.Dir? && Stamped(m, at) && src.SrcDir? && n <= |src.kids|
    ensures var r := MergeKids(m, at, src, n, env); Stamped(r, at) && StampsGrewUnder(m.stamps, r.stamps, at)
    decreases src, n
  {
    hide MergeKid, Stamped;
    if n > 0 {
      KidsStampedOnce(m, at, src, n - 1, env);
      StampedOnce(MergeKids(m, at, src, n - 1, env), at, src.kids[n - 1], env);
    }
  }

  // ----- and last to the end -----

  /** Going down rest in a destination tree and in its source leads to a directory with
      its source's time. */
  ghost predicate TimedIn(x: Node, rest: Path, src: Src)
    decreases rest
  {
    && x.Dir? && src.SrcDir?
    && if rest == [] then x.mtime == Some(src.mtime)
       else
         && rest[0] in x.entries
         && exists i :: 0 <= i < |src.kids| && src.kids[i].name == rest[0]
                        && TimedIn(x.entries[rest[0]], rest[1..], src.kids[i].src)
  }

  /** The path leads through an entry called name, and on to a directory with its
      source's time. */
  ghost predicate TimedAt(d: Node, at: Path, p: Path, name: string, src: Src) {
    && Under(p, at) && p != at && p[|at|] == name
    && d.Dir? && name in d.entries && TimedIn(d.entries[name], p[|at| + 1..], src)
  }

  /** Everything stamped since holds, now, a directory with the time of its source. */
  ghost predicate NewlyTimed(was: seq<Path>, r: Merged, at: Path, src: Src, n: nat)
    requires src.SrcDir? && n <= |src.kids|
  {
    && was <= r.stamps
    && forall j | |was| <= j < |r.stamps| :: exists i :: 0 <= i < n && TimedAt(r.dir, at, r.stamps[j], src.kids[i].name, src.kids[i].src)
  }

  lemma {:induction false} KidIsTimed(m: Merged, at: Path, kid: Kid, env: Env)
    requires m.dir.Dir? && DistinctBelow(kid.src)
    ensures var r := MergeKid(m, at, kid, env);
            && m.stamps <= r.stamps
            && forall j | |m.stamps| <= j < |r.stamps| :: TimedAt(r.dir, at, r.stamps[j], kid.name, kid.src)
    decreases kid
  {
    hide Ancestors, MergeKids, Place, FreeName, NumberedName, MergeDir, TimedAt, DistinctBelow;
    var (ok, changed, skip) := Ancestors(m.changed, kid.tightened, 0);
    var p := Place(m.dir, at, kid.name, KindDir, env);
    if ok && kid.src.SrcDir? && !p.Refused? && kid.src.opening.Opens? && at + [kid.name] !in env.unmade {
      PlaceOfADir(m.dir, at, kid.name, env);
      DirIsTimed(m.(changed := changed, skips := m.skips + skip), at, kid.name, p.Create?, kid.src, env);
    }
  }

  lemma {:induction false} DirIsTimed(m: Merged, at: Path, name: string, created: bool, src: Src, env: Env)
    requires m.dir.Dir? && src.SrcDir? && DistinctBelow(src)
    requires if created then name !in m.dir.entries else name in m.dir.entries && m.dir.entries[name].Dir?
    ensures var r := MergeDir(m, at, name, created, src, env);
            && m.stamps <= r.stamps
            && forall j | |m.stamps| <= j < |r.stamps| :: TimedAt(r.dir, at, r.stamps[j], name, src)
    decreases src, |src.kids| + 1
  {
    hide MergeKids, DistinctBelow;
    var e := Entered(m, name, created);
    KidsAreTimed(e, at + [name], src, |src.kids|, env);
    var inner := MergeKids(e, at + [name], src, |src.kids|, env);
    var r := MergeDir(m, at, name, created, src, env);
    forall j | |m.stamps| <= j < |r.stamps| ensures TimedAt(r.dir, at, r.stamps[j], name, src) {
      var p := r.stamps[j];
      if j < |inner.stamps| {
        var i :| 0 <= i < |src.kids| && TimedAt(inner.dir, at + [name], p, src.kids[i].name, src.kids[i].src);
        DeeperIsTimed(inner.dir, r.dir.entries[name], at, name, p, src, i);
      } else {
        assert p == at + [name] && p[|at| + 1..] == [];
      }
    }
  }

  lemma DeeperIsTimed(inner: Node, x: Node, at: Path, name: string, p: Path, src: Src, i: nat)
    requires x.Dir? && inner.Dir? && x.entries == inner.entries && src.SrcDir? && i < |src.kids|
    requires TimedAt(inner, at + [name], p, src.kids[i].name, src.kids[i].src)
    ensures Under(p, at) && p != at && p[|at|] == name && TimedIn(x, p[|at| + 1..], src)
  {
    var rest := p[|at| + 1..];
    assert p[..|at|] == p[..|at + [name]|][..|at|] == at && p[|at|] == p[..|at + [name]|][|at|];
    assert rest[0] == p[|at + [name]|] && rest[1..] == p[|at + [name]| + 1..];
  }

  lemma {:induction false} KidsAreTimed(m: Merged, at: Path, src: Src, n: nat, env: Env)
    requires m.dir.Dir? && src.SrcDir? && n <= |src.kids| && DistinctBelow(src)
    ensures NewlyTimed(m.stamps, MergeKids(m, at, src, n, env), at, src, n)
    decreases src, n
  {
    hide MergeKid, TimedIn;
    if n > 0 {
      KidsAreTimed(m, at, src, n - 1, env);
      var before, kid := MergeKids(m, at, src, n - 1, env), src.kids[n - 1];
      var r := MergeKid(before, at, kid, env);
      assert kid in src.kids;
      KidIsTimed(before, at, kid, env);
      forall j | |m.stamps| <= j < |r.stamps|
        ensures exists i :: 0 <= i < n && TimedAt(r.dir, at, r.stamps[j], src.kids[i].name, src.kids[i].src)
      {
        if j < |before.stamps| {
          var i :| 0 <= i < n - 1 && TimedAt(before.dir, at, before.stamps[j], src.kids[i].name, src.kids[i].src);
          OnlyItsOwnName(before, at, kid, env, src.kids[i].name);
          assert TimedAt(r.dir, at, r.stamps[j], src.kids[i].name, src.kids[i].src);
        } else {
          assert TimedAt(r.dir, at, r.stamps[j], src.kids[n - 1].name, src.kids[n - 1].src);
        }
      }
    }
  }

  /** The job: a selected directory and the container it is copied into.  Whatever the
      container held is still there; with no skip and no name twice in any one source
      directory, a copy of every source entry is there; no directory was stamped twice;
      and in the finished tree every directory stamped, at whatever depth, has the time of
      its own source. */
  lemma RootMerge(m: Merged, container: Path, name: string, create: bool, src: Src, env: Env)
    requires m.dir.Dir? && m.changed == [] && m.stamps == [] && src.SrcDir?
    requires if create then name !in m.dir.entries else name in m.dir.entries && m.dir.entries[name].Dir?
    ensures var r := MergeRoot(m, container, name, create, src, env);
            && Keeps(m.dir, r.dir, !env.policy.Overwrite?)
            && (forall i, j :: 0 <= i < j < |r.stamps| ==> r.stamps[i] != r.stamps[j])
            && (r.skips == m.skips && DistinctBelow(src) ==> Copied(Kid(name, {}, src), r.dir, env))
            && (DistinctBelow(src) ==> forall j | 0 <= j < |r.stamps| :: TimedAt(r.dir, container, r.stamps[j], name, src))
  {
    hide MergeKids, Keeps, Copied, Has, TimedAt, DistinctBelow;
    if DistinctBelow(src) {
      DirIsTimed(if src.opening.Undescribed? then m.(skips := m.skips + 1) else m, container, name, create, src, env);
    }
    var m1 := if src.opening.Undescribed? then m.(skips := m.skips + 1) else m;
    KeepsItself(m.dir, !env.policy.Overwrite?);
    DirKeepsWhatWasThere(m1, container, name, create, src, env);
    DirStampedOnce(m1, container, name, create, src, env);
    RootCopied(m1, container, name, create, src, env);
  }

  lemma RootCopied(m: Merged, at: Path, name: string, create: bool, src: Src, env: Env)
    requires m.dir.Dir? && m.changed == [] && src.SrcDir?
    requires if create then name !in m.dir.entries else name in m.dir.entries && m.dir.entries[name].Dir?
    ensures var r := MergeDir(m, at, name, create, src, env);
            r.skips >= m.skips
            && (DistinctBelow(src) && r.skips == m.skips ==> Copied(Kid(name, {}, src), r.dir, env))
  {
    hide MergeKids;
    var e := Entered(m, name, create);
    var inner := MergeKids(e, at + [name], src, |src.kids|, env);
    SkipsGrowAll(e, at + [name], src, |src.kids|, env);
    if DistinctBelow(src) && inner.skips == m.skips {
      NoSkipMeansAllCopied(e, at + [name], src, |src.kids|, env);
      var d := MergeDir(m, at, name, create, src, env).dir.entries[name];
      forall k | k in src.kids ensures Copied(k, d, env) {
        OnlyTheTimeDiffers(k, inner.dir, d, env);
      }
    }
  }

  /** So for the whole job: an entry of a selected directory with nothing in its way is in
      the finished tree as the source has it, whatever else was skipped. */
  lemma ClearIsInTheTree(m: Merged, container: Path, name: string, create: bool, src: Src, route: seq<nat>, env: Env)
    requires m.dir.Dir? && m.changed == [] && src.SrcDir? && DistinctBelow(src) && !env.policy.KeepTheOld?
    requires if create then name !in m.dir.entries else name in m.dir.entries && m.dir.entries[name].Dir?
    requires !src.opening.Unreadable? && container + [name] !in env.unmade
    requires Clear(There(Some(m.dir), name), container + [name], src, 1, route, env)
    ensures var d := MergeRoot(m, container, name, create, src, env).dir;
            name in d.entries && IsThere(d.entries[name], src, route)
  {
    hide MergeKids, DistinctBelow, Disturbs, Clear;
    var m1 := if src.opening.Undescribed? then m.(skips := m.skips + 1) else m;
    var e := Entered(m1, name, create);
    if create { ClearInANewOne(container + [name], src, 1, route, env); }
    RouteStarts(e.dir, container + [name], src, route, env);
    ClearIsCopied(e, container + [name], src, |src.kids|, route, env);
    FilledIsThere(m1, container, Kid(name, {}, src), create, env, route);
  }

  lemma RouteStarts(d: Node, at: Path, src: Src, route: seq<nat>, env: Env)
    requires Clear(Some(d), at, src, 1, route, env)
    ensures route != [] && src.SrcDir? && route[0] < |src.kids|
  {
  }
}
