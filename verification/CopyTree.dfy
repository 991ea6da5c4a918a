/** Copying a directory tree.  The engine is driven one walk event at a time and keeps a
    stack of destination directories that it finishes late, at the next item or at the
    end.  What it computes is the recursive merge of the source into the destination. */
module CopyTree {
  import opened Basics
  import opened KeepBoth

  type Path = seq<string>

  datatype Leaf = File(bytes: seq<nat>) | Link(target: string) | Special

  /** mtime is None when the kernel's own stamp of the last change to the directory
      stands. */
  datatype Node = Dir(entries: map<string, Node>, mtime: Option<int>) | Entry(leaf: Leaf)

  datatype Kind = KindDir | KindLink | KindRegular | KindSpecial

  datatype Opening =
    | Opens       // enumerated
    | Unreadable  // the openat failed
    | Undescribed // opened, but its fstat failed: enumerated without an Opened event

  /** A source directory, a leaf, or a mount point the walk may not enter.  cutShort: the
      enumeration ended in an error after these entries. */
  datatype Src =
    | SrcMount
    | SrcLeaf(leaf: Leaf)
    | SrcDir(mtime: int, opening: Opening, kids: seq<Kid>, cutShort: bool)

  /** One enumerated entry.  tightened holds the depths of the source directories above it
      that no longer match their records when it is reached. */
  datatype Kid = Kid(name: string, tightened: set<nat>, src: Src)

  datatype Policy = SkipExisting | Overwrite | KeepTheOld

  /** The job's policy, the destination names whose lookup fails, and the destination
      paths at which nothing can be created. */
  datatype Env = Env(policy: Policy, unreadable: set<Path>, unmade: set<Path>)

  datatype Placed = Create(name: string) | Merge | Replace | Refused

  function KindOfLeaf(l: Leaf): Kind {
    match l
    case File(_) => KindRegular
    case Link(_) => KindLink
    case Special => KindSpecial
  }

  function KindOf(n: Node): Kind {
    if n.Dir? then KindDir else KindOfLeaf(n.leaf)
  }

  // ----- one place in a tree -----

  predicate Has(t: Node, p: Path) {
    p == [] || (t.Dir? && p[0] in t.entries && Has(t.entries[p[0]], p[1..]))
  }

  function Get(t: Node, p: Path): Node
    requires Has(t, p)
  {
    if p == [] then t else Get(t.entries[p[0]], p[1..])
  }

  /** Replace what is at p.  No directory above it is changed by that. */
  function Put(t: Node, p: Path, x: Node): Node
    requires Has(t, p)
  {
    if p == [] then x else t.(entries := t.entries[p[0] := Put(t.entries[p[0]], p[1..], x)])
  }

  /** A new or replaced entry is a change to the directory. */
  function Insert(d: Node, name: string, x: Node): Node
    requires d.Dir?
  {
    Dir(d.entries[name := x], None)
  }

  /** A change inside an entry is not. */
  function Within(d: Node, name: string, x: Node): Node
    requires d.Dir?
  {
    d.(entries := d.entries[name := x])
  }

  lemma {:induction false} PutThenGet(t: Node, p: Path, x: Node)
    requires Has(t, p)
    ensures Has(Put(t, p, x), p) && Get(Put(t, p, x), p) == x
  {
    if p != [] { PutThenGet(t.entries[p[0]], p[1..], x); }
  }

  lemma {:induction false} PutTwice(t: Node, p: Path, x: Node, y: Node)
    requires Has(t, p)
    ensures Has(Put(t, p, x), p) && Put(Put(t, p, x), p, y) == Put(t, p, y)
  {
    if p != [] { PutTwice(t.entries[p[0]], p[1..], x, y); }
  }

  lemma {:induction false} PutBack(t: Node, p: Path)
    requires Has(t, p)
    ensures Put(t, p, Get(t, p)) == t
  {
    if p != [] { PutBack(t.entries[p[0]], p[1..]); }
  }

  /** A step further down is a step inside what is there. */
  lemma {:induction false} OneDeeper(t: Node, p: Path, name: string)
    requires Has(t, p) && Get(t, p).Dir? && name in Get(t, p).entries
    ensures Has(t, p + [name]) && Get(t, p + [name]) == Get(t, p).entries[name]
    ensures forall x :: Put(t, p + [name], x) == Put(t, p, Within(Get(t, p), name, x))
  {
    if p == [] {
      assert [name][1..] == [];
    } else {
      assert (p + [name])[1..] == p[1..] + [name];
      OneDeeper(t.entries[p[0]], p[1..], name);
    }
  }

  lemma {:induction false} ParentIsDir(t: Node, p: Path, name: string)
    requires Has(t, p + [name])
    ensures Has(t, p) && Get(t, p).Dir? && name in Get(t, p).entries
  {
    if p != [] {
      assert (p + [name])[1..] == p[1..] + [name];
      ParentIsDir(t.entries[p[0]], p[1..], name);
    }
  }

  // ----- the recursive merge -----

  /** A destination directory and the job's account of what it did so far.  changed holds
      one flag per source directory above: it was found different and is left alone. */
  datatype Merged = Merged(dir: Node, changed: seq<bool>, skips: nat, files: nat, dirs: nat, stamps: seq<Path>)

  /** name (2), name (3) ... within the bound. */
  ghost predicate NumberedName(name: string, n: string) {
    exists i :: 2 <= i < 2 + MAX_KEEP_BOTH_TRIES && KeepBothWithin(name, false, i) == Some(n)
  }

  /** The first name (2), name (3) ... nothing answers to. */
  function FreeName(d: Node, at: Path, name: string, n: nat, env: Env): (p: Placed)
    requires d.Dir? && n <= 2 + MAX_KEEP_BOTH_TRIES
    ensures p.Refused? || p.Create?
    ensures p.Create? ==> p.name !in d.entries && (n >= 2 ==> NumberedName(name, p.name))
    decreases 2 + MAX_KEEP_BOTH_TRIES - n
  {
    if n == 2 + MAX_KEEP_BOTH_TRIES then Refused
    else
      var cand := KeepBothWithin(name, false, n);
      if cand.None? || at + [cand.value] in env.unreadable then Refused
      else if cand.value !in d.entries then Create(cand.value)
      else FreeName(d, at, name, n + 1, env)
  }

  /** What an entry of this name and kind becomes in d. */
  function Place(d: Node, at: Path, name: string, kind: Kind, env: Env): (p: Placed)
    requires d.Dir?
    ensures p == Create(name) <==> at + [name] !in env.unreadable && name !in d.entries
    ensures p.Merge? <==> at + [name] !in env.unreadable && name in d.entries && d.entries[name].Dir? && kind.KindDir?
    ensures p.Replace? <==>
              && at + [name] !in env.unreadable && name in d.entries && KindOf(d.entries[name]) == kind
              && !kind.KindDir? && env.policy.Overwrite?
    ensures p.Refused? <==>
              || at + [name] in env.unreadable
              || (name in d.entries
                  && (|| KindOf(d.entries[name]) != kind
                      || (!kind.KindDir? && env.policy.SkipExisting?)
                      || (!kind.KindDir? && env.policy.KeepTheOld? && FreeName(d, at, name, 2, env).Refused?)))
    ensures p.Create? ==>
              p.name !in d.entries && (p.name == name || (env.policy.KeepTheOld? && name in d.entries && NumberedName(name, p.name)))
  {
    if at + [name] in env.unreadable then Refused
    else if name !in d.entries then Create(name)
    else if kind.KindDir? && d.entries[name].Dir? then Merge
    else if kind != KindOf(d.entries[name]) then Refused
    else match env.policy
      case Overwrite => Replace
      case KeepTheOld => FreeName(d, at, name, 2, env)
      case SkipExisting => Refused
  }

  /** Whether the source directories above still match, shallowest first; the first one
      found different is reported once. */
  function Ancestors(changed: seq<bool>, tightened: set<nat>, i: nat): (r: (bool, seq<bool>, nat))
    requires i <= |changed|
    ensures |r.1| == |changed|
    decreases |changed| - i
  {
    if i == |changed| then (true, changed, 0)
    else if changed[i] then (false, changed, 0)
    else if i in tightened then (false, changed[i := true], 1)
    else Ancestors(changed, tightened, i + 1)
  }

  function MergeKid(m: Merged, at: Path, kid: Kid, env: Env): (r: Merged)
    requires m.dir.Dir?
    ensures r.dir.Dir? && |r.changed| == |m.changed|
    decreases kid
  {
    var (ok, changed, skip) := Ancestors(m.changed, kid.tightened, 0);
    var m := m.(changed := changed, skips := m.skips + skip);
    if !ok then m
    else if kid.src.SrcMount? || kid.src == SrcLeaf(Special) then m.(skips := m.skips + 1)
    else if kid.src.SrcLeaf? then MergeLeaf(m, at, kid.name, kid.src.leaf, env)
    else
      var p := Place(m.dir, at, kid.name, KindDir, env);
      if p.Refused? || kid.src.opening.Unreadable? then m.(skips := m.skips + 1)
      else if kid.src.opening.Undescribed? || at + [kid.name] in env.unmade then m.(skips := m.skips + 1 + CutShort(kid.src))
      else MergeDir(m, at, kid.name, p.Create?, kid.src, env)
  }

  /** An enumeration that fails part way is reported once. */
  function CutShort(src: Src): nat
    requires src.SrcDir?
  {
    if src.cutShort then 1 else 0
  }

  function MergeLeaf(m: Merged, at: Path, name: string, leaf: Leaf, env: Env): (r: Merged)
    requires m.dir.Dir?
    ensures r.dir.Dir? && r.changed == m.changed
  {
    var p := Place(m.dir, at, name, KindOfLeaf(leaf), env);
    var final := if p.Create? then p.name else name;
    if p.Refused? || at + [final] in env.unmade then m.(skips := m.skips + 1)
    else m.(dir := Insert(m.dir, final, Entry(leaf)), files := m.files + 1)
  }

  /** Descend into a directory that is there, or into a new one that is given its source's
      modification time after everything in it. */
  function MergeDir(m: Merged, at: Path, name: string, created: bool, src: Src, env: Env): (r: Merged)
    requires m.dir.Dir? && src.SrcDir?
    requires !created ==> name in m.dir.entries && m.dir.entries[name].Dir?
    ensures r.dir.Dir? && |r.changed| == |m.changed|
    decreases src, |src.kids| + 1
  {
    var inner := MergeKids(Entered(m, name, created), at + [name], src, |src.kids|, env);
    Left(m, at, name, created, src, inner)
  }

  function Entered(m: Merged, name: string, created: bool): (r: Merged)
    requires m.dir.Dir? && (!created ==> name in m.dir.entries && m.dir.entries[name].Dir?)
    ensures r.dir.Dir? && |r.changed| == |m.changed| + 1
  {
    m.(dir := if created then Dir(map[], None) else m.dir.entries[name],
       changed := m.changed + [false], dirs := m.dirs + 1)
  }

  function Left(m: Merged, at: Path, name: string, created: bool, src: Src, inner: Merged): (r: Merged)
    requires m.dir.Dir? && src.SrcDir? && inner.dir.Dir? && |inner.changed| == |m.changed| + 1
    requires !created ==> name in m.dir.entries && m.dir.entries[name].Dir?
    ensures r.dir.Dir? && |r.changed| == |m.changed|
  {
    var done := if created then inner.dir.(mtime := Some(src.mtime)) else inner.dir;
    Merged(if created then Insert(m.dir, name, done) else Within(m.dir, name, done),
           inner.changed[..|m.changed|], inner.skips + CutShort(src), inner.files, inner.dirs,
           if created then inner.stamps + [at + [name]] else inner.stamps)
  }

  /** A selected directory.  It is held open from before its destination is made, so one
      whose fstat fails under the walk is still filled. */
  function MergeRoot(m: Merged, at: Path, name: string, created: bool, src: Src, env: Env): (r: Merged)
    requires m.dir.Dir? && src.SrcDir?
    requires !created ==> name in m.dir.entries && m.dir.entries[name].Dir?
    ensures r.dir.Dir? && |r.changed| == |m.changed|
  {
    if src.opening.Unreadable? || at + [name] in env.unmade then m.(skips := m.skips + 1)
    else MergeDir(if src.opening.Undescribed? then m.(skips := m.skips + 1) else m, at, name, created, src, env)
  }

  /** The first n entries, in the order they were enumerated. */
  function MergeKids(m: Merged, at: Path, src: Src, n: nat, env: Env): (r: Merged)
    requires m.dir.Dir? && src.SrcDir? && n <= |src.kids|
    ensures r.dir.Dir? && |r.changed| == |m.changed|
    decreases src, n
  {
    if n == 0 then m else MergeKid(MergeKids(m, at, src, n - 1, env), at, src.kids[n - 1], env)
  }

  // ----- the event machine -----

  /** A destination directory being filled. */
  datatype Frame = Frame(path: Path, created: bool, mtime: int)

  /** A directory placed by Pre and waiting for the descriptor of its source. */
  datatype Pending = Pending(depth: nat, parent: Path, name: string, create: bool)

  datatype State = State(tree: Node, frames: seq<Frame>, changed: seq<bool>,
                         skips: nat, files: nat, dirs: nat, stamps: seq<Path>)

  function Parent(p: Path): Path
    requires p != []
  {
    p[..|p| - 1]
  }

  /** Each frame is a directory of the one above it, and the innermost is there. */
  ghost predicate Good(s: State) {
    && |s.changed| == |s.frames|
    && (forall f | f in s.frames :: f.path != [])
    && (forall i :: 0 < i < |s.frames| ==> Parent(s.frames[i].path) == s.frames[i - 1].path)
    && (|s.frames| > 0 ==> var p := s.frames[|s.frames| - 1].path; Has(s.tree, p) && Get(s.tree, p).Dir?)
  }

  /** The innermost directory finished: given its source's time if this job made it. */
  ghost function Popped(s: State): (r: State)
    requires Good(s) && |s.frames| > 0
    ensures Good(r) && |r.frames| == |s.frames| - 1
  {
    var n := |s.frames| - 1;
    var f := s.frames[n];
    var d := Get(s.tree, f.path);
    var tree := if f.created then Put(s.tree, f.path, d.(mtime := Some(f.mtime))) else s.tree;
    PutThenGet(s.tree, f.path, d.(mtime := Some(f.mtime)));
    assert n > 0 ==> Has(tree, s.frames[n - 1].path) && Get(tree, s.frames[n - 1].path).Dir? by {
      if n > 0 {
        assert f.path == s.frames[n - 1].path + [f.path[|f.path| - 1]];
        ParentIsDir(tree, s.frames[n - 1].path, f.path[|f.path| - 1]);
      }
    }
    s.(tree := tree, frames := s.frames[..n], changed := s.changed[..n],
       stamps := if f.created then s.stamps + [f.path] else s.stamps)
  }

  ghost function Unwound(s: State, depth: nat): (r: State)
    requires Good(s)
    ensures Good(r) && |r.frames| <= depth
    ensures |s.frames| >= depth ==> |r.frames| == depth
    ensures |s.frames| <= depth ==> r == s
    decreases |s.frames|
  {
    if |s.frames| <= depth then s else Unwound(Popped(s), depth)
  }

  lemma {:induction false} UnwoundTwice(s: State, a: nat, b: nat)
    requires Good(s) && b <= a
    ensures Unwound(Unwound(s, a), b) == Unwound(s, b)
    decreases |s.frames|
  {
    if |s.frames| > a { UnwoundTwice(Popped(s), a, b); }
  }

  /** The innermost directory, seen as the merge sees it. */
  ghost function Focus(s: State): Merged
    requires Good(s) && |s.frames| > 0
  {
    Merged(Get(s.tree, Top(s)), s.changed, s.skips, s.files, s.dirs, s.stamps)
  }

  ghost function Top(s: State): Path
    requires Good(s) && |s.frames| > 0
  {
    s.frames[|s.frames| - 1].path
  }

  /** The same state with the innermost directory replaced by a merge's outcome. */
  ghost function Refocus(s: State, m: Merged): (r: State)
    requires Good(s) && |s.frames| > 0 && m.dir.Dir? && |m.changed| == |s.changed|
    ensures Good(r) && r.frames == s.frames
    ensures Focus(r) == m
  {
    PutThenGet(s.tree, Top(s), m.dir);
    State(Put(s.tree, Top(s), m.dir), s.frames, m.changed, m.skips, m.files, m.dirs, m.stamps)
  }

  lemma RefocusTwice(s: State, m: Merged, m': Merged)
    requires Good(s) && |s.frames| > 0
    requires m.dir.Dir? && |m.changed| == |s.changed| && m'.dir.Dir? && |m'.changed| == |s.changed|
    ensures Refocus(Refocus(s, m), m') == Refocus(s, m')
  {
    PutTwice(s.tree, Top(s), m.dir, m'.dir);
  }

  /** Reporting something, and marking an ancestor, leaves the tree alone. */
  lemma RefocusReport(s: State, changed: seq<bool>, skips: nat)
    requires Good(s) && |s.frames| > 0 && |changed| == |s.changed|
    ensures Refocus(s, Focus(s).(changed := changed, skips := skips)) == s.(changed := changed, skips := skips)
  {
    PutBack(s.tree, Top(s));
  }

  function Reported(s: State, n: nat): State {
    s.(skips := s.skips + n)
  }

  lemma {:induction false} UnwoundReport(s: State, depth: nat, n: nat)
    requires Good(s)
    ensures Good(Reported(s, n)) && Unwound(Reported(s, n), depth) == Reported(Unwound(s, depth), n)
    decreases |s.frames|
  {
    if |s.frames| > depth {
      assert Popped(Reported(s, n)) == Reported(Popped(s), n);
      UnwoundReport(Popped(s), depth, n);
    }
  }

  /** A state as it is when a directory has just been entered. */
  ghost function Inside(s: State, name: string, created: bool, mtime: int): (r: State)
    requires Good(s) && |s.frames| > 0
    requires !created ==> name in Focus(s).dir.entries && Focus(s).dir.entries[name].Dir?
    ensures Good(r) && |r.frames| == |s.frames| + 1
    ensures Focus(r) == Entered(Focus(s), name, created) && Top(r) == Top(s) + [name]
  {
    var d := Get(s.tree, Top(s));
    var d1 := if created then Insert(d, name, Dir(map[], None)) else d;
    var tree := Put(s.tree, Top(s), d1);
    PutThenGet(s.tree, Top(s), d1);
    OneDeeper(tree, Top(s), name);
    s.(tree := tree, frames := s.frames + [Frame(Top(s) + [name], created, mtime)],
       changed := s.changed + [false], dirs := s.dirs + 1)
  }

  /** Make or find a directory, replace it by what it was filled with, and finish it. */
  lemma FilledAndFinished(tree: Node, at: Path, name: string, created: bool, filled: Node, mtime: int)
    requires Has(tree, at) && Get(tree, at).Dir? && filled.Dir?
    requires !created ==> name in Get(tree, at).entries
    ensures var d := Get(tree, at);
            var d1 := if created then Insert(d, name, Dir(map[], None)) else d;
            var done := if created then filled.(mtime := Some(mtime)) else filled;
            && Has(Put(tree, at, d1), at + [name])
            && var t2 := Put(Put(tree, at, d1), at + [name], filled);
            && Has(t2, at + [name]) && Get(t2, at + [name]) == filled
            && Put(t2, at + [name], done) == Put(tree, at, if created then Insert(d, name, done) else Within(d, name, done))
            && (!created ==> t2 == Put(tree, at, Within(d, name, filled)))
  {
    hide Has, Get, Put;
    var d := Get(tree, at);
    var d1 := if created then Insert(d, name, Dir(map[], None)) else d;
    var done := if created then filled.(mtime := Some(mtime)) else filled;
    var t1 := Put(tree, at, d1);
    PutThenGet(tree, at, d1);
    OneDeeper(t1, at, name);
    PutTwice(tree, at, d1, Within(d1, name, done));
    PutTwice(tree, at, d1, Within(d1, name, filled));
    PutTwice(t1, at + [name], filled, done);
    PutThenGet(t1, at + [name], filled);
    if created {
      assert Within(d1, name, done) == Insert(d, name, done);
    }
  }

  /** Finishing a directory that was entered is leaving it as the merge does. */
  lemma PoppedIsLeft(s: State, name: string, created: bool, src: Src, inner: Merged)
    requires Good(s) && |s.frames| > 0 && src.SrcDir?
    requires !created ==> name in Focus(s).dir.entries && Focus(s).dir.entries[name].Dir?
    requires inner.dir.Dir? && |inner.changed| == |s.changed| + 1
    ensures Popped(Refocus(Inside(s, name, created, src.mtime), inner))
         == Refocus(s, Left(Focus(s), Top(s), name, created, src.(cutShort := false), inner))
  {
    hide Has, Get, Put;
    FilledAndFinished(s.tree, Top(s), name, created, inner.dir, src.mtime);
    var x := Inside(s, name, created, src.mtime);
    assert x.frames[..|s.frames|] == s.frames;
  }

  /** The merge of a directory that can be placed, made and read. */
  lemma KidEntered(m: Merged, at: Path, kid: Kid, env: Env, m1: Merged, create: bool)
    requires m.dir.Dir? && kid.src.SrcDir? && kid.src.opening.Opens? && at + [kid.name] !in env.unmade
    requires var (ok, c, n) := Ancestors(m.changed, kid.tightened, 0); ok && m1 == m.(changed := c, skips := m.skips + n)
    requires var p := Place(m.dir, at, kid.name, KindDir, env); !p.Refused? && create == p.Create?
    ensures create || (kid.name in m.dir.entries && m.dir.entries[kid.name].Dir?)
    ensures var inner := MergeKids(Entered(m1, kid.name, create), at + [kid.name], kid.src, |kid.src.kids|, env);
            MergeKid(m, at, kid, env) == Left(m1, at, kid.name, create, kid.src, inner)
  {
    hide Ancestors, FreeName, MergeKids;
  }

  /** The merge of a directory that cannot be opened. */
  lemma KidIsUnreadable(m: Merged, at: Path, kid: Kid, env: Env, m1: Merged)
    requires m.dir.Dir? && kid.src.SrcDir? && kid.src.opening.Unreadable?
    requires var (ok, c, n) := Ancestors(m.changed, kid.tightened, 0); ok && m1 == m.(changed := c, skips := m.skips + n)
    ensures MergeKid(m, at, kid, env) == m1.(skips := m1.skips + 1)
  {
    hide Ancestors, FreeName, Place, MergeKids, MergeDir;
  }

  /** The merge of a directory that cannot be described or made. */
  lemma KidIsBarren(m: Merged, at: Path, kid: Kid, env: Env, m1: Merged)
    requires m.dir.Dir? && kid.src.SrcDir? && !kid.src.opening.Unreadable?
    requires kid.src.opening.Undescribed? || at + [kid.name] in env.unmade
    requires var (ok, c, n) := Ancestors(m.changed, kid.tightened, 0); ok && m1 == m.(changed := c, skips := m.skips + n)
    requires !Place(m.dir, at, kid.name, KindDir, env).Refused?
    ensures MergeKid(m, at, kid, env) == m1.(skips := m1.skips + 1 + CutShort(kid.src))
  {
    hide Ancestors, FreeName, Place, MergeKids, MergeDir;
  }

  /** Entered, filled and finished, a directory is what the merge makes of it. */
  lemma DirIsMerged(u: State, w: State, s2: State, kid: Kid, env: Env, create: bool, inner: Merged)
    requires Good(u) && |u.frames| > 0 && kid.src.SrcDir? && kid.src.opening.Opens? && Top(u) + [kid.name] !in env.unmade
    requires var (ok, c, n) := Ancestors(u.changed, kid.tightened, 0); ok && w == u.(changed := c, skips := u.skips + n)
    requires var p := Place(Focus(u).dir, Top(u), kid.name, KindDir, env); !p.Refused? && create == p.Create?
    requires inner == MergeKids(Entered(Focus(w), kid.name, create), Top(u) + [kid.name], kid.src, |kid.src.kids|, env)
    requires Good(s2) && |s2.frames| > |u.frames|
    requires Unwound(s2, |u.frames| + 1) == Refocus(Inside(w, kid.name, create, kid.src.mtime), inner)
    ensures Reported(Unwound(s2, |u.frames|), CutShort(kid.src)) == Refocus(u, MergeKid(Focus(u), Top(u), kid, env))
  {
    hide Has, Get, Put, Ancestors, FreeName, Place, Popped, MergeKids, MergeKid, MergeDir, Inside;
    var n := |u.frames|;
    KidEntered(Focus(u), Top(u), kid, env, Focus(w), create);
    UnwoundTwice(s2, n + 1, n);
    assert Unwound(s2, n) == Popped(Unwound(s2, n + 1));
    PoppedIsLeft(w, kid.name, create, kid.src, inner);
    RefocusReport(u, w.changed, w.skips);
    RefocusTwice(u, Focus(w), Left(Focus(w), Top(w), kid.name, create, kid.src.(cutShort := false), inner));
  }

  /** The whole job's state after a root, seen from the container. */
  ghost function Rooted(tree: Node, container: Path, m: Merged): State
    requires Has(tree, container)
  {
    State(Put(tree, container, m.dir), [], m.changed, m.skips, m.files, m.dirs, m.stamps)
  }

  /** The root's frame standing alone. */
  ghost function Started(s: State, container: Path, name: string, created: bool, mtime: int): (r: State)
    requires s.frames == [] && s.changed == [] && Has(s.tree, container) && Get(s.tree, container).Dir?
    requires !created ==> name in Get(s.tree, container).entries && Get(s.tree, container).entries[name].Dir?
    ensures Good(r) && |r.frames| == 1 && Top(r) == container + [name]
    ensures Focus(r) == Entered(Before(s, container), name, created)
  {
    var d := Get(s.tree, container);
    var d1 := if created then Insert(d, name, Dir(map[], None)) else d;
    var tree := Put(s.tree, container, d1);
    PutThenGet(s.tree, container, d1);
    OneDeeper(tree, container, name);
    s.(tree := tree, frames := [Frame(container + [name], created, mtime)], changed := [false], dirs := s.dirs + 1)
  }

  /** The container as the merge sees it. */
  ghost function Before(s: State, container: Path): Merged
    requires Has(s.tree, container)
  {
    Merged(Get(s.tree, container), [], s.skips, s.files, s.dirs, s.stamps)
  }

  /** The same for a selected directory, which has no frame above it. */
  lemma RootIsMerged(s0: State, container: Path, name: string, create: bool, src: Src, inner: Merged, s2: State, env: Env)
    requires s0.frames == [] && s0.changed == [] && src.SrcDir? && Has(s0.tree, container) && Get(s0.tree, container).Dir?
    requires !create ==> name in Get(s0.tree, container).entries && Get(s0.tree, container).entries[name].Dir?
    requires inner == MergeKids(Entered(Before(s0, container), name, create), container + [name], src, |src.kids|, env)
    requires Good(s2) && |s2.frames| > 0
    requires Unwound(s2, 1) == Refocus(Started(s0, container, name, create, src.mtime), inner)
    ensures Reported(Unwound(s2, 0), CutShort(src))
         == Rooted(s0.tree, container, MergeDir(Before(s0, container), container, name, create, src, env))
  {
    hide Has, Get, Put, MergeKids;
    UnwoundTwice(s2, 1, 0);
    var x := Unwound(s2, 1);
    assert Unwound(x, 0) == Popped(x);
    FilledAndFinished(s0.tree, container, name, create, inner.dir, src.mtime);
  }

  class Copier {
    const env: Env
    var tree: Node
    var frames: seq<Frame>
    var changed: seq<bool>
    var pending: Option<Pending>
    var skips: nat
    var files: nat
    var dirs: nat
    /** the directories whose time was reproduced, in order */
    var stamps: seq<Path>

    ghost function S(): State
      reads this
    {
      State(tree, frames, changed, skips, files, dirs, stamps)
    }

    constructor (tree: Node, env: Env)
      ensures this.env == env && S() == State(tree, [], [], 0, 0, 0, [])
    {
      this.tree, this.env, frames, changed, pending := tree, env, [], [], None;
      skips, files, dirs, stamps := 0, 0, 0, [];
    }

    /** Finish and forget every frame at or below depth, deepest first. */
    method Unwind(depth: nat)
      requires Good(S())
      modifies this`tree, this`frames, this`changed, this`stamps
      ensures S() == Unwound(old(S()), depth)
    {
      hide Has, Get, Put, Popped;
      while |frames| > depth
        invariant Good(S()) && Unwound(S(), depth) == Unwound(old(S()), depth)
        decreases |frames|
      {
        FinishFrame();
      }
    }

    method FinishFrame()
      requires Good(S()) && |frames| > 0
      modifies this`tree, this`frames, this`changed, this`stamps
      ensures S() == Popped(old(S()))
    {
      hide Has, Get, Put;
      var f := frames[|frames| - 1];
      frames, changed := frames[..|frames| - 1], changed[..|frames| - 1];
      if f.created {
        tree := Put(tree, f.path, Get(tree, f.path).(mtime := Some(f.mtime)));
        stamps := stamps + [f.path];
      }
    }

    /** Walk the source directories above an item, shallowest first. */
    method AncestorUnchanged(tightened: set<nat>, depth: nat) returns (ok: bool)
      requires |changed| == |frames| == depth
      modifies this`changed, this`skips
      ensures var (o, c, n) := Ancestors(old(changed), tightened, 0);
              ok == o && changed == c && skips == old(skips) + n
    {
      for i := 0 to depth
        invariant changed == old(changed) && skips == old(skips)
        invariant Ancestors(changed, tightened, 0) == Ancestors(changed, tightened, i)
      {
        if changed[i] {
          return false;
        }
        if i in tightened {
          changed, skips := changed[i := true], skips + 1;
          return false;
        }
      }
      ok := true;
    }

    method TryNames(d: Node, at: Path, name: string) returns (p: Placed)
      requires d.Dir?
      ensures p == FreeName(d, at, name, 2, env)
    {
      for n := 2 to 2 + MAX_KEEP_BOTH_TRIES
        invariant FreeName(d, at, name, 2, env) == FreeName(d, at, name, n, env)
      {
        var cand := KeepBothWithin(name, false, n);
        if cand.None? || at + [cand.value] in env.unreadable {
          return Refused;
        }
        if cand.value !in d.entries {
          return Create(cand.value);
        }
      }
      p := Refused;
    }

    /** What becomes of an entry in the innermost directory. */
    method Decide(at: Path, name: string, kind: Kind) returns (p: Placed)
      requires Has(tree, at) && Get(tree, at).Dir?
      ensures p == Place(Get(tree, at), at, name, kind, env)
    {
      var d := Get(tree, at);
      if at + [name] in env.unreadable {
        return Refused;
      }
      if name !in d.entries {
        return Create(name);
      }
      var there := KindOf(d.entries[name]);
      if kind.KindDir? && there.KindDir? {
        return Merge;
      }
      if kind != there {
        return Refused;
      }
      match env.policy
      case Overwrite => p := Replace;
      case KeepTheOld => p := TryNames(d, at, name);
      case SkipExisting => p := Refused;
    }

    /** The visitor's Pre.  A leaf is copied here; a directory is only placed. */
    method Pre(depth: nat, kid: Kid) returns (skipDir: bool)
      requires Good(S()) && depth > 0
      modifies this
      ensures |old(frames)| < depth ==> S() == old(S()) && pending.None? && skipDir
      ensures |old(frames)| >= depth ==>
                var u := Unwound(old(S()), depth);
                if skipDir then S() == Refocus(u, MergeKid(Focus(u), Top(u), kid, env)) else Waiting(u, kid)
    {
      hide Has, Get, Put, Ancestors, FreeName, Place, Popped, MergeLeaf, MergeDir, Unwound, NumberedName;
      pending := None;
      Unwind(depth);
      if |frames| < depth {
        return true;
      }
      ghost var u := S();
      var ok := AncestorUnchanged(kid.tightened, depth);
      RefocusReport(u, changed, skips);
      if !ok {
        return true;
      }
      if kid.src.SrcMount? || kid.src == SrcLeaf(Special) {
        RefocusReport(u, changed, skips + 1);
        skips := skips + 1;
        return true;
      }
      ghost var w := S();
      var at := frames[depth - 1].path;
      if kid.src.SrcLeaf? {
        PreLeaf(at, kid.name, kid.src.leaf);
        RefocusTwice(u, Focus(w), MergeLeaf(Focus(w), at, kid.name, kid.src.leaf, env));
        return true;
      }
      var p := Decide(at, kid.name, KindDir);
      if p.Refused? {
        RefocusReport(u, changed, skips + 1);
        skips := skips + 1;
        return true;
      }
      pending := Some(Pending(depth, at, kid.name, p.Create?));
      return false;
    }

    method PreLeaf(at: Path, name: string, leaf: Leaf)
      requires Good(S()) && |frames| > 0 && at == Top(S())
      modifies this`tree, this`skips, this`files
      ensures S() == Refocus(old(S()), MergeLeaf(Focus(old(S())), at, name, leaf, env))
    {
      var p := Decide(at, name, KindOfLeaf(leaf));
      RefocusReport(S(), changed, skips + 1);
      if p.Refused? {
        skips := skips + 1;
        return;
      }
      CopyEntry(at, if p.Create? then p.name else name, leaf);
    }

    /** A file or a link built and given its name. */
    method CopyEntry(at: Path, name: string, leaf: Leaf)
      requires Has(tree, at) && Get(tree, at).Dir?
      modifies this`tree, this`skips, this`files
      ensures at + [name] in env.unmade ==> tree == old(tree) && skips == old(skips) + 1 && files == old(files)
      ensures at + [name] !in env.unmade ==>
                && tree == Put(old(tree), at, Insert(Get(old(tree), at), name, Entry(leaf)))
                && skips == old(skips) && files == old(files) + 1
    {
      if at + [name] in env.unmade {
        skips := skips + 1;
        return;
      }
      tree := Put(tree, at, Insert(Get(tree, at), name, Entry(leaf)));
      files := files + 1;
    }

    /** A directory was placed in the innermost frame of u and nothing else was done. */
    ghost predicate Waiting(u: State, kid: Kid)
      requires Good(u) && |u.frames| > 0
      reads this
    {
      var (ok, c, n) := Ancestors(u.changed, kid.tightened, 0);
      var p := Place(Focus(u).dir, Top(u), kid.name, KindDir, env);
      && kid.src.SrcDir? && ok && S() == u.(changed := c, skips := u.skips + n)
      && !p.Refused? && pending == Some(Pending(|u.frames|, Top(u), kid.name, p.Create?))
    }

    /** The visitor's Opened: the directory Pre placed is made, with a frame of its own.
        A failure is reported once and leaves no frame. */
    method Opened(depth: nat, mtime: int) returns (made: bool)
      requires Good(S()) && depth > 0 && |frames| == depth
      requires pending.Some? && pending.value.depth == depth && pending.value.parent == Top(S())
      requires !pending.value.create ==>
                 pending.value.name in Focus(S()).dir.entries && Focus(S()).dir.entries[pending.value.name].Dir?
      modifies this
      ensures made == (old(pending.value.parent) + [old(pending.value.name)] !in env.unmade)
      ensures made ==> S() == Inside(old(S()), old(pending.value.name), old(pending.value.create), mtime)
      ensures !made ==> S() == old(S()).(skips := old(skips) + 1)
    {
      var p := pending.value;
      pending := None;
      if p.parent + [p.name] in env.unmade {
        skips := skips + 1;
        return false;
      }
      if p.create {
        tree := Put(tree, p.parent, Insert(Get(tree, p.parent), p.name, Dir(map[], None)));
      } else {
        PutBack(tree, p.parent);
      }
      dirs := dirs + 1;
      frames, changed := frames + [Frame(p.parent + [p.name], p.create, mtime)], changed + [false];
      made := true;
    }

    /** One entry of the walk, events and all.  Once everything below depth is finished,
        the job has merged exactly this entry into the directory depth stands for, and
        nothing anywhere else; below a directory that could not be made it has done
        nothing. */
    method Visit(depth: nat, kid: Kid)
      requires Good(S()) && depth > 0
      modifies this
      ensures Good(S())
      ensures |old(frames)| < depth ==> S() == old(S())
      ensures |old(frames)| >= depth ==>
                var u := Unwound(old(S()), depth);
                |frames| >= depth
                && Unwound(S(), depth) == Refocus(u, MergeKid(Focus(u), Top(u), kid, env))
      decreases kid
    {
      hide Has, Get, Put, Ancestors, FreeName, Place, Popped, MergeLeaf, MergeDir, MergeKids, MergeKid, Inside;
      ghost var s0 := S();
      ghost var u := Unwound(s0, depth);
      var skipDir := Pre(depth, kid);
      if skipDir {
        return;
      }
      if kid.src.opening.Unreadable? {
        RefocusReport(u, changed, skips);
        KidIsUnreadable(Focus(u), Top(u), kid, env, Focus(S()));
        RefocusReport(u, changed, skips + 1);
        skips := skips + 1;
        return;
      }
      VisitDir(depth, kid, u);
    }

    /** A directory that Pre placed. */
    method VisitDir(depth: nat, kid: Kid, ghost u: State)
      requires Good(u) && |u.frames| == depth && depth > 0 && Good(S()) && Waiting(u, kid)
      requires !kid.src.opening.Unreadable?
      modifies this
      ensures Good(S()) && |frames| >= depth
      ensures Unwound(S(), depth) == Refocus(u, MergeKid(Focus(u), Top(u), kid, env))
      decreases kid, 1
    {
      hide Has, Get, Put, Ancestors, FreeName, Place, Popped, MergeDir, MergeKids, MergeKid, Inside;
      ghost var w, create := S(), pending.value.create;
      RefocusReport(u, w.changed, w.skips);
      RefocusReport(u, w.changed, w.skips + 1 + CutShort(kid.src));
      if kid.src.opening.Undescribed? || Top(u) + [kid.name] in env.unmade {
        KidIsBarren(Focus(u), Top(u), kid, env, Focus(w));
      }
      if kid.src.opening.Undescribed? {
        skips := skips + 1;
        VisitBarren(depth, kid);
        return;
      }
      var made := Opened(depth, kid.src.mtime);
      if made {
        VisitMade(depth, kid, u, w, create);
      } else {
        VisitBarren(depth, kid);
      }
    }

    /** Enumerated all the same, though there is nowhere to put anything. */
    method VisitBarren(depth: nat, kid: Kid)
      requires Good(S()) && |frames| == depth && kid.src.SrcDir?
      modifies this
      ensures S() == Reported(old(S()), CutShort(kid.src))
      decreases kid, 0
    {
      VisitKids(depth + 1, kid.src);
      if kid.src.cutShort {
        skips := skips + 1;
      }
    }

    method VisitMade(depth: nat, kid: Kid, ghost u: State, ghost w: State, ghost create: bool)
      requires Good(u) && |u.frames| == depth && depth > 0 && kid.src.SrcDir? && kid.src.opening.Opens?
      requires Top(u) + [kid.name] !in env.unmade
      requires var (ok, c, n) := Ancestors(u.changed, kid.tightened, 0); ok && w == u.(changed := c, skips := u.skips + n)
      requires var p := Place(Focus(u).dir, Top(u), kid.name, KindDir, env); !p.Refused? && create == p.Create?
      requires Good(S()) && S() == Inside(w, kid.name, create, kid.src.mtime)
      modifies this
      ensures Good(S()) && |frames| >= depth
      ensures Unwound(S(), depth) == Refocus(u, MergeKid(Focus(u), Top(u), kid, env))
      decreases kid, 0
    {
      hide Has, Get, Put, Ancestors, FreeName, Place, Popped, MergeDir, MergeKid, MergeKids, Inside, Unwound, Refocus, Entered;
      ghost var s1 := S();
      VisitKids(depth + 1, kid.src);
      ghost var s2 := S();
      DirIsMerged(u, w, s2, kid, env, create, MergeKids(Focus(s1), Top(s1), kid.src, |kid.src.kids|, env));
      UnwoundReport(s2, depth, CutShort(kid.src));
      if kid.src.cutShort {
        skips := skips + 1;
      }
      assert S() == Reported(s2, CutShort(kid.src));
    }

    /** Everything enumerated out of one directory. */
    method VisitKids(depth: nat, src: Src)
      requires Good(S()) && depth > 0 && |frames| <= depth && src.SrcDir?
      modifies this
      ensures Good(S())
      ensures |old(frames)| < depth ==> S() == old(S())
      ensures |old(frames)| == depth ==>
                && |frames| >= depth
                && var s := old(S());
                   Unwound(S(), depth) == Refocus(s, MergeKids(Focus(s), Top(s), src, |src.kids|, env))
      decreases src
    {
      hide Has, Get, Put, Ancestors, FreeName, Popped, MergeDir, MergeKid;
      ghost var s1 := S();
      if |frames| == depth {
        RefocusReport(s1, changed, skips);
      }
      for i := 0 to |src.kids|
        invariant Good(S())
        invariant |s1.frames| < depth ==> S() == s1
        invariant |s1.frames| == depth ==>
                    && |frames| >= depth
                    && Unwound(S(), depth) == Refocus(s1, MergeKids(Focus(s1), Top(s1), src, i, env))
      {
        Visit(depth, src.kids[i]);
        if |s1.frames| == depth {
          ghost var m := MergeKids(Focus(s1), Top(s1), src, i, env);
          RefocusTwice(s1, m, MergeKid(m, Top(s1), src.kids[i], env));
        }
      }
    }

    /** A selected directory: made or merged into the container before the walk starts,
        filled by the walk, and every frame finished whatever the walk did. */
    method CopyTree(container: Path, name: string, create: bool, src: Src)
      requires frames == [] && changed == [] && src.SrcDir?
      requires Has(tree, container) && Get(tree, container).Dir?
      requires !create ==> name in Get(tree, container).entries && Get(tree, container).entries[name].Dir?
      modifies this
      ensures S() == Rooted(old(tree), container, MergeRoot(Before(old(S()), container), container, name, create, src, env))
    {
      hide Has, Get, Put, FreeName, Place, Ancestors, MergeKids, Started, MergeDir;
      ghost var s0 := S();
      PutBack(tree, container);
      if src.opening.Unreadable? || container + [name] in env.unmade {
        skips := skips + 1;
        return;
      }
      if src.opening.Undescribed? {
        skips := skips + 1;
      }
      s0 := S();
      MakeRoot(container, name, create, src.mtime);
      WalkRoot(container, name, create, src, s0);
    }

    method WalkRoot(container: Path, name: string, create: bool, src: Src, ghost s0: State)
      requires s0.frames == [] && s0.changed == [] && src.SrcDir? && Has(s0.tree, container) && Get(s0.tree, container).Dir?
      requires !create ==> name in Get(s0.tree, container).entries && Get(s0.tree, container).entries[name].Dir?
      requires S() == Started(s0, container, name, create, src.mtime)
      modifies this
      ensures S() == Rooted(s0.tree, container, MergeDir(Before(s0, container), container, name, create, src, env))
    {
      hide Has, Get, Put, FreeName, Place, Ancestors, MergeKids, Started, MergeDir, Popped, Rooted;
      ghost var s1 := S();
      VisitKids(1, src);
      ghost var s2 := S();
      RootIsMerged(s0, container, name, create, src, MergeKids(Focus(s1), Top(s1), src, |src.kids|, env), s2, env);
      UnwoundReport(s2, 0, CutShort(src));
      if src.cutShort {
        skips := skips + 1;
      }
      assert S() == Reported(s2, CutShort(src));
      Unwind(0);
    }

    method MakeRoot(container: Path, name: string, create: bool, mtime: int)
      requires frames == [] && changed == []
      requires Has(tree, container) && Get(tree, container).Dir?
      requires !create ==> name in Get(tree, container).entries && Get(tree, container).entries[name].Dir?
      modifies this
      ensures S() == Started(old(S()), container, name, create, mtime)
    {
      hide Has, Get, Put;
      PutBack(tree, container);
      if create {
        tree := Put(tree, container, Insert(Get(tree, container), name, Dir(map[], None)));
      }
      dirs := dirs + 1;
      frames, changed := [Frame(container + [name], create, mtime)], [false];
    }
  }
}
