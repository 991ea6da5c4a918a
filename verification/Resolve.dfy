/** Following symbolic links by hand.  The resolver re-implements the kernel's pathname
    resolution one component at a time; here it is held against that resolution on any
    fixed filesystem graph. */
module Resolve {
  import opened Basics

  type Ino = nat

  /** search: whether this user may look names up in the directory. */
  datatype Obj = Dir(entries: map<string, Ino>, parent: Ino, search: bool) | Link(target: string) | Other

  datatype FS = FS(root: Ino, objs: map<Ino, Obj>)

  type Path = seq<string>

  /** What a trailing separator asks: the object so far must be a directory. */
  const DIR_MARK := "/"
  const MAX_LINK_HOPS: nat := 40

  predicate Plain(name: string) {
    name != "" && name != "." && name != ".." && '/' !in name
  }

  predicate IsDir(fs: FS, i: Ino) {
    i in fs.objs && fs.objs[i].Dir?
  }

  predicate Searchable(fs: FS, i: Ino) {
    IsDir(fs, i) && fs.objs[i].search
  }

  /** A directory has one parent, and the root is its own and nobody's entry. */
  ghost predicate Wf(fs: FS) {
    && IsDir(fs, fs.root) && fs.objs[fs.root].parent == fs.root
    && (forall d | IsDir(fs, d) :: IsDir(fs, fs.objs[d].parent))
    && (forall d, n | IsDir(fs, d) && n in fs.objs[d].entries ::
          fs.objs[d].entries[n] in fs.objs && fs.objs[d].entries[n] != fs.root
          && (IsDir(fs, fs.objs[d].entries[n]) ==> fs.objs[fs.objs[d].entries[n]].parent == d))
  }

  /** Names looked up one inside the other, no link followed: what one system call on a
      finished path finds. */
  function Lookup(fs: FS, from: Ino, path: Path): Option<Ino>
    decreases path
  {
    if path == [] then Some(from)
    else if Searchable(fs, from) && path[0] in fs.objs[from].entries then Lookup(fs, fs.objs[from].entries[path[0]], path[1..])
    else None
  }

  // ----- the kernel's reading -----

  /** The text between separators, empty pieces and all. */
  function Split(s: string): (r: Path)
    ensures |r| > 0
  {
    if s == "" then [""]
    else
      var t := Split(s[1..]);
      if s[0] == '/' then [""] + t else [[s[0]] + t[0]] + t[1..]
  }

  function NonEmpty(parts: Path): Path {
    if parts == [] then []
    else if parts[0] == "" then NonEmpty(parts[1..])
    else [parts[0]] + NonEmpty(parts[1..])
  }

  predicate EndsInSlash(s: string) {
    s != "" && s[|s| - 1] == '/'
  }

  function Mark(s: string): Path {
    if EndsInSlash(s) then [DIR_MARK] else []
  }

  /** The components a path asks to look up, and whether it ends by asking for a
      directory. */
  function Components(s: string): Path {
    NonEmpty(Split(s)) + Mark(s)
  }

  /** Pathname resolution: each component is looked up in a directory this user may
      search, ".." is the directory's own parent, and a link that is not the last
      component, or is followed all the same, is replaced by its target.  None is any
      failure. */
  function Kernel(fs: FS, cur: Ino, toks: Path, hops: nat, follow: bool): Option<Ino>
    decreases hops, |toks|
  {
    if toks == [] then Some(cur)
    else
      var t, rest := toks[0], toks[1..];
      if t == DIR_MARK then if IsDir(fs, cur) then Kernel(fs, cur, rest, hops, follow) else None
      else if !Searchable(fs, cur) then None
      else if t == "." then Kernel(fs, cur, rest, hops, follow)
      else if t == ".." then Kernel(fs, fs.objs[cur].parent, rest, hops, follow)
      else if t !in fs.objs[cur].entries then None
      else
        var n := fs.objs[cur].entries[t];
        if n in fs.objs && fs.objs[n].Link? && (rest != [] || follow) then
          var target := fs.objs[n].target;
          if hops == 0 || target == "" then None
          else Kernel(fs, if target[0] == '/' then fs.root else cur, Components(target) + rest, hops - 1, follow)
        else Kernel(fs, n, rest, hops, follow)
  }

  /** One component that is neither the last nor a link, or is no name at all. */
  lemma KernelStep(fs: FS, cur: Ino, t: string, rest: Path, hops: nat, follow: bool)
    requires Searchable(fs, cur) && t != ".."
    requires t != "." && t != DIR_MARK ==> t in fs.objs[cur].entries && IsDir(fs, fs.objs[cur].entries[t])
    ensures Kernel(fs, cur, [t] + rest, hops, follow)
         == Kernel(fs, if t == "." || t == DIR_MARK then cur else fs.objs[cur].entries[t], rest, hops, follow)
  {
    assert ([t] + rest)[1..] == rest;
  }

  /** The kernel on its way: where it stands, what is left to look up, how many links it
      may still follow. */
  datatype At = At(cur: Ino, toks: Path, hops: nat)

  /** The link the next component is, if it is to be followed. */
  function LinkAhead(fs: FS, s: At, follow: bool): Option<string> {
    if s.toks == [] || s.toks[0] in {DIR_MARK, ".", ".."} || !Searchable(fs, s.cur) || s.toks[0] !in fs.objs[s.cur].entries then None
    else
      var n := fs.objs[s.cur].entries[s.toks[0]];
      if n in fs.objs && fs.objs[n].Link? && (|s.toks| > 1 || follow) then Some(fs.objs[n].target) else None
  }

  /** One component of the resolution.  None: it is over, or has failed. */
  function Step(fs: FS, s: At, follow: bool): (r: Option<At>)
    ensures r.Some? ==> r.value.hops < s.hops || (r.value.hops == s.hops && |r.value.toks| < |s.toks|)
  {
    if s.toks == [] then None
    else if s.toks[0] == DIR_MARK then if IsDir(fs, s.cur) then Some(s.(toks := s.toks[1..])) else None
    else if !Searchable(fs, s.cur) then None
    else if s.toks[0] == "." then Some(s.(toks := s.toks[1..]))
    else if s.toks[0] == ".." then Some(s.(cur := fs.objs[s.cur].parent, toks := s.toks[1..]))
    else if s.toks[0] !in fs.objs[s.cur].entries then None
    else match LinkAhead(fs, s, follow)
      case None => Some(s.(cur := fs.objs[s.cur].entries[s.toks[0]], toks := s.toks[1..]))
      case Some(target) =>
        if s.hops == 0 || target == "" then None
        else Some(At(if target[0] == '/' then fs.root else s.cur, Components(target) + s.toks[1..], s.hops - 1))
  }

  /** Every state the resolution comes through. */
  function Trace(fs: FS, s: At, follow: bool): (r: seq<At>)
    ensures |r| > 0 && r[0] == s
    decreases s.hops, |s.toks|
  {
    match Step(fs, s, follow)
    case None => [s]
    case Some(next) => [s] + Trace(fs, next, follow)
  }

  /** The steps are the resolution's: it finds what it stands at when nothing is left. */
  lemma {:induction false} TraceIsKernel(fs: FS, s: At, follow: bool)
    ensures var end := Trace(fs, s, follow)[|Trace(fs, s, follow)| - 1];
            Kernel(fs, s.cur, s.toks, s.hops, follow) == if end.toks == [] then Some(end.cur) else None
    decreases s.hops, |s.toks|
  {
    hide Components;
    var next := Step(fs, s, follow);
    if next.Some? { TraceIsKernel(fs, next.value, follow); }
  }

  // ----- splitting a target -----

  function TrimLeft(s: string): string {
    if s != "" && s[0] == '/' then TrimLeft(s[1..]) else s
  }

  function TrimRight(s: string): string {
    if EndsInSlash(s) then TrimRight(s[..|s| - 1]) else s
  }

  /** A relative target.  Interior doubled separators leave empty pieces behind. */
  function SplitLink(link: string): Path {
    var t := TrimRight(TrimLeft(link));
    (if t == "" then [] else Split(t)) + Mark(link)
  }

  lemma {:induction false} SplitSlashed(s: string)
    ensures Split(s + "/") == Split(s) + [""]
  {
    if s == "" {
      assert s + "/" == "/";
      assert "/"[1..] == "";
    } else {
      assert (s + "/")[1..] == s[1..] + "/";
      SplitSlashed(s[1..]);
    }
  }

  lemma {:induction false} NonEmptyAppend(a: Path, b: Path)
    ensures NonEmpty(a + b) == NonEmpty(a) + NonEmpty(b)
  {
    if a == [] {
      assert a + b == b;
    } else {
      assert (a + b)[1..] == a[1..] + b;
      NonEmptyAppend(a[1..], b);
    }
  }

  lemma {:induction false} TrimmedComponents(s: string)
    ensures NonEmpty(Split(TrimRight(s))) == NonEmpty(Split(s))
    ensures !EndsInSlash(TrimRight(s))
  {
    if EndsInSlash(s) {
      var t := s[..|s| - 1];
      assert s == t + "/";
      SplitSlashed(t);
      NonEmptyAppend(Split(t), [""]);
      assert NonEmpty([""]) == [];
      TrimmedComponents(t);
    }
  }

  lemma {:induction false} LastPiece(s: string)
    requires s != "" && !EndsInSlash(s)
    ensures Split(s)[|Split(s)| - 1] != ""
  {
    if |s| > 1 {
      LastPiece(s[1..]);
    } else {
      assert s[1..] == "";
    }
  }

  lemma {:induction false} PiecesHaveNoSlash(s: string)
    ensures forall p | p in Split(s) :: '/' !in p
  {
    if s != "" { PiecesHaveNoSlash(s[1..]); }
  }

  /** A piece the resolver may meet. */
  predicate Token(t: string) {
    t == "" || t == "." || t == ".." || t == DIR_MARK || Plain(t)
  }

  /** Tokens of which the last is not empty. */
  ghost predicate Tokens(toks: Path) {
    (forall t | t in toks :: Token(t)) && (toks != [] ==> toks[|toks| - 1] != "")
  }

  lemma {:induction false} NonEmptyOfTokens(toks: Path)
    requires Tokens(toks)
    ensures NonEmpty(toks) == [] <==> toks == []
    ensures Tokens(NonEmpty(toks))
  {
    if toks != [] {
      assert forall t | t in toks[1..] :: t in toks;
      NonEmptyOfTokens(toks[1..]);
    }
  }

  /** The two splitters agree with the kernel on every target, but for the empty
      pieces. */
  lemma SplitLinkIsComponents(link: string)
    requires link != "" && link[0] != '/'
    ensures NonEmpty(SplitLink(link)) == Components(link)
    ensures SplitLink(link) != [] && Tokens(SplitLink(link))
  {
    var t := TrimRight(link);
    TrimmedComponents(link);
    NonEmptyAppend(if t == "" then [] else Split(t), Mark(link));
    assert NonEmpty(Mark(link)) == Mark(link);
    PiecesHaveNoSlash(t);
    if t != "" { LastPiece(t); }
  }

  lemma ComponentsAreTokens(s: string)
    ensures Tokens(Components(s)) && NonEmpty(Components(s)) == Components(s)
  {
    PiecesHaveNoSlash(s);
    NonEmptyPieces(Split(s));
    NonEmptyAppend(NonEmpty(Split(s)), Mark(s));
    assert NonEmpty(Mark(s)) == Mark(s);
    var toks := Components(s);
    assert forall t | t in toks :: t != "" && Token(t);
    assert toks != [] ==> toks[|toks| - 1] in toks;
  }

  lemma {:induction false} NonEmptyPieces(parts: Path)
    ensures NonEmpty(NonEmpty(parts)) == NonEmpty(parts)
    ensures forall p | p in NonEmpty(parts) :: p in parts && p != ""
  {
    if parts != [] { NonEmptyPieces(parts[1..]); }
  }

  // ----- the jail -----

  /** The directory requests are answered inside: its inode, its host path, and the other
      spelling of that path if it has one.  Unjailed it is the root itself. */
  datatype Base = Base(ino: Ino, path: Path, alias: Option<Path>, jailed: bool)

  ghost predicate BaseOk(fs: FS, b: Base) {
    && IsDir(fs, b.ino) && Lookup(fs, fs.root, b.path) == Some(b.ino)
    && (b.alias.Some? ==> Lookup(fs, fs.root, b.alias.value) == Some(b.ino))
    && (!b.jailed ==> b.path == [])
  }

  /** How many leading names of an absolute target the base accounts for. */
  function Mapped(b: Base, located: Path): (skip: Option<nat>)
    ensures skip.Some? ==> skip.value <= |located|
  {
    if b.path <= located then Some(|b.path|)
    else if b.alias.Some? && b.alias.value <= located then Some(|b.alias.value|)
    else None
  }

  function Head(comps: Path): (h: Path)
    ensures |h| <= |comps| && h == comps[..|h|] && ".." !in h
  {
    if comps == [] || comps[0] == ".." then [] else [comps[0]] + Head(comps[1..])
  }

  /** The names among them: neither a dot nor a trailing separator says where. */
  function Located(head: Path): Path {
    if head == [] then []
    else (if head[0] == "." || head[0] == DIR_MARK then [] else [head[0]]) + Located(head[1..])
  }

  /** What is left once that many names, and every dot among them, are dropped. */
  function Below(head: Path, skip: nat): (r: Path)
    ensures |r| <= |head| && r == head[|head| - |r|..]
  {
    if skip == 0 || head == [] then head
    else Below(head[1..], if head[0] == "." || head[0] == DIR_MARK then skip else skip - 1)
  }

  /** Dropping the base's own names from a target is walking them. */
  lemma {:induction false} ThroughTheBase(fs: FS, cur: Ino, head: Path, names: Path, base: Ino, tail: Path, hops: nat, follow: bool)
    requires names <= Located(head) && ".." !in head && IsDir(fs, base)
    requires Lookup(fs, cur, names) == Some(base)
    ensures Kernel(fs, cur, head + tail, hops, follow) == Kernel(fs, base, Below(head, |names|) + tail, hops, follow)
    decreases head
  {
    hide Kernel, Lookup, Located, Below;
    HeadStep(head, names);
    LookupStep(fs, cur, names, base);
    if names != [] {
      var rest := head[1..] + tail;
      assert head + tail == [head[0]] + rest;
      assert head[0] in head && ".." !in head[1..];
      KernelStep(fs, cur, head[0], rest, hops, follow);
      if head[0] == "." || head[0] == DIR_MARK {
        ThroughTheBase(fs, cur, head[1..], names, base, tail, hops, follow);
      } else {
        ThroughTheBase(fs, fs.objs[cur].entries[names[0]], head[1..], names[1..], base, tail, hops, follow);
      }
    }
  }

  lemma HeadStep(head: Path, names: Path)
    requires names <= Located(head)
    ensures names == [] ==> Below(head, 0) == head
    ensures names != [] ==>
              head != [] && if head[0] == "." || head[0] == DIR_MARK
              then names <= Located(head[1..]) && Below(head, |names|) == Below(head[1..], |names|)
              else names[0] == head[0] && names[1..] <= Located(head[1..]) && Below(head, |names|) == Below(head[1..], |names[1..]|)
  {
    if names != [] && !(head[0] == "." || head[0] == DIR_MARK) {
      assert Located(head)[1..] == Located(head[1..]);
      assert names[1..] <= Located(head)[1..];
    }
  }

  lemma LookupStep(fs: FS, cur: Ino, names: Path, base: Ino)
    requires Lookup(fs, cur, names) == Some(base) && IsDir(fs, base)
    ensures names == [] ==> cur == base
    ensures names != [] ==>
              && Searchable(fs, cur) && names[0] in fs.objs[cur].entries && IsDir(fs, fs.objs[cur].entries[names[0]])
              && Lookup(fs, fs.objs[cur].entries[names[0]], names[1..]) == Some(base)
  {
  }

  datatype LinkParts = EmptyTarget | Escapes | Relative(parts: Path) | FromBase(parts: Path)

  function LinkPartsSpec(b: Base, link: string): LinkParts {
    if link == "" then EmptyTarget
    else if link[0] != '/' then Relative(SplitLink(link))
    else
      var comps := Components(link);
      var head := Head(comps);
      var skip := Mapped(b, Located(head));
      if skip.None? then Escapes else FromBase(Below(head, skip.value) + comps[|head|..])
  }

  /** An absolute target that stays inside means the same from the base as it does to the
      kernel from the root. */
  lemma FromBaseIsFromRoot(fs: FS, b: Base, link: string, rest: Path, hops: nat, follow: bool)
    requires BaseOk(fs, b)
    ensures LinkPartsSpec(b, link).FromBase? ==>
              var parts := LinkPartsSpec(b, link).parts;
              Kernel(fs, fs.root, Components(link) + rest, hops, follow) == Kernel(fs, b.ino, parts + rest, hops, follow)
  {
    hide Kernel, Components, Lookup, NonEmpty, Tokens, Located, Head, Below;
    if LinkPartsSpec(b, link).FromBase? {
      var comps := Components(link);
      var head := Head(comps);
      var located := Located(head);
      var names := if b.path <= located then b.path else b.alias.value;
      var tail := comps[|head|..];
      assert comps == head + tail;
      ThroughTheBase(fs, fs.root, head, names, b.ino, tail + rest, hops, follow);
      assert head + (tail + rest) == comps + rest;
      assert Below(head, |names|) + (tail + rest) == (Below(head, |names|) + tail) + rest;
    }
  }

  lemma PartsAreTokens(b: Base, link: string)
    ensures LinkPartsSpec(b, link).FromBase? ==>
              var parts := LinkPartsSpec(b, link).parts; Tokens(parts) && NonEmpty(parts) == parts
  {
    hide Components, NonEmpty, Tokens, Located, Head, Below;
    if LinkPartsSpec(b, link).FromBase? {
      var comps := Components(link);
      var head := Head(comps);
      var kept := Below(head, Mapped(b, Located(head)).value);
      var tail := comps[|head|..];
      assert comps == head + tail;
      ComponentsAreTokens(link);
      NonEmptySuffix(comps, |head| - |kept|);
      assert comps[|head| - |kept|..] == kept + tail;
    }
  }

  lemma NonEmptySuffix(comps: Path, k: nat)
    requires k <= |comps| && NonEmpty(comps) == comps && Tokens(comps)
    ensures Tokens(comps[k..]) && NonEmpty(comps[k..]) == comps[k..]
  {
    hide NonEmpty, Token;
    NonEmptyPieces(comps);
    assert forall t | t in comps[k..] :: t in comps;
    NothingEmpty(comps[k..]);
  }

  lemma {:induction false} NothingEmpty(parts: Path)
    requires forall p | p in parts :: p != ""
    ensures NonEmpty(parts) == parts
  {
    if parts != [] {
      assert parts[0] in parts && forall p | p in parts[1..] :: p in parts;
      NothingEmpty(parts[1..]);
    }
  }

  /** Read from its start, the target names the base before any "..". */
  predicate Spells(comps: Path, base: Path)
    decreases comps
  {
    || base == []
    || (comps != [] && comps[0] != ".."
        && if comps[0] == "." || comps[0] == DIR_MARK then Spells(comps[1..], base)
           else comps[0] == base[0] && Spells(comps[1..], base[1..]))
  }

  /** An absolute target that does not start at the base, by its path or its alias. */
  predicate Outside(b: Base, link: string) {
    && link != "" && link[0] == '/' && !Spells(Components(link), b.path)
    && (b.alias.Some? ==> !Spells(Components(link), b.alias.value))
  }

  lemma {:induction false} SpellsLocated(comps: Path, base: Path)
    ensures Spells(comps, base) <==> base <= Located(Head(comps))
    decreases comps
  {
    if comps != [] && comps[0] != ".." {
      var head := Head(comps);
      assert head == [comps[0]] + Head(comps[1..]) && head[1..] == Head(comps[1..]);
      SpellsLocated(comps[1..], base);
      if base != [] {
        SpellsLocated(comps[1..], base[1..]);
        assert base == [base[0]] + base[1..];
        assert Located(head) == [comps[0]] + Located(head[1..]) || comps[0] == "." || comps[0] == DIR_MARK;
      }
    }
  }

  /** The targets refused are exactly those. */
  lemma EscapesIffOutside(b: Base, link: string)
    ensures LinkPartsSpec(b, link).Escapes? <==> Outside(b, link)
  {
    hide Components, Located, Head, Spells, Below, SplitLink;
    SpellsLocated(Components(link), b.path);
    if b.alias.Some? { SpellsLocated(Components(link), b.alias.value); }
  }

  /** linkParts: where resolution goes on from, and with what. */
  method ReadLinkParts(b: Base, link: string) returns (r: LinkParts)
    ensures r == LinkPartsSpec(b, link)
    ensures r.Escapes? <==> Outside(b, link)
  {
    hide Components, SplitLink, Head, Located, Below, Outside;
    EscapesIffOutside(b, link);
    if link == "" {
      return EmptyTarget;
    }
    if link[0] != '/' {
      return Relative(SplitLink(link));
    }
    var comps := Components(link);
    var head := FindHead(comps);
    var located := FindNames(head);
    var mapped := Mapped(b, located);
    if mapped.None? {
      return Escapes;
    }
    var rest := DropNames(head, mapped.value);
    r := FromBase(rest + comps[|head|..]);
  }

  /** Everything up to the first "..". */
  method FindHead(comps: Path) returns (head: Path)
    ensures head == Head(comps)
  {
    var n := 0;
    while n < |comps| && comps[n] != ".."
      invariant n <= |comps| && |Head(comps)| == n + |Head(comps[n..])|
    {
      assert comps[n..][1..] == comps[n + 1..];
      n := n + 1;
    }
    head := comps[..n];
  }

  method FindNames(head: Path) returns (located: Path)
    ensures located == Located(head)
  {
    hide Located;
    located := [];
    for i := 0 to |head|
      invariant Located(head) == located + Located(head[i..])
    {
      LocatedStep(head[i..]);
      assert head[i..][1..] == head[i + 1..];
      if head[i] != "." && head[i] != DIR_MARK {
        located := located + [head[i]];
      }
    }
    LocatedStep(head[|head|..]);
  }

  lemma LocatedStep(head: Path)
    ensures head == [] ==> Located(head) == []
    ensures head != [] ==>
              Located(head) == (if head[0] == "." || head[0] == DIR_MARK then [] else [head[0]]) + Located(head[1..])
  {
  }

  method DropNames(head: Path, names: nat) returns (rest: Path)
    ensures rest == Below(head, names)
  {
    hide Below;
    var skip := names;
    rest := head;
    while skip > 0 && rest != []
      invariant Below(head, names) == Below(rest, skip)
      decreases |rest|
    {
      BelowStep(rest, skip);
      if rest[0] != "." && rest[0] != DIR_MARK {
        skip := skip - 1;
      }
      rest := rest[1..];
    }
    BelowEnd(rest, skip);
  }

  lemma BelowStep(head: Path, skip: nat)
    requires skip > 0 && head != []
    ensures Below(head, skip) == Below(head[1..], if head[0] == "." || head[0] == DIR_MARK then skip else skip - 1)
  {
  }

  lemma BelowEnd(head: Path, skip: nat)
    requires skip == 0 || head == []
    ensures Below(head, skip) == head
  {
  }

  // ----- the walk inside a base -----

  datatype Walked = Found(ino: Ino) | Fails | Leaves

  /** Pathname resolution that knows how many names below the base it stands.  A jail is
      left by ".." at the base, or by an absolute target whose literal head is not
      inside. */
  function JailWalk(fs: FS, b: Base, cur: Ino, depth: nat, toks: Path, hops: nat, follow: bool): Walked
    decreases hops, |toks|
  {
    if toks == [] then Found(cur)
    else
      var t, rest := toks[0], toks[1..];
      if t == DIR_MARK then if IsDir(fs, cur) then JailWalk(fs, b, cur, depth, rest, hops, follow) else Fails
      else if !Searchable(fs, cur) then Fails
      else if t == "." then JailWalk(fs, b, cur, depth, rest, hops, follow)
      else if t == ".." then
        if depth > 0 then JailWalk(fs, b, fs.objs[cur].parent, depth - 1, rest, hops, follow)
        else if b.jailed then Leaves
        else JailWalk(fs, b, cur, 0, rest, hops, follow)
      else if t !in fs.objs[cur].entries then Fails
      else
        var n := fs.objs[cur].entries[t];
        if n in fs.objs && fs.objs[n].Link? && (rest != [] || follow) then
          var target := fs.objs[n].target;
          if hops == 0 then Fails
          else match LinkPartsSpec(b, target)
            case EmptyTarget => Fails
            case Escapes => Leaves
            case FromBase(parts) => JailWalk(fs, b, b.ino, 0, parts + rest, hops - 1, follow)
            case Relative(_) => JailWalk(fs, b, cur, depth, Components(target) + rest, hops - 1, follow)
        else JailWalk(fs, b, n, depth + 1, rest, hops, follow)
  }

  /** depth times ".." from a directory. */
  function Ancestor(fs: FS, i: Ino, up: nat): Ino
    decreases up
  {
    if up == 0 || !IsDir(fs, i) then i else Ancestor(fs, fs.objs[i].parent, up - 1)
  }

  ghost predicate Standing(fs: FS, b: Base, cur: Ino, depth: nat) {
    IsDir(fs, cur) ==> Ancestor(fs, cur, depth) == b.ino
  }

  lemma AtTheBase(fs: FS, b: Base)
    ensures Standing(fs, b, b.ino, 0)
  {
  }

  /** Unjailed every target is mapped, and by dropping nothing. */
  lemma UnjailedNeverEscapes(fs: FS, b: Base, link: string)
    requires BaseOk(fs, b) && !b.jailed && link != ""
    ensures !LinkPartsSpec(b, link).Escapes?
  {
    hide Components, Head, Located;
  }

  /** Inside the base the walk is the kernel's, and it leaves only a jail. */
  lemma {:induction false} JailAgrees(fs: FS, b: Base, cur: Ino, depth: nat, toks: Path, hops: nat, follow: bool)
    requires Wf(fs) && BaseOk(fs, b) && Standing(fs, b, cur, depth)
    ensures match JailWalk(fs, b, cur, depth, toks, hops, follow)
            case Found(i) => Kernel(fs, cur, toks, hops, follow) == Some(i)
            case Fails => Kernel(fs, cur, toks, hops, follow) == None
            case Leaves => b.jailed
    decreases hops, |toks|
  {
    hide Components, LinkPartsSpec, Lookup;
    if toks != [] {
      var t, rest := toks[0], toks[1..];
      if t == DIR_MARK || t == "." {
        JailAgrees(fs, b, cur, depth, rest, hops, follow);
      } else if Searchable(fs, cur) && t == ".." {
        if depth > 0 {
          JailAgrees(fs, b, fs.objs[cur].parent, depth - 1, rest, hops, follow);
        } else if !b.jailed {
          UnjailedBaseIsRoot(fs, b);
          JailAgrees(fs, b, cur, 0, rest, hops, follow);
        }
      } else if Searchable(fs, cur) && t in fs.objs[cur].entries {
        var n := fs.objs[cur].entries[t];
        if n in fs.objs && fs.objs[n].Link? && (rest != [] || follow) {
          if hops > 0 {
            JailFollows(fs, b, cur, depth, fs.objs[n].target, rest, hops - 1, follow);
          }
        } else {
          JailAgrees(fs, b, n, depth + 1, rest, hops, follow);
        }
      }
    }
  }

  lemma UnjailedBaseIsRoot(fs: FS, b: Base)
    requires BaseOk(fs, b) && !b.jailed
    ensures b.ino == fs.root
  {
  }

  lemma {:induction false} JailFollows(fs: FS, b: Base, cur: Ino, depth: nat, target: string, rest: Path, hops: nat, follow: bool)
    requires Wf(fs) && BaseOk(fs, b) && Standing(fs, b, cur, depth)
    ensures var from := if target != "" && target[0] == '/' then fs.root else cur;
            match LinkPartsSpec(b, target)
            case EmptyTarget => target == ""
            case Escapes => b.jailed && target != ""
            case FromBase(parts) =>
              target != "" && (match JailWalk(fs, b, b.ino, 0, parts + rest, hops, follow)
               case Found(i) => Kernel(fs, from, Components(target) + rest, hops, follow) == Some(i)
               case Fails => Kernel(fs, from, Components(target) + rest, hops, follow) == None
               case Leaves => b.jailed)
            case Relative(_) =>
              target != "" && (match JailWalk(fs, b, cur, depth, Components(target) + rest, hops, follow)
               case Found(i) => Kernel(fs, from, Components(target) + rest, hops, follow) == Some(i)
               case Fails => Kernel(fs, from, Components(target) + rest, hops, follow) == None
               case Leaves => b.jailed)
    decreases hops + 1, 0
  {
    hide Components, Kernel, JailWalk, Wf;
    if !b.jailed && target != "" { UnjailedNeverEscapes(fs, b, target); }
    match LinkPartsSpec(b, target)
    case FromBase(parts) =>
      AtTheBase(fs, b);
      JailAgrees(fs, b, b.ino, 0, parts + rest, hops, follow);
      FromBaseIsFromRoot(fs, b, target, rest, hops, follow);
    case Escapes =>
    case EmptyTarget =>
    case Relative(_) => JailAgrees(fs, b, cur, depth, Components(target) + rest, hops, follow);
  }

  // ----- leaving the base, in the kernel's own steps -----

  /** The next step looks up ".." in the base, or follows a target outside it. */
  predicate Crosses(fs: FS, b: Base, s: At, follow: bool) {
    || (s.toks != [] && s.toks[0] == ".." && s.cur == b.ino && Searchable(fs, s.cur))
    || (s.hops > 0 && LinkAhead(fs, s, follow).Some? && Outside(b, LinkAhead(fs, s, follow).value))
  }

  /** Some step of the kernel's resolution leaves the jail. */
  ghost predicate LeavesTheJail(fs: FS, b: Base, rel: Path, follow: bool) {
    b.jailed && exists s :: s in Trace(fs, At(b.ino, rel, MAX_LINK_HOPS), follow) && Crosses(fs, b, s, follow)
  }

  predicate Meets(fs: FS, b: Base, s: At, follow: bool)
    decreases s.hops, |s.toks|
  {
    Crosses(fs, b, s, follow) || (Step(fs, s, follow).Some? && Meets(fs, b, Step(fs, s, follow).value, follow))
  }

  lemma {:induction false} MeetsOnTheWay(fs: FS, b: Base, s: At, follow: bool)
    ensures Meets(fs, b, s, follow) <==> exists x :: x in Trace(fs, s, follow) && Crosses(fs, b, x, follow)
    decreases s.hops, |s.toks|
  {
    hide Crosses, Step;
    var next := Step(fs, s, follow);
    assert s in Trace(fs, s, follow);
    if next.Some? {
      MeetsOnTheWay(fs, b, next.value, follow);
      assert Trace(fs, s, follow) == [s] + Trace(fs, next.value, follow);
    } else {
      assert Trace(fs, s, follow) == [s];
    }
  }

  lemma {:induction false} LookupAppend(fs: FS, from: Ino, a: Path, b: Path)
    requires Lookup(fs, from, a).Some?
    ensures Lookup(fs, from, a + b) == Lookup(fs, Lookup(fs, from, a).value, b)
    decreases a
  {
    if a == [] {
      assert a + b == b;
    } else {
      assert (a + b)[1..] == a[1..] + b;
      LookupAppend(fs, fs.objs[from].entries[a[0]], a[1..], b);
    }
  }

  /** A directory has one depth. */
  lemma {:induction false} OneDepth(fs: FS, p: Path, q: Path, i: Ino)
    requires Wf(fs) && Lookup(fs, fs.root, p) == Some(i) && Lookup(fs, fs.root, q) == Some(i) && IsDir(fs, i)
    ensures |p| == |q|
    decreases |p|
  {
    if p != [] { PoppedIsParent(fs, fs.root, p, i); IsAnEntry(fs, p, i); }
    if q != [] { PoppedIsParent(fs, fs.root, q, i); IsAnEntry(fs, q, i); }
    if p != [] && q != [] {
      OneDepth(fs, p[..|p| - 1], q[..|q| - 1], fs.objs[i].parent);
    }
  }

  lemma IsAnEntry(fs: FS, p: Path, i: Ino)
    requires Wf(fs) && p != [] && Lookup(fs, fs.root, p) == Some(i)
    ensures i != fs.root
  {
    var up := p[..|p| - 1];
    assert p == up + [p[|p| - 1]];
    LookupChild(fs, fs.root, up, p[|p| - 1]);
  }

  /** The base is met again only at the base. */
  lemma OnlyTheBaseIsTheBase(fs: FS, b: Base, done: Path, cur: Ino)
    requires Wf(fs) && BaseOk(fs, b) && Lookup(fs, b.ino, done) == Some(cur)
    ensures cur == b.ino <==> done == []
  {
    if cur == b.ino {
      LookupAppend(fs, fs.root, b.path, done);
      OneDepth(fs, b.path, b.path + done, cur);
    }
  }

  lemma QuietStep(fs: FS, b: Base, cur: Ino, t: string, rest: Path, hops: nat, follow: bool)
    requires Searchable(fs, cur) && t != ".."
    requires t != "." && t != DIR_MARK ==> t in fs.objs[cur].entries && IsDir(fs, fs.objs[cur].entries[t])
    ensures Meets(fs, b, At(cur, [t] + rest, hops), follow)
         == Meets(fs, b, At(if t == "." || t == DIR_MARK then cur else fs.objs[cur].entries[t], rest, hops), follow)
  {
    hide Outside;
    assert ([t] + rest)[1..] == rest;
  }

  /** Walking the base's own names leaves nothing. */
  lemma {:induction false} MeetsThroughTheBase(fs: FS, b: Base, cur: Ino, head: Path, names: Path, tail: Path, hops: nat, follow: bool)
    requires names <= Located(head) && ".." !in head && IsDir(fs, b.ino)
    requires Lookup(fs, cur, names) == Some(b.ino)
    ensures Meets(fs, b, At(cur, head + tail, hops), follow) == Meets(fs, b, At(b.ino, Below(head, |names|) + tail, hops), follow)
    decreases head
  {
    hide Meets, Lookup, Located, Below;
    HeadStep(head, names);
    LookupStep(fs, cur, names, b.ino);
    if names != [] {
      var rest := head[1..] + tail;
      assert head + tail == [head[0]] + rest;
      assert head[0] in head && ".." !in head[1..];
      QuietStep(fs, b, cur, head[0], rest, hops, follow);
      if head[0] == "." || head[0] == DIR_MARK {
        MeetsThroughTheBase(fs, b, cur, head[1..], names, tail, hops, follow);
      } else {
        MeetsThroughTheBase(fs, b, fs.objs[cur].entries[names[0]], head[1..], names[1..], tail, hops, follow);
      }
    }
  }

  lemma MeetsFromBase(fs: FS, b: Base, link: string, rest: Path, hops: nat, follow: bool)
    requires BaseOk(fs, b)
    ensures LinkPartsSpec(b, link).FromBase? ==>
              var parts := LinkPartsSpec(b, link).parts;
              Meets(fs, b, At(fs.root, Components(link) + rest, hops), follow) == Meets(fs, b, At(b.ino, parts + rest, hops), follow)
  {
    hide Meets, Components, Lookup, NonEmpty, Tokens, Located, Head, Below;
    if LinkPartsSpec(b, link).FromBase? {
      var comps := Components(link);
      var head := Head(comps);
      var located := Located(head);
      var names := if b.path <= located then b.path else b.alias.value;
      var tail := comps[|head|..];
      assert comps == head + tail;
      MeetsThroughTheBase(fs, b, fs.root, head, names, tail + rest, hops, follow);
      assert head + (tail + rest) == comps + rest;
      assert Below(head, |names|) + (tail + rest) == (Below(head, |names|) + tail) + rest;
    }
  }

  /** The walk in a jail leaves exactly where the kernel's does. */
  lemma {:induction false} LeavesIffMeets(fs: FS, b: Base, done: Path, cur: Ino, toks: Path, hops: nat, follow: bool)
    requires Wf(fs) && BaseOk(fs, b) && b.jailed && Lookup(fs, b.ino, done) == Some(cur)
    ensures JailWalk(fs, b, cur, |done|, toks, hops, follow) == Leaves <==> Meets(fs, b, At(cur, toks, hops), follow)
    decreases hops, |toks|
  {
    hide Components, LinkPartsSpec, Lookup, Outside, BaseOk;
    if toks != [] {
      var t, rest := toks[0], toks[1..];
      if t == DIR_MARK || t == "." {
        LeavesIffMeets(fs, b, done, cur, rest, hops, follow);
      } else if Searchable(fs, cur) && t == ".." {
        OnlyTheBaseIsTheBase(fs, b, done, cur);
        if done != [] {
          PoppedIsParent(fs, b.ino, done, cur);
          LeavesIffMeets(fs, b, done[..|done| - 1], fs.objs[cur].parent, rest, hops, follow);
        }
      } else if Searchable(fs, cur) && t in fs.objs[cur].entries {
        var n := fs.objs[cur].entries[t];
        if n in fs.objs && fs.objs[n].Link? && (rest != [] || follow) {
          if hops > 0 {
            FollowsIffMeets(fs, b, done, cur, fs.objs[n].target, rest, hops - 1, follow);
            EscapesIffOutside(b, fs.objs[n].target);
          }
        } else {
          LookupChild(fs, b.ino, done, t);
          LeavesIffMeets(fs, b, done + [t], n, rest, hops, follow);
        }
      }
    }
  }

  lemma {:induction false} FollowsIffMeets(fs: FS, b: Base, done: Path, cur: Ino, target: string, rest: Path, hops: nat, follow: bool)
    requires Wf(fs) && BaseOk(fs, b) && b.jailed && Lookup(fs, b.ino, done) == Some(cur)
    ensures match LinkPartsSpec(b, target)
            case EmptyTarget => target == ""
            case Escapes => true
            case FromBase(parts) =>
              && target != "" && target[0] == '/'
              && (JailWalk(fs, b, b.ino, 0, parts + rest, hops, follow) == Leaves
                  <==> Meets(fs, b, At(fs.root, Components(target) + rest, hops), follow))
            case Relative(_) =>
              && target != "" && target[0] != '/'
              && (JailWalk(fs, b, cur, |done|, Components(target) + rest, hops, follow) == Leaves
                  <==> Meets(fs, b, At(cur, Components(target) + rest, hops), follow))
    decreases hops + 1, 0
  {
    hide Components, Meets, JailWalk, Wf, BaseOk;
    match LinkPartsSpec(b, target)
    case FromBase(parts) =>
      LeavesIffMeets(fs, b, [], b.ino, parts + rest, hops, follow);
      MeetsFromBase(fs, b, target, rest, hops, follow);
    case Relative(_) => LeavesIffMeets(fs, b, done, cur, Components(target) + rest, hops, follow);
    case _ =>
  }

  // ----- the resolver -----

  datatype Resolution = Resolved(path: Path) | Failed | OutsideRoot

  /** done names cur, and what is left of the walk, from cur, comes to what the whole
      request comes to. */
  ghost predicate OnTrack(fs: FS, b: Base, done: Path, cur: Ino, rest: Path, hops: nat, follow: bool, goal: Walked) {
    && hops <= MAX_LINK_HOPS && Lookup(fs, b.ino, done) == Some(cur)
    && JailWalk(fs, b, cur, |done|, NonEmpty(rest), MAX_LINK_HOPS - hops, follow) == goal
    && (rest != [] ==> IsDir(fs, cur))
  }

  /** The walk fails, and so does anything done on the finished path. */
  ghost predicate Lost(fs: FS, b: Base, done: Path, rest: Path, blocked: bool, goal: Walked) {
    && goal == Fails
    && (rest != [] ==> blocked)
    && var at := Lookup(fs, b.ino, done);
       at == None || (rest != [] && !IsDir(fs, at.value))
  }

  lemma {:induction false} LookupChild(fs: FS, from: Ino, path: Path, name: string)
    ensures Lookup(fs, from, path + [name]) ==
            var at := Lookup(fs, from, path);
            if at.Some? && Searchable(fs, at.value) && name in fs.objs[at.value].entries
            then Some(fs.objs[at.value].entries[name]) else None
    decreases path
  {
    if path == [] {
      assert path + [name] == [name] && [name][1..] == [];
    } else {
      assert (path + [name])[1..] == path[1..] + [name];
      if Searchable(fs, from) && path[0] in fs.objs[from].entries {
        LookupChild(fs, fs.objs[from].entries[path[0]], path[1..], name);
      }
    }
  }

  /** ".." popped off the path is ".." in the graph. */
  lemma PoppedIsParent(fs: FS, base: Ino, done: Path, cur: Ino)
    requires Wf(fs) && done != [] && Lookup(fs, base, done) == Some(cur) && IsDir(fs, cur)
    ensures Lookup(fs, base, done[..|done| - 1]) == Some(fs.objs[cur].parent)
  {
    assert done == done[..|done| - 1] + [done[|done| - 1]];
    LookupChild(fs, base, done[..|done| - 1], done[|done| - 1]);
  }

  lemma NextToken(rest: Path)
    requires rest != [] && Tokens(rest)
    ensures Tokens(rest[1..]) && Token(rest[0])
    ensures rest[0] == "" ==> NonEmpty(rest) == NonEmpty(rest[1..]) && rest[1..] != []
    ensures rest[0] != "" ==> NonEmpty(rest) == [rest[0]] + NonEmpty(rest[1..])
    ensures NonEmpty(rest[1..]) == [] <==> rest[1..] == []
  {
    assert forall t | t in rest[1..] :: t in rest;
    NonEmptyOfTokens(rest[1..]);
  }

  /** checkTraversable: "." looked up inside the finished path. */
  predicate Traversable(fs: FS, base: Ino, done: Path) {
    var at := Lookup(fs, base, done);
    at.Some? && Searchable(fs, at.value)
  }

  /** A name that is looked up and kept. */
  lemma NameStep(fs: FS, b: Base, done: Path, cur: Ino, part: string, rest: Path, hops: nat, follow: bool, goal: Walked)
    requires Wf(fs) && Plain(part) && Tokens([part] + rest)
    requires OnTrack(fs, b, done, cur, [part] + rest, hops, follow, goal)
    requires var found := Lookup(fs, b.ino, done + [part]);
             (rest == [] && !follow) || found.None? || found.value !in fs.objs || !fs.objs[found.value].Link?
    ensures var found := Lookup(fs, b.ino, done + [part]);
            if found.Some? && (rest == [] || IsDir(fs, found.value))
            then OnTrack(fs, b, done + [part], found.value, rest, hops, follow, goal)
            else Lost(fs, b, done + [part], rest, true, goal)
  {
    LookupChild(fs, b.ino, done, part);
    NextToken([part] + rest);
    assert ([part] + rest)[1..] == rest;
    var toks := NonEmpty([part] + rest);
    assert toks[0] == part && toks[1..] == NonEmpty(rest);
    assert part != DIR_MARK;
    var found := Lookup(fs, b.ino, done + [part]);
    if found.Some? && rest != [] && !IsDir(fs, found.value) {
      assert JailWalk(fs, b, found.value, |done| + 1, NonEmpty(rest), MAX_LINK_HOPS - hops, follow) == Fails;
    }
  }

  /** A link that is followed. */
  lemma LinkStep(fs: FS, b: Base, done: Path, cur: Ino, part: string, rest: Path, hops: nat, follow: bool, goal: Walked)
    requires Wf(fs) && Plain(part) && Tokens([part] + rest) && (rest != [] || follow)
    requires OnTrack(fs, b, done, cur, [part] + rest, hops, follow, goal)
    requires var found := Lookup(fs, b.ino, done + [part]);
             found.Some? && found.value in fs.objs && fs.objs[found.value].Link?
    ensures var target := fs.objs[Lookup(fs, b.ino, done + [part]).value].target;
            goal == if hops == MAX_LINK_HOPS then Fails
                    else match LinkPartsSpec(b, target)
                      case EmptyTarget => Fails
                      case Escapes => Leaves
                      case FromBase(parts) => JailWalk(fs, b, b.ino, 0, parts + NonEmpty(rest), MAX_LINK_HOPS - hops - 1, follow)
                      case Relative(_) => JailWalk(fs, b, cur, |done|, Components(target) + NonEmpty(rest), MAX_LINK_HOPS - hops - 1, follow)
  {
    hide Components, LinkPartsSpec;
    LookupChild(fs, b.ino, done, part);
    NextToken([part] + rest);
    assert ([part] + rest)[1..] == rest;
    var toks := NonEmpty([part] + rest);
    assert toks[0] == part && toks[1..] == NonEmpty(rest);
    assert part != DIR_MARK;
  }

  /** Nothing can be looked up where the kernel has already failed. */
  lemma LostStep(fs: FS, b: Base, done: Path, part: string, rest: Path, goal: Walked)
    requires Lost(fs, b, done, [part] + rest, true, goal)
    ensures Lookup(fs, b.ino, done + [part]) == None && Lost(fs, b, done + [part], rest, true, goal)
  {
    LookupChild(fs, b.ino, done, part);
  }

  /** "." and a trailing separator change nothing but ask something. */
  lemma DotStep(fs: FS, b: Base, done: Path, cur: Ino, part: string, rest: Path, hops: nat, follow: bool, goal: Walked)
    requires part == "." || part == DIR_MARK || part == ""
    requires Tokens([part] + rest) && OnTrack(fs, b, done, cur, [part] + rest, hops, follow, goal)
    ensures part != "." || Traversable(fs, b.ino, done) ==> OnTrack(fs, b, done, cur, rest, hops, follow, goal)
    ensures part == "." && !Traversable(fs, b.ino, done) ==> goal == Fails
  {
    NextToken([part] + rest);
    assert ([part] + rest)[1..] == rest;
    if part != "" {
      var toks := NonEmpty([part] + rest);
      assert toks[0] == part && toks[1..] == NonEmpty(rest);
    }
  }

  lemma DotDotStep(fs: FS, b: Base, done: Path, cur: Ino, rest: Path, hops: nat, follow: bool, goal: Walked)
    requires Wf(fs) && Tokens([".."] + rest) && OnTrack(fs, b, done, cur, [".."] + rest, hops, follow, goal)
    ensures IsDir(fs, cur)
    ensures !Traversable(fs, b.ino, done) ==> goal == Fails
    ensures Traversable(fs, b.ino, done) && done != [] ==>
              OnTrack(fs, b, done[..|done| - 1], fs.objs[cur].parent, rest, hops, follow, goal)
    ensures Traversable(fs, b.ino, done) && done == [] ==>
              if b.jailed then goal == Leaves else OnTrack(fs, b, done, cur, rest, hops, follow, goal)
  {
    NextToken([".."] + rest);
    assert ([".."] + rest)[1..] == rest;
    var toks := NonEmpty([".."] + rest);
    assert toks[0] == ".." && toks[1..] == NonEmpty(rest);
    if done != [] { PoppedIsParent(fs, b.ino, done, cur); }
  }

  lemma TokensAppend(a: Path, b: Path)
    requires Tokens(a) && Tokens(b)
    ensures Tokens(a + b) && NonEmpty(a + b) == NonEmpty(a) + NonEmpty(b)
  {
    NonEmptyAppend(a, b);
    if b == [] { assert a + b == a; }
  }

  /** The walk between two components.  ".." and "." only come out of a link, and a link
      was only found by searching the base. */
  ghost predicate Walking(fs: FS, b: Base, done: Path, cur: Ino, rest: Path, hops: nat, blocked: bool, follow: bool, goal: Walked) {
    && hops <= MAX_LINK_HOPS && Tokens(rest)
    && (forall name | name in done :: Plain(name))
    && (hops == 0 ==> forall t | t in rest :: Plain(t))
    && (hops > 0 ==> Searchable(fs, b.ino))
    && if blocked then Lost(fs, b, done, rest, true, goal)
       else OnTrack(fs, b, done, cur, rest, hops, follow, goal) || (rest == [] && Lost(fs, b, done, rest, true, goal))
  }

  lemma Departing(fs: FS, b: Base, rel: Path, follow: bool)
    requires Wf(fs) && BaseOk(fs, b) && forall name | name in rel :: Plain(name)
    ensures Walking(fs, b, [], b.ino, rel, 0, false, follow, JailWalk(fs, b, b.ino, 0, rel, MAX_LINK_HOPS, follow))
    ensures match JailWalk(fs, b, b.ino, 0, rel, MAX_LINK_HOPS, follow)
            case Found(i) => Kernel(fs, b.ino, rel, MAX_LINK_HOPS, follow) == Some(i)
            case Fails => Kernel(fs, b.ino, rel, MAX_LINK_HOPS, follow) == None
            case Leaves => b.jailed
    ensures JailWalk(fs, b, b.ino, 0, rel, MAX_LINK_HOPS, follow) == Leaves <==> LeavesTheJail(fs, b, rel, follow)
  {
    hide JailWalk, Kernel, Meets, Crosses, Trace;
    if b.jailed { LeavesIffMeets(fs, b, [], b.ino, rel, MAX_LINK_HOPS, follow); }
    MeetsOnTheWay(fs, b, At(b.ino, rel, MAX_LINK_HOPS), follow);
    AtTheBase(fs, b);
    JailAgrees(fs, b, b.ino, 0, rel, MAX_LINK_HOPS, follow);
    NothingEmpty(rel);
    assert rel != [] ==> rel[|rel| - 1] in rel;
  }

  /** "", "." and a trailing separator. */
  lemma PassDot(fs: FS, b: Base, done: Path, cur: Ino, rest: Path, hops: nat, blocked: bool, follow: bool, goal: Walked)
    requires rest != [] && (rest[0] == "." || rest[0] == DIR_MARK || rest[0] == "")
    requires Walking(fs, b, done, cur, rest, hops, blocked, follow, goal)
    ensures blocked ==> goal == Fails
    ensures rest[0] == "." && !Traversable(fs, b.ino, done) ==> goal == Fails
    ensures rest[0] == "" || (!blocked && (rest[0] == "." ==> Traversable(fs, b.ino, done))) ==>
              Walking(fs, b, done, cur, rest[1..], hops, blocked, follow, goal)
  {
    hide JailWalk, Lookup, NonEmpty, OnTrack, Traversable;
    NextToken(rest);
    assert rest == [rest[0]] + rest[1..];
    assert rest[0] in rest && forall t | t in rest[1..] :: t in rest;
    if !blocked {
      DotStep(fs, b, done, cur, rest[0], rest[1..], hops, follow, goal);
    }
  }

  lemma PassDotDot(fs: FS, b: Base, done: Path, cur: Ino, rest: Path, hops: nat, blocked: bool, follow: bool, goal: Walked)
    requires Wf(fs) && BaseOk(fs, b) && rest != [] && rest[0] == ".."
    requires Walking(fs, b, done, cur, rest, hops, blocked, follow, goal)
    ensures blocked || !Traversable(fs, b.ino, done) ==> goal == Fails
    ensures !blocked ==> cur in fs.objs && fs.objs[cur].Dir?
    ensures !blocked && done == [] ==>
              if b.jailed then goal == Leaves else Walking(fs, b, done, cur, rest[1..], hops, blocked, follow, goal)
    ensures !blocked && done != [] && Traversable(fs, b.ino, done) ==>
              Walking(fs, b, done[..|done| - 1], fs.objs[cur].parent, rest[1..], hops, blocked, follow, goal)
  {
    hide JailWalk, NonEmpty, OnTrack;
    NextToken(rest);
    assert rest == [".."] + rest[1..];
    assert rest[0] in rest && forall t | t in rest[1..] :: t in rest;
    if !blocked {
      DotDotStep(fs, b, done, cur, rest[1..], hops, follow, goal);
      if done != [] {
        assert forall name | name in done[..|done| - 1] :: name in done;
      }
    }
  }

  /** A name that is kept as written. */
  lemma PassName(fs: FS, b: Base, done: Path, cur: Ino, rest: Path, hops: nat, blocked: bool, follow: bool, goal: Walked)
    requires Wf(fs) && rest != [] && Plain(rest[0])
    requires Walking(fs, b, done, cur, rest, hops, blocked, follow, goal)
    ensures var found := Lookup(fs, b.ino, done + [rest[0]]);
            (rest[1..] == [] && !follow) || found.None? || found.value !in fs.objs || !fs.objs[found.value].Link? ==>
              Walking(fs, b, done + [rest[0]], if found.Some? then found.value else cur, rest[1..], hops,
                      blocked || (rest[1..] != [] && (found.None? || !IsDir(fs, found.value))), follow, goal)
  {
    hide JailWalk, Lookup, NonEmpty, OnTrack, Lost;
    NextToken(rest);
    assert rest == [rest[0]] + rest[1..];
    assert forall t | t in rest[1..] :: t in rest;
    var found := Lookup(fs, b.ino, done + [rest[0]]);
    if blocked {
      LostStep(fs, b, done, rest[0], rest[1..], goal);
    } else if (rest[1..] == [] && !follow) || found.None? || found.value !in fs.objs || !fs.objs[found.value].Link? {
      NameStep(fs, b, done, cur, rest[0], rest[1..], hops, follow, goal);
    }
  }

  /** A link replaced by what its target says. */
  lemma PassLink(fs: FS, b: Base, done: Path, cur: Ino, rest: Path, hops: nat, blocked: bool, follow: bool, goal: Walked, target: string)
    requires Wf(fs) && BaseOk(fs, b) && rest != [] && Plain(rest[0]) && (rest[1..] != [] || follow)
    requires Walking(fs, b, done, cur, rest, hops, blocked, follow, goal)
    requires var found := Lookup(fs, b.ino, done + [rest[0]]);
             found.Some? && found.value in fs.objs && fs.objs[found.value] == Link(target)
    ensures hops == MAX_LINK_HOPS || LinkPartsSpec(b, target).EmptyTarget? ==> goal == Fails
    ensures LinkPartsSpec(b, target).Escapes? && hops < MAX_LINK_HOPS ==> goal == Leaves
    ensures hops < MAX_LINK_HOPS ==>
              match LinkPartsSpec(b, target)
              case Relative(parts) => Walking(fs, b, done, cur, parts + rest[1..], hops + 1, blocked, follow, goal)
              case FromBase(parts) => Walking(fs, b, [], b.ino, parts + rest[1..], hops + 1, blocked, follow, goal)
              case _ => true
  {
    hide JailWalk, NonEmpty, Components, Located, Below, Head, SplitLink;
    NextToken(rest);
    assert rest == [rest[0]] + rest[1..];
    if blocked {
      LostStep(fs, b, done, rest[0], rest[1..], goal);
      assert false;
    }
    SearchedFromTheBase(fs, b.ino, done + [rest[0]]);
    LinkStep(fs, b, done, cur, rest[0], rest[1..], hops, follow, goal);
    match LinkPartsSpec(b, target) {
      case Relative(parts) =>
        SplitLinkIsComponents(target);
        TokensAppend(parts, rest[1..]);
      case FromBase(parts) =>
        PartsAreTokens(b, target);
        TokensAppend(parts, rest[1..]);
      case _ =>
    }
  }

  lemma SearchedFromTheBase(fs: FS, base: Ino, path: Path)
    requires path != [] && Lookup(fs, base, path).Some?
    ensures Searchable(fs, base)
  {
  }

  lemma WhatIsAToken(fs: FS, b: Base, done: Path, cur: Ino, rest: Path, hops: nat, blocked: bool, follow: bool, goal: Walked)
    requires rest != [] && Walking(fs, b, done, cur, rest, hops, blocked, follow, goal)
    ensures rest[0] in {"", ".", "..", DIR_MARK} || Plain(rest[0])
  {
    assert rest[0] in rest;
  }

  /** Nothing is left to look up. */
  lemma Arrived(fs: FS, b: Base, done: Path, cur: Ino, hops: nat, blocked: bool, follow: bool, goal: Walked)
    requires Walking(fs, b, done, cur, [], hops, blocked, follow, goal)
    ensures goal == (if Lookup(fs, b.ino, done).Some? then Found(Lookup(fs, b.ino, done).value) else Fails)
    ensures forall name | name in done :: Plain(name)
  {
  }

  /** One step over a component that is not a name. */
  method PassMark(fs: FS, b: Base, done: Path, ghost cur: Ino, rest: Path, hops: nat, blocked: bool, follow: bool, ghost goal: Walked)
    returns (stop: Option<Resolution>, done': Path, ghost cur': Ino)
    requires Wf(fs) && BaseOk(fs, b) && rest != [] && rest[0] in {"", ".", "..", DIR_MARK}
    requires Walking(fs, b, done, cur, rest, hops, blocked, follow, goal)
    ensures stop.None? ==> Walking(fs, b, done', cur', rest[1..], hops, blocked, follow, goal)
    ensures stop == Some(Failed) ==> goal == Fails
    ensures stop == Some(OutsideRoot) ==> goal == Leaves
    ensures stop.Some? ==> !stop.value.Resolved?
  {
    hide *;
    done', cur', stop := done, cur, None;
    if rest[0] == ".." {
      PassDotDot(fs, b, done, cur, rest, hops, blocked, follow, goal);
      if blocked {
        return Some(Failed), done, cur;
      }
      if done == [] {
        stop := if b.jailed then Some(OutsideRoot) else None;
        return;
      }
      if !Traversable(fs, b.ino, done) {
        return Some(Failed), done, cur;
      }
      done', cur' := done[..|done| - 1], fs.objs[cur].parent;
      return;
    }
    PassDot(fs, b, done, cur, rest, hops, blocked, follow, goal);
    if rest[0] != "" && (blocked || (rest[0] == "." && !Traversable(fs, b.ino, done))) {
      stop := Some(Failed);
    }
  }

  /** One request.  Whenever a path comes back, using it finds exactly what the kernel's
      own resolution of the request finds, or fails where that fails; whenever the
      resolver fails, the kernel fails; and a request is refused for leaving a jail
      exactly when a step of the kernel's own resolution does. */
  method Resolve(fs: FS, b: Base, rel: Path, follow: bool) returns (r: Resolution)
    requires Wf(fs) && BaseOk(fs, b) && forall name | name in rel :: Plain(name)
    ensures r.Resolved? ==> Lookup(fs, b.ino, r.path) == Kernel(fs, b.ino, rel, MAX_LINK_HOPS, follow)
    ensures r.Resolved? ==> forall name | name in r.path :: Plain(name)
    ensures r.Failed? ==> Kernel(fs, b.ino, rel, MAX_LINK_HOPS, follow) == None
    ensures r.OutsideRoot? <==> LeavesTheJail(fs, b, rel, follow)
  {
    hide *;
    ghost var goal := JailWalk(fs, b, b.ino, 0, rel, MAX_LINK_HOPS, follow);
    ghost var cur := b.ino;
    var done, rest, hops, blocked := [], rel, 0, false;
    Departing(fs, b, rel, follow);
    while rest != []
      invariant hops <= MAX_LINK_HOPS
      invariant Walking(fs, b, done, cur, rest, hops, blocked, follow, goal)
      decreases MAX_LINK_HOPS - hops, |rest|
    {
      WhatIsAToken(fs, b, done, cur, rest, hops, blocked, follow, goal);
      var part := rest[0];
      if part in {"", ".", "..", DIR_MARK} {
        var stop;
        stop, done, cur := PassMark(fs, b, done, cur, rest, hops, blocked, follow, goal);
        if stop.Some? {
          return stop.value;
        }
        rest := rest[1..];
        continue;
      }
      var found := Lookup(fs, b.ino, done + [part]);
      if (rest[1..] == [] && !follow) || found.None? || found.value !in fs.objs || !fs.objs[found.value].Link? {
        PassName(fs, b, done, cur, rest, hops, blocked, follow, goal);
        if rest[1..] != [] && (found.None? || !IsDir(fs, found.value)) {
          blocked := true;
        }
        cur := if found.Some? then found.value else cur;
        done, rest := done + [part], rest[1..];
        continue;
      }
      var target := fs.objs[found.value].target;
      PassLink(fs, b, done, cur, rest, hops, blocked, follow, goal, target);
      if hops + 1 > MAX_LINK_HOPS {
        return Failed;
      }
      hops := hops + 1;
      var parts := ReadLinkParts(b, target);
      match parts
      case EmptyTarget => return Failed;
      case Escapes => return OutsideRoot;
      case Relative(more) => rest := more + rest[1..];
      case FromBase(more) => done, cur, rest := [], b.ino, more + rest[1..];
    }
    Arrived(fs, b, done, cur, hops, blocked, follow, goal);
    r := Resolved(done);
  }

  // ----- what a jail keeps in -----

  /** Whatever a returned path names is the base, or an entry of a directory from which
      "..", once for each name, leads back to the base. */
  lemma {:induction false} FoundIsInside(fs: FS, base: Ino, path: Path)
    requires Wf(fs) && IsDir(fs, base) && Lookup(fs, base, path).Some? && path != []
    ensures var dir := Lookup(fs, base, path[..|path| - 1]);
            && dir.Some? && IsDir(fs, dir.value) && Ancestor(fs, dir.value, |path| - 1) == base
            && path[|path| - 1] in fs.objs[dir.value].entries
            && fs.objs[dir.value].entries[path[|path| - 1]] == Lookup(fs, base, path).value
    decreases |path|
  {
    var up := path[..|path| - 1];
    assert path == up + [path[|path| - 1]];
    LookupChild(fs, base, up, path[|path| - 1]);
    if up != [] {
      FoundIsInside(fs, base, up);
    }
  }
}
