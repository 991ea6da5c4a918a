/** Member names of one archive: the allocator of root prefixes, the names built under
    them, and the bounds on how many there may be. */
module ArchiveNames {
  import opened Basics
  import opened KeepBoth

  const MAX_ARCHIVE_MEMBERS: nat := 200_000
  const MAX_ARCHIVE_METADATA: nat := 64 * 1024 * 1024
  const ARCHIVE_HEADER_OVERHEAD: nat := 256
  const ARCHIVE_NOTES_NAME := "ERROR.txt"

  function ArchiveItem(seqNo: nat): string {
    "archive-item-" + Itoa(seqNo)
  }

  /** The allocator's last resort for one value of its counter. */
  function Fallback(base: string, isDir: bool, seqNo: nat): string {
    var cand := KeepBothWithin(base, isDir, seqNo + MAX_KEEP_BOTH_TRIES + 1);
    if cand.Some? then cand.value else ArchiveItem(seqNo)
  }

  function WantedBase(base: string): string {
    if base in {"", "/", ".", ".."} then "archive" else base
  }

  lemma NotAnItem(base: string, isDir: bool, n: nat, seqNo: nat)
    requires KeepBothWithin(base, isDir, n).Some?
    ensures KeepBothWithin(base, isDir, n).value != ArchiveItem(seqNo)
  {
    var short := KeepBothShape(base, isDir, n);
    assert '(' in Suffix(n) by { assert Suffix(n)[1] == '('; }
    assert '(' in KeepBothWithin(base, isDir, n).value;
    var d := Itoa(seqNo);
    assert '(' !in d;
    assert '(' !in "archive-item-";
  }

  lemma ArchiveItemInjective(n: nat, m: nat)
    requires ArchiveItem(n) == ArchiveItem(m)
    ensures n == m
  {
    assert ArchiveItem(n)[|"archive-item-"|..] == Itoa(n);
    assert ArchiveItem(m)[|"archive-item-"|..] == Itoa(m);
    ItoaInjective(n, m);
  }

  /** Distinct counters give distinct last resorts, so the search cannot circle. */
  lemma FallbackInjective(base: string, isDir: bool, n: nat, m: nat)
    requires Fallback(base, isDir, n) == Fallback(base, isDir, m)
    ensures n == m
  {
    hide *;
    FallbackIs(base, isDir, n);
    FallbackIs(base, isDir, m);
    var a, b := n + MAX_KEEP_BOTH_TRIES + 1, m + MAX_KEEP_BOTH_TRIES + 1;
    if KeepBothWithin(base, isDir, a).None? && KeepBothWithin(base, isDir, b).None? {
      ArchiveItemInjective(n, m);
    } else if KeepBothWithin(base, isDir, a).None? {
      NotAnItem(base, isDir, b, n);
    } else if KeepBothWithin(base, isDir, b).None? {
      NotAnItem(base, isDir, a, m);
    } else {
      KeepBothInjective(base, isDir, a, b);
    }
  }

  lemma FallbackIs(base: string, isDir: bool, n: nat)
    ensures var a := KeepBothWithin(base, isDir, n + MAX_KEEP_BOTH_TRIES + 1);
            Fallback(base, isDir, n) == if a.Some? then a.value else ArchiveItem(n)
  {
  }

  predicate TakenName(used: set<string>, base: string, isDir: bool, n: nat) {
    KeepBothWithin(base, isDir, n).Some? && KeepBothWithin(base, isDir, n).value in used
  }

  ghost predicate NoneFirst(used: set<string>, base: string, isDir: bool) {
    forall n: nat, free :: n < 2 + MAX_KEEP_BOTH_TRIES ==> !FirstFree(used, base, isDir, n, free)
  }

  /** The name after a wanted one that was taken: the first free numbered one, or else the
      first free one of the counter. */
  ghost predicate IsNext(used: set<string>, base: string, isDir: bool, counted: nat, seqNo: nat, name: string) {
    || (exists n: nat :: n < 2 + MAX_KEEP_BOTH_TRIES && FirstFree(used, base, isDir, n, name))
    || (NoneFirst(used, base, isDir) && counted < seqNo && name == Fallback(base, isDir, seqNo)
        && forall k :: counted < k < seqNo ==> Fallback(base, isDir, k) in used)
  }

  /** base (n) is free, and all from base (2) on are taken. */
  ghost predicate FirstFree(used: set<string>, base: string, isDir: bool, n: nat, free: string) {
    n >= 2 && KeepBothWithin(base, isDir, n) == Some(free) && free !in used && forall j :: 2 <= j < n ==> TakenName(used, base, isDir, j)
  }

  /** The first counter that leaves no room for a name ends the search. */
  lemma NoneFree(used: set<string>, base: string, isDir: bool, n: nat)
    requires n >= 2 && KeepBothWithin(base, isDir, n).None? && forall j :: 2 <= j < n ==> TakenName(used, base, isDir, j)
    ensures forall k, free :: !FirstFree(used, base, isDir, k, free)
  {
    hide KeepBothWithin;
    forall k: nat, free ensures !FirstFree(used, base, isDir, k, free) {
      assert !TakenName(used, base, isDir, n);
      assert 2 <= k < n ==> TakenName(used, base, isDir, k);
    }
  }

  ghost function Tried(f: nat -> string, first: nat, last: nat): set<string> {
    set s: nat | first < s <= last :: f(s)
  }

  ghost predicate Injective(f: nat -> string) {
    forall n, m :: f(n) == f(m) ==> n == m
  }

  /** How many taken names the search has not run into yet. */
  ghost function Untried(f: nat -> string, first: nat, last: nat, used: set<string>): nat {
    |used - Tried(f, first, last)|
  }

  /** A candidate that is taken leaves one fewer taken name untried. */
  lemma TriedOneMore(f: nat -> string, first: nat, last: nat, used: set<string>)
    requires first <= last && Injective(f) && f(last + 1) in used
    ensures Untried(f, first, last + 1, used) < Untried(f, first, last, used)
  {
    var tried, name := Tried(f, first, last), f(last + 1);
    assert Tried(f, first, last + 1) == tried + {name};
    assert name !in tried;
    assert used - (tried + {name}) == (used - tried) - {name};
    assert name in used - tried;
  }

  lemma CandidatesInjective(base: string, isDir: bool)
    ensures Injective(Candidates(base, isDir))
  {
    var f := Candidates(base, isDir);
    forall n, m | f(n) == f(m) ensures n == m {
      FallbackInjective(base, isDir, n, m);
    }
  }

  function Candidates(base: string, isDir: bool): nat -> string {
    (s: nat) => Fallback(base, isDir, s)
  }

  lemma CandidatesShape(base: string, isDir: bool)
    requires NoSlash(base)
    ensures forall s: nat :: NoSlash(Candidates(base, isDir)(s))
  {
    forall s: nat ensures NoSlash(Fallback(base, isDir, s)) {
      FallbackShape(base, isDir, s);
    }
  }

  predicate NoSlash(s: string) {
    '/' !in s
  }

  lemma KeepBothNoSlash(base: string, isDir: bool, n: nat)
    requires NoSlash(base) && KeepBothWithin(base, isDir, n).Some?
    ensures NoSlash(KeepBothWithin(base, isDir, n).value)
  {
    var short := KeepBothShape(base, isDir, n);
    var (stem, ext) := SplitKeepBoth(base, isDir);
    forall c | c in KeepBothWithin(base, isDir, n).value ensures c != '/' {
      assert c in short || c in Suffix(n) || c in ext;
      assert c in ext ==> c in stem + ext;
      assert c in short ==> c in stem;
      assert c in stem ==> c in stem + ext;
    }
  }

  /** Every generated name is one path component the kernel takes, the counter being a
      64-bit integer. */
  lemma FallbackShape(base: string, isDir: bool, seqNo: nat)
    requires NoSlash(base)
    ensures NoSlash(Fallback(base, isDir, seqNo))
    ensures seqNo < 0x8000_0000_0000_0000 ==> 0 < |Fallback(base, isDir, seqNo)| <= MAX_NAME_BYTES
  {
    var n := seqNo + MAX_KEEP_BOTH_TRIES + 1;
    if KeepBothWithin(base, isDir, n).Some? {
      KeepBothNoSlash(base, isDir, n);
      var _ := KeepBothShape(base, isDir, n);
    } else {
      assert '/' !in Itoa(seqNo) && '/' !in "archive-item-";
      if seqNo < 0x8000_0000_0000_0000 { CounterLength(seqNo); }
    }
  }

  /** The path of one item relative to its root's parent. */
  function MemberName(prefix: string, rootApi: string, path: string): string
    requires UnderRoot(rootApi, path)
  {
    if path == rootApi then prefix
    else if rootApi == "/" then prefix + "/" + path[1..]
    else prefix + path[|rootApi|..]
  }

  /** path is the root itself or below it, as the walk joins names. */
  predicate UnderRoot(rootApi: string, path: string) {
    || path == rootApi
    || (rootApi == "/" && |path| > 1 && path[0] == '/')
    || (|path| > |rootApi| + 1 && path[..|rootApi|] == rootApi && path[|rootApi|] == '/')
  }

  function FirstPart(s: string): string {
    if s == "" || s[0] == '/' then "" else [s[0]] + FirstPart(s[1..])
  }

  lemma {:induction false} FirstPartOf(prefix: string, rest: string)
    requires NoSlash(prefix) && (rest == "" || rest[0] == '/')
    ensures FirstPart(prefix + rest) == prefix
    decreases prefix
  {
    if prefix == "" {
      assert prefix + rest == rest;
    } else {
      assert (prefix + rest)[0] == prefix[0] && (prefix + rest)[1..] == prefix[1..] + rest;
      assert prefix[0] in prefix;
      forall c | c in prefix[1..] ensures c in prefix {}
      FirstPartOf(prefix[1..], rest);
    }
  }

  lemma MemberFirstPart(prefix: string, rootApi: string, path: string)
    requires NoSlash(prefix) && UnderRoot(rootApi, path)
    ensures FirstPart(MemberName(prefix, rootApi, path)) == prefix
  {
    var name := MemberName(prefix, rootApi, path);
    assert name == prefix + name[|prefix|..];
    FirstPartOf(prefix, name[|prefix|..]);
  }

  lemma MemberNameInjective(prefix: string, rootApi: string, p: string, q: string)
    requires UnderRoot(rootApi, p) && UnderRoot(rootApi, q) && rootApi != ""
    requires MemberName(prefix, rootApi, p) == MemberName(prefix, rootApi, q)
    ensures p == q
  {
    var a, b := MemberName(prefix, rootApi, p)[|prefix|..], MemberName(prefix, rootApi, q)[|prefix|..];
    assert a == b;
    if rootApi == "/" {
      assert p != rootApi ==> a == "/" + p[1..] && p == "/" + p[1..];
      assert q != rootApi ==> b == "/" + q[1..] && q == "/" + q[1..];
    } else {
      assert p == rootApi + a;
      assert q == rootApi + b;
    }
  }

  /** The members of a root, one for each path. */
  function Members(prefix: string, rootApi: string, paths: seq<string>): (names: seq<string>)
    requires forall p | p in paths :: UnderRoot(rootApi, p)
    ensures |names| == |paths|
  {
    seq(|paths|, i requires 0 <= i < |paths| => MemberName(prefix, rootApi, paths[i]))
  }

  lemma OneMoreMember(prefix: string, rootApi: string, paths: seq<string>, n: nat)
    requires n < |paths| && forall p | p in paths :: UnderRoot(rootApi, p)
    ensures Members(prefix, rootApi, paths[..n + 1]) == Members(prefix, rootApi, paths[..n]) + [MemberName(prefix, rootApi, paths[n])]
  {
  }

  /** A member of this name does not fit. */
  predicate NoRoom(members: nat, metaBytes: nat, name: string) {
    members >= MAX_ARCHIVE_MEMBERS || metaBytes + |name| + ARCHIVE_HEADER_OVERHEAD > MAX_ARCHIVE_METADATA
  }

  /** Every name starts with a prefix that was given out. */
  ghost predicate Prefixed(names: seq<string>, used: set<string>) {
    forall name | name in names :: FirstPart(name) in used
  }

  ghost predicate Distinct(names: seq<string>) {
    forall i, j :: 0 <= i < j < |names| ==> names[i] != names[j]
  }

  /** A name under a prefix nobody had is unlike every name before it. */
  lemma NewPrefixIsDistinct(names: seq<string>, used: set<string>, prefix: string)
    requires Prefixed(names, used) && Distinct(names) && prefix !in used && NoSlash(prefix)
    ensures Prefixed(names + [prefix], used + {prefix}) && Distinct(names + [prefix])
  {
    FirstPartOf(prefix, "");
    assert prefix + "" == prefix;
    forall name | name in names ensures name != prefix {
      assert FirstPart(name) in used;
    }
  }

  class Archiver {
    /** prefixes already given out */
    var used: set<string>
    var seqNo: nat
    var members: nat
    var metaBytes: nat
    /** room ran out: the archive ends without its trailer */
    var full: bool
    /** every member name written, in order */
    var written: seq<string>

    ghost predicate Valid()
      reads this
    {
      && members <= MAX_ARCHIVE_MEMBERS && metaBytes <= MAX_ARCHIVE_METADATA
      && Prefixed(written, used) && Distinct(written)
    }

    constructor ()
      ensures Valid() && used == {} && written == []
    {
      used, seqNo, members, metaBytes, full, written := {}, 0, 0, 0, false, [];
    }

    /** A prefix nobody has been given: the wanted one if it is free. */
    method Reserve(base: string, isDir: bool) returns (name: string)
      requires Valid() && (NoSlash(base) || base == "/")
      modifies this`used, this`seqNo
      ensures Valid()
      ensures name !in old(used) && used == old(used) + {name}
      ensures NoSlash(name)
      ensures WantedBase(base) !in old(used) ==> name == WantedBase(base)
      ensures WantedBase(base) in old(used) ==> IsNext(old(used), WantedBase(base), isDir, old(seqNo), seqNo, name)
    {
      hide FirstFree, Fallback, KeepBothWithin;
      var b := WantedBase(base);
      if b !in used {
        used := used + {b};
        return b;
      }
      var free := TryCandidates(b, isDir);
      if free.Some? {
        used := used + {free.value};
        return free.value;
      }
      CandidatesInjective(b, isDir);
      CandidatesShape(b, isDir);
      name := LastResort(Candidates(b, isDir));
      forall k | old(seqNo) < k < seqNo ensures Fallback(b, isDir, k) in old(used) {
        assert Candidates(b, isDir)(k) == Fallback(b, isDir, k);
      }
    }

    /** The first of base (2), base (3) ... that is free. */
    method TryCandidates(b: string, isDir: bool) returns (r: Option<string>)
      requires NoSlash(b)
      ensures if r.None? then NoneFirst(used, b, isDir)
              else r.value !in used && NoSlash(r.value) && exists n: nat :: n < 2 + MAX_KEEP_BOTH_TRIES && FirstFree(used, b, isDir, n, r.value)
    {
      hide KeepBothWithin;
      for n := 2 to 2 + MAX_KEEP_BOTH_TRIES
        invariant forall j :: 2 <= j < n ==> TakenName(used, b, isDir, j)
      {
        var cand := KeepBothWithin(b, isDir, n);
        if cand.None? {
          NoneFree(used, b, isDir, n);
          return None;
        }
        if cand.value !in used {
          KeepBothNoSlash(b, isDir, n);
          assert FirstFree(used, b, isDir, n, cand.value);
          return cand;
        }
      }
      forall n: nat, free | n < 2 + MAX_KEEP_BOTH_TRIES ensures !FirstFree(used, b, isDir, n, free) {
        assert n >= 2 ==> TakenName(used, b, isDir, n);
      }
      r := None;
    }

    /** The counted candidates.  The loop ends because they are distinct and only
        finitely many names are taken. */
    method LastResort(candidate: nat -> string) returns (name: string)
      requires Injective(candidate)
      modifies this`used, this`seqNo
      ensures name !in old(used) && used == old(used) + {name}
      ensures old(seqNo) < seqNo && name == candidate(seqNo)
      ensures forall k :: old(seqNo) < k < seqNo ==> candidate(k) in old(used)
    {
      hide Injective, Untried, Tried;
      ghost var first := seqNo;
      while true
        invariant used == old(used) && first <= seqNo
        invariant forall k :: first < k <= seqNo ==> candidate(k) in used
        decreases Untried(candidate, first, seqNo, used)
      {
        seqNo := seqNo + 1;
        name := candidate(seqNo);
        if name !in used {
          used := used + {name};
          return;
        }
        TriedOneMore(candidate, first, seqNo - 1, used);
      }
    }

    /** One member against both bounds. */
    method Room(name: string) returns (ok: bool)
      requires Valid()
      modifies this`members, this`metaBytes, this`full
      ensures Valid()
      ensures ok <==> !NoRoom(old(members), old(metaBytes), name)
      ensures ok ==> members == old(members) + 1 && metaBytes == old(metaBytes) + |name| + ARCHIVE_HEADER_OVERHEAD
                     && full == old(full)
      ensures !ok ==> members == old(members) && metaBytes == old(metaBytes) && full
    {
      if members >= MAX_ARCHIVE_MEMBERS || metaBytes + |name| + ARCHIVE_HEADER_OVERHEAD > MAX_ARCHIVE_METADATA {
        full := true;
        return false;
      }
      members, metaBytes := members + 1, metaBytes + |name| + ARCHIVE_HEADER_OVERHEAD;
      ok := true;
    }

    /** One selected root: its prefix, and a member for each path the walk reached, in
        order, up to the first that does not fit. */
    method Root(base: string, isDir: bool, rootApi: string, paths: seq<string>) returns (ghost prefix: string, ghost done: nat)
      requires Valid() && (NoSlash(base) || base == "/") && rootApi != ""
      requires forall p | p in paths :: UnderRoot(rootApi, p)
      requires forall i, j :: 0 <= i < j < |paths| ==> paths[i] != paths[j]
      modifies this
      ensures Valid()
      ensures prefix !in old(used) && used == old(used) + {prefix} && (WantedBase(base) !in old(used) ==> prefix == WantedBase(base))
      ensures done <= |paths| && written == old(written) + Members(prefix, rootApi, paths[..done])
      ensures done < |paths| ==> full && (old(full) || NoRoom(members, metaBytes, MemberName(prefix, rootApi, paths[done])))
      ensures done == |paths| ==> full == old(full)
    {
      hide MemberName, IsNext;
      var name := Reserve(base, isDir);
      prefix, done := name, 0;
      assert forall old' | old' in written :: FirstPart(old') != prefix;
      ghost var before := written;
      for i := 0 to |paths|
        invariant Valid() && prefix in used && used == old(used) + {prefix} && full == old(full) && done == i
        invariant written == before + Members(prefix, rootApi, paths[..i])
      {
        if full {
          return;
        }
        var member := MemberName(name, rootApi, paths[i]);
        var ok := Room(member);
        if !ok {
          return;
        }
        MemberFirstPart(prefix, rootApi, paths[i]);
        NewInTheRoot(before, prefix, rootApi, paths, i);
        OneMoreMember(prefix, rootApi, paths, i);
        written, done := written + [member], i + 1;
      }
      assert paths[..|paths|] == paths;
    }

    /** The notes go last, under a name of their own, outside both bounds. */
    method Notes()
      requires Valid()
      modifies this
      ensures Valid()
      ensures |written| == |old(written)| + 1 && old(written) <= written
      ensures ARCHIVE_NOTES_NAME !in old(used) ==> written == old(written) + [ARCHIVE_NOTES_NAME]
    {
      var name := Reserve(ARCHIVE_NOTES_NAME, false);
      NewPrefixIsDistinct(written, old(used), name);
      written := written + [name];
    }
  }

  /** A path not reached before has a name not given before. */
  lemma NewInTheRoot(before: seq<string>, prefix: string, rootApi: string, paths: seq<string>, n: nat)
    requires n < |paths| && rootApi != "" && forall p | p in paths :: UnderRoot(rootApi, p)
    requires forall i, j :: 0 <= i < j < |paths| ==> paths[i] != paths[j]
    requires NoSlash(prefix) && forall name | name in before :: FirstPart(name) != prefix
    ensures MemberName(prefix, rootApi, paths[n]) !in before + Members(prefix, rootApi, paths[..n])
  {
    hide MemberName, FirstPart;
    MemberFirstPart(prefix, rootApi, paths[n]);
    forall j | 0 <= j < n ensures MemberName(prefix, rootApi, paths[j]) != MemberName(prefix, rootApi, paths[n]) {
      if MemberName(prefix, rootApi, paths[j]) == MemberName(prefix, rootApi, paths[n]) {
        MemberNameInjective(prefix, rootApi, paths[j], paths[n]);
      }
    }
  }
}
