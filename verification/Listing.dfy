/** The order of a listing: names compared on folded keys, entries sorted under any key
    and direction, and a page cut out of the result. */
module Listing {
  import opened Basics

  type Name = Bytes

  const RUNE_SELF: int := 0x80
  const INVALID_BASE: int := 0x11_0000
  const DEFAULT_LIST_LIMIT: int := 5000
  const MAX_LIST_LIMIT: int := 50000

  // ----- the key of one rune -----

  predicate Cont(s: Name, i: nat, lo: int, hi: int) {
    i < |s| && lo <= s[i] <= hi
  }

  /** The UTF-8 sequence at s[i] (section 4 of RFC 3629): its rune and length, and length 0
      where the bytes are none. */
  function Rune(s: Name, i: nat): (r: (int, nat))
    requires i < |s|
    ensures i + r.1 <= |s| && r.1 <= 4
  {
    var c := s[i] as int;
    if c < 0x80 then (c, 1)
    else if 0xC2 <= c <= 0xDF && Cont(s, i + 1, 0x80, 0xBF) then ((c - 0xC0) * 0x40 + (s[i + 1] as int - 0x80), 2)
    else if 0xE0 <= c <= 0xEF && Cont(s, i + 1, if c == 0xE0 then 0xA0 else 0x80, if c == 0xED then 0x9F else 0xBF)
            && Cont(s, i + 2, 0x80, 0xBF)
    then ((c - 0xE0) * 0x1000 + (s[i + 1] as int - 0x80) * 0x40 + (s[i + 2] as int - 0x80), 3)
    else if 0xF0 <= c <= 0xF4 && Cont(s, i + 1, if c == 0xF0 then 0x90 else 0x80, if c == 0xF4 then 0x8F else 0xBF)
            && Cont(s, i + 2, 0x80, 0xBF) && Cont(s, i + 3, 0x80, 0xBF)
    then ((c - 0xF0) * 0x4_0000 + (s[i + 1] as int - 0x80) * 0x1000 + (s[i + 2] as int - 0x80) * 0x40 + (s[i + 3] as int - 0x80), 4)
    else (0, 0)
  }

  /** A code point that is no surrogate. */
  predicate Scalar(c: int) {
    0 <= c < 0xD800 || 0xE000 <= c < INVALID_BASE
  }

  /** Its UTF-8 sequence (section 3 of RFC 3629). */
  function Utf8(c: int): (b: Name)
    requires Scalar(c)
    ensures 0 < |b| <= 4
  {
    if c < 0x80 then [c]
    else if c < 0x800 then [0xC0 + c / 0x40, 0x80 + c % 0x40]
    else if c < 0x1_0000 then [0xE0 + c / 0x1000, 0x80 + c / 0x40 % 0x40, 0x80 + c % 0x40]
    else [0xF0 + c / 0x4_0000, 0x80 + c / 0x1000 % 0x40, 0x80 + c / 0x40 % 0x40, 0x80 + c % 0x40]
  }

  /** This sequence is at i. */
  predicate StartsAt(s: Name, i: nat, u: Name) {
    i + |u| <= |s| && s[i..i + |u|] == u
  }

  lemma Parts(c: nat)
    ensures c == c / 0x40 * 0x40 + c % 0x40
    ensures c / 0x40 == c / 0x1000 * 0x40 + c / 0x40 % 0x40
    ensures c / 0x1000 == c / 0x4_0000 * 0x40 + c / 0x1000 % 0x40
  {
    assert c / 0x40 / 0x40 == c / 0x1000;
    assert c / 0x1000 / 0x40 == c / 0x4_0000;
  }

  /** Six bits at a time. */
  lemma SixBits(a: nat, b: nat, d: nat, e: nat)
    requires b < 0x40 && d < 0x40 && e < 0x40
    ensures var c := a * 0x4_0000 + b * 0x1000 + d * 0x40 + e;
            c / 0x4_0000 == a && c / 0x1000 % 0x40 == b && c / 0x40 % 0x40 == d && c % 0x40 == e
  {
    var c := a * 0x4_0000 + b * 0x1000 + d * 0x40 + e;
    assert c / 0x40 == a * 0x1000 + b * 0x40 + d;
    assert c / 0x1000 == a * 0x40 + b;
  }

  /** Exactly the sequences of code points decode, and to them. */
  lemma RuneIsUtf8(s: Name, i: nat)
    requires i < |s| && Rune(s, i).1 > 0
    ensures Scalar(Rune(s, i).0) && StartsAt(s, i, Utf8(Rune(s, i).0)) && |Utf8(Rune(s, i).0)| == Rune(s, i).1
  {
    hide Utf8;
    var (c, w) := Rune(s, i);
    var x := s[i] as int;
    if w == 1 {
      Utf8Of(c, 0, 0, 0, c);
    } else if w == 2 {
      Utf8Of(c, 0, 0, x - 0xC0, s[i + 1] as int - 0x80);
    } else if w == 3 {
      Utf8Of(c, 0, x - 0xE0, s[i + 1] as int - 0x80, s[i + 2] as int - 0x80);
    } else {
      Utf8Of(c, x - 0xF0, s[i + 1] as int - 0x80, s[i + 2] as int - 0x80, s[i + 3] as int - 0x80);
    }
  }

  lemma Utf8Of(c: int, a: nat, b: nat, d: nat, e: nat)
    requires c == a * 0x4_0000 + b * 0x1000 + d * 0x40 + e && (e < 0x40 || (a == b == d == 0 && e < 0x80))
    requires b < 0x40 && d < 0x40 && Scalar(c)
    ensures c < 0x80 ==> Utf8(c) == [c]
    ensures 0x80 <= c < 0x800 ==> Utf8(c) == [0xC0 + d, 0x80 + e]
    ensures 0x800 <= c < 0x1_0000 ==> Utf8(c) == [0xE0 + b, 0x80 + d, 0x80 + e]
    ensures c >= 0x1_0000 ==> Utf8(c) == [0xF0 + a, 0x80 + b, 0x80 + d, 0x80 + e]
  {
    if c >= 0x80 { SixBits(a, b, d, e); }
    assert 0x80 <= c < 0x800 ==> c / 0x40 == d;
    assert 0x80 <= c < 0x1_0000 ==> c / 0x1000 == b;
  }

  lemma Utf8IsRune(s: Name, i: nat, c: int)
    requires Scalar(c) && StartsAt(s, i, Utf8(c))
    ensures i < |s| && Rune(s, i) == (c, |Utf8(c)|)
  {
    Parts(c);
    var u := Utf8(c);
    var at := s[i..i + |u|];
    assert s[i] == at[0];
    assert |u| > 1 ==> s[i + 1] == at[1];
    assert |u| > 2 ==> s[i + 2] == at[2];
    assert |u| > 3 ==> s[i + 3] == at[3];
  }

  /** lower is unicode.ToLower. */
  function NameKey(s: Name, i: nat, lower: int -> int): (r: (int, nat))
    requires i < |s|
    ensures 0 < r.1 && i + r.1 <= |s|
  {
    var c := s[i] as int;
    if c < RUNE_SELF then (if 65 <= c <= 90 then c + 32 else c, 1)
    else
      var (r, w) := Rune(s, i);
      if w == 0 then (INVALID_BASE + c, 1) else (lower(r), w)
  }

  /** The folded keys of a name from i on. */
  function Keys(s: Name, i: nat, lower: int -> int): seq<int>
    requires i <= |s|
    decreases |s| - i
  {
    if i == |s| then [] else [NameKey(s, i, lower).0] + Keys(s, i + NameKey(s, i, lower).1, lower)
  }

  /** A text's bytes. */
  function Encoded(text: seq<int>): Name
    requires forall c | c in text :: Scalar(c)
  {
    if text == [] then [] else Utf8(text[0]) + Encoded(text[1..])
  }

  /** Its folded code points. */
  function Folded(text: seq<int>, lower: int -> int): seq<int> {
    if text == [] then []
    else [Fold(text[0], lower)] + Folded(text[1..], lower)
  }

  /** A name that is text is compared as its folded code points. */
  lemma {:induction false} KeysOfText(before: Name, text: seq<int>, lower: int -> int)
    requires forall c | c in text :: Scalar(c)
    ensures Keys(before + Encoded(text), |before|, lower) == Folded(text, lower)
    decreases |text|
  {
    hide Rune, Utf8, Keys, NameKey, Scalar;
    var s := before + Encoded(text);
    if text != [] {
      var c, rest, u := text[0], text[1..], Utf8(text[0]);
      assert c in text && forall x | x in rest :: x in text;
      assert s == (before + u) + Encoded(rest);
      assert s[|before|..|before + u|] == u;
      KeyOfRune(s, |before|, c, lower);
      KeysOfText(before + u, rest, lower);
    } else {
      assert s == before;
    }
    KeysStep(s, |before|, lower);
  }

  lemma KeysStep(s: Name, i: nat, lower: int -> int)
    requires i <= |s|
    ensures Keys(s, i, lower) == if i == |s| then [] else [NameKey(s, i, lower).0] + Keys(s, i + NameKey(s, i, lower).1, lower)
  {
  }

  function Fold(c: int, lower: int -> int): int {
    if 65 <= c <= 90 then c + 32 else if c < RUNE_SELF then c else lower(c)
  }

  lemma KeyOfRune(s: Name, i: nat, c: int, lower: int -> int)
    requires Scalar(c) && StartsAt(s, i, Utf8(c))
    ensures i < |s| && NameKey(s, i, lower) == (Fold(c, lower), |Utf8(c)|)
  {
    hide Rune, Utf8;
    Utf8IsRune(s, i, c);
    FirstByte(c);
    assert s[i] == s[i..i + |Utf8(c)|][0];
  }

  lemma FirstByte(c: int)
    requires Scalar(c)
    ensures c < RUNE_SELF ==> Utf8(c) == [c]
    ensures c >= RUNE_SELF ==> Utf8(c)[0] as int >= RUNE_SELF
  {
  }

  // ----- dictionary order -----

  function Lex(a: seq<int>, b: seq<int>): int {
    if a == [] then (if b == [] then 0 else -1)
    else if b == [] then 1
    else if a[0] < b[0] then -1
    else if a[0] > b[0] then 1
    else Lex(a[1..], b[1..])
  }

  lemma {:induction false} LexOrder(a: seq<int>, b: seq<int>)
    ensures Lex(a, b) == 0 <==> a == b
    ensures Lex(a, b) == -Lex(b, a) && -1 <= Lex(a, b) <= 1
  {
    if a != [] && b != [] && a[0] == b[0] {
      LexOrder(a[1..], b[1..]);
      assert a == [a[0]] + a[1..] && b == [b[0]] + b[1..];
    }
  }

  lemma {:induction false} LexTrans(a: seq<int>, b: seq<int>, c: seq<int>)
    requires Lex(a, b) <= 0 && Lex(b, c) <= 0
    ensures Lex(a, c) <= 0 && (Lex(a, b) < 0 || Lex(b, c) < 0 ==> Lex(a, c) < 0)
  {
    if a != [] && b != [] && c != [] && a[0] == b[0] == c[0] {
      LexTrans(a[1..], b[1..], c[1..]);
    }
  }

  function Ints(s: Name): seq<int> {
    seq(|s|, i requires 0 <= i < |s| => s[i] as int)
  }

  lemma IntsInjective(a: Name, b: Name)
    ensures Ints(a) == Ints(b) ==> a == b
  {
    if Ints(a) == Ints(b) {
      assert |a| == |Ints(a)| == |Ints(b)| == |b|;
      forall i | 0 <= i < |a| ensures a[i] == b[i] {
        assert Ints(a)[i] == Ints(b)[i];
      }
    }
  }

  /** Folded keys first, and the bytes between names that fold alike. */
  function NameOrder(a: Name, b: Name, lower: int -> int): int {
    var k := Lex(Keys(a, 0, lower), Keys(b, 0, lower));
    if k != 0 then k else Lex(Ints(a), Ints(b))
  }

  method CompareNames(a: Name, b: Name, lower: int -> int) returns (r: int)
    ensures r == NameOrder(a, b, lower)
  {
    var i, j := 0, 0;
    while i < |a| && j < |b|
      invariant i <= |a| && j <= |b|
      invariant Lex(Keys(a, 0, lower), Keys(b, 0, lower)) == Lex(Keys(a, i, lower), Keys(b, j, lower))
      decreases |a| - i
    {
      var (ka, wa) := NameKey(a, i, lower);
      var (kb, wb) := NameKey(b, j, lower);
      assert Keys(a, i, lower)[1..] == Keys(a, i + wa, lower) && Keys(b, j, lower)[1..] == Keys(b, j + wb, lower);
      if ka != kb {
        return if ka < kb then -1 else 1;
      }
      i, j := i + wa, j + wb;
    }
    if i < |a| {
      return 1;
    }
    if j < |b| {
      return -1;
    }
    r := Lex(Ints(a), Ints(b));
  }

  /** The name order is total on arbitrary bytes, and only identical names tie. */
  lemma NameOrderIsTotal(a: Name, b: Name, lower: int -> int)
    ensures NameOrder(a, b, lower) == 0 <==> a == b
    ensures NameOrder(a, b, lower) == -NameOrder(b, a, lower)
  {
    hide Lex, Keys, Ints;
    LexOrder(Keys(a, 0, lower), Keys(b, 0, lower));
    LexOrder(Ints(a), Ints(b));
    IntsInjective(a, b);
  }

  lemma NameOrderTrans(a: Name, b: Name, c: Name, lower: int -> int)
    requires NameOrder(a, b, lower) < 0 && NameOrder(b, c, lower) < 0
    ensures NameOrder(a, c, lower) < 0
  {
    hide Lex, Keys, Ints;
    var ka, kb, kc := Keys(a, 0, lower), Keys(b, 0, lower), Keys(c, 0, lower);
    LexOrder(ka, kb);
    LexOrder(kb, kc);
    LexTrans(ka, kb, kc);
    LexOrder(ka, kc);
    if ka == kb && kb == kc {
      LexTrans(Ints(a), Ints(b), Ints(c));
    }
  }

  // ----- sorting -----

  datatype Kind = KindDir | KindSymlink | KindFile | KindFifo | KindSocket | KindDevice | KindOther

  datatype Entry = Entry(name: Name, kind: Kind, size: int, mtime: int)

  datatype SortKey = ByName | BySize | ByMTime | ByType

  datatype Options = Options(key: SortKey, dirsFirst: bool, desc: bool)

  function TypeRank(k: Kind): nat {
    match k
    case KindDir => 0
    case KindSymlink => 1
    case KindFile => 2
    case KindFifo => 3
    case KindSocket => 4
    case KindDevice => 5
    case KindOther => 6
  }

  /** What the chosen key says, before names are asked. */
  function KeyOf(e: Entry, key: SortKey): int {
    match key
    case ByName => 0
    case BySize => e.size
    case ByMTime => e.mtime
    case ByType => TypeRank(e.kind)
  }

  predicate Less(a: Entry, b: Entry, key: SortKey, lower: int -> int) {
    if KeyOf(a, key) != KeyOf(b, key) then KeyOf(a, key) < KeyOf(b, key) else NameOrder(a.name, b.name, lower) < 0
  }

  /** Directories first whatever the direction, then the key, then the name. */
  predicate Before(a: Entry, b: Entry, o: Options, lower: int -> int) {
    if o.dirsFirst && a.kind.KindDir? != b.kind.KindDir? then a.kind.KindDir?
    else if o.desc then Less(b, a, o.key, lower)
    else Less(a, b, o.key, lower)
  }

  lemma BeforeIsTotal(a: Entry, b: Entry, o: Options, lower: int -> int)
    requires a.name != b.name
    ensures Before(a, b, o, lower) != Before(b, a, o, lower)
  {
    hide NameOrder;
    NameOrderIsTotal(a.name, b.name, lower);
  }

  lemma BeforeTrans(a: Entry, b: Entry, c: Entry, o: Options, lower: int -> int)
    requires Before(a, b, o, lower) && Before(b, c, o, lower)
    ensures Before(a, c, o, lower)
  {
    hide NameOrder;
    if NameOrder(a.name, b.name, lower) < 0 && NameOrder(b.name, c.name, lower) < 0 {
      NameOrderTrans(a.name, b.name, c.name, lower);
    }
    if NameOrder(c.name, b.name, lower) < 0 && NameOrder(b.name, a.name, lower) < 0 {
      NameOrderTrans(c.name, b.name, a.name, lower);
    }
  }

  /** A name is unique within one directory. */
  ghost predicate UniqueNames(es: seq<Entry>) {
    forall i, j :: 0 <= i < j < |es| ==> es[i].name != es[j].name
  }

  ghost predicate Ordered(es: seq<Entry>, o: Options, lower: int -> int) {
    forall i, j :: 0 <= i < j < |es| ==> Before(es[i], es[j], o, lower)
  }

  /** Two entries as a sorted listing has them: no directory after anything else where
      directories come first, and among equals there the chosen field in the chosen
      direction, names deciding ties. */
  predicate InListingOrder(a: Entry, b: Entry, o: Options, lower: int -> int) {
    && (o.dirsFirst && b.kind.KindDir? ==> a.kind.KindDir?)
    && (!o.dirsFirst || a.kind.KindDir? == b.kind.KindDir? ==>
          var (x, y) := if o.desc then (b, a) else (a, b);
          match o.key
          case BySize => x.size < y.size || (x.size == y.size && NameOrder(x.name, y.name, lower) < 0)
          case ByMTime => x.mtime < y.mtime || (x.mtime == y.mtime && NameOrder(x.name, y.name, lower) < 0)
          case ByName => NameOrder(x.name, y.name, lower) < 0
          case ByType => KindBefore(x.kind, y.kind) || (x.kind == y.kind && NameOrder(x.name, y.name, lower) < 0))
  }

  /** Containers, then content, then the odd ones. */
  const KIND_ORDER: seq<Kind> := [KindDir, KindSymlink, KindFile, KindFifo, KindSocket, KindDevice, KindOther]

  predicate KindBefore(a: Kind, b: Kind) {
    exists i, j :: 0 <= i < j < |KIND_ORDER| && KIND_ORDER[i] == a && KIND_ORDER[j] == b
  }

  lemma RankIsKindOrder(a: Kind, b: Kind)
    ensures TypeRank(a) < TypeRank(b) ==> KindBefore(a, b)
    ensures TypeRank(a) == TypeRank(b) ==> a == b
  {
    assert KIND_ORDER[TypeRank(a)] == a && KIND_ORDER[TypeRank(b)] == b;
  }

  lemma OrderMeans(out: seq<Entry>, o: Options, lower: int -> int, i: nat, j: nat)
    requires Ordered(out, o, lower) && i < j < |out|
    ensures InListingOrder(out[i], out[j], o, lower)
  {
    hide NameOrder, TypeRank, KindBefore;
    RankIsKindOrder(out[i].kind, out[j].kind);
    RankIsKindOrder(out[j].kind, out[i].kind);
    assert Before(out[i], out[j], o, lower);
  }

  /** What any correct sort leaves. */
  ghost predicate IsSortOf(out: seq<Entry>, es: seq<Entry>, o: Options, lower: int -> int) {
    multiset(out) == multiset(es) && Ordered(out, o, lower)
  }

  lemma NamesTellApart(es: seq<Entry>, a: Entry, b: Entry)
    requires UniqueNames(es) && a in es && b in es && a != b
    ensures a.name != b.name
  {
  }

  lemma SameMembers(a: seq<Entry>, b: seq<Entry>, e: Entry)
    requires multiset(a) == multiset(b)
    ensures e in a <==> e in b
  {
    assert e in a <==> e in multiset(a);
    assert e in b <==> e in multiset(b);
  }

  lemma TailMultiset(a: seq<Entry>)
    requires a != []
    ensures multiset(a[1..]) == multiset(a) - multiset{a[0]}
  {
    assert a == [a[0]] + a[1..];
  }

  lemma FirstIsLeast(x: seq<Entry>, e: Entry, o: Options, lower: int -> int)
    requires x != [] && Ordered(x, o, lower) && e in x && e != x[0]
    ensures Before(x[0], e, o, lower)
  {
  }

  /** No two correct sorts differ: the order of a page does not depend on the order the
      kernel enumerated in, nor on the sort being stable. */
  lemma {:induction false} SortsAgree(x: seq<Entry>, y: seq<Entry>, es: seq<Entry>, o: Options, lower: int -> int)
    requires UniqueNames(es) && multiset(x) == multiset(y) && Ordered(x, o, lower) && Ordered(y, o, lower)
    requires forall e | e in x :: e in es
    ensures x == y
    decreases |x|
  {
    hide Before, UniqueNames;
    assert |x| == |multiset(x)| && |y| == |multiset(y)|;
    if x != [] {
      SameMembers(x, y, x[0]);
      SameMembers(x, y, y[0]);
      if x[0] != y[0] {
        FirstIsLeast(x, y[0], o, lower);
        FirstIsLeast(y, x[0], o, lower);
        NamesTellApart(es, x[0], y[0]);
        BeforeIsTotal(x[0], y[0], o, lower);
        assert false;
      }
      TailMultiset(x);
      TailMultiset(y);
      assert forall e | e in x[1..] :: e in x;
      assert Ordered(x[1..], o, lower) && Ordered(y[1..], o, lower);
      SortsAgree(x[1..], y[1..], es, o, lower);
    }
  }

  function InsertInto(e: Entry, sorted: seq<Entry>, o: Options, lower: int -> int): seq<Entry> {
    if sorted == [] || Before(e, sorted[0], o, lower) then [e] + sorted
    else [sorted[0]] + InsertInto(e, sorted[1..], o, lower)
  }

  /** One correct sort; sort.Slice may be any other. */
  function Sorted(es: seq<Entry>, o: Options, lower: int -> int): seq<Entry> {
    if es == [] then [] else InsertInto(es[0], Sorted(es[1..], o, lower), o, lower)
  }

  lemma {:induction false} InsertKeepsMembers(e: Entry, sorted: seq<Entry>, o: Options, lower: int -> int)
    ensures multiset(InsertInto(e, sorted, o, lower)) == multiset{e} + multiset(sorted)
  {
    hide Before;
    if sorted != [] && !Before(e, sorted[0], o, lower) {
      InsertKeepsMembers(e, sorted[1..], o, lower);
      assert sorted == [sorted[0]] + sorted[1..];
    }
  }

  lemma Prepend(e: Entry, sorted: seq<Entry>, o: Options, lower: int -> int)
    requires Ordered(sorted, o, lower) && forall x | x in sorted :: Before(e, x, o, lower)
    ensures Ordered([e] + sorted, o, lower)
  {
  }

  lemma {:induction false} InsertKeepsOrder(e: Entry, sorted: seq<Entry>, o: Options, lower: int -> int)
    requires Ordered(sorted, o, lower) && forall x | x in sorted :: x.name != e.name
    ensures Ordered(InsertInto(e, sorted, o, lower), o, lower)
  {
    hide Before;
    if sorted == [] {
      Prepend(e, sorted, o, lower);
    } else if Before(e, sorted[0], o, lower) {
      forall x | x in sorted ensures Before(e, x, o, lower) {
        if x != sorted[0] {
          FirstIsLeast(sorted, x, o, lower);
          BeforeTrans(e, sorted[0], x, o, lower);
        }
      }
      Prepend(e, sorted, o, lower);
    } else {
      var first, rest := sorted[0], sorted[1..];
      var tail := InsertInto(e, rest, o, lower);
      InsertKeepsOrder(e, rest, o, lower);
      InsertKeepsMembers(e, rest, o, lower);
      BeforeIsTotal(e, first, o, lower);
      forall x | x in tail ensures Before(first, x, o, lower) {
        assert x in multiset(tail);
        if x != e {
          assert x in multiset(rest);
          FirstIsLeastAt(sorted, x, o, lower);
        }
      }
      Prepend(first, tail, o, lower);
    }
  }

  lemma FirstIsLeastAt(x: seq<Entry>, e: Entry, o: Options, lower: int -> int)
    requires x != [] && Ordered(x, o, lower) && e in x[1..]
    ensures Before(x[0], e, o, lower)
  {
    var i :| 0 <= i < |x[1..]| && x[1..][i] == e;
    assert x[i + 1] == e;
  }

  lemma {:induction false} SortedIsSort(es: seq<Entry>, o: Options, lower: int -> int)
    requires UniqueNames(es)
    ensures IsSortOf(Sorted(es, o, lower), es, o, lower)
  {
    hide Before;
    if es != [] {
      var rest := Sorted(es[1..], o, lower);
      SortedIsSort(es[1..], o, lower);
      assert es == [es[0]] + es[1..];
      forall x | x in rest ensures x.name != es[0].name {
        SameMembers(rest, es[1..], x);
        var i :| 0 <= i < |es[1..]| && es[1..][i] == x;
        assert es[i + 1] == x;
      }
      InsertKeepsOrder(es[0], rest, o, lower);
      InsertKeepsMembers(es[0], rest, o, lower);
    }
  }

  // ----- paging -----

  datatype PageAt = PageAt(off: nat, limit: nat)

  function PageOf(offset: int, limit: int, total: nat): (p: PageAt)
    ensures p.off <= total && 0 < p.limit <= MAX_LIST_LIMIT
    ensures 0 <= offset <= total ==> p.off == offset
    ensures if limit <= 0 then p.limit == DEFAULT_LIST_LIMIT else p.limit == MAX_LIST_LIMIT < limit || p.limit == limit
    ensures offset > total ==> p.off == total
    ensures offset < 0 ==> p.off == 0
  {
    var l := if limit <= 0 then DEFAULT_LIST_LIMIT else limit;
    var l := if l > MAX_LIST_LIMIT then MAX_LIST_LIMIT else l;
    var off := if offset < 0 then 0 else offset;
    PageAt(if off > total then total else off, l)
  }

  function Cut(sorted: seq<Entry>, p: PageAt): seq<Entry>
    requires p.off <= |sorted|
  {
    sorted[p.off..if p.off + p.limit < |sorted| then p.off + p.limit else |sorted|]
  }

  /** The first n pages a client asks for one after the other, each cut from its own read
      and sort of the directory. */
  function Pages(sorts: seq<seq<Entry>>, limit: int, n: nat): seq<Entry>
    requires n <= |sorts|
  {
    if n == 0 then []
    else
      var sorted := sorts[n - 1];
      var step := PageOf(0, limit, |sorted|).limit;
      Pages(sorts, limit, n - 1) + Cut(sorted, PageOf((n - 1) * step, limit, |sorted|))
  }

  /** The page after everything up to from. */
  lemma NextPage(sorted: seq<Entry>, limit: int, from: nat)
    ensures var step := PageOf(0, limit, |sorted|).limit;
            sorted[..MinNat(from, |sorted|)] + Cut(sorted, PageOf(from, limit, |sorted|)) == sorted[..MinNat(from + step, |sorted|)]
  {
  }

  lemma StepOn(n: nat, step: nat)
    requires n > 0
    ensures (n - 1) * step + step == n * step && (n - 1) * step >= 0
  {
  }

  lemma {:induction false} PagesOfOne(sorts: seq<seq<Entry>>, sorted: seq<Entry>, limit: int, n: nat)
    requires n <= |sorts| && forall r | r in sorts :: r == sorted
    ensures n * PageOf(0, limit, |sorted|).limit >= 0
    ensures Pages(sorts, limit, n) == sorted[..MinNat(n * PageOf(0, limit, |sorted|).limit, |sorted|)]
  {
    hide PageOf, Cut;
    var step := PageOf(0, limit, |sorted|).limit;
    if n == 0 {
      assert 0 * step == 0;
    } else {
      PagesOfOne(sorts, sorted, limit, n - 1);
      StepOn(n, step);
      assert sorts[n - 1] in sorts;
      NextPage(sorted, limit, (n - 1) * step);
    }
  }

  /** Every page of a fixed directory, put together, is the directory's entries in order,
      none twice and none missing, whatever the key, the direction and the order each
      read found them in. */
  lemma PagesMakeTheListing(sorts: seq<seq<Entry>>, es: seq<Entry>, o: Options, lower: int -> int, limit: int)
    requires UniqueNames(es) && sorts != []
    requires forall r | r in sorts :: IsSortOf(r, es, o, lower)
    requires |sorts| * PageOf(0, limit, |es|).limit >= |es|
    ensures IsSortOf(Pages(sorts, limit, |sorts|), es, o, lower)
  {
    hide Before, UniqueNames, Ordered, PageOf, Pages, Less, NameOrder;
    var sorted := sorts[0];
    assert sorted in sorts && |sorted| == |multiset(sorted)| && |es| == |multiset(es)|;
    forall r | r in sorts ensures r == sorted {
      forall e | e in r ensures e in es { SameMembers(r, es, e); }
      SortsAgree(r, sorted, es, o, lower);
    }
    PagesOfOne(sorts, sorted, limit, |sorts|);
    assert sorted[..|sorted|] == sorted;
  }

  // ----- the bounded read -----

  /** One name of a chunk: described, gone by the time it was looked at, or not to be
      described. */
  datatype Seen = Described(entry: Entry) | Vanished | Undescribed

  datatype Item = Item(hidden: bool, seen: Seen)

  datatype ChunkEnd = More | Eof | ReadFailed | CancelledAfter

  datatype Chunk = Chunk(items: seq<Item>, end: ChunkEnd)

  datatype Read = Entries(entries: seq<Entry>, capped: bool) | Failed

  predicate Eligible(d: Item, showHidden: bool) {
    (showHidden || !d.hidden) && !d.seen.Vanished?
  }

  function EligibleOf(items: seq<Item>, showHidden: bool): seq<Seen> {
    if items == [] then []
    else EligibleOf(items[..|items| - 1], showHidden)
         + if Eligible(items[|items| - 1], showHidden) then [items[|items| - 1].seen] else []
  }

  /** Everything the directory holds, up to the end of its enumeration. */
  function Everything(chunks: seq<Chunk>): seq<Item> {
    if chunks == [] then []
    else chunks[0].items + if chunks[0].end.More? || chunks[0].end.CancelledAfter? then Everything(chunks[1..]) else []
  }

  lemma {:induction false} EligibleAppend(a: seq<Item>, b: seq<Item>, show: bool)
    ensures EligibleOf(a + b, show) == EligibleOf(a, show) + EligibleOf(b, show)
    decreases |b|
  {
    if b == [] {
      assert a + b == a;
    } else {
      assert (a + b)[..|a + b| - 1] == a + b[..|b| - 1];
      EligibleAppend(a, b[..|b| - 1], show);
    }
  }

  /** The entries are the first eligible ones, and all of them are described. */
  ghost predicate FirstOf(entries: seq<Entry>, eligible: seq<Seen>) {
    |entries| <= |eligible| && forall i :: 0 <= i < |entries| ==> eligible[i] == Described(entries[i])
  }

  /** Something that cannot be described comes before the cap is reached. */
  ghost predicate FailsEarly(eligible: seq<Seen>, cap: nat) {
    exists i :: 0 <= i < |eligible| && i < cap && eligible[i].Undescribed?
  }

  /** What is read of a directory before its enumeration ends, in whatever way. */
  function ReadItems(chunks: seq<Chunk>): seq<Item> {
    if chunks == [] then [] else chunks[0].items + if chunks[0].end.More? then ReadItems(chunks[1..]) else []
  }

  predicate ReadToTheEnd(chunks: seq<Chunk>) {
    chunks != [] && (chunks[0].end.Eof? || (chunks[0].end.More? && ReadToTheEnd(chunks[1..])))
  }

  /** Why there is no listing: an entry that would be in it cannot be described, or the
      enumeration broke off, or was cancelled, before its end and before the cap. */
  ghost predicate CannotList(chunks: seq<Chunk>, showHidden: bool, cap: nat) {
    var all := EligibleOf(ReadItems(chunks), showHidden);
    FailsEarly(all, cap) || (|all| <= cap && !ReadToTheEnd(chunks))
  }

  lemma ReadItemsStep(chunks: seq<Chunk>)
    ensures chunks == [] ==> ReadItems(chunks) == [] && !ReadToTheEnd(chunks)
    ensures chunks != [] ==>
              && ReadItems(chunks) == chunks[0].items + (if chunks[0].end.More? then ReadItems(chunks[1..]) else [])
              && ReadToTheEnd(chunks) == (chunks[0].end.Eof? || (chunks[0].end.More? && ReadToTheEnd(chunks[1..])))
  {
  }

  /** What holds of the items read so far, and of what follows them. */
  lemma SoFar(chunks: seq<Chunk>, past: seq<Item>, more: seq<Item>, showHidden: bool, cap: nat, entries: seq<Entry>, capped: bool, failed: bool)
    requires ReadItems(chunks) == past + more
    requires var all := EligibleOf(past, showHidden);
             if failed then FailsEarly(all, cap)
             else FirstOf(entries, all) && (capped <==> |all| > cap) && |entries| == if capped then cap else |all|
    ensures failed ==> CannotList(chunks, showHidden, cap)
    ensures capped && !failed ==> !CannotList(chunks, showHidden, cap)
    ensures !capped && !failed && more == [] ==> (CannotList(chunks, showHidden, cap) <==> !ReadToTheEnd(chunks))
  {
    hide EligibleOf, ReadItems, ReadToTheEnd;
    EligibleAppend(past, more, showHidden);
    var all, sofar := EligibleOf(past + more, showHidden), EligibleOf(past, showHidden);
    if failed {
      var i :| 0 <= i < |sofar| && i < cap && sofar[i].Undescribed?;
      assert all[i] == sofar[i];
    }
    assert more == [] ==> past + more == past;
  }

  /** One chunk against the cap. */
  method ReadChunk(items: seq<Item>, showHidden: bool, cap: nat, had: seq<Entry>, ghost before: seq<Seen>)
    returns (entries: seq<Entry>, capped: bool, failed: bool)
    requires FirstOf(had, before) && |had| == |before| <= cap
    ensures !failed ==>
              var all := before + EligibleOf(items, showHidden);
              && FirstOf(entries, all) && (capped <==> |all| > cap)
              && |entries| == if capped then cap else |all|
    ensures failed ==> FailsEarly(before + EligibleOf(items, showHidden), cap)
  {
    entries, capped, failed := had, false, false;
    for i := 0 to |items|
      invariant FirstOf(entries, before + EligibleOf(items[..i], showHidden))
      invariant |entries| == |before + EligibleOf(items[..i], showHidden)| <= cap
    {
      var d := items[i];
      assert items[..i + 1][..i] == items[..i];
      ghost var all := before + EligibleOf(items[..i], showHidden);
      if !Eligible(d, showHidden) {
        continue;
      }
      assert before + EligibleOf(items[..i + 1], showHidden) == all + [d.seen];
      if |entries| >= cap {
        capped := true;
        EligibleAppend(items[..i + 1], items[i + 1..], showHidden);
        assert items[..i + 1] + items[i + 1..] == items;
        return;
      }
      if d.seen.Undescribed? {
        failed := true;
        EligibleAppend(items[..i + 1], items[i + 1..], showHidden);
        assert items[..i + 1] + items[i + 1..] == items;
        assert (before + EligibleOf(items, showHidden))[|all|] == d.seen;
        return;
      }
      entries := entries + [d.seen.entry];
    }
    assert items[..|items|] == items;
  }

  /** What an enumeration holds after its first chunk. */
  function AfterFirst(chunks: seq<Chunk>): seq<Item>
    requires chunks != []
  {
    if chunks[0].end.More? || chunks[0].end.CancelledAfter? then Everything(chunks[1..]) else []
  }

  lemma EverythingStep(chunks: seq<Chunk>)
    requires chunks != []
    ensures Everything(chunks) == chunks[0].items + AfterFirst(chunks)
    ensures chunks[0].end.More? ==> AfterFirst(chunks) == Everything(chunks[1..])
  {
  }

  lemma NothingAfterEof(chunks: seq<Chunk>, showHidden: bool)
    requires chunks != [] && chunks[0].end.Eof?
    ensures EligibleOf(AfterFirst(chunks), showHidden) == []
  {
  }

  lemma NothingRead(chunks: seq<Chunk>, showHidden: bool)
    ensures EligibleOf([], showHidden) == [] && Everything(chunks) == [] + Everything(chunks)
  {
  }

  /** The whole read.  A listing that comes back holds the first eligible entries, and
      says it is capped exactly when the directory has one more; and one comes back unless
      something stands against it. */
  method ReadEntries(chunks: seq<Chunk>, showHidden: bool, cap: nat) returns (r: Read)
    ensures r.Entries? ==>
              var all := EligibleOf(Everything(chunks), showHidden);
              && FirstOf(r.entries, all)
              && (r.capped <==> |all| > cap)
              && |r.entries| == if r.capped then cap else |all|
    ensures r.Failed? <==> CannotList(chunks, showHidden, cap)
  {
    hide EligibleOf, Everything, ReadItems, ReadToTheEnd, CannotList, FailsEarly;
    var entries: seq<Entry> := [];
    ghost var past: seq<Item> := [];
    NothingRead(chunks, showHidden);
    assert ReadItems(chunks) == [] + ReadItems(chunks);
    var rest := chunks;
    while rest != []
      invariant Everything(chunks) == past + Everything(rest)
      invariant ReadItems(chunks) == past + ReadItems(rest) && ReadToTheEnd(chunks) == ReadToTheEnd(rest)
      invariant FirstOf(entries, EligibleOf(past, showHidden)) && |entries| == |EligibleOf(past, showHidden)| <= cap
      decreases |rest|
    {
      var c := rest[0];
      var capped, failed;
      ghost var tail := AfterFirst(rest);
      EverythingStep(rest);
      ReadItemsStep(rest);
      assert past + (c.items + tail) == (past + c.items) + tail;
      EligibleAppend(past + c.items, tail, showHidden);
      EligibleAppend(past, c.items, showHidden);
      entries, capped, failed := ReadChunk(c.items, showHidden, cap, entries, EligibleOf(past, showHidden));
      ghost var more := if c.end.More? then ReadItems(rest[1..]) else [];
      assert past + (c.items + more) == (past + c.items) + more;
      SoFar(chunks, past + c.items, more, showHidden, cap, entries, capped, failed);
      if failed {
        return Failed;
      }
      if capped || c.end.Eof? {
        if c.end.Eof? { NothingAfterEof(rest, showHidden); }
        return Entries(entries, capped);
      }
      if c.end.ReadFailed? || c.end.CancelledAfter? {
        return Failed;
      }
      past := past + c.items;
      rest := rest[1..];
    }
    ReadItemsStep(rest);
    SoFar(chunks, past, [], showHidden, cap, entries, false, false);
    r := Failed;
  }
}
