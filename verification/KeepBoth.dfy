/** "Keep both" names: report (2).pdf, bounded by what the kernel takes as one path
    component.  A name is a sequence of bytes, each written as a char below 256. */
module KeepBoth {
  import opened Basics

  const MAX_NAME_BYTES: nat := 255
  const MAX_KEEP_BOTH_TRIES: nat := 100

  function Digit(d: nat): char
    requires d < 10
  {
    "0123456789"[d]
  }

  /** strconv.Itoa on a natural number. */
  function Itoa(n: nat): (s: string)
    ensures |s| > 0
    ensures forall i :: 0 <= i < |s| ==> '0' <= s[i] <= '9'
  {
    if n < 10 then [Digit(n)] else Itoa(n / 10) + [Digit(n % 10)]
  }

  /** What decimal digits say. */
  function Decimal(s: string): int {
    if s == "" then 0 else 10 * Decimal(s[..|s| - 1]) + (s[|s| - 1] as int - '0' as int)
  }

  lemma {:induction false} ItoaSays(n: nat)
    ensures Decimal(Itoa(n)) == n
  {
    if n >= 10 {
      ItoaSays(n / 10);
      var s := Itoa(n);
      assert s[..|s| - 1] == Itoa(n / 10);
    } else {
      assert Itoa(n)[..0] == "";
    }
  }

  lemma DigitInjective(a: nat, b: nat)
    requires a < 10 && b < 10 && Digit(a) == Digit(b)
    ensures a == b
  {
  }

  lemma LastDigit(n: nat)
    ensures var s := Itoa(n);
            && s[|s| - 1] == Digit(n % 10) && (|s| == 1 <==> n < 10)
            && (n >= 10 ==> s[..|s| - 1] == Itoa(n / 10))
  {
  }

  lemma {:induction false} ItoaInjective(n: nat, m: nat)
    requires Itoa(n) == Itoa(m)
    ensures n == m
    decreases n + m
  {
    hide Itoa, Digit;
    LastDigit(n);
    LastDigit(m);
    DigitInjective(n % 10, m % 10);
    if n >= 10 {
      ItoaInjective(n / 10, m / 10);
    }
  }

  function Pow10(k: nat): nat {
    if k == 0 then 1 else 10 * Pow10(k - 1)
  }

  /** A number below ten to the k is written in k digits. */
  lemma {:induction false} ItoaLength(n: nat, k: nat)
    requires k > 0 && n < Pow10(k)
    ensures |Itoa(n)| <= k
  {
    if n >= 10 {
      assert k > 1;
      ItoaLength(n / 10, k - 1);
    }
  }

  /** A 64-bit counter takes at most nineteen digits. */
  lemma CounterLength(n: nat)
    requires n < 0x8000_0000_0000_0000
    ensures |Itoa(n)| <= 19
  {
    assert Pow10(4) == 10_000;
    assert Pow10(8) == 10_000 * Pow10(4);
    assert Pow10(12) == 10_000 * Pow10(8);
    assert Pow10(16) == 10_000 * Pow10(12);
    assert Pow10(19) == 1000 * Pow10(16);
    ItoaLength(n, 19);
  }

  /** The position of the last dot, or None. */
  function LastDot(s: string): (r: Option<nat>)
    ensures r.Some? ==> r.value < |s| && s[r.value] == '.' && '.' !in s[r.value + 1..]
    ensures r.None? ==> '.' !in s
  {
    if |s| == 0 then None
    else if s[|s| - 1] == '.' then Some(|s| - 1)
    else
      var r := LastDot(s[..|s| - 1]);
      assert r.Some? ==> s[r.value + 1..] == s[..|s| - 1][r.value + 1..] + [s[|s| - 1]];
      r
  }

  /** A directory has no extension, nor has a name whose only dot leads it. */
  function SplitKeepBoth(name: string, isDir: bool): (r: (string, string))
    ensures r.0 + r.1 == name
    ensures isDir ==> r.1 == ""
    ensures r.1 != "" ==> r.1[0] == '.' && '.' !in r.1[1..] && r.0 != ""
    ensures r.1 != "" <==> !isDir && exists i :: 0 < i < |name| && name[i] == '.'
  {
    if isDir then (name, "")
    else match LastDot(name)
      case None => (name, "")
      case Some(i) => if i > 0 then (name[..i], name[i..]) else (name, "")
  }

  function Suffix(n: nat): string {
    " (" + Itoa(n) + ")"
  }

  function KeepBothName(name: string, isDir: bool, n: nat): string {
    var (stem, ext) := SplitKeepBoth(name, isDir);
    stem + Suffix(n) + ext
  }

  /** A byte that does not continue a UTF-8 sequence. */
  predicate RuneStart(c: char) {
    !(128 <= c as int < 192)
  }

  function CutBack(s: string, cut: nat): (r: nat)
    requires cut < |s|
    ensures r <= cut
    ensures r > 0 ==> RuneStart(s[r])
    ensures forall i :: r < i <= cut ==> !RuneStart(s[i])
  {
    if cut > 0 && !RuneStart(s[cut]) then CutBack(s, cut - 1) else cut
  }

  /** At most max bytes, never cutting inside a multi-byte sequence. */
  function TruncateAtRune(s: string, max: nat): (t: string)
    ensures t <= s && |t| <= max
    ensures |s| <= max ==> t == s
    ensures 0 < |t| < |s| ==> RuneStart(s[|t|])
    ensures forall i :: |t| < i <= max && i < |s| ==> !RuneStart(s[i])
  {
    if |s| <= max then s else s[..CutBack(s, max)]
  }

  function KeepBothWithin(name: string, isDir: bool, n: nat): (r: Option<string>)
  {
    var cand := KeepBothName(name, isDir, n);
    if |cand| <= MAX_NAME_BYTES then Some(cand)
    else
      var (stem, ext) := SplitKeepBoth(name, isDir);
      var room := MAX_NAME_BYTES - |Suffix(n)| - |ext|;
      if room < 1 then None
      else
        var short := TruncateAtRune(stem, room);
        if short == "" then None else Some(short + Suffix(n) + ext)
  }

  /** Every bounded candidate is a prefix of the stem, the counter, and the whole
      extension, and fits one path component. */
  lemma KeepBothShape(name: string, isDir: bool, n: nat) returns (short: string)
    requires KeepBothWithin(name, isDir, n).Some?
    ensures short <= SplitKeepBoth(name, isDir).0
    ensures KeepBothWithin(name, isDir, n).value == short + Suffix(n) + SplitKeepBoth(name, isDir).1
    ensures |KeepBothWithin(name, isDir, n).value| <= MAX_NAME_BYTES
  {
    var (stem, ext) := SplitKeepBoth(name, isDir);
    if |KeepBothName(name, isDir, n)| <= MAX_NAME_BYTES {
      short := stem;
    } else {
      short := TruncateAtRune(stem, MAX_NAME_BYTES - |Suffix(n)| - |ext|);
    }
  }

  /** A beginning of the stem that does not end inside a multi-byte sequence and, with the
      counter and the extension, is one path component. */
  predicate Fits(name: string, isDir: bool, n: nat, short: string) {
    var (stem, ext) := SplitKeepBoth(name, isDir);
    && short <= stem && (short != "" || stem == "") && (|short| < |stem| ==> RuneStart(stem[|short|]))
    && |short + Suffix(n) + ext| <= MAX_NAME_BYTES
  }

  /** A candidate has the longest beginning of the stem that fits, and there is none only
      where nothing fits. */
  lemma KeepBothIsLongest(name: string, isDir: bool, n: nat, other: string)
    ensures KeepBothWithin(name, isDir, n).None? ==> !Fits(name, isDir, n, other)
    ensures KeepBothWithin(name, isDir, n).Some? ==>
              exists short ::
                && Fits(name, isDir, n, short)
                && KeepBothWithin(name, isDir, n).value == short + Suffix(n) + SplitKeepBoth(name, isDir).1
                && (Fits(name, isDir, n, other) ==> |other| <= |short|)
  {
    hide SplitKeepBoth, Suffix, TruncateAtRune, RuneStart;
    var (stem, ext) := SplitKeepBoth(name, isDir);
    assert |KeepBothName(name, isDir, n)| == |stem| + |Suffix(n)| + |ext|;
    if |KeepBothName(name, isDir, n)| <= MAX_NAME_BYTES {
      assert Fits(name, isDir, n, stem);
    } else {
      var room := MAX_NAME_BYTES - |Suffix(n)| - |ext|;
      if room >= 1 {
        var short := TruncateAtRune(stem, room);
        assert short != "" ==> Fits(name, isDir, n, short);
      }
    }
  }

  /** No digit is the parenthesis before the counter. */
  lemma CounterNotLonger(a: string, x: string, b: string, y: string)
    requires a + " (" + x == b + " (" + y
    requires forall i :: 0 <= i < |y| ==> '0' <= y[i] <= '9'
    ensures |y| <= |x|
  {
    var s := a + " (" + x;
    assert s[|a| + 1] == '(';
    forall i | |b| + 2 <= i < |s| ensures s[i] != '(' {
      assert s[i] == y[i - |b| - 2];
    }
  }

  /** The counter can be read back off any name that ends in one. */
  lemma CounterReadsBack(a: string, n: nat, b: string, m: nat)
    requires a + Suffix(n) == b + Suffix(m)
    ensures n == m && a == b
  {
    var x, y := Itoa(n), Itoa(m);
    var s := a + Suffix(n);
    var cut := |s| - 1;
    assert s[..cut] == a + " (" + x;
    assert s[..cut] == b + " (" + y;
    CounterNotLonger(a, x, b, y);
    CounterNotLonger(b, y, a, x);
    assert x == s[cut - |x|..cut] && y == s[cut - |y|..cut];
    ItoaInjective(n, m);
    assert a == s[..|a|] && b == s[..|b|];
  }

  /** Two attempts never produce one name. */
  lemma KeepBothInjective(name: string, isDir: bool, n: nat, m: nat)
    requires KeepBothWithin(name, isDir, n).Some?
    requires KeepBothWithin(name, isDir, n) == KeepBothWithin(name, isDir, m)
    ensures n == m
  {
    var a := KeepBothShape(name, isDir, n);
    var b := KeepBothShape(name, isDir, m);
    var ext := SplitKeepBoth(name, isDir).1;
    var s := KeepBothWithin(name, isDir, n).value;
    assert s[..|s| - |ext|] == a + Suffix(n);
    assert s[..|s| - |ext|] == b + Suffix(m);
    CounterReadsBack(a, n, b, m);
  }
}
