/** The ACL attributes as the kernel hands them over: one NFSv4 format read by three
    loops, and the POSIX one. */
module AclWire {
  import opened Basics

  const HEADER: nat := 16
  const U32: nat := 0x1_0000_0000

  const ALLOW: nat := 0
  const FILE_INHERIT: nat := 0x1
  const DIR_INHERIT: nat := 0x2
  const NO_PROPAGATE: nat := 0x4
  const IDENTIFIER_GROUP: nat := 0x40
  const INHERITED_ACE: nat := 0x80
  const WRITE_BITS: set<nat> := {0x2, 0x4, 0x40, 0x1_0000, 0x4_0000, 0x8_0000}

  datatype Ace = Ace(aceType: nat, flag: nat, mask: nat, who: Bytes)

  /** bit is a power of two. */
  predicate HasBit(word: nat, bit: nat)
    requires bit > 0
  {
    word / bit % 2 == 1
  }

  // ----- the format: XDR, as in section 4 of RFC 4506 -----

  function U32At(b: Bytes, off: nat): nat
    requires off + 4 <= |b|
  {
    b[off] as int * 0x100_0000 + b[off + 1] as int * 0x1_0000 + b[off + 2] as int * 0x100 + b[off + 3] as int
  }

  function PutU32(n: nat): (b: Bytes)
    requires n < U32
    ensures |b| == 4
  {
    [n / 0x100_0000, n / 0x1_0000 % 0x100, n / 0x100 % 0x100, n % 0x100]
  }

  /** Bytes that fill the last group of four. */
  function Pad(n: nat): (p: nat)
    ensures p < 4 && (n + p) % 4 == 0
  {
    if n % 4 == 0 then 0 else 4 - n % 4
  }

  function EncodeOne(a: Ace): Bytes
    requires Fits(a)
  {
    PutU32(a.aceType) + PutU32(a.flag) + PutU32(a.mask) + PutU32(|a.who|) + a.who + Zeros(Pad(|a.who|))
  }

  predicate Fits(a: Ace) {
    a.aceType < U32 && a.flag < U32 && a.mask < U32 && |a.who| < U32
  }

  function EncodeAll(aces: seq<Ace>): Bytes
    requires forall a | a in aces :: Fits(a)
  {
    if aces == [] then [] else EncodeOne(aces[0]) + EncodeAll(aces[1..])
  }

  function Encode(aces: seq<Ace>): Bytes
    requires |aces| < U32 && forall a | a in aces :: Fits(a)
  {
    PutU32(|aces|) + EncodeAll(aces)
  }

  /** One entry at off, and where the next one starts. */
  function One(b: Bytes, off: nat): (r: Option<(Ace, nat)>)
    ensures r.Some? ==> off < r.value.1 <= |b|
  {
    if off + HEADER > |b| then None
    else
      var len := U32At(b, off + 12);
      var start := off + HEADER;
      var end := start + len + Pad(len);
      if start + len > |b| || end > |b| then None
      else Some((Ace(U32At(b, off), U32At(b, off + 4), U32At(b, off + 8), b[start..start + len]), end))
  }

  /** The entries that can be read, in order, and whether that is all of them. */
  datatype Decoded = Decoded(aces: seq<Ace>, complete: bool)

  function DecodeFrom(b: Bytes, off: nat, n: nat): Decoded
    decreases n
  {
    if n == 0 then Decoded([], true)
    else
      var one := One(b, off);
      if one.None? then Decoded([], false)
      else
        var rest := DecodeFrom(b, one.value.1, n - 1);
        Decoded([one.value.0] + rest.aces, rest.complete)
  }

  function Decode(b: Bytes): Decoded {
    if |b| < 4 then Decoded([], false) else DecodeFrom(b, 4, U32At(b, 0))
  }

  // ----- round trip -----

  lemma U32RoundTrip(b: Bytes, off: nat, n: nat)
    requires n < U32 && off + 4 <= |b| && b[off..off + 4] == PutU32(n)
    ensures U32At(b, off) == n
  {
    var p := b[off..off + 4];
    assert b[off] == p[0] && b[off + 1] == p[1] && b[off + 2] == p[2] && b[off + 3] == p[3];
    assert n / 0x1_0000 / 0x100 == n / 0x100_0000;
    assert n / 0x100 / 0x100 == n / 0x1_0000;
  }

  lemma OneRoundTrip(a: Ace, before: Bytes, after: Bytes)
    requires Fits(a)
    ensures One(before + EncodeOne(a) + after, |before|) == Some((a, |before + EncodeOne(a)|))
  {
    var e := EncodeOne(a);
    var b := before + e + after;
    var off := |before|;
    var head := PutU32(a.aceType) + PutU32(a.flag) + PutU32(a.mask) + PutU32(|a.who|);
    assert e == head + a.who + Zeros(Pad(|a.who|));
    assert |e| == HEADER + |a.who| + Pad(|a.who|);
    assert b[off..off + HEADER] == head;
    assert b[off..off + 4] == PutU32(a.aceType) && b[off + 4..off + 8] == PutU32(a.flag);
    assert b[off + 8..off + 12] == PutU32(a.mask) && b[off + 12..off + 16] == PutU32(|a.who|);
    U32RoundTrip(b, off, a.aceType);
    U32RoundTrip(b, off + 4, a.flag);
    U32RoundTrip(b, off + 8, a.mask);
    U32RoundTrip(b, off + 12, |a.who|);
    assert b[off + HEADER..off + HEADER + |a.who|] == a.who;
  }

  lemma {:induction false} AllRoundTrip(aces: seq<Ace>, before: Bytes, after: Bytes)
    requires forall a | a in aces :: Fits(a)
    ensures DecodeFrom(before + EncodeAll(aces) + after, |before|, |aces|) == Decoded(aces, true)
    decreases |aces|
  {
    hide EncodeOne, One, U32At, PutU32;
    if aces != [] {
      var e, rest := EncodeOne(aces[0]), EncodeAll(aces[1..]);
      var b := before + EncodeAll(aces) + after;
      assert b == before + e + (rest + after) == (before + e) + rest + after;
      OneRoundTrip(aces[0], before, rest + after);
      AllRoundTrip(aces[1..], before + e, after);
      assert aces == [aces[0]] + aces[1..];
    }
  }

  /** Reading back what was written gives it back, whatever follows it. */
  lemma RoundTrip(aces: seq<Ace>, after: Bytes)
    requires |aces| < U32 && forall a | a in aces :: Fits(a)
    ensures Decode(Encode(aces) + after) == Decoded(aces, true)
  {
    var b := Encode(aces) + after;
    assert b[0..4] == PutU32(|aces|);
    U32RoundTrip(b, 0, |aces|);
    AllRoundTrip(aces, PutU32(|aces|), after);
    assert b == PutU32(|aces|) + EncodeAll(aces) + after;
  }

  // ----- the three loops -----

  /** An entry that lets somebody other than the owner change the directory. */
  predicate ForeignWriter(a: Ace, self: Bytes) {
    && a.aceType == ALLOW && Writes(a.mask)
    && (HasBit(a.flag, IDENTIFIER_GROUP) || (a.who != OWNER && a.who != self))
  }

  /** OWNER@ */
  const OWNER: Bytes := [79, 87, 78, 69, 82, 64]

  predicate Heritable(a: Ace) {
    HasBit(a.flag, FILE_INHERIT) || HasBit(a.flag, DIR_INHERIT)
  }

  function Unmarked(a: Ace): Ace {
    if HasBit(a.flag, INHERITED_ACE) && a.flag >= INHERITED_ACE then a.(flag := a.flag - INHERITED_ACE) else a
  }

  function Inherited(aces: seq<Ace>): seq<Ace> {
    if aces == [] then []
    else
      var a := aces[|aces| - 1];
      Inherited(aces[..|aces| - 1]) + if Heritable(Unmarked(a)) then [Unmarked(a)] else []
  }

  predicate Writes(mask: nat) {
    exists bit | bit in WRITE_BITS && bit > 0 :: HasBit(mask, bit)
  }

  /** A loop that has read seen, stands at off and has n entries to go. */
  ghost predicate Reading(b: Bytes, off: nat, n: nat, seen: seq<Ace>) {
    && 4 <= off <= |b|
    && Decode(b).aces == seen + DecodeFrom(b, off, n).aces
    && Decode(b).complete == DecodeFrom(b, off, n).complete
  }

  lemma Starts(b: Bytes)
    requires |b| >= 4
    ensures Reading(b, 4, U32At(b, 0), [])
  {
  }

  /** The end of the loop, or the fault that ends it. */
  lemma Stops(b: Bytes, off: nat, n: nat, seen: seq<Ace>)
    requires Reading(b, off, n, seen) && (n == 0 || One(b, off).None?)
    ensures Decode(b) == Decoded(seen, n == 0)
  {
  }

  lemma Advances(b: Bytes, off: nat, n: nat, seen: seq<Ace>, a: Ace, next: nat)
    requires Reading(b, off, n, seen) && n > 0 && One(b, off) == Some((a, next))
    ensures Reading(b, next, n - 1, seen + [a]) && a in Decode(b).aces
  {
    var rest := DecodeFrom(b, next, n - 1).aces;
    assert seen + ([a] + rest) == (seen + [a]) + rest;
    assert Decode(b).aces[|seen|] == a;
  }

  /** What each loop works out for itself is one entry of the format. */
  lemma EntryAt(b: Bytes, off: nat)
    ensures off + HEADER > |b| ==> One(b, off).None?
    ensures off + HEADER <= |b| ==>
              var len := U32At(b, off + 12);
              var start := off + HEADER;
              var end := if len % 4 != 0 then start + len + (4 - len % 4) else start + len;
              if start + len > |b| || end > |b| then One(b, off).None?
              else One(b, off) == Some((Ace(U32At(b, off), U32At(b, off + 4), U32At(b, off + 8), b[start..start + len]), end))
  {
  }

  /** True exactly when the bytes decode to the end and no entry is a foreign writer's. */
  method Nfs4NoOtherWriter(b: Bytes, self: Bytes) returns (ok: bool)
    ensures ok <==> Decode(b).complete && forall a | a in Decode(b).aces :: !ForeignWriter(a, self)
  {
    hide Decode, DecodeFrom, U32At, One, Reading, Writes, HasBit;
    if |b| < 4 {
      TooShort(b);
      return false;
    }
    var count := U32At(b, 0);
    var off: nat := 4;
    ghost var seen: seq<Ace> := [];
    Starts(b);
    for i := 0 to count
      invariant off <= |b| && Reading(b, off, count - i, seen)
      invariant forall a | a in seen :: !ForeignWriter(a, self)
    {
      EntryAt(b, off);
      if off + HEADER > |b| {
        Stops(b, off, count - i, seen);
        return false;
      }
      var aceType, flag, mask := U32At(b, off), U32At(b, off + 4), U32At(b, off + 8);
      var whoLen := U32At(b, off + 12);
      var start := off + HEADER;
      if start + whoLen > |b| {
        Stops(b, off, count - i, seen);
        return false;
      }
      var who := b[start..start + whoLen];
      var next := start + whoLen;
      if whoLen % 4 != 0 {
        next := next + (4 - whoLen % 4);
      }
      if next > |b| {
        Stops(b, off, count - i, seen);
        return false;
      }
      ghost var a := Ace(aceType, flag, mask, who);
      Advances(b, off, count - i, seen, a, next);
      off, seen := next, seen + [a];
      if aceType != ALLOW || !Writes(mask) {
        continue;
      }
      if HasBit(flag, IDENTIFIER_GROUP) {
        return false;
      }
      if who != OWNER && who != self {
        return false;
      }
    }
    Stops(b, off, 0, seen);
    ok := true;
  }

  lemma TooShort(b: Bytes)
    requires |b| < 4
    ensures Decode(b) == Decoded([], false)
  {
  }

  /** What can be passed down among the entries that can be read: a malformed attribute
      gives those before the fault. */
  method Nfs4Inheritable(b: Bytes) returns (out: seq<Ace>)
    ensures out == Inherited(Decode(b).aces)
  {
    hide Decode, DecodeFrom, U32At, One, Reading, HasBit, Heritable, Unmarked;
    out := [];
    if |b| < 4 {
      TooShort(b);
      return;
    }
    var count := U32At(b, 0);
    var off: nat := 4;
    ghost var seen: seq<Ace> := [];
    Starts(b);
    for i := 0 to count
      invariant off <= |b| && Reading(b, off, count - i, seen)
      invariant out == Inherited(seen)
    {
      EntryAt(b, off);
      if off + HEADER > |b| {
        Stops(b, off, count - i, seen);
        return;
      }
      var ace := Ace(U32At(b, off), U32At(b, off + 4), U32At(b, off + 8), []);
      var whoLen := U32At(b, off + 12);
      var start := off + HEADER;
      if start + whoLen > |b| {
        Stops(b, off, count - i, seen);
        return;
      }
      ace := ace.(who := b[start..start + whoLen]);
      var next := start + whoLen;
      if whoLen % 4 != 0 {
        next := next + (4 - whoLen % 4);
      }
      if next > |b| {
        Stops(b, off, count - i, seen);
        return;
      }
      Advances(b, off, count - i, seen, ace, next);
      assert (seen + [ace])[..|seen|] == seen;
      off, seen := next, seen + [ace];
      ace := Unmarked(ace);
      if Heritable(ace) {
        out := out + [ace];
      }
    }
    Stops(b, off, 0, seen);
  }

  /** False exactly when the bytes decode to the end and no entry stops one generation
      down. */
  method Nfs4NoPropagate(b: Bytes) returns (stops: bool)
    ensures !stops <==> Decode(b).complete && forall a | a in Decode(b).aces :: !HasBit(a.flag, NO_PROPAGATE)
  {
    hide Decode, DecodeFrom, U32At, One, Reading, HasBit;
    if |b| < 4 {
      TooShort(b);
      return true;
    }
    var count := U32At(b, 0);
    var off: nat := 4;
    ghost var seen: seq<Ace> := [];
    Starts(b);
    for i := 0 to count
      invariant off <= |b| && Reading(b, off, count - i, seen)
      invariant forall a | a in seen :: !HasBit(a.flag, NO_PROPAGATE)
    {
      EntryAt(b, off);
      if off + HEADER > |b| {
        Stops(b, off, count - i, seen);
        return true;
      }
      var flag := U32At(b, off + 4);
      var whoLen := U32At(b, off + 12);
      var start := off + HEADER;
      if start + whoLen > |b| {
        Stops(b, off, count - i, seen);
        return true;
      }
      var next := start + whoLen;
      if whoLen % 4 != 0 {
        next := next + (4 - whoLen % 4);
      }
      if next > |b| {
        Stops(b, off, count - i, seen);
        return true;
      }
      ghost var a := Ace(U32At(b, off), flag, U32At(b, off + 8), b[start..start + whoLen]);
      Advances(b, off, count - i, seen, a, next);
      off, seen := next, seen + [a];
      if HasBit(flag, NO_PROPAGATE) {
        return true;
      }
    }
    Stops(b, off, 0, seen);
    stops := false;
  }

  lemma {:induction false} InheritedKeeps(aces: seq<Ace>)
    ensures forall a | a in aces && Heritable(Unmarked(a)) :: Unmarked(a) in Inherited(aces)
    ensures forall x | x in Inherited(aces) :: exists a :: a in aces && x == Unmarked(a)
  {
    hide Heritable, Unmarked;
    if aces != [] {
      var before, last := aces[..|aces| - 1], aces[|aces| - 1];
      InheritedKeeps(before);
      assert aces == before + [last];
      forall x | x in Inherited(aces) ensures exists a :: a in aces && x == Unmarked(a) {
        if x in Inherited(before) {
          var a :| a in before && x == Unmarked(a);
          assert a in aces;
        } else {
          assert last in aces && x == Unmarked(last);
        }
      }
    }
  }

  lemma MarkerIsNotPropagation(a: Ace)
    ensures HasBit(Unmarked(a).flag, NO_PROPAGATE) == HasBit(a.flag, NO_PROPAGATE)
  {
    if Unmarked(a) != a {
      var f := a.flag;
      assert f / 4 == (f - 128) / 4 + 32;
    }
  }

  lemma {:induction false} CompleteCount(b: Bytes, off: nat, n: nat)
    requires DecodeFrom(b, off, n).complete
    ensures |DecodeFrom(b, off, n).aces| == n
    decreases n
  {
    if n > 0 { CompleteCount(b, One(b, off).value.1, n - 1); }
  }

  /** An attribute that the last loop lets pass was read to its end: the second loop
      found everything it passes down, and none of that stops one generation later. */
  lemma TrustedIsWhole(b: Bytes)
    requires Decode(b).complete && forall a | a in Decode(b).aces :: !HasBit(a.flag, NO_PROPAGATE)
    ensures |b| >= 4 && |Decode(b).aces| == U32At(b, 0)
    ensures forall a | a in Decode(b).aces && Heritable(Unmarked(a)) :: Unmarked(a) in Inherited(Decode(b).aces)
    ensures forall x | x in Inherited(Decode(b).aces) :: !HasBit(x.flag, NO_PROPAGATE)
  {
    hide HasBit, Unmarked, Heritable;
    CompleteCount(b, 4, U32At(b, 0));
    InheritedKeeps(Decode(b).aces);
    forall x | x in Inherited(Decode(b).aces) ensures !HasBit(x.flag, NO_PROPAGATE) {
      var a :| a in Decode(b).aces && x == Unmarked(a);
      MarkerIsNotPropagation(a);
    }
  }

  /** A fault does not empty the list: what was read before it is still passed on. */
  lemma FaultKeepsThePrefix()
    returns (b: Bytes)
    ensures !Decode(b).complete && Inherited(Decode(b).aces) != []
  {
    var a := Ace(0, FILE_INHERIT, 0, []);
    b := PutU32(2) + EncodeOne(a);
    U32RoundTrip(b, 0, 2);
    OneRoundTrip(a, PutU32(2), []);
    assert PutU32(2) + EncodeOne(a) + [] == b;
    assert One(b, 4) == Some((a, |b|));
    assert DecodeFrom(b, 4, 2).aces == [a] + DecodeFrom(b, |b|, 1).aces;
    assert DecodeFrom(b, |b|, 1) == Decoded([], false);
    assert [a][..0] == [];
    assert Inherited([a]) == [a];
  }

  // ----- POSIX -----

  const POSIX_VERSION: nat := 2
  const POSIX_ENTRY: nat := 8
  const USER_OBJ: nat := 0x01
  const USER: nat := 0x02
  const OTHER_CLASSES: set<nat> := {0x04, 0x08, 0x10, 0x20}
  const POSIX_WRITE: nat := 0x02

  function LittleU16(b: Bytes, off: nat): nat
    requires off + 2 <= |b|
  {
    b[off] as int + b[off + 1] as int * 0x100
  }

  function LittleU32(b: Bytes, off: nat): nat
    requires off + 4 <= |b|
  {
    LittleU16(b, off) + LittleU16(b, off + 2) * 0x1_0000
  }

  /** The k-th entry grants nobody but the owner a write. */
  predicate PosixHarmless(b: Bytes, self: nat, k: nat)
    requires 4 + POSIX_ENTRY * k + POSIX_ENTRY <= |b|
  {
    var off := 4 + POSIX_ENTRY * k;
    var tag, perm, id := LittleU16(b, off), LittleU16(b, off + 2), LittleU32(b, off + 4);
    tag == USER_OBJ || (tag == USER && id == self) || ((tag == USER || tag in OTHER_CLASSES) && !HasBit(perm, POSIX_WRITE))
  }

  /** Whole entries of a known version, every one of them harmless. */
  method PosixNoOtherWriter(b: Bytes, self: nat) returns (ok: bool)
    ensures ok <==>
              && |b| >= 4 && (|b| - 4) % POSIX_ENTRY == 0 && LittleU32(b, 0) == POSIX_VERSION
              && forall k: nat :: k < (|b| - 4) / POSIX_ENTRY ==> PosixHarmless(b, self, k)
  {
    hide HasBit;
    if |b| < 4 || (|b| - 4) % POSIX_ENTRY != 0 {
      return false;
    }
    if LittleU32(b, 0) != POSIX_VERSION {
      return false;
    }
    var off := 4;
    ghost var k: nat := 0;
    while off < |b|
      invariant off == 4 + POSIX_ENTRY * k <= |b|
      invariant forall j: nat :: j < k ==> PosixHarmless(b, self, j)
    {
      var tag, perm, id := LittleU16(b, off), LittleU16(b, off + 2), LittleU32(b, off + 4);
      if tag != USER_OBJ && !(tag == USER && id == self) {
        if tag != USER && tag !in OTHER_CLASSES {
          assert !PosixHarmless(b, self, k);
          return false;
        }
        if HasBit(perm, POSIX_WRITE) {
          assert !PosixHarmless(b, self, k);
          return false;
        }
      }
      off, k := off + POSIX_ENTRY, k + 1;
    }
    ok := true;
  }
}
