/** What several parts share: a value that may be missing, and bytes. */
module Basics {
  datatype Option<+T> = None | Some(value: T)

  type Byte = b: int | 0 <= b < 256 witness 0
  type Bytes = seq<Byte>

  function Zeros(n: nat): (b: Bytes)
    ensures |b| == n
  {
    seq(n, i => 0)
  }

  function MinNat(a: nat, b: nat): nat {
    if a < b then a else b
  }
}
