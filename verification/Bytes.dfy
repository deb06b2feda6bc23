/** Bytes, machine words and the little-endian views the kernel takes of its buffers. */
module Bytes {

  type byte = b: int | 0 <= b < 0x100
  type u16 = w: int | 0 <= w < 0x1_0000
  type u32 = w: int | 0 <= w < 0x1_0000_0000
  type u64 = w: int | 0 <= w < 0x1_0000_0000_0000_0000

  const TWO_TO_THE_32: int := 0x1_0000_0000
  const TWO_TO_THE_64: int := 0x1_0000_0000_0000_0000

  datatype Option<+T> = None | Some(value: T)

  /** The 16-bit word an x86 load at offset i of s yields. */
  function Le16(s: seq<byte>, i: nat): u16
    requires i + 2 <= |s|
  {
    s[i] as int + 0x100 * s[i + 1] as int
  }

  function Le32(s: seq<byte>, i: nat): u32
    requires i + 4 <= |s|
  {
    Le16(s, i) as int + 0x1_0000 * Le16(s, i + 2) as int
  }

  /** s after an x86 16-bit store of v at offset i. */
  function PutLe16(s: seq<byte>, i: nat, v: u16): (t: seq<byte>)
    requires i + 2 <= |s|
    ensures |t| == |s|
    ensures Le16(t, i) == v
    ensures forall j :: 0 <= j < |s| && j != i && j != i + 1 ==> t[j] == s[j]
  {
    s[i := v % 0x100][i + 1 := v / 0x100]
  }

  function PutLe32(s: seq<byte>, i: nat, v: u32): (t: seq<byte>)
    requires i + 4 <= |s|
    ensures |t| == |s|
    ensures Le32(t, i) == v
    ensures forall j :: 0 <= j < |s| && !(i <= j < i + 4) ==> t[j] == s[j]
  {
    PutLe16(PutLe16(s, i, v % 0x1_0000), i + 2, v / 0x1_0000)
  }

  /** A store to one aligned word leaves the other aligned words alone. */
  lemma PutLe16Others(s: seq<byte>, i: nat, v: u16, j: nat)
    requires 2 * i + 2 <= |s| && 2 * j + 2 <= |s|
    ensures Le16(PutLe16(s, 2 * i, v), 2 * j) == if i == j then v else Le16(s, 2 * j)
  {
    if i != j {
      assert 2 * j != 2 * i && 2 * j != 2 * i + 1;
    }
  }
}
