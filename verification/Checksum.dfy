/** The Internet checksum of src/network/ip.c:138-163, taken over little-endian words. */
module Checksum {
  import opened Bytes

  const HEADER_LEN := 20
  const CHECKSUM_AT := 10
  const WORDS := HEADER_LEN / 2

  /** The sum of the first n little-endian words of h. */
  function LeSum(h: seq<byte>, n: nat): nat
    requires 2 * n <= |h|
  {
    if n == 0 then 0 else LeSum(h, n - 1) + Le16(h, 2 * n - 2)
  }

  /** The word at offset i in network byte order. */
  function Be16(h: seq<byte>, i: nat): u16
    requires i + 2 <= |h|
  {
    0x100 * h[i] as int + h[i + 1] as int
  }

  /** The sum of the first n words in network byte order. */
  function BeSum(h: seq<byte>, n: nat): nat
    requires 2 * n <= |h|
  {
    if n == 0 then 0 else BeSum(h, n - 1) + Be16(h, 2 * n - 2)
  }

  /** The ones-complement sum of words that add up to s: the residue mod 65535, where only nothing gives 0. */
  function OnesSum(s: nat): (r: u16)
    ensures r as int % 0xFFFF == s % 0xFFFF && (r == 0 <==> s == 0)
  {
    if s == 0 then 0 else (s - 1) % 0xFFFF + 1
  }

  /** Those two properties say all about it. */
  lemma OnesSumUnique(s: nat, r: int)
    requires 0 <= r <= 0xFFFF && r % 0xFFFF == s % 0xFFFF && (r == 0 <==> s == 0)
    ensures r == OnesSum(s)
  {
  }

  function Complement(v: u16): u16 {
    0xFFFF - v
  }

  /** v with its bytes exchanged (htons). */
  function Swap(v: u16): u16 {
    v % 0x100 * 0x100 + v / 0x100
  }

  /** The carry fold (src/network/ip.c:147-150). */
  method Fold(total: u32) returns (sum: u32)
    ensures sum == OnesSum(total)
  {
    sum := total;
    while sum / 0x1_0000 != 0
      invariant sum % 0xFFFF == total % 0xFFFF && (sum == 0 <==> total == 0)
      decreases sum
    {
      FoldStep(sum);
      sum := sum % 0x1_0000 + sum / 0x1_0000;
    }
    OnesSumUnique(total, sum);
  }

  lemma FoldStep(sum: nat)
    requires sum >= 0x1_0000
    ensures var next := sum % 0x1_0000 + sum / 0x1_0000;
            0 < next < sum && next % 0xFFFF == sum % 0xFFFF
  {
    var high := sum / 0x1_0000;
    assert sum == sum % 0x1_0000 + high + high * 0xFFFF;
    Residue(sum % 0x1_0000 + high, high);
  }

  lemma {:induction false} Residue(a: nat, k: nat)
    ensures (a + k * 0xFFFF) % 0xFFFF == a % 0xFFFF
  {
    if k > 0 {
      Residue(a, k - 1);
      assert a + k * 0xFFFF == (a + (k - 1) * 0xFFFF) + 0xFFFF;
    }
  }

  lemma {:induction false} LeSumBound(h: seq<byte>, n: nat)
    requires 2 * n <= |h|
    ensures LeSum(h, n) <= n * 0xFFFF
  {
    if n > 0 {
      LeSumBound(h, n - 1);
    }
  }

  /** The ten words of a header, byte by byte. */
  lemma TenWords(h: seq<byte>)
    requires |h| == 20
    ensures LeSum(h, WORDS) == h[0] as int + h[2] + h[4] + h[6] + h[8] + h[10] + h[12] + h[14] + h[16] + h[18] +
            0x100 * (h[1] as int + h[3] + h[5] + h[7] + h[9] + h[11] + h[13] + h[15] + h[17] + h[19])
  {
    assert LeSum(h, 0) == 0 && LeSum(h, 1) == LeSum(h, 0) + Le16(h, 0);
    assert LeSum(h, 2) == LeSum(h, 1) + Le16(h, 2) && LeSum(h, 3) == LeSum(h, 2) + Le16(h, 4);
    assert LeSum(h, 4) == LeSum(h, 3) + Le16(h, 6) && LeSum(h, 5) == LeSum(h, 4) + Le16(h, 8);
    assert LeSum(h, 6) == LeSum(h, 5) + Le16(h, 10) && LeSum(h, 7) == LeSum(h, 6) + Le16(h, 12);
    assert LeSum(h, 8) == LeSum(h, 7) + Le16(h, 14) && LeSum(h, 9) == LeSum(h, 8) + Le16(h, 16);
    assert LeSum(h, 10) == LeSum(h, 9) + Le16(h, 18);
  }

  /** ip_checksum (src/network/ip.c:138): the complement of the carry-folded sum of the ten little-endian words. */
  method IpChecksum(header: array<byte>) returns (checksum: u16)
    requires header.Length == 20
    ensures checksum == Complement(OnesSum(LeSum(header[..], WORDS)))
    ensures var low := header[0] as int + header[2] + header[4] + header[6] + header[8] + header[10] + header[12] +
                       header[14] + header[16] + header[18];
            var high := header[1] as int + header[3] + header[5] + header[7] + header[9] + header[11] + header[13] +
                        header[15] + header[17] + header[19];
            var s := low + 0x100 * high;
            checksum == 0xFFFF - if s == 0 then 0 else (s - 1) % 0xFFFF + 1
  {
    var sum: u32 := 0;
    for i := 0 to HEADER_LEN / 2
      invariant sum == LeSum(header[..], i)
    {
      LeSumBound(header[..], i + 1);
      sum := sum + Le16(header[..], 2 * i);
    }
    TenWords(header[..]);
    sum := Fold(sum);
    checksum := (0xFFFF_FFFF - sum) % 0x1_0000;
  }

  /** ip_validate_checksum (src/network/ip.c:156): the field is zeroed while the checksum is recomputed, and put
      back. */
  method IpValidateChecksum(header: array<byte>) returns (ok: bool)
    requires header.Length == HEADER_LEN
    modifies header
    ensures header[..] == old(header[..])
    ensures ok <==> Accepted(header[..])
  {
    var original0, original1 := header[CHECKSUM_AT], header[CHECKSUM_AT + 1];
    ghost var before := header[..];
    header[CHECKSUM_AT], header[CHECKSUM_AT + 1] := 0, 0;
    assert header[..] == PutLe16(before, CHECKSUM_AT, 0);
    var calculated := IpChecksum(header);
    header[CHECKSUM_AT], header[CHECKSUM_AT + 1] := original0, original1;
    assert header[..] == before;
    ok := original0 as int + 0x100 * original1 as int == calculated;
  }

  /** The stored checksum is the one of the header with a zero in its place. */
  predicate Accepted(h: seq<byte>)
    requires |h| == HEADER_LEN
  {
    Le16(h, CHECKSUM_AT) == Complement(OnesSum(LeSum(PutLe16(h, CHECKSUM_AT, 0), WORDS)))
  }

  /** A field contributes its value to the sum. */
  lemma {:induction false} SumWithout(h: seq<byte>, n: nat)
    requires |h| == HEADER_LEN && n <= WORDS
    ensures LeSum(h, n) == LeSum(PutLe16(h, CHECKSUM_AT, 0), n) + if n > 5 then Le16(h, CHECKSUM_AT) else 0
  {
    if n > 0 {
      SumWithout(h, n - 1);
      PutLe16Others(h, 5, 0, n - 1);
    }
  }

  /** A header is accepted if and only if its words, with the checksum, have the ones-complement sum 0xFFFF, except that
      a stored checksum of 0xFFFF is accepted only in an otherwise zero header. */
  lemma AcceptedExactly(h: seq<byte>)
    requires |h| == HEADER_LEN
    ensures Accepted(h) <==>
            OnesSum(LeSum(h, WORDS)) == 0xFFFF
            && (Le16(h, CHECKSUM_AT) != 0xFFFF || LeSum(PutLe16(h, CHECKSUM_AT, 0), WORDS) == 0)
  {
    var others, stored := LeSum(PutLe16(h, CHECKSUM_AT, 0), WORDS), Le16(h, CHECKSUM_AT);
    SumWithout(h, WORDS);
    assert LeSum(h, WORDS) == others + stored;
    CheckSums(others, stored);
    assert Accepted(h) <==> stored == Complement(OnesSum(others));
  }

  lemma CheckSums(others: nat, stored: u16)
    ensures stored == Complement(OnesSum(others)) <==>
            OnesSum(others + stored) == 0xFFFF && (stored != 0xFFFF || others == 0)
  {
    var f := OnesSum(others);
    assert (others + stored) % 0xFFFF == (f + stored) % 0xFFFF;
  }

  /** The header that RFC 1071 accepts and the code does not: version, a checksum of 0xFFFF and a word that makes up the
      sum. */
  lemma AllOnesRejected(h: seq<byte>)
    requires h == [0xFF, 0xFF, 0, 0, 0, 0, 0, 0, 0, 0, 0xFF, 0xFF, 0, 0, 0, 0, 0, 0, 0, 0]
    ensures |h| == HEADER_LEN && OnesSum(LeSum(h, WORDS)) == 0xFFFF && !Accepted(h)
  {
    SumWithout(h, WORDS);
    FirstWord(h, WORDS);
    AcceptedExactly(h);
  }

  lemma {:induction false} FirstWord(h: seq<byte>, n: nat)
    requires h == [0xFF, 0xFF, 0, 0, 0, 0, 0, 0, 0, 0, 0xFF, 0xFF, 0, 0, 0, 0, 0, 0, 0, 0] && 1 <= n <= WORDS
    ensures LeSum(h, n) == if n > 5 then 0x1_FFFE else 0xFFFF
  {
    if n > 1 {
      FirstWord(h, n - 1);
    }
  }

  // ---- Byte order ----

  ghost predicate Congruent(a: nat, b: nat) {
    a % 0xFFFF == b % 0xFFFF
  }

  lemma CongruentBy(a: nat, b: nat, k: nat)
    requires a == b + k * 0xFFFF
    ensures Congruent(a, b)
  {
    Residue(b, k);
  }

  lemma CongruentMul(a: nat, b: nat)
    requires Congruent(a, b)
    ensures Congruent(0x100 * a, 0x100 * b)
  {
    var k := a / 0xFFFF - b / 0xFFFF;
    assert a == b + k * 0xFFFF;
    if k >= 0 {
      CongruentBy(0x100 * a, 0x100 * b, 0x100 * k);
    } else {
      CongruentBy(0x100 * b, 0x100 * a, 0x100 * -k);
    }
  }

  lemma CongruentAdd(a: nat, b: nat, c: nat, d: nat)
    requires Congruent(a, b) && Congruent(c, d)
    ensures Congruent(a + c, b + d)
  {
  }

  /** Exchanging the bytes of a word multiplies it by 256 modulo 65535. */
  lemma SwapCongruent(v: u16)
    ensures Congruent(0x100 * v, Swap(v))
  {
    CongruentBy(0x100 * v, Swap(v), v / 0x100);
  }

  lemma SwapBytes(low: byte, high: byte)
    ensures Swap(high * 0x100 + low) == low * 0x100 + high
  {
  }

  lemma SwapWord(v: u16)
    ensures (Swap(v) == 0 <==> v == 0) && Swap(Complement(v)) == Complement(Swap(v)) && Swap(Swap(v)) == v
  {
    var low, high := v % 0x100, v / 0x100;
    SwapBytes(low, high);
    SwapBytes(high, low);
    SwapBytes(0xFF - low, 0xFF - high);
    assert Complement(v) == (0xFF - high) * 0x100 + (0xFF - low);
  }

  lemma SwapLe(h: seq<byte>, i: nat)
    requires i + 2 <= |h|
    ensures Swap(Le16(h, i)) == Be16(h, i)
  {
  }

  lemma {:induction false} BeSumCongruent(h: seq<byte>, n: nat)
    requires 2 * n <= |h|
    ensures Congruent(0x100 * LeSum(h, n), BeSum(h, n))
  {
    if n > 0 {
      BeSumCongruent(h, n - 1);
      SwapCongruent(Le16(h, 2 * n - 2));
      SwapLe(h, 2 * n - 2);
      CongruentAdd(0x100 * LeSum(h, n - 1), BeSum(h, n - 1), 0x100 * Le16(h, 2 * n - 2), Be16(h, 2 * n - 2));
    }
  }

  lemma {:induction false} BeSumZero(h: seq<byte>, n: nat)
    requires 2 * n <= |h|
    ensures BeSum(h, n) == 0 <==> LeSum(h, n) == 0
  {
    if n > 0 {
      BeSumZero(h, n - 1);
      SwapLe(h, 2 * n - 2);
      SwapWord(Le16(h, 2 * n - 2));
    }
  }

  lemma SwapSums(le: nat, be: nat)
    requires Congruent(0x100 * le, be) && (be == 0 <==> le == 0)
    ensures OnesSum(be) == Swap(OnesSum(le))
  {
    var f := OnesSum(le);
    CongruentMul(f, le);
    SwapCongruent(f);
    SwapWord(f);
    OnesSumUnique(be, Swap(f));
  }

  /** Whatever the byte order of the machine, the checksum it stores has the same bytes in memory: the little-endian
      result is the byte swap of the big-endian one. */
  lemma ByteOrderIndependent(h: seq<byte>, n: nat)
    requires 2 * n <= |h|
    ensures Complement(OnesSum(LeSum(h, n))) == Swap(Complement(OnesSum(BeSum(h, n))))
  {
    BeSumCongruent(h, n);
    BeSumZero(h, n);
    SwapSums(LeSum(h, n), BeSum(h, n));
    SwapWord(OnesSum(LeSum(h, n)));
    SwapWord(OnesSum(BeSum(h, n)));
  }
}
