/** Dotted-quad printing and parsing of IPv4 addresses (src/network/ip.c:165-237). */
module IpAddress {
  import opened Bytes

  predicate IsDigit(c: char) {
    '0' <= c <= '9'
  }

  function Digit(c: char): nat
    requires IsDigit(c)
  {
    c as int - '0' as int
  }

  function DigitChar(d: nat): char
    requires d < 10
  {
    ('0' as int + d) as char
  }

  function Address(a: byte, b: byte, c: byte, d: byte): u32 {
    ((a as int * 0x100 + b as int) * 0x100 + c as int) * 0x100 + d as int
  }

  // ---- What a string denotes ----

  /** The pieces of s between its dots; there is one more of them than dots. */
  function Split(s: string): (r: seq<string>)
    ensures |r| > 0
  {
    if s == "" then [""] else
      var r, c := Split(s[..|s| - 1]), s[|s| - 1];
      if c == '.' then r + [""] else r[..|r| - 1] + [r[|r| - 1] + [c]]
  }

  /** The decimal value of a piece; one without digits is 0. */
  function Number(p: string): nat {
    if p == "" then 0 else Number(p[..|p| - 1]) * 10 + if IsDigit(p[|p| - 1]) then Digit(p[|p| - 1]) else 0
  }

  ghost predicate AllDigits(p: string) {
    forall i :: 0 <= i < |p| ==> IsDigit(p[i])
  }

  /** A piece of decimal digits with a value below 256. */
  ghost predicate IsOctet(p: string) {
    AllDigits(p) && Number(p) <= 255
  }

  ghost predicate AllOctets(r: seq<string>) {
    forall i :: 0 <= i < |r| ==> IsOctet(r[i])
  }

  ghost predicate IsQuad(s: string) {
    |Split(s)| == 4 && AllOctets(Split(s))
  }

  /** The address that s denotes, 0 if it denotes none. */
  ghost function Denoted(s: string): u32 {
    var r := Split(s);
    if IsQuad(s) then Address(Number(r[0]), Number(r[1]), Number(r[2]), Number(r[3])) else 0
  }

  /** More characters do not repair a string that has gone wrong. */
  lemma {:induction false} WrongStays(s: string, n: nat)
    requires n <= |s| && IsQuad(s)
    ensures AllOctets(Split(s[..n])) && |Split(s[..n])| <= 4
    decreases |s| - n
  {
    if n == |s| {
      assert s[..n] == s;
    } else {
      WrongStays(s, n + 1);
      assert s[..n + 1][..n] == s[..n];
      var r, r2 := Split(s[..n]), Split(s[..n + 1]);
      forall i | 0 <= i < |r|
        ensures IsOctet(r[i])
      {
        if i == |r| - 1 && s[n] != '.' {
          var q := r2[i];
          assert q == r[i] + [s[n]] && IsOctet(q);
          assert q[..|q| - 1] == r[i];
          assert forall j :: 0 <= j < |r[i]| ==> q[j] == r[i][j];
        } else {
          assert r2[i] == r[i];
        }
      }
    }
  }

  lemma NotQuad(s: string, n: nat, k: nat)
    requires n <= |s| && k < |Split(s[..n])| && !IsOctet(Split(s[..n])[k])
    ensures !IsQuad(s)
  {
    if IsQuad(s) {
      WrongStays(s, n);
    }
  }

  /** The state of the parser after n characters: all pieces so far are octets, the last one still open. */
  ghost predicate Parsed(s: string, n: nat, octets: seq<byte>, index: nat, current: nat) {
    && n <= |s| && index <= |octets| == 4 && current <= 255
    && var r := Split(s[..n]);
       |r| == index + 1 && AllOctets(r) && current == Number(r[index])
       && forall j :: 0 <= j < index ==> octets[j] == Number(r[j])
  }

  lemma ParsedDot(s: string, n: nat, octets: seq<byte>, index: nat, current: byte)
    requires Parsed(s, n, octets, index, current) && n < |s| && index < 4 && s[n] == '.'
    ensures Parsed(s, n + 1, octets[index := current], index + 1, 0)
  {
    SplitStep(s, n);
  }

  lemma SplitStep(s: string, n: nat)
    requires n < |s|
    ensures var r := Split(s[..n]);
            Split(s[..n + 1]) == if s[n] == '.' then r + [""] else r[..|r| - 1] + [r[|r| - 1] + [s[n]]]
  {
    assert s[..n + 1][..n] == s[..n];
  }

  lemma NumberStep(p: string, c: char)
    ensures IsDigit(c) ==> Number(p + [c]) == Number(p) * 10 + Digit(c)
    ensures IsOctet(p + [c]) ==> IsDigit(c)
    ensures IsOctet(p) && IsDigit(c) && Number(p) * 10 + Digit(c) <= 255 ==> IsOctet(p + [c])
  {
    var q := p + [c];
    assert q[|p|] == c;
    assert q[..|p|] == p;
  }

  lemma ParsedDigit(s: string, n: nat, octets: seq<byte>, index: nat, current: nat)
    requires Parsed(s, n, octets, index, current) && n < |s| && IsDigit(s[n])
    ensures current * 10 + Digit(s[n]) <= 255 ==> Parsed(s, n + 1, octets, index, current * 10 + Digit(s[n]))
    ensures current * 10 + Digit(s[n]) > 255 ==> !IsQuad(s)
  {
    var p := Split(s[..n])[index];
    SplitStep(s, n);
    NumberStep(p, s[n]);
    if current * 10 + Digit(s[n]) > 255 {
      NotQuad(s, n + 1, index);
    }
  }

  lemma ParsedOther(s: string, n: nat, octets: seq<byte>, index: nat, current: nat)
    requires Parsed(s, n, octets, index, current) && n < |s| && !IsDigit(s[n]) && s[n] != '.'
    ensures !IsQuad(s)
  {
    SplitStep(s, n);
    NumberStep(Split(s[..n])[index], s[n]);
    NotQuad(s, n + 1, index);
  }

  lemma ParsedEnd(s: string, n: nat, octets: seq<byte>, index: nat, current: byte)
    requires Parsed(s, n, octets, index, current) && (index < 4 ==> n == |s|)
    ensures IsQuad(s) <==> index == 3
    ensures index == 3 ==> Denoted(s) == Address(octets[0], octets[1], octets[2], current)
  {
    if index < 4 {
      assert s[..n] == s;
    } else if IsQuad(s) {
      WrongStays(s, n);
    }
  }

  /** ip_str_to_addr (src/network/ip.c:165): 0 stands for every string that is no dotted quad, and for 0.0.0.0. */
  method StrToAddr(s: string) returns (addr: u32)
    ensures addr == Denoted(s)
  {
    var octets := new byte[4](_ => 0);
    var index, current, i := 0, 0, 0;
    assert s[..0] == "";
    while i < |s| && index < 4
      invariant index <= 4 && 0 <= current && Parsed(s, i, octets[..], index, current)
    {
      if IsDigit(s[i]) {
        ParsedDigit(s, i, octets[..], index, current);
        current := current * 10 + Digit(s[i]);
        if current > 255 {
          return 0;
        }
      } else if s[i] == '.' {
        ParsedDot(s, i, octets[..], index, current);
        ghost var before := octets[..];
        var octet: byte := current;
        octets[index] := octet;
        assert octets[..] == before[index := octet];
        index := index + 1;
        current := 0;
      } else {
        ParsedOther(s, i, octets[..], index, current);
        return 0;
      }
      i := i + 1;
    }
    ParsedEnd(s, i, octets[..], index, current);
    if index < 4 {
      octets[index] := current;
    }
    if index != 3 {
      return 0;
    }
    addr := Address(octets[0], octets[1], octets[2], octets[3]);
  }

  // ---- Printing ----

  lemma DigitsOf(v: byte)
    ensures v / 100 < 10 && 100 * (v / 100) + 10 * (v / 10 % 10) + v % 10 == v
  {
    assert v / 10 == 10 * (v / 100) + v / 10 % 10;
  }

  /** The decimal digits of an octet, without leading zeros. */
  function Decimal(v: byte): (p: string)
    ensures 1 <= |p| <= 3 && AllDigits(p) && Number(p) == v
  {
    if v >= 100 then
      DigitsOf(v);
      NumberOf3(v / 100, v / 10 % 10, v % 10);
      [DigitChar(v / 100), DigitChar(v / 10 % 10), DigitChar(v % 10)]
    else if v >= 10 then
      NumberOf3(0, v / 10, v % 10);
      [DigitChar(v / 10), DigitChar(v % 10)]
    else
      NumberOf1(v);
      [DigitChar(v)]
  }

  lemma NumberOf1(a: nat)
    requires a < 10
    ensures Number([DigitChar(a)]) == a
  {
    assert [DigitChar(a)][..0] == "";
  }

  lemma NumberOf3(a: nat, b: nat, c: nat)
    requires a < 10 && b < 10 && c < 10
    ensures Number([DigitChar(a), DigitChar(b), DigitChar(c)]) == 100 * a + 10 * b + c
    ensures Number([DigitChar(b), DigitChar(c)]) == 10 * b + c
  {
    NumberOf1(a);
    NumberOf1(b);
    assert [DigitChar(a), DigitChar(b), DigitChar(c)][..2] == [DigitChar(a), DigitChar(b)];
    assert [DigitChar(a), DigitChar(b)][..1] == [DigitChar(a)];
    assert [DigitChar(b), DigitChar(c)][..1] == [DigitChar(b)];
  }

  function Quad(addr: u32): string {
    Decimal(addr / 0x100_0000) + "." + Decimal(addr / 0x1_0000 % 0x100) + "." + Decimal(addr / 0x100 % 0x100) + "."
    + Decimal(addr % 0x100)
  }

  lemma TwoDigits(octet: byte, val: nat)
    requires val == octet % 100
    ensures val / 10 == octet / 10 % 10 < 10 && val % 10 == octet % 10
  {
  }

  /** The digits of one octet (src/network/ip.c:219-229). */
  method PutOctet(s: string, octet: byte) returns (t: string)
    ensures t == s + Decimal(octet)
  {
    var val: int := octet;
    t := s;
    if val >= 100 {
      t := t + [DigitChar(val / 100)];
      val := val % 100;
      TwoDigits(octet, val);
      t := t + [DigitChar(val / 10)];
      t := t + [DigitChar(val % 10)];
    } else if val >= 10 {
      t := t + [DigitChar(val / 10)];
      t := t + [DigitChar(val % 10)];
    } else {
      t := t + [DigitChar(val)];
    }
  }

  /** ip_addr_to_str (src/network/ip.c:202). */
  method AddrToStr(addr: u32) returns (s: string)
    ensures s == Quad(addr)
  {
    var octets: seq<byte> := [addr / 0x100_0000, addr / 0x1_0000 % 0x100, addr / 0x100 % 0x100, addr % 0x100];
    s := "";
    for i := 0 to 4
      invariant s == Printed(octets, i)
    {
      s := PutOctet(s, octets[i]);
      if i < 3 {
        s := s + ['.'];
      }
    }
    PrintedQuad(octets);
  }

  /** The first n octets, each but the fourth with its dot. */
  function Printed(octets: seq<byte>, n: nat): string
    requires n <= |octets| == 4
  {
    if n == 0 then "" else Printed(octets, n - 1) + Decimal(octets[n - 1]) + if n < 4 then "." else ""
  }

  lemma PrintedQuad(o: seq<byte>)
    requires |o| == 4
    ensures Printed(o, 4) == Decimal(o[0]) + "." + Decimal(o[1]) + "." + Decimal(o[2]) + "." + Decimal(o[3])
  {
    assert Printed(o, 1) == Decimal(o[0]) + ".";
    assert Printed(o, 2) == Decimal(o[0]) + "." + Decimal(o[1]) + ".";
    assert Printed(o, 3) == Decimal(o[0]) + "." + Decimal(o[1]) + "." + Decimal(o[2]) + ".";
  }

  // ---- The round trip ----

  /** Splitting at a piece without dots. */
  lemma {:induction false} SplitPiece(s: string, p: string)
    requires forall i :: 0 <= i < |p| ==> p[i] != '.'
    ensures var r := Split(s); Split(s + p) == r[..|r| - 1] + [r[|r| - 1] + p]
  {
    var r := Split(s);
    if p == "" {
      assert s + p == s;
      assert r[|r| - 1] + p == r[|r| - 1];
    } else {
      var front := p[..|p| - 1];
      SplitPiece(s, front);
      assert (s + p)[..|s + p| - 1] == s + front;
      assert (s + p)[|s + p| - 1] == p[|p| - 1] && front + [p[|p| - 1]] == p;
      assert r[|r| - 1] + front + [p[|p| - 1]] == r[|r| - 1] + p;
    }
  }

  lemma SplitDot(s: string)
    ensures Split(s + ".") == Split(s) + [""]
  {
    assert (s + ".")[..|s|] == s;
  }

  lemma SplitNext(s: string, r: seq<string>, p: string)
    requires Split(s) == r && AllDigits(p)
    ensures Split(s + "." + p) == r + [p]
  {
    SplitDot(s);
    SplitPiece(s + ".", p);
    assert (r + [""])[..|r|] == r;
    assert "" + p == p;
  }

  lemma SplitFour(a: string, b: string, c: string, d: string)
    requires AllDigits(a) && AllDigits(b) && AllDigits(c) && AllDigits(d)
    ensures Split(a + "." + b + "." + c + "." + d) == [a, b, c, d]
  {
    SplitPiece("", a);
    assert "" + a == a;
    assert Split(a) == [a];
    SplitNext(a, [a], b);
    SplitNext(a + "." + b, [a, b], c);
    SplitNext(a + "." + b + "." + c, [a, b, c], d);
  }

  lemma FromOctets(addr: u32)
    ensures Address(addr / 0x100_0000, addr / 0x1_0000 % 0x100, addr / 0x100 % 0x100, addr % 0x100) == addr
  {
  }

  lemma DenotesPieces(s: string, r: seq<string>)
    requires Split(s) == r && |r| == 4 && IsOctet(r[0]) && IsOctet(r[1]) && IsOctet(r[2]) && IsOctet(r[3])
    ensures IsQuad(s) && Denoted(s) == Address(Number(r[0]), Number(r[1]), Number(r[2]), Number(r[3]))
  {
  }

  /** What is printed is parsed back to the same address, for every address; so different addresses print
      differently. */
  lemma RoundTrip(addr: u32)
    ensures IsQuad(Quad(addr)) && Denoted(Quad(addr)) == addr
  {
    SplitFour(Decimal(addr / 0x100_0000), Decimal(addr / 0x1_0000 % 0x100), Decimal(addr / 0x100 % 0x100),
              Decimal(addr % 0x100));
    DenotesPieces(Quad(addr), [Decimal(addr / 0x100_0000), Decimal(addr / 0x1_0000 % 0x100),
                               Decimal(addr / 0x100 % 0x100), Decimal(addr % 0x100)]);
    FromOctets(addr);
  }

  /** One of the first n pieces is empty. */
  ghost predicate EmptyPiece(r: seq<string>, n: nat) {
    exists k :: 0 <= k < n <= |r| && r[k] == ""
  }

  /** A dot with nothing before it, or with another dot. */
  ghost predicate BareDot(s: string) {
    exists i :: 0 <= i < |s| && s[i] == '.' && (i == 0 || s[i - 1] == '.')
  }

  lemma BareDotNext(s: string)
    requires s != ""
    ensures var t := s[..|s| - 1];
            BareDot(s) <==> BareDot(t) || (s[|s| - 1] == '.' && (t == "" || t[|t| - 1] == '.'))
  {
    var t := s[..|s| - 1];
    assert forall i :: 0 <= i < |t| ==> s[i] == t[i];
  }

  lemma {:induction false} InnerPieces(s: string)
    ensures EmptyPiece(Split(s), |Split(s)| - 1) <==> BareDot(s)
    ensures Split(s)[|Split(s)| - 1] == "" <==> s == "" || s[|s| - 1] == '.'
  {
    if s != "" {
      var front, all := s[..|s| - 1], Split(s);
      var r := Split(front);
      InnerPieces(front);
      BareDotNext(s);
      assert forall k :: 0 <= k < |r| - 1 ==> all[k] == r[k];
      if s[|s| - 1] == '.' {
        assert all[|r| - 1] == r[|r| - 1];
      }
    }
  }

  /** A piece is empty exactly if the string is, or ends with a dot, or has a dot without a character before it. */
  lemma EmptyPieces(s: string)
    ensures EmptyPiece(Split(s), |Split(s)|) <==> s == "" || s[|s| - 1] == '.' || BareDot(s)
  {
    InnerPieces(s);
    var n := |Split(s)|;
    assert EmptyPiece(Split(s), n) <==> EmptyPiece(Split(s), n - 1) || Split(s)[n - 1] == "";
  }

  /** For an empty piece the parser reads a 0: it accepts strings that are no dotted quads. */
  lemma EmptyOctetAccepted()
    ensures IsQuad("1..2.3") && Denoted("1..2.3") == Address(1, 0, 2, 3)
  {
    var s := "1" + "." + "" + "." + "2" + "." + "3";
    SplitFour("1", "", "2", "3");
    assert Number("") == 0 && Number("1") == 1 && Number("2") == 2 && Number("3") == 3;
    DenotesPieces(s, ["1", "", "2", "3"]);
    assert s == "1..2.3";
  }

  lemma DotsAccepted()
    ensures IsQuad("...") && Denoted("...") == 0
  {
    var s := "" + "." + "" + "." + "" + "." + "";
    SplitFour("", "", "", "");
    DenotesPieces(s, ["", "", "", ""]);
    assert s == "...";
  }
}
