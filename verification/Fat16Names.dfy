/** 8.3 names: name_to_83 and name_matches of src/fs/fat16.c, as text functions and as the loops that compute them. */
module Fat16Names {
  import opened Bytes

  /** A C string without its terminator. */
  type CString = s: seq<byte> | 0 !in s

  const SPACE: byte := 0x20
  const DOT: byte := 0x2E

  function Up(c: byte): byte {
    if 0x61 <= c <= 0x7A then c - 32 else c
  }

  function Upper(s: seq<byte>): seq<byte> {
    seq(|s|, i requires 0 <= i < |s| => Up(s[i]))
  }

  /** Two bytes fold to the same one exactly if they are equal or a letter in both cases. */
  lemma UpSame(a: byte, b: byte)
    ensures Up(a) == Up(b) <==> a == b || (0x61 <= a <= 0x7A && b == a - 32) || (0x61 <= b <= 0x7A && a == b - 32)
  {
  }

  /** Texts that differ at most in the case of letters. */
  predicate SameLetters(s: seq<byte>, t: seq<byte>) {
    |s| == |t| && forall i :: 0 <= i < |s| ==>
      s[i] == t[i] || (0x61 <= s[i] <= 0x7A && t[i] == s[i] - 32) || (0x61 <= t[i] <= 0x7A && s[i] == t[i] - 32)
  }

  lemma UpperSame(s: seq<byte>, t: seq<byte>)
    ensures Upper(s) == Upper(t) <==> SameLetters(s, t)
  {
    if |s| == |t| {
      forall i | 0 <= i < |s|
        ensures Upper(s)[i] == Upper(t)[i] <==>
                s[i] == t[i] || (0x61 <= s[i] <= 0x7A && t[i] == s[i] - 32) ||
                    (0x61 <= t[i] <= 0x7A && s[i] == t[i] - 32)
      {
        UpSame(s[i], t[i]);
      }
    }
  }

  /** The first position at or after from that holds stop; |s| when there is none. */
  function IndexOf(s: seq<byte>, stop: byte, from: nat): (n: nat)
    requires from <= |s|
    ensures from <= n <= |s| && (n < |s| ==> s[n] == stop)
    ensures forall i :: from <= i < n ==> s[i] != stop
    decreases |s| - from
  {
    if from == |s| || s[from] == stop then from else IndexOf(s, stop, from + 1)
  }

  /** The part of s before the first occurrence of stop; all of s when there is none. */
  function Before(s: seq<byte>, stop: byte): seq<byte> {
    s[..IndexOf(s, stop, 0)]
  }

  /** The part of s after the first occurrence of stop; empty when there is none. */
  function After(s: seq<byte>, stop: byte): seq<byte> {
    var n := IndexOf(s, stop, 0);
    if n < |s| then s[n + 1..] else []
  }

  function Take(s: seq<byte>, n: nat): seq<byte> {
    if |s| <= n then s else s[..n]
  }

  function Pad(s: seq<byte>, n: nat): seq<byte>
    requires |s| <= n
  {
    s + seq(n - |s|, _ => SPACE)
  }

  /** The eleven bytes name_to_83 stores for a name. */
  function To83(name: seq<byte>): (r: seq<byte>)
    ensures |r| == 11
  {
    Pad(Upper(Take(Before(name, DOT), 8)), 8) + Pad(Upper(Take(After(name, DOT), 3)), 3)
  }

  /** The text name_matches rebuilds from a directory entry, read as a C string. */
  function EntryText(entry: seq<byte>): (r: seq<byte>)
    requires |entry| >= 11
    ensures 0 !in r
  {
    Before(Before(entry[..8], SPACE) +
           (if entry[8] != SPACE then [DOT] + Before(entry[8..11], SPACE) else []), 0)
  }

  /** Equality of the rebuilt text and a name, ignoring ASCII case. */
  predicate Matches(entry: seq<byte>, name: seq<byte>)
    requires |entry| >= 11
  {
    Upper(EntryText(entry)) == Upper(name)
  }

  /** At most eight characters before the first dot, one to three after it, and no space. */
  predicate Fits83(name: seq<byte>) {
    var b := Before(name, DOT);
    && |b| <= 8 && SPACE !in b
    && (DOT in name ==> 1 <= |After(name, DOT)| <= 3 && SPACE !in After(name, DOT))
  }

  lemma BeforeIsAll(s: seq<byte>, stop: byte)
    requires stop !in s
    ensures Before(s, stop) == s
  {
  }

  lemma BeforeAt(s: seq<byte>, stop: byte, n: nat)
    requires n <= |s| && (forall i :: 0 <= i < n ==> s[i] != stop) && (n < |s| ==> s[n] == stop)
    ensures IndexOf(s, stop, 0) == n
  {
  }

  lemma SplitAtDot(name: seq<byte>)
    ensures name == Before(name, DOT) + if DOT in name then [DOT] + After(name, DOT) else []
    ensures DOT in name <==> |Before(name, DOT)| < |name|
    ensures DOT !in Before(name, DOT)
  {
    var n := IndexOf(name, DOT, 0);
    assert n < |name| ==> name == name[..n] + [name[n]] + name[n + 1..];
  }

  /** Padding a half of the name with spaces does not change its text up to the first space. */
  lemma PadThenTrim(p: seq<byte>, n: nat)
    requires |p| <= n
    ensures Before(Pad(p, n), SPACE) == Before(p, SPACE)
  {
    BeforeAt(Pad(p, n), SPACE, IndexOf(p, SPACE, 0));
  }

  lemma StoredText(name: CString)
    ensures var b := Upper(Take(Before(name, DOT), 8));
            var e := Upper(Take(After(name, DOT), 3));
            EntryText(To83(name)) == Before(b, SPACE) +
              if e != [] && e[0] != SPACE then [DOT] + Before(e, SPACE) else []
  {
    var b := Upper(Take(Before(name, DOT), 8));
    var e := Upper(Take(After(name, DOT), 3));
    var f := To83(name);
    assert f[..8] == Pad(b, 8) && f[8..11] == Pad(e, 3) && f[8] == Pad(e, 3)[0];
    PadThenTrim(b, 8);
    PadThenTrim(e, 3);
    var text := Before(b, SPACE) + if e != [] && e[0] != SPACE then [DOT] + Before(e, SPACE) else [];
    assert 0 !in text by {
      assert forall i :: 0 <= i < |b| ==> b[i] != 0;
      assert forall i :: 0 <= i < |e| ==> e[i] != 0;
    }
    BeforeIsAll(text, 0);
  }

  lemma UpperFacts(s: seq<byte>)
    ensures SPACE in Upper(s) <==> SPACE in s
    ensures DOT in Upper(s) <==> DOT in s
    ensures Upper(Upper(s)) == Upper(s)
  {
    forall c: byte | c == SPACE || c == DOT
      ensures c in Upper(s) <==> c in s
    {
      if c in s {
        var i :| 0 <= i < |s| && s[i] == c;
        assert Upper(s)[i] == c;
      }
    }
  }

  lemma UpperConcat(s: seq<byte>, t: seq<byte>)
    ensures Upper(s + t) == Upper(s) + Upper(t)
  {
  }

  /** A name within the 8.3 limits is stored without loss, up to case. */
  lemma FittingNameIsKept(name: CString)
    requires Fits83(name)
    ensures EntryText(To83(name)) == Upper(name)
  {
    var b, e := Before(name, DOT), After(name, DOT);
    StoredText(name);
    SplitAtDot(name);
    UpperFacts(b);
    UpperFacts(e);
    BeforeIsAll(Upper(b), SPACE);
    BeforeIsAll(Upper(e), SPACE);
    if DOT in name {
      UpperConcat(b, [DOT] + e);
      UpperConcat([DOT], e);
    } else {
      assert name == b;
    }
  }

  /** If the text stored for a name still reads as that name, the name was within the 8.3 limits. */
  lemma KeptNameFits(name: CString)
    requires Matches(To83(name), name)
    ensures Fits83(name)
  {
    var b, e := Before(name, DOT), After(name, DOT);
    var sb, se := Upper(Take(b, 8)), Upper(Take(e, 3));
    StoredText(name);
    SplitAtDot(name);
    UpperFacts(b);
    UpperFacts(Take(b, 8));
    UpperFacts(Take(e, 3));
    var p, q := Before(sb, SPACE), Before(se, SPACE);
    var text := EntryText(To83(name));
    UpperConcat(p, if se != [] && se[0] != SPACE then [DOT] + q else []);
    if DOT in name {
      UpperConcat(b, [DOT] + e);
      assert Upper(name)[|b|] == DOT;
      UpperFacts(p);
      assert DOT !in Upper(p) && DOT in Upper(text);
      assert se != [] && se[0] != SPACE;
      assert text[|p|] == DOT && Upper(text)[|p|] == DOT;
      assert |p| >= |b|;
      assert |p| == |b|;
      assert sb == p;
      assert |text| == |name| && |q| == |e|;
      assert se == q;
      UpperFacts(e);
    } else {
      assert name == b;
      assert e == [];
      assert |p| == |b|;
    }
  }

  /** name_matches on the name_to_83 image: a fitting name is recognised under exactly its case variants,
      and a name that does not fit is not even recognised under itself. */
  lemma ShortNamesExactly(name: CString, other: CString)
    ensures Matches(To83(name), name) <==> Fits83(name)
    ensures Fits83(name) ==> (Matches(To83(name), other) <==> Upper(name) == Upper(other))
  {
    if Fits83(name) {
      FittingNameIsKept(name);
      UpperFacts(name);
    } else if Matches(To83(name), name) {
      KeptNameFits(name);
    }
  }

  /** Nine characters before the dot is already too many: two distinct names share one stored form. */
  lemma LongNamesCollide()
    ensures var nine: seq<byte> := seq(9, _ => 0x41);
            !Matches(To83(nine), nine) && Matches(To83(nine), nine[..8])
  {
    var nine: CString := seq(9, _ => 0x41);
    BeforeIsAll(nine, DOT);
    ShortNamesExactly(nine, nine);
    StoredText(nine);
    BeforeIsAll(Upper(nine[..8]), SPACE);
    assert EntryText(To83(nine)) == Upper(nine[..8]);
    UpperFacts(nine[..8]);
  }

  lemma To83Cells(name: seq<byte>, cells: seq<byte>)
    requires |cells| == 11
    requires forall j :: 0 <= j < 8 ==> cells[j] == if j < IndexOf(name, DOT, 0) then Up(name[j]) else SPACE
    requires forall j :: 8 <= j < 11 ==>
             cells[j] == if j < 8 + |After(name, DOT)| then Up(After(name, DOT)[j - 8]) else SPACE
    ensures cells == To83(name)
  {
  }

  /** The eleven bytes one by one: no small letter is stored. */
  lemma To83Bytes(name: seq<byte>)
    ensures var dot, cells := IndexOf(name, 0x2E, 0), To83(name);
            forall j :: 0 <= j < 11 ==>
              var i := if j < 8 then j else dot + 1 + (j - 8);
              && cells[j] == (if i >= (if j < 8 then dot else |name|) then 0x20
                              else if 0x61 <= name[i] <= 0x7A then name[i] - 32 else name[i])
              && !(0x61 <= cells[j] <= 0x7A)
  {
    var dot := IndexOf(name, DOT, 0);
    assert forall k :: 0 <= k < |After(name, DOT)| ==> After(name, DOT)[k] == name[dot + 1 + k];
  }

  /** The copying loop name_to_83 runs twice: up to `room` characters, stopping early at a dot for the base name. */
  method CopyUpper(name: CString, from: nat, stopAtDot: bool, name83: array<byte>, at: nat, room: nat) returns (p: nat)
    requires from <= |name| && at + room <= name83.Length
    modifies name83
    ensures var end := if stopAtDot then IndexOf(name, DOT, from) else |name|;
            p == if end <= from + room then end else from + room
    ensures forall j :: 0 <= j < name83.Length ==>
              name83[j] == if at <= j < at + (p - from) then Up(name[from + (j - at)]) else old(name83[j])
  {
    var i := 0;
    p := from;
    while p < |name| && (stopAtDot ==> name[p] != DOT) && i < room
      invariant 0 <= i <= room && p == from + i <= |name|
      invariant stopAtDot ==> p <= IndexOf(name, DOT, from)
      invariant forall j :: 0 <= j < name83.Length ==>
                  name83[j] == if at <= j < at + i then Up(name[from + (j - at)]) else old(name83[j])
    {
      name83[at + i] := Up(name[p]);
      p := p + 1;
      i := i + 1;
    }
  }

  /** name_to_83 (src/fs/fat16.c:123): up to eight characters before the first dot and up to three behind it,
      padded with spaces; small letters are stored as capitals. */
  method NameTo83(name: CString) returns (name83: array<byte>)
    ensures fresh(name83) && name83[..] == To83(name)
    ensures var dot := IndexOf(name, 0x2E, 0);
            forall j :: 0 <= j < 11 ==>
              var i := if j < 8 then j else dot + 1 + (j - 8);
              name83[j] == if i >= (if j < 8 then dot else |name|) then 0x20
                           else if 0x61 <= name[i] <= 0x7A then name[i] - 32 else name[i]
    ensures forall j :: 0 <= j < 11 ==> !(0x61 <= name83[j] <= 0x7A)
  {
    To83Bytes(name);
    name83 := new byte[11](_ => SPACE);
    var p := CopyUpper(name, 0, true, name83, 0, 8);
    while p < |name| && name[p] != DOT
      invariant p <= IndexOf(name, DOT, 0)
    {
      p := p + 1;
    }
    if p < |name| && name[p] == DOT {
      p := p + 1;
    }
    assert After(name, DOT) == name[p..];
    var _ := CopyUpper(name, p, false, name83, 8, 3);
    To83Cells(name, name83[..]);
  }

  /** name_matches (src/fs/fat16.c:91). */
  method NameMatches(entry: seq<byte>, name: CString) returns (r: bool)
    requires |entry| >= 11
    ensures r == Matches(entry, name)
    ensures var t := EntryText(entry);
            r <==> |t| == |name| && forall i :: 0 <= i < |t| ==>
              t[i] == name[i] || (0x61 <= t[i] <= 0x7A && name[i] == t[i] - 32) ||
                  (0x61 <= name[i] <= 0x7A && t[i] == name[i] - 32)
  {
    UpperSame(EntryText(entry), name);
    var entryName := new byte[13](_ => 0);
    var j := CopyTrimmed(entry[..8], entryName, 0);
    ghost var text := Before(entry[..8], SPACE);
    if entry[8] != SPACE {
      entryName[j] := DOT;
      ghost var half := entryName[..j + 1];
      var n := CopyTrimmed(entry[8..11], entryName, j + 1);
      assert entryName[..j + 1] == half;
      assert entryName[..n] == text + ([DOT] + Before(entry[8..11], SPACE));
      text, j := text + ([DOT] + Before(entry[8..11], SPACE)), n;
    }
    entryName[j] := 0;
    assert entryName[..j] == text;
    r := SameIgnoringCase(entryName, j, name);
    assert text == Before(entry[..8], SPACE) + if entry[8] != SPACE then [DOT] + Before(entry[8..11], SPACE) else [];
  }

  /** The two copying loops of name_matches: the bytes of one field up to its first space. */
  method CopyTrimmed(field: seq<byte>, entryName: array<byte>, at: nat) returns (end: nat)
    requires at + |field| <= entryName.Length
    modifies entryName
    ensures end == at + |Before(field, SPACE)|
    ensures entryName[at..end] == Before(field, SPACE)
    ensures forall j :: 0 <= j < entryName.Length && !(at <= j < end) ==> entryName[j] == old(entryName[j])
  {
    end := at;
    var i := 0;
    while i < |field| && field[i] != SPACE
      invariant 0 <= i <= IndexOf(field, SPACE, 0) && end == at + i
      invariant forall j :: 0 <= j < entryName.Length ==>
                  entryName[j] == if at <= j < end then field[j - at] else old(entryName[j])
    {
      entryName[end] := field[i];
      end := end + 1;
      i := i + 1;
    }
  }

  /** The comparison loop of name_matches on a C string held in a buffer. */
  method SameIgnoringCase(a: array<byte>, n: nat, name: CString) returns (r: bool)
    requires n < a.Length && a[n] == 0
    ensures r == (Upper(Before(a[..n], 0)) == Upper(name))
  {
    ghost var text := Before(a[..n], 0);
    var i := 0;
    while a[i] != 0 && i < |name|
      invariant 0 <= i <= |text| && i <= |name|
      invariant forall j :: 0 <= j < i ==> Up(text[j]) == Up(name[j])
      decreases |name| - i
    {
      var ca, cb := Up(a[i]), Up(name[i]);
      if ca != cb {
        assert Upper(text)[i] != Upper(name)[i];
        return false;
      }
      i := i + 1;
    }
    r := a[i] == 0 && i == |name|;
    if r {
      assert |text| == i;
    } else {
      assert |text| != |name|;
    }
  }
}
