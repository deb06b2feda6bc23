/** The option encoder and parser of src/network/dhcp.c (section 2 of RFC 2132). */
module Dhcp {
  import opened Bytes

  const PAD := 0
  const SUBNET_MASK := 1
  const ROUTER := 3
  const DNS_SERVER := 6
  const LEASE_TIME := 51
  const MSG_TYPE := 53
  const SERVER_ID := 54
  const RENEWAL_TIME := 58
  const REBINDING_TIME := 59
  const END := 255
  const OPTIONS_MAX := 312

  /** An option as its sender means it. */
  datatype DhcpOption = DhcpOption(code: byte, data: seq<byte>)

  /** The value at offset i in network byte order. */
  function Be32(s: seq<byte>, i: nat): u32
    requires i + 4 <= |s|
  {
    ((s[i] as int * 0x100 + s[i + 1] as int) * 0x100 + s[i + 2] as int) * 0x100 + s[i + 3] as int
  }

  // ---- What a list of options means ----

  /** The options a client stores. */
  predicate Recognised(code: byte) {
    code in {SUBNET_MASK, ROUTER, DNS_SERVER, LEASE_TIME, MSG_TYPE, SERVER_ID, RENEWAL_TIME, REBINDING_TIME}
  }

  /** A recognised option is taken only with an acceptable length. */
  predicate Accepts(code: byte, len: nat) {
    if code == MSG_TYPE then len == 1
    else if code == ROUTER || code == DNS_SERVER then len >= 4
    else Recognised(code) && len == 4
  }

  function ValueOf(code: byte, data: seq<byte>): u32
    requires Accepts(code, |data|)
  {
    if code == MSG_TYPE then data[0] else Be32(data, 0)
  }

  /** The value of the last option with this code and an acceptable length, or else the given one. */
  function LastValue(options: seq<DhcpOption>, code: byte, otherwise: u32): u32 {
    if options == [] then otherwise else
      var o := options[|options| - 1];
      if o.code == code && Accepts(code, |o.data|) then ValueOf(code, o.data)
      else LastValue(options[..|options| - 1], code, otherwise)
  }

  /** The last option with the code of an address or a time and an acceptable length gives the value: its first four
      bytes, the most significant first. */
  lemma {:induction false} LastOfFour(options: seq<DhcpOption>, code: byte, otherwise: u32, k: nat)
    requires k < |options| && options[k].code == code
    requires (code in {1, 51, 54, 58, 59} && |options[k].data| == 4) || (code in {3, 6} && |options[k].data| >= 4)
    requires forall j :: k < j < |options| && options[j].code == code ==> !Accepts(code, |options[j].data|)
    ensures var d := options[k].data;
            LastValue(options, code, otherwise) ==
            0x100_0000 * d[0] as int + 0x1_0000 * d[1] as int + 0x100 * d[2] as int + d[3] as int
  {
    if k < |options| - 1 {
      LastOfFour(options[..|options| - 1], code, otherwise, k);
    }
  }

  /** The message type is a single byte. */
  lemma {:induction false} LastOfOne(options: seq<DhcpOption>, otherwise: u32, k: nat)
    requires k < |options| && options[k].code == 53 && |options[k].data| == 1
    requires forall j :: k < j < |options| && options[j].code == 53 ==> |options[j].data| != 1
    ensures LastValue(options, 53, otherwise) == options[k].data[0]
  {
    if k < |options| - 1 {
      LastOfOne(options[..|options| - 1], otherwise, k);
    }
  }

  /** Without such an option the value stays. */
  lemma {:induction false} LastOfNone(options: seq<DhcpOption>, code: byte, otherwise: u32)
    requires forall j :: 0 <= j < |options| && options[j].code == code ==> !Accepts(code, |options[j].data|)
    ensures LastValue(options, code, otherwise) == otherwise
  {
    if options != [] {
      LastOfNone(options[..|options| - 1], code, otherwise);
    }
  }

  /** The acceptable lengths. */
  lemma AcceptedLengths(code: byte, len: nat)
    ensures Accepts(code, len) <==>
            (code == 53 && len == 1) || (code in {1, 51, 54, 58, 59} && len == 4) || (code in {3, 6} && len >= 4)
  {
  }

  // ---- The wire form ----

  function Wire(o: DhcpOption): seq<byte>
    requires Sendable(o)
  {
    [o.code, |o.data|] + o.data
  }

  predicate Sendable(o: DhcpOption) {
    o.code != PAD && o.code != END && |o.data| < 0x100
  }

  function WireAll(options: seq<DhcpOption>): seq<byte>
    requires forall i :: 0 <= i < |options| ==> Sendable(options[i])
  {
    if options == [] then [] else WireAll(options[..|options| - 1]) + Wire(options[|options| - 1])
  }

  /** The options that a parser has found, and those it finds from offset i on: pads are skipped, and an end mark or an
      option that is cut off ends the list. */
  function Scan(s: seq<byte>, i: nat, found: seq<DhcpOption>): seq<DhcpOption>
    requires i <= |s|
    decreases |s| - i
  {
    if i == |s| then found
    else if s[i] == PAD then Scan(s, i + 1, found)
    else if s[i] == END || i + 1 == |s| || i + 2 + s[i + 1] > |s| then found
    else Scan(s, i + 2 + s[i + 1], found + [DhcpOption(s[i], s[i + 2..i + 2 + s[i + 1]])])
  }

  /** A byte of 0 is skipped, one of 255 ends the list, and so does an option that is cut off. */
  lemma ScanMarks(s: seq<byte>, i: nat, found: seq<DhcpOption>)
    requires i < |s|
    ensures s[i] == 0 ==> Scan(s, i, found) == Scan(s, i + 1, found)
    ensures s[i] == 255 ==> Scan(s, i, found) == found
    ensures 0 < s[i] < 255 && (i + 1 == |s| || i + 2 + s[i + 1] > |s|) ==> Scan(s, i, found) == found
    ensures 0 < s[i] < 255 && i + 1 < |s| && i + 2 + s[i + 1] <= |s| ==>
              Scan(s, i, found) ==
              Scan(s, i + 2 + s[i + 1], found + [DhcpOption(s[i], s[i + 2..i + 2 + s[i + 1]])])
  {
  }

  /** What has been sent is found, whatever follows the end mark. */
  lemma {:induction false} ScanWire(before: seq<byte>, options: seq<DhcpOption>, rest: seq<byte>,
                                    found: seq<DhcpOption>)
    requires forall i :: 0 <= i < |options| ==> Sendable(options[i])
    ensures Scan(before + WireAll(options) + [END] + rest, |before|, found) == found + options
    decreases |options|
  {
    var s := before + WireAll(options) + [END] + rest;
    if options == [] {
      assert s[|before|] == END;
    } else {
      var o, next := options[0], options[1..];
      var past := before + Wire(o);
      WireFirst(options);
      Associate(before, Wire(o), WireAll(next));
      Associate(past, WireAll(next), [END]);
      Associate(past, WireAll(next) + [END], rest);
      WireStep(before, o, WireAll(next) + [END] + rest, s, found);
      ScanWire(past, next, rest, found + [o]);
      Associate(found, [o], next);
    }
  }

  lemma WireStep(before: seq<byte>, o: DhcpOption, rest: seq<byte>, s: seq<byte>, found: seq<DhcpOption>)
    requires Sendable(o) && s == before + Wire(o) + rest
    ensures Scan(s, |before|, found) == Scan(s, |before + Wire(o)|, found + [o])
  {
    assert s[|before|] == o.code && s[|before| + 1] == |o.data|;
    assert s[|before| + 2..|before| + 2 + |o.data|] == o.data;
  }

  lemma {:induction false} WireFirst(options: seq<DhcpOption>)
    requires options != [] && forall i :: 0 <= i < |options| ==> Sendable(options[i])
    ensures WireAll(options) == Wire(options[0]) + WireAll(options[1..])
  {
    if |options| == 1 {
      assert options[..0] == [] && options[1..] == [];
    } else {
      var front, rest, last := options[..|options| - 1], options[1..], options[|options| - 1];
      WireFirst(front);
      assert front[1..] == rest[..|rest| - 1] && rest[|rest| - 1] == last && front[0] == options[0];
      assert WireAll(rest) == WireAll(front[1..]) + Wire(last);
      Associate(Wire(options[0]), WireAll(front[1..]), Wire(last));
    }
  }

  lemma Associate<T>(a: seq<T>, b: seq<T>, c: seq<T>)
    ensures (a + b) + c == a + (b + c)
  {
  }

  // ---- The encoder ----

  /** dhcp_add_option (src/network/dhcp.c:65): returns the new offset, or None when the option would reach the end of
      the field; without data only the code and the length are stored. */
  method AddOption(options: array<byte>, offset: nat, code: byte, len: byte, data: Option<seq<byte>>)
    returns (r: Option<nat>)
    requires options.Length == OPTIONS_MAX && offset <= OPTIONS_MAX
    requires data.Some? ==> |data.value| >= len
    modifies options
    ensures r.Some? <==> offset + 2 + len < 312
    ensures r == None ==> options[..] == old(options[..])
    ensures r.Some? ==>
      && r.value == offset + 2 + (if data.Some? then len else 0)
      && options[..] == old(options[..offset]) + [code, len] + (if data.Some? then data.value[..len] else [])
                        + old(options[r.value..])
  {
    if offset + 2 + len >= OPTIONS_MAX {
      return None;
    }
    var at := offset;
    options[at] := code;
    at := at + 1;
    options[at] := len;
    at := at + 1;
    if data.Some? && len > 0 {
      for i := 0 to len
        invariant at == offset + 2 + i
        invariant options[..offset] == old(options[..offset]) && options[offset] == code && options[offset + 1] == len
        invariant options[offset + 2..at] == data.value[..i]
        invariant options[at..] == old(options[at..])
      {
        options[at] := data.value[i];
        at := at + 1;
      }
    }
    assert options[..] == options[..offset] + [options[offset], options[offset + 1]] + options[offset + 2..at] +
        options[at..];
    r := Some(at);
  }

  /** The way a request is built: the options in turn, then the end mark (src/network/dhcp.c:108-133). */
  method BuildOptions(field: array<byte>, options: seq<DhcpOption>) returns (end: Option<nat>)
    requires field.Length == OPTIONS_MAX && forall i :: 0 <= i < |options| ==> Sendable(options[i])
    modifies field
    ensures end.Some? <==> |WireAll(options)| + 2 < 312
    ensures end.Some? ==>
      && end.value == |WireAll(options)| + 2
      && field[..end.value] == WireAll(options) + [255, 0]
  {
    var at := 0;
    for i := 0 to |options|
      invariant at == |WireAll(options[..i])| < OPTIONS_MAX && field[..at] == WireAll(options[..i])
    {
      var o := options[i];
      assert options[..i + 1][..i] == options[..i];
      WireGrows(options, i + 1);
      var r := AddOption(field, at, o.code, |o.data|, Some(o.data));
      if r == None {
        return None;
      }
      at := r.value;
      assert field[..at] == WireAll(options[..i + 1]);
    }
    assert options[..|options|] == options;
    end := AddOption(field, at, END, 0, None);
    if end.Some? {
      assert field[..end.value] == WireAll(options) + [END, 0];
    }
  }

  lemma {:induction false} WireGrows(options: seq<DhcpOption>, n: nat)
    requires n <= |options| && forall i :: 0 <= i < |options| ==> Sendable(options[i])
    ensures |WireAll(options[..n])| <= |WireAll(options)|
    decreases |options| - n
  {
    if n == |options| {
      assert options[..n] == options;
    } else {
      WireGrows(options, n + 1);
      assert options[..n + 1][..n] == options[..n];
    }
  }

  // ---- The parser ----

  /** The fields of a client that options set (src/network/dhcp.h:75-89). */
  class Client {
    var serverIp: u32
    var subnetMask: u32
    var gateway: u32
    var dnsServer: u32
    var leaseTime: u32
    var renewalTime: u32
    var rebindingTime: u32

    /** The field that an option sets. */
    function Field(code: byte): u32
      reads this
    {
      if code == SERVER_ID then serverIp
      else if code == SUBNET_MASK then subnetMask
      else if code == ROUTER then gateway
      else if code == DNS_SERVER then dnsServer
      else if code == LEASE_TIME then leaseTime
      else if code == RENEWAL_TIME then renewalTime
      else if code == REBINDING_TIME then rebindingTime
      else 0
    }

    /** The switch of dhcp_parse_options (src/network/dhcp.c:249-304): data is what the option holds. */
    method Store(code: byte, data: seq<byte>, msgType: byte) returns (msgType2: byte)
      requires |data| < 0x100
      modifies this
      ensures forall c: byte :: Recognised(c) && c != MSG_TYPE ==>
                Field(c) == if c == code && Accepts(c, |data|) then ValueOf(c, data) else old(Field(c))
      ensures msgType2 == if code == MSG_TYPE && Accepts(code, |data|) then data[0] else msgType
    {
      msgType2 := msgType;
      if code == MSG_TYPE {
        if |data| == 1 {
          msgType2 := data[0];
        }
      } else if code == SUBNET_MASK {
        if |data| == 4 {
          subnetMask := Be32(data, 0);
        }
      } else if code == ROUTER {
        if |data| >= 4 {
          gateway := Be32(data, 0);
        }
      } else if code == DNS_SERVER {
        if |data| >= 4 {
          dnsServer := Be32(data, 0);
        }
      } else if code == LEASE_TIME {
        if |data| == 4 {
          leaseTime := Be32(data, 0);
        }
      } else if code == SERVER_ID {
        if |data| == 4 {
          serverIp := Be32(data, 0);
        }
      } else if code == RENEWAL_TIME {
        if |data| == 4 {
          renewalTime := Be32(data, 0);
        }
      } else if code == REBINDING_TIME {
        if |data| == 4 {
          rebindingTime := Be32(data, 0);
        }
      }
    }

    /** dhcp_parse_options (src/network/dhcp.c:229) on any bytes: only the first len count, and each recognised field
        gets the value of the last acceptable option found there, or stays. */
    method ParseOptions(options: array<byte>, len: nat) returns (msgType: byte)
      requires len <= options.Length
      modifies this
      ensures forall c: byte :: Recognised(c) && c != MSG_TYPE ==>
                Field(c) == LastValue(Scan(options[..len], 0, []), c, old(Field(c)))
      ensures msgType == LastValue(Scan(options[..len], 0, []), MSG_TYPE, 0)
      ensures var found := Scan(options[..len], 0, []);
              && subnetMask == LastValue(found, 1, old(subnetMask)) && gateway == LastValue(found, 3, old(gateway))
              && dnsServer == LastValue(found, 6, old(dnsServer)) && leaseTime == LastValue(found, 51, old(leaseTime))
              && msgType == LastValue(found, 53, 0) && serverIp == LastValue(found, 54, old(serverIp))
              && renewalTime == LastValue(found, 58, old(renewalTime))
              && rebindingTime == LastValue(found, 59, old(rebindingTime))
    {
      ghost var s := options[..len];
      ghost var found: seq<DhcpOption> := [];
      var i := 0;
      msgType := 0;
      while i < len
        invariant i <= len && Scan(s, 0, []) == Scan(s, i, found)
        invariant forall c: byte :: Recognised(c) && c != MSG_TYPE ==> Field(c) == LastValue(found, c, old(Field(c)))
        invariant msgType == LastValue(found, MSG_TYPE, 0)
        decreases len - i
      {
        ghost var start := i;
        var code := options[i];
        i := i + 1;
        if code == PAD {
          continue;
        }
        if code == END {
          assert Scan(s, 0, []) == found;
          break;
        }
        if i >= len {
          assert Scan(s, 0, []) == found;
          break;
        }
        var optionLen := options[i];
        i := i + 1;
        if i + optionLen > len {
          assert Scan(s, 0, []) == found;
          break;
        }
        var data := options[i..i + optionLen];
        ScanStep(s, start, found, code, data);
        ghost var before := found;
        found := found + [DhcpOption(code, data)];
        LastStep(before, code, data);
        msgType := Store(code, data, msgType);
        i := i + optionLen;
      }
      assert Scan(s, 0, []) == found;
      assert Field(1) == subnetMask && Field(3) == gateway && Field(6) == dnsServer && Field(51) == leaseTime;
      assert Field(54) == serverIp && Field(58) == renewalTime && Field(59) == rebindingTime;
    }
  }

  lemma ScanStep(s: seq<byte>, i: nat, found: seq<DhcpOption>, code: byte, data: seq<byte>)
    requires i + 2 + |data| <= |s| && s[i] == code && code != PAD && code != END
    requires s[i + 1] == |data| && s[i + 2..i + 2 + |data|] == data
    ensures Scan(s, i, found) == Scan(s, i + 2 + |data|, found + [DhcpOption(code, data)])
  {
  }

  lemma LastStep(found: seq<DhcpOption>, code: byte, data: seq<byte>)
    ensures forall c: byte, x: u32 :: LastValue(found + [DhcpOption(code, data)], c, x) ==
              if c == code && Accepts(c, |data|) then ValueOf(c, data) else LastValue(found, c, x)
  {
    assert (found + [DhcpOption(code, data)])[..|found|] == found;
  }

  /** From one client to another: what the sender's options say last is what the receiver stores, whatever the rest of
      the field holds. */
  method Exchange(field: array<byte>, options: seq<DhcpOption>, client: Client) returns (sent: bool, msgType: byte)
    requires field.Length == OPTIONS_MAX && forall i :: 0 <= i < |options| ==> Sendable(options[i])
    modifies field, client
    ensures sent <==> |WireAll(options)| + 2 < 312
    ensures sent ==> msgType == LastValue(options, MSG_TYPE, 0)
    ensures sent ==> forall c: byte :: Recognised(c) && c != MSG_TYPE ==>
                       client.Field(c) == LastValue(options, c, old(client.Field(c)))
  {
    msgType := 0;
    var end := BuildOptions(field, options);
    sent := end.Some?;
    if sent {
      ghost var rest := [0] + field[end.value..];
      ScanWire([], options, rest, []);
      assert [] + options == options;
      assert field[..field.Length] == [] + WireAll(options) + [END] + rest;
      msgType := client.ParseOptions(field, field.Length);
    }
  }
}
