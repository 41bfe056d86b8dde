/** The CoAP request builder and payload parser, in both copies that the system has, following the
    packet layout of sections 3 and 3.1 of RFC 7252. */
module CoapCodec {
  import opened Common

  const PAYLOAD_MARKER: byte := 0xff

  // ----- Encoding -----

  datatype Nibble = Nibble(value: int, ext: seq<byte>)

  /** The nibble and the extension bytes of an option delta or length; the two-byte extension
      keeps only sixteen bits, as the conversions to byte do. */
  function EncodeNibble(v: nat): Nibble {
    if v < 13 then Nibble(v, [])
    else if v < 269 then Nibble(13, [v - 13])
    else var n := v - 269; Nibble(14, [n / 256 % 256, n % 256])
  }

  function EncodeOption(delta: nat, val: seq<byte>): seq<byte> {
    var d, l := EncodeNibble(delta), EncodeNibble(|val|);
    [(d.value * 16 + l.value) % 256] + d.ext + l.ext + val
  }

  function MethodCode(m: string): byte {
    if m == "POST" then 2 else if m == "PUT" then 3 else if m == "DELETE" then 4 else 1
  }

  const URI_PATH: nat := 11

  function RequestPacket(m: string, path: seq<byte>, payload: seq<byte>, msgId: nat): seq<byte> {
    [0x40, MethodCode(m), msgId / 256 % 256, msgId % 256]
    + EncodeOption(URI_PATH, path) + (if payload == [] then [] else [PAYLOAD_MARKER] + payload)
  }

  /** How many extension bytes a delta or length takes. */
  function ExtensionSize(v: nat): nat { if v <= 12 then 0 else if v <= 268 then 1 else 2 }

  /** Section 3.1 of RFC 7252, in numbers: up to 12 in the nibble itself, up to 268 in one byte after nibble 13,
      and beyond in two bytes after nibble 14, the high byte first. */
  lemma NibbleIsRfc(v: nat)
    ensures v <= 12 ==> EncodeNibble(v) == Nibble(v, [])
    ensures 13 <= v <= 268 ==>
              var n := EncodeNibble(v);
              n.value == 13 && |n.ext| == 1 && (n.ext[0] as int) + 13 == v
    ensures 269 <= v <= 65804 ==>
              var n := EncodeNibble(v);
              n.value == 14 && |n.ext| == 2 && (n.ext[0] as int) * 256 + (n.ext[1] as int) + 269 == v
    ensures |EncodeNibble(v).ext| == ExtensionSize(v) && 0 <= EncodeNibble(v).value <= 14
  {
  }

  method EncodeCoapOption(num: nat, val: seq<byte>) returns (result: seq<byte>)
    ensures result == EncodeOption(num, val)
  {
    var delta := EncodeNibble(num);
    var length := EncodeNibble(|val|);
    result := [];
    result := result + [(delta.value * 16 + length.value) % 256];
    result := result + delta.ext;
    result := result + length.ext;
    result := result + val;
  }

  /** The bridge's builder; the message id comes from a process-wide counter. */
  method BuildCoapRequest(m: string, path: seq<byte>, payload: seq<byte>, msgId: nat) returns (pkt: seq<byte>)
    ensures pkt == RequestPacket(m, path, payload, msgId)
  {
    var code: byte;
    match m {
      case "GET" => code := 0x01;
      case "POST" => code := 0x02;
      case "PUT" => code := 0x03;
      case "DELETE" => code := 0x04;
      case _ => code := 0x01;
    }
    pkt := [];
    pkt := pkt + [0x40];
    pkt := pkt + [code];
    pkt := pkt + [msgId / 256 % 256, msgId % 256];
    var option := EncodeCoapOption(11, path);
    pkt := pkt + option;
    if |payload| > 0 {
      pkt := pkt + [0xff];
      pkt := pkt + payload;
    }
  }

  /** The API's builder of the same packet. */
  method BuildCoapPacket(m: string, path: seq<byte>, payload: seq<byte>, msgId: nat) returns (pkt: seq<byte>)
    ensures pkt == RequestPacket(m, path, payload, msgId)
  {
    var code: byte := 0x01;
    match m {
      case "POST" => code := 0x02;
      case "PUT" => code := 0x03;
      case "DELETE" => code := 0x04;
      case _ =>
    }
    pkt := [0x40, code, msgId / 256 % 256, msgId % 256];
    var option := EncodeCoapOption(11, path);
    pkt := pkt + option;
    if |payload| > 0 {
      pkt := pkt + [0xff];
      pkt := pkt + payload;
    }
  }

  /** The built packet, read field by field as section 3 of RFC 7252 lays it out: version 1, a confirmable
      message without a token, the request code, the message id, one Uri-Path option, and the payload behind its
      marker. */
  lemma PacketReadsBack(m: string, path: seq<byte>, payload: seq<byte>, msgId: nat)
    ensures var pkt := RequestPacket(m, path, payload, msgId);
            && |pkt| >= 5 + |path| && pkt[0] / 64 == 1 && pkt[0] / 16 % 4 == 0 && pkt[0] % 16 == 0
            && pkt[1] == (if m == "POST" then 2 else if m == "PUT" then 3 else if m == "DELETE" then 4 else 1)
            && (pkt[2] as int) * 256 + (pkt[3] as int) == msgId % 65536
            && pkt[4] / 16 == 11 && pkt[4] % 16 == EncodeNibble(|path|).value
            && var at := 5 + ExtensionSize(|path|);
               && at + |path| <= |pkt| && pkt[5..at] == EncodeNibble(|path|).ext && pkt[at..at + |path|] == path
               && pkt[at + |path|..] == if payload == [] then [] else [0xff] + payload
  {
    NibbleIsRfc(|path|);
    IdBytes(msgId);
    var option := EncodeOption(11, path);
    OptionReadsBack(11, path);
    var head: seq<byte> := [0x40, MethodCode(m), msgId / 256 % 256, msgId % 256];
    var tail: seq<byte> := if payload == [] then [] else [0xff] + payload;
    PacketSlices(head, option, tail, 1 + ExtensionSize(|path|));
  }

  lemma IdBytes(msgId: nat)
    ensures msgId / 256 % 256 * 256 + msgId % 256 == msgId % 65536
  {
  }

  /** An option, read as section 3.1 of RFC 7252 lays it out: the two nibbles, their extensions, the value. */
  lemma OptionReadsBack(delta: nat, val: seq<byte>)
    ensures var o, d, l := EncodeOption(delta, val), EncodeNibble(delta), EncodeNibble(|val|);
            var at, from := 1 + ExtensionSize(delta), 1 + ExtensionSize(delta) + ExtensionSize(|val|);
            && |o| == from + |val| && o[0] / 16 == d.value && o[0] % 16 == l.value
            && o[1..at] == d.ext && o[at..from] == l.ext && o[from..] == val
  {
    NibbleIsRfc(delta);
    NibbleIsRfc(|val|);
    var d, l := EncodeNibble(delta), EncodeNibble(|val|);
    OptionSlices((d.value * 16 + l.value) % 256, d.ext, l.ext, val);
  }

  lemma OptionSlices(first: byte, d: seq<byte>, l: seq<byte>, val: seq<byte>)
    ensures var o := [first] + d + l + val;
            && o[0] == first && o[1..1 + |d|] == d && o[1 + |d|..1 + |d| + |l|] == l && o[1 + |d| + |l|..] == val
  {
  }

  lemma PacketSlices(head: seq<byte>, option: seq<byte>, tail: seq<byte>, at: nat)
    requires |head| == 4 && 1 <= at <= |option|
    ensures var pkt := head + option + tail;
            && pkt[..4] == head && pkt[4] == option[0] && pkt[5..4 + at] == option[1..at]
            && pkt[4 + at..4 + |option|] == option[at..] && pkt[4 + |option|..] == tail
  {
  }

  // ----- Parsing -----

  /** The number a nibble stands for, with its extension read at pos if enough bytes are left. */
  function NibbleValue(data: seq<byte>, nibble: int, pos: nat): int {
    if nibble == 13 && pos < |data| then data[pos] + 13
    else if nibble == 14 && pos + 1 < |data| then data[pos] * 256 + data[pos + 1] + 269
    else nibble
  }

  function AfterNibble(data: seq<byte>, nibble: int, pos: nat): nat {
    if nibble == 13 && pos < |data| then pos + 1
    else if nibble == 14 && pos + 1 < |data| then pos + 2
    else pos
  }

  /** The position after the option at pos, or none when its value would run past the end. */
  function SkipOption(data: seq<byte>, pos: nat): (next: Option<nat>)
    requires pos < |data|
    ensures next.Some? ==> pos < next.value <= |data|
  {
    var p := AfterNibble(data, data[pos] / 16, pos + 1);
    var length := NibbleValue(data, data[pos] % 16, p);
    var q := AfterNibble(data, data[pos] % 16, p);
    if length > |data| - q then None else Some(q + length)
  }

  function ParseFrom(data: seq<byte>, pos: nat): seq<byte>
    requires pos <= |data|
    decreases |data| - pos
  {
    if pos == |data| then []
    else if data[pos] == PAYLOAD_MARKER then data[pos + 1..]
    else
      var next := SkipOption(data, pos);
      if next.None? then [] else ParseFrom(data, next.value)
  }

  /** The payload of a packet; empty (nil in the program) when there is none. */
  function ParsePayload(data: seq<byte>): seq<byte> {
    if |data| < 4 || 4 + data[0] % 16 > |data| then [] else ParseFrom(data, 4 + data[0] % 16)
  }

  /** The loop body of the bridge's parser past the marker test. */
  method SkipCoapOption(data: seq<byte>, start: nat) returns (next: Option<nat>)
    requires start < |data|
    ensures next == SkipOption(data, start)
  {
    var pos := start;
    var delta: int := data[pos] / 16;
    var length: int := data[pos] % 16;
    pos := pos + 1;
    if delta == 13 && pos < |data| {
      delta := (data[pos] as int) + 13;
      pos := pos + 1;
    } else if delta == 14 && pos + 1 < |data| {
      delta := (data[pos] as int) * 256 + (data[pos + 1] as int) + 269;
      pos := pos + 2;
    }
    assert pos == AfterNibble(data, data[start] / 16, start + 1);
    if length == 13 && pos < |data| {
      length := (data[pos] as int) + 13;
      pos := pos + 1;
    } else if length == 14 && pos + 1 < |data| {
      length := (data[pos] as int) * 256 + (data[pos + 1] as int) + 269;
      pos := pos + 2;
    }
    if length > |data| - pos { return None; }
    return Some(pos + length);
  }

  /** The bridge's parser. */
  method ParseCoapPayload(data: seq<byte>) returns (payload: seq<byte>)
    ensures payload == ParsePayload(data)
  {
    if |data| < 4 { return []; }
    var tkl: int := data[0] % 16;
    var pos := 4 + tkl;
    if pos >= |data| { return []; }
    while pos < |data|
      invariant 4 <= pos <= |data|
      invariant ParsePayload(data) == ParseFrom(data, pos)
      decreases |data| - pos
    {
      if data[pos] == 0xff {
        pos := pos + 1;
        if pos < |data| { return data[pos..]; }
        return [];
      }
      var next := SkipCoapOption(data, pos);
      if next.None? { break; }
      pos := next.value;
    }
    return [];
  }

  /** The loop body of the API's parser, which steps over the delta without reading it. */
  method SkipCoapOptionBytes(data: seq<byte>, start: nat) returns (next: Option<nat>)
    requires start < |data|
    ensures next == SkipOption(data, start)
  {
    var pos := start;
    var delta: int := data[pos] / 16;
    var length: int := data[pos] % 16;
    pos := pos + 1;
    if delta == 13 && pos < |data| {
      pos := pos + 1;
    } else if delta == 14 && pos + 1 < |data| {
      pos := pos + 2;
    }
    assert pos == AfterNibble(data, data[start] / 16, start + 1);
    if length == 13 && pos < |data| {
      length := (data[pos] as int) + 13;
      pos := pos + 1;
    } else if length == 14 && pos + 1 < |data| {
      length := (data[pos] as int) * 256 + (data[pos + 1] as int) + 269;
      pos := pos + 2;
    }
    if length > |data| - pos { return None; }
    return Some(pos + length);
  }

  /** The API's parser: no early exit for a short packet, and the same answer on every input. */
  method ParseCoapPayloadBytes(data: seq<byte>) returns (payload: seq<byte>)
    ensures payload == ParsePayload(data)
  {
    if |data| < 4 { return []; }
    var tkl: int := data[0] % 16;
    var pos := 4 + tkl;
    while pos < |data|
      invariant 4 <= pos
      invariant ParsePayload(data) == if pos <= |data| then ParseFrom(data, pos) else []
      decreases |data| - pos
    {
      if data[pos] == 0xff {
        pos := pos + 1;
        if pos < |data| { return data[pos..]; }
        return [];
      }
      var next := SkipCoapOptionBytes(data, pos);
      if next.None? { break; }
      pos := next.value;
    }
    return [];
  }
}
