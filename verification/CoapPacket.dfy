/** Exactly which byte strings the CoAP parser takes apart, and how: the packet grammar of
    sections 3 and 3.1 of RFC 7252, written as an encoder, against the parser. */
module CoapPacket {
  import opened Common
  import opened CoapCodec

  const MAX_FIELD: nat := 65804     // 269 + 0xffff

  /** An option delta or length.  The RFC reserves nibble 15; the parser takes it for the number 15. */
  datatype Field = Num(v: nat) | Reserved {
    predicate Ok() { Num? ==> v <= MAX_FIELD }
    function Value(): nat { if Num? then v else 15 }
    function Nib(): Nibble { if Num? then EncodeNibble(v) else Nibble(15, []) }
  }

  datatype CoapOption = CoapOption(delta: Field, length: Field, value: seq<byte>) {
    /** Two reserved nibbles would read as the payload marker. */
    predicate Ok() {
      delta.Ok() && length.Ok() && length.Value() == |value| && !(delta.Reserved? && length.Reserved?)
    }

    function Bytes(): seq<byte> {
      [(delta.Nib().value * 16 + length.Nib().value) % 256] + delta.Nib().ext + length.Nib().ext + value
    }
  }

  predicate AllOk(os: seq<CoapOption>) { forall o :: o in os ==> o.Ok() }

  function OptionBytes(os: seq<CoapOption>): seq<byte> {
    if os == [] then [] else os[0].Bytes() + OptionBytes(os[1..])
  }

  function Tail(payload: seq<byte>): seq<byte> { if payload == [] then [] else [PAYLOAD_MARKER] + payload }

  // ----- From the encoder to the parser -----

  /** A field read back right after its nibble: its value and where it ends. */
  lemma FieldReadBack(f: Field, pre: seq<byte>, rest: seq<byte>)
    requires f.Ok()
    ensures var data := pre + f.Nib().ext + rest;
            && NibbleValue(data, f.Nib().value, |pre|) == f.Value()
            && AfterNibble(data, f.Nib().value, |pre|) == |pre| + |f.Nib().ext|
  {
  }

  lemma OptionSkipped(pre: seq<byte>, o: CoapOption, rest: seq<byte>)
    requires o.Ok()
    ensures var data := pre + o.Bytes() + rest;
            && data[|pre|] != PAYLOAD_MARKER
            && SkipOption(data, |pre|) == Some(|pre| + |o.Bytes()|)
  {
    var data := pre + o.Bytes() + rest;
    var d, l := o.delta.Nib(), o.length.Nib();
    assert data[|pre|] == d.value * 16 + l.value;
    var a := pre + [data[|pre|]];
    assert data == a + d.ext + (l.ext + o.value + rest);
    FieldReadBack(o.delta, a, l.ext + o.value + rest);
    var b := a + d.ext;
    assert data == b + l.ext + (o.value + rest);
    FieldReadBack(o.length, b, o.value + rest);
    SkipsTo(data, |pre|, d.value, l.value, |a + d.ext|, |b + l.ext|);
  }

  lemma SkipsTo(data: seq<byte>, pos: nat, d: nat, l: nat, p: nat, q: nat)
    requires pos < |data| && data[pos] == d * 16 + l && d < 16 && l < 16
    requires p == AfterNibble(data, d, pos + 1) && q == AfterNibble(data, l, p)
    requires q + NibbleValue(data, l, p) <= |data|
    ensures SkipOption(data, pos) == Some(q + NibbleValue(data, l, p))
  {
    assert data[pos] / 16 == d && data[pos] % 16 == l;
  }

  lemma Regroup(a: seq<byte>, b: seq<byte>, c: seq<byte>, d: seq<byte>)
    ensures a + (b + c) + d == a + b + (c + d) == (a + b) + c + d
  {
  }

  lemma SkipParsed(data: seq<byte>, pos: nat, next: nat)
    requires pos < |data| && data[pos] != PAYLOAD_MARKER && SkipOption(data, pos) == Some(next)
    ensures ParseFrom(data, pos) == ParseFrom(data, next)
  {
  }

  lemma MarkerEnds(data: seq<byte>, pos: nat)
    requires pos < |data| && data[pos] == PAYLOAD_MARKER
    ensures ParseFrom(data, pos) == data[pos + 1..]
  {
  }

  lemma MarkerBetween(pre: seq<byte>, payload: seq<byte>)
    ensures var data := pre + ([PAYLOAD_MARKER] + payload);
            data[|pre|] == PAYLOAD_MARKER && data[|pre| + 1..] == payload
  {
    var data := pre + ([PAYLOAD_MARKER] + payload);
    assert data[|pre|..] == [PAYLOAD_MARKER] + payload;
  }

  lemma TailParses(pre: seq<byte>, payload: seq<byte>)
    ensures ParseFrom(pre + Tail(payload), |pre|) == payload
  {
    if payload == [] {
      assert pre + Tail(payload) == pre;
    } else {
      MarkerBetween(pre, payload);
      MarkerEnds(pre + Tail(payload), |pre|);
    }
  }

  /** Putting one more option in front does not change what the parser finds. */
  lemma OptionInFront(pre: seq<byte>, o: CoapOption, rest: seq<byte>, tail: seq<byte>)
    requires o.Ok()
    ensures ParseFrom(pre + (o.Bytes() + rest) + tail, |pre|) == ParseFrom(pre + o.Bytes() + rest + tail, |pre + o.Bytes()|)
  {
    OptionSkipped(pre, o, rest + tail);
    SkippedInFront(pre, o.Bytes(), rest, tail);
  }

  lemma SkippedInFront(pre: seq<byte>, first: seq<byte>, rest: seq<byte>, tail: seq<byte>)
    requires first != []
    requires var data := pre + first + (rest + tail);
             data[|pre|] != PAYLOAD_MARKER && SkipOption(data, |pre|) == Some(|pre| + |first|)
    ensures ParseFrom(pre + (first + rest) + tail, |pre|) == ParseFrom(pre + first + rest + tail, |pre + first|)
  {
    SkipParsed(pre + first + (rest + tail), |pre|, |pre| + |first|);
    Regroup(pre, first, rest, tail);
  }

  lemma {:induction false} OptionsParse(pre: seq<byte>, os: seq<CoapOption>, payload: seq<byte>)
    requires AllOk(os)
    ensures ParseFrom(pre + OptionBytes(os) + Tail(payload), |pre|) == payload
    decreases |os|
  {
    if os == [] {
      TailParses(pre, payload);
      assert pre + OptionBytes(os) == pre;
    } else {
      OptionsParse(pre + os[0].Bytes(), os[1..], payload);
      OptionInFront(pre, os[0], OptionBytes(os[1..]), Tail(payload));
    }
  }

  function Packet(header: seq<byte>, token: seq<byte>, os: seq<CoapOption>, payload: seq<byte>): seq<byte> {
    header + token + OptionBytes(os) + Tail(payload)
  }

  /** Any token, any options, any payload: the parser returns exactly the payload. */
  lemma PacketRoundTrip(header: seq<byte>, token: seq<byte>, os: seq<CoapOption>, payload: seq<byte>)
    requires |header| == 4 && header[0] % 16 == |token| && AllOk(os)
    ensures ParsePayload(Packet(header, token, os, payload)) == payload
  {
    var data := Packet(header, token, os, payload);
    assert data[0] == header[0];
    OptionsParse(header + token, os, payload);
  }

  lemma {:induction false} EncoderWritesOptions(delta: nat, val: seq<byte>)
    ensures EncodeOption(delta, val) == CoapOption(Num(delta), Num(|val|), val).Bytes()
  {
  }

  /** Options written one after the other with the program's encoder, as (delta, value) pairs. */
  function EncodeOptions(opts: seq<(nat, seq<byte>)>): seq<byte> {
    if opts == [] then [] else EncodeOption(opts[0].0, opts[0].1) + EncodeOptions(opts[1..])
  }

  lemma {:induction false} EncodedOptions(opts: seq<(nat, seq<byte>)>) returns (os: seq<CoapOption>)
    requires forall i :: 0 <= i < |opts| ==> opts[i].0 <= MAX_FIELD && |opts[i].1| <= MAX_FIELD
    ensures AllOk(os) && OptionBytes(os) == EncodeOptions(opts)
  {
    if opts == [] {
      os := [];
    } else {
      var rest := EncodedOptions(opts[1..]);
      var o := CoapOption(Num(opts[0].0), Num(|opts[0].1|), opts[0].1);
      EncoderWritesOptions(opts[0].0, opts[0].1);
      os := [o] + rest;
      assert os[1..] == rest;
    }
  }

  /** The round trip for options written by the program's own encoder. */
  lemma EncodedRoundTrip(header: seq<byte>, token: seq<byte>, opts: seq<(nat, seq<byte>)>, payload: seq<byte>)
    requires |header| == 4 && header[0] % 16 == |token|
    requires forall i :: 0 <= i < |opts| ==> opts[i].0 <= MAX_FIELD && |opts[i].1| <= MAX_FIELD
    ensures ParsePayload(header + token + EncodeOptions(opts) + Tail(payload)) == payload
  {
    var os := EncodedOptions(opts);
    PacketRoundTrip(header, token, os, payload);
  }

  /** The request builder: the parser gives the payload back whenever the path length fits its field. */
  lemma RequestRoundTrip(m: string, path: seq<byte>, payload: seq<byte>, msgId: nat)
    requires |path| <= MAX_FIELD
    ensures ParsePayload(RequestPacket(m, path, payload, msgId)) == payload
  {
    var header: seq<byte> := [0x40, MethodCode(m), msgId / 256 % 256, msgId % 256];
    var o := CoapOption(Num(URI_PATH), Num(|path|), path);
    EncoderWritesOptions(URI_PATH, path);
    assert OptionBytes([o]) == o.Bytes() by { assert [o][1..] == []; }
    assert RequestPacket(m, path, payload, msgId) == Packet(header, [], [o], payload);
    PacketRoundTrip(header, [], [o], payload);
  }

  /** The bound is exact: an extension read back is the number written if and only if it fits sixteen bits. */
  lemma FieldRoundTripIff(v: nat, pre: seq<byte>, rest: seq<byte>)
    ensures var n := EncodeNibble(v);
            NibbleValue(pre + n.ext + rest, n.value, |pre|) == v <==> v <= MAX_FIELD
  {
    if v <= MAX_FIELD {
      FieldReadBack(Num(v), pre, rest);
    } else {
      var n := EncodeNibble(v);
      var data := pre + n.ext + rest;
      assert data[|pre|] == n.ext[0] && data[|pre| + 1] == n.ext[1];
    }
  }

  // ----- From the parser to the encoder -----

  /** At the last byte no payload can follow. */
  lemma NothingAtTheEnd(data: seq<byte>, pos: nat)
    requires pos <= |data| <= pos + 1
    ensures ParseFrom(data, pos) == []
  {
  }

  /** The field a nibble and the bytes after it stand for, when its extension is there. */
  function FieldAt(data: seq<byte>, nibble: int, pos: nat): Field
    requires 0 <= nibble < 16
  {
    if nibble == 15 then Reserved else Num(NibbleValue(data, nibble, pos))
  }

  lemma FieldExplained(data: seq<byte>, nibble: int, pos: nat)
    requires 0 <= nibble < 16 && pos <= |data|
    requires (nibble == 13 ==> pos < |data|) && (nibble == 14 ==> pos + 1 < |data|)
    ensures var f := FieldAt(data, nibble, pos); var q := AfterNibble(data, nibble, pos);
            && f.Ok() && f.Value() == NibbleValue(data, nibble, pos) && f.Nib().value == nibble
            && pos <= q <= |data| && data[pos..q] == f.Nib().ext
  {
  }

  /** If a payload is found past the option at pos, the option's extensions are complete. */
  lemma ExtensionsComplete(data: seq<byte>, pos: nat)
    requires pos < |data| && data[pos] != PAYLOAD_MARKER && ParseFrom(data, pos) != []
    ensures var p := AfterNibble(data, data[pos] / 16, pos + 1);
            && (data[pos] / 16 == 13 ==> pos + 1 < |data|) && (data[pos] / 16 == 14 ==> pos + 2 < |data|)
            && (data[pos] % 16 == 13 ==> p < |data|) && (data[pos] % 16 == 14 ==> p + 1 < |data|)
            && SkipOption(data, pos).Some?
  {
    var next := SkipOption(data, pos);
    if next.Some? && |data| <= next.value + 1 { NothingAtTheEnd(data, next.value); }
  }

  /** The option that the parser steps over at pos, given back as a value. */
  lemma OptionExplained(data: seq<byte>, pos: nat) returns (o: CoapOption)
    requires pos < |data| && data[pos] != PAYLOAD_MARKER && ParseFrom(data, pos) != []
    ensures o.Ok()
    ensures var next := SkipOption(data, pos);
            next.Some? && data[pos..next.value] == o.Bytes()
  {
    ExtensionsComplete(data, pos);
    var d, l := data[pos] / 16, data[pos] % 16;
    var p := AfterNibble(data, d, pos + 1);
    FieldExplained(data, d, pos + 1);
    var q := AfterNibble(data, l, p);
    FieldExplained(data, l, p);
    o := OptionAssembled(data, pos, p, q, FieldAt(data, d, pos + 1), FieldAt(data, l, p));
  }

  lemma OptionAssembled(data: seq<byte>, pos: nat, p: nat, q: nat, delta: Field, length: Field) returns (o: CoapOption)
    requires pos < p <= q && q + length.Value() <= |data| && data[pos] != PAYLOAD_MARKER
    requires delta.Ok() && length.Ok()
    requires delta.Nib().value == data[pos] / 16 && length.Nib().value == data[pos] % 16
    requires data[pos + 1..p] == delta.Nib().ext && data[p..q] == length.Nib().ext
    ensures o.Ok() && data[pos..q + length.Value()] == o.Bytes()
  {
    var next := q + length.Value();
    o := CoapOption(delta, length, data[q..next]);
    Slices(data, pos, p, q, next);
    ByteOfNibbles(data[pos], delta.Nib().value, length.Nib().value);
    BytesOf(o, data[pos], data[pos + 1..p], data[p..q]);
    assert !(delta.Reserved? && length.Reserved?);
  }

  lemma ByteOfNibbles(x: byte, d: int, l: int)
    requires d == x / 16 && l == x % 16
    ensures (d * 16 + l) % 256 == x && (d == 15 && l == 15 ==> x == 255)
  {
  }

  lemma BytesOf(o: CoapOption, first: byte, deltaExt: seq<byte>, lengthExt: seq<byte>)
    requires (o.delta.Nib().value * 16 + o.length.Nib().value) % 256 == first
    requires o.delta.Nib().ext == deltaExt && o.length.Nib().ext == lengthExt
    ensures o.Bytes() == [first] + deltaExt + lengthExt + o.value
  {
  }

  lemma Slices(data: seq<byte>, a: nat, b: nat, c: nat, d: nat)
    requires a < b <= c <= d <= |data|
    ensures data[a..d] == [data[a]] + data[a + 1..b] + data[b..c] + data[c..d]
  {
  }

  lemma OptionsCons(o: CoapOption, os: seq<CoapOption>)
    ensures OptionBytes([o] + os) == o.Bytes() + OptionBytes(os)
  {
    assert ([o] + os)[1..] == os;
  }

  lemma PrefixTail(data: seq<byte>, pos: nat, next: nat, first: seq<byte>, rest: seq<byte>, tail: seq<byte>)
    requires pos <= next <= |data| && data[pos..next] == first && data[next..] == rest + tail
    ensures data[pos..] == first + rest + tail
  {
    assert data[pos..] == data[pos..next] + data[next..];
  }

  lemma {:induction false} PayloadExplained(data: seq<byte>, pos: nat) returns (os: seq<CoapOption>)
    requires pos <= |data| && ParseFrom(data, pos) != []
    ensures AllOk(os)
    ensures data[pos..] == OptionBytes(os) + Tail(ParseFrom(data, pos))
    decreases |data| - pos
  {
    if data[pos] == PAYLOAD_MARKER {
      os := [];
      assert data[pos..] == [PAYLOAD_MARKER] + data[pos + 1..];
    } else {
      var o := OptionExplained(data, pos);
      var next := SkipOption(data, pos).value;
      var rest := PayloadExplained(data, next);
      os := [o] + rest;
      OptionsCons(o, rest);
      SkipParsed(data, pos, next);
      PrefixTail(data, pos, next, o.Bytes(), OptionBytes(rest), Tail(ParseFrom(data, pos)));
    }
  }

  ghost predicate IsPacket(data: seq<byte>, payload: seq<byte>) {
    exists token, os :: |data| >= 4 && data[0] % 16 == |token| && AllOk(os) && data == Packet(data[..4], token, os, payload)
  }

  lemma ParsedIsPacket(data: seq<byte>)
    requires ParsePayload(data) != []
    ensures IsPacket(data, ParsePayload(data))
  {
    var at := 4 + data[0] % 16;
    var payload := ParsePayload(data);
    var os := PayloadExplained(data, at);
    Reassembled(data, at, OptionBytes(os), Tail(payload));
    PacketOf(data, data[4..at], os, payload);
  }

  lemma PacketOf(data: seq<byte>, token: seq<byte>, os: seq<CoapOption>, payload: seq<byte>)
    requires |data| >= 4 && data[0] % 16 == |token| && AllOk(os) && data == data[..4] + token + OptionBytes(os) + Tail(payload)
    ensures IsPacket(data, payload)
  {
    assert data == Packet(data[..4], token, os, payload);
  }

  lemma Reassembled(data: seq<byte>, at: nat, options: seq<byte>, tail: seq<byte>)
    requires 4 <= at <= |data| && data[at..] == options + tail
    ensures data == data[..4] + data[4..at] + options + tail
  {
    assert data == data[..4] + data[4..at] + data[at..];
  }

  /** The parser returns a payload exactly on the packets with that payload.  It accepts no more than
      the grammar, in which only reading nibble 15 as a number goes beyond the RFC. */
  lemma ParserExact(data: seq<byte>, payload: seq<byte>)
    requires payload != []
    ensures ParsePayload(data) == payload <==> IsPacket(data, payload)
  {
    if ParsePayload(data) == payload { ParsedIsPacket(data); }
    if IsPacket(data, payload) {
      var token, os :| |data| >= 4 && data[0] % 16 == |token| && AllOk(os) && data == Packet(data[..4], token, os, payload);
      PacketRoundTrip(data[..4], token, os, payload);
    }
  }

  /** On arbitrary bytes the answer is a suffix of the input. */
  lemma {:induction false} ParseIsSuffix(data: seq<byte>, pos: nat)
    requires pos <= |data|
    ensures var p := ParseFrom(data, pos); |p| <= |data| - pos && p == data[|data| - |p|..]
    decreases |data| - pos
  {
    if pos < |data| && data[pos] != PAYLOAD_MARKER && SkipOption(data, pos).Some? {
      ParseIsSuffix(data, SkipOption(data, pos).value);
    }
  }

  /** What the parser reads of a length that the builder had to cut to sixteen bits. */
  function WrappedLength(n: nat): nat { if n > MAX_FIELD then (n - 269) % 65536 + 269 else n }

  lemma WrappedBytes(n: nat)
    requires n > MAX_FIELD
    ensures var l := EncodeNibble(n);
            l.value == 14 && |l.ext| == 2 && (l.ext[0] as int) * 256 + (l.ext[1] as int) + 269 == WrappedLength(n) < n
  {
    var x := n - 269;
    assert x / 256 % 256 * 256 + x % 256 == x % 65536;
  }

  lemma LongLayout(m: string, path: seq<byte>, payload: seq<byte>, msgId: nat) returns (head: seq<byte>)
    requires |path| > MAX_FIELD
    ensures |head| == 7 && head[0] % 16 == 0 && head[4] == 11 * 16 + 14 && head[5..] == EncodeNibble(|path|).ext
    ensures RequestPacket(m, path, payload, msgId) == head + (path + Tail(payload))
  {
    var start: seq<byte> := [0x40, MethodCode(m), msgId / 256 % 256, msgId % 256];
    var ext := EncodeNibble(|path|).ext;
    head := start + [11 * 16 + 14] + ext;
    LongOption(path);
    HeadFirst(start, [11 * 16 + 14], ext, path, Tail(payload));
    assert head[5..] == ext;
  }

  lemma LongOption(path: seq<byte>)
    requires |path| > MAX_FIELD
    ensures |EncodeNibble(|path|).ext| == 2 && EncodeOption(URI_PATH, path) == [11 * 16 + 14] + EncodeNibble(|path|).ext + path
  {
  }

  lemma HeadFirst(a: seq<byte>, b: seq<byte>, c: seq<byte>, d: seq<byte>, e: seq<byte>)
    ensures a + (b + c + d) + e == (a + b + c) + (d + e)
  {
  }

  // A path of plain letters that the parser takes for options: each 0x60 is an option without a value, and
  // the 0x61 at the end is one whose value is the next byte.

  const BACKQUOTE: byte := 0x60

  const LETTER_A: byte := 0x61

  function PlainPath(n: nat): (path: seq<byte>)
    requires n >= 1
    ensures |path| == n && path[n - 1] == LETTER_A && forall i :: 0 <= i < n - 1 ==> path[i] == BACKQUOTE
  {
    seq(n - 1, i => BACKQUOTE) + [LETTER_A]
  }

  predicate Ascii(path: seq<byte>) { forall i :: 0 <= i < |path| ==> path[i] < 128 }

  lemma SkipsOneByte(data: seq<byte>, pos: nat)
    requires pos < |data| && data[pos] == BACKQUOTE
    ensures ParseFrom(data, pos) == ParseFrom(data, pos + 1)
  {
    SkipsTo(data, pos, 6, 0, pos + 1, pos + 1);
    SkipParsed(data, pos, pos + 1);
  }

  lemma {:induction false} SkipsThrough(data: seq<byte>, from: nat, to: nat)
    requires from <= to <= |data| && forall i :: from <= i < to ==> data[i] == BACKQUOTE
    ensures ParseFrom(data, from) == ParseFrom(data, to)
    decreases |data| - from
  {
    if from < to {
      SkipsOneByte(data, from);
      SkipsThrough(data, from + 1, to);
    }
  }

  lemma SkipsTwoBytes(data: seq<byte>, pos: nat)
    requires pos + 1 < |data| && data[pos] == LETTER_A
    ensures ParseFrom(data, pos) == ParseFrom(data, pos + 2)
  {
    SkipsTo(data, pos, 6, 1, pos + 1, pos + 1);
    SkipParsed(data, pos, pos + 2);
  }

  /** What is found from a byte on is shorter than what is there: at least a marker goes. */
  lemma {:induction false} FindsLess(data: seq<byte>, pos: nat)
    requires pos < |data|
    ensures |ParseFrom(data, pos)| < |data| - pos
    decreases |data| - pos
  {
    if data[pos] != PAYLOAD_MARKER && SkipOption(data, pos).Some? {
      var next := SkipOption(data, pos).value;
      SkipParsed(data, pos, next);
      if next < |data| { FindsLess(data, next); } else { NothingAtTheEnd(data, next); }
    }
  }

  /** After such a head the parser skips too little of the path. */
  lemma SkipsTooLittle(head: seq<byte>, n: nat, rest: seq<byte>)
    requires n > MAX_FIELD && |head| == 7 && head[0] % 16 == 0 && head[4] == 11 * 16 + 14 && head[5..] == EncodeNibble(n).ext
    requires |rest| >= n
    ensures WrappedLength(n) < n && ParsePayload(head + rest) == ParseFrom(head + rest, 7 + WrappedLength(n))
  {
    HeadRead(head, n, rest);
    SkipsTo(head + rest, 4, 11, 14, 5, 7);
    SkipParsed(head + rest, 4, 7 + WrappedLength(n));
  }

  lemma HeadRead(head: seq<byte>, n: nat, rest: seq<byte>)
    requires n > MAX_FIELD && |head| == 7 && head[0] % 16 == 0 && head[4] == 11 * 16 + 14 && head[5..] == EncodeNibble(n).ext
    ensures var data := head + rest;
            && data[0] % 16 == 0 && data[4] == 11 * 16 + 14
            && AfterNibble(data, 11, 5) == 5 && AfterNibble(data, 14, 5) == 7
            && NibbleValue(data, 14, 5) == WrappedLength(n) < n
  {
    var data := head + rest;
    WrappedBytes(n);
    assert data[5] == head[5..][0] && data[6] == head[5..][1];
  }

  /** From inside a plain path the parser runs to its end, and takes the byte after it along. */
  lemma RunsThrough(data: seq<byte>, from: nat, end: nat)
    requires from < end && end + 1 < |data|
    requires data[end - 1] == LETTER_A && forall i :: from <= i < end - 1 ==> data[i] == BACKQUOTE
    ensures |ParseFrom(data, from)| < |data| - end - 1
  {
    SkipsThrough(data, from, end - 1);
    SkipsTwoBytes(data, end - 1);
    FindsLess(data, end + 1);
  }

  lemma PathInside(head: seq<byte>, n: nat, tail: seq<byte>)
    requires n >= 1
    ensures var data := head + (PlainPath(n) + tail);
            && data[|head| + n - 1] == LETTER_A
            && forall i :: |head| <= i < |head| + n - 1 ==> data[i] == BACKQUOTE
  {
    var data := head + (PlainPath(n) + tail);
    assert forall i :: 0 <= i < n ==> data[|head| + i] == PlainPath(n)[i];
    forall i | |head| <= i < |head| + n - 1 ensures data[i] == BACKQUOTE { assert data[|head| + (i - |head|)] == PlainPath(n)[i - |head|]; }
  }

  /** Past the bound the builder and the parser disagree on a path of plain letters, whatever else the request
      carries: the length field wraps, and the parser loses at least part of the payload. */
  lemma LongPathBreaksRoundTrip(m: string, n: nat, payload: seq<byte>, msgId: nat)
    requires n > MAX_FIELD && payload != []
    ensures Ascii(PlainPath(n)) && |ParsePayload(RequestPacket(m, PlainPath(n), payload, msgId))| < |payload|
  {
    var head := LongLayout(m, PlainPath(n), payload, msgId);
    LosesPayload(head, n, payload);
  }

  lemma LosesPayload(head: seq<byte>, n: nat, payload: seq<byte>)
    requires n > MAX_FIELD && |head| == 7 && head[0] % 16 == 0 && head[4] == 11 * 16 + 14 && head[5..] == EncodeNibble(n).ext
    requires payload != []
    ensures |ParsePayload(head + (PlainPath(n) + Tail(payload)))| < |payload|
  {
    var rest := PlainPath(n) + Tail(payload);
    SkipsTooLittle(head, n, rest);
    PathInside(head, n, Tail(payload));
    RunsThrough(head + rest, 7 + WrappedLength(n), 7 + n);
  }

  /** Every request with an ASCII path of this length gives its payload back. */
  ghost predicate RoundTripsAt(n: nat) {
    forall m: string, path: seq<byte>, payload: seq<byte>, msgId: nat :: |path| == n && Ascii(path) ==>
      ParsePayload(RequestPacket(m, path, payload, msgId)) == payload
  }

  /** The bound is exact for whole requests. */
  lemma RequestRoundTripIff(n: nat)
    ensures RoundTripsAt(n) <==> n <= MAX_FIELD
  {
    if n <= MAX_FIELD {
      forall m: string, path: seq<byte>, payload: seq<byte>, msgId: nat | |path| == n && Ascii(path)
        ensures ParsePayload(RequestPacket(m, path, payload, msgId)) == payload
      {
        RequestRoundTrip(m, path, payload, msgId);
      }
    } else {
      var payload: seq<byte> := [BACKQUOTE];
      LongPathBreaksRoundTrip("GET", n, payload, 0);
      assert ParsePayload(RequestPacket("GET", PlainPath(n), payload, 0)) != payload;
    }
  }
}
