/** The message envelope: two generations of header fields filled from one another, validation,
    and the codec with its optional gzip envelope. */
module Envelope {
  import opened Common

  datatype Header = Header(
    requestId: string, correlationId: string, replyTo: string, timeoutMs: int,
    sourcePeerId: string, targetPeerId: string, tenant: string, traceId: string, idempotencyKey: string)

  const ZERO_HEADER := Header("", "", "", 0, "", "", "", "", "")

  /** An empty map stands for Go's nil map as well; the code only looks at lengths and keys. */
  datatype Message = Message(
    version: string, mode: string, protocol: string, resource: string,
    header: Header, meta: Header,
    headers: map<string, string>, protocolMeta: map<string, map<string, string>>,
    payload: seq<byte>, createdAt: int)

  /** Each old field filled from its new counterpart and the other way round. */
  function Normalized(m: Message): Message {
    var meta := if m.meta == ZERO_HEADER then m.header else m.meta;
    var header := if m.header == ZERO_HEADER then meta else m.header;
    var protocolMeta := if |m.protocolMeta| == 0 && |m.headers| > 0 then map[m.protocol := m.headers] else m.protocolMeta;
    var headers := if |m.headers| == 0 && m.protocol in protocolMeta then protocolMeta[m.protocol] else m.headers;
    m.(version := if m.version == "" then "v1" else m.version,
       meta := meta, header := header, protocolMeta := protocolMeta, headers := headers)
  }

  function FieldsOf(m: Message): map<string, string> {
    var n := Normalized(m);
    if n.protocol in n.protocolMeta then n.protocolMeta[n.protocol] else n.headers
  }

  datatype Invalid = BadMode | BadProtocol | NoResource | BadProtocolMeta | NoRequestId | NoTimeout

  const PROTOCOLS := {"http", "mq", "socket", "stream", "coap"}

  function AllowedFields(protocol: string): set<string> {
    if protocol == "http" then {"method", "path", "query", "content-type", "content_type"}
    else if protocol == "coap" then {"method", "path", "content_format", "token", "observe"}
    else if protocol == "mq" then {"topic", "qos", "retain", "partition_key"}
    else if protocol == "stream" then {"stream_id", "profile", "subproto", "chunk_seq"}
    else {}
  }

  predicate FieldAllowed(protocol: string, key: string)
    ensures FieldAllowed(protocol, key) <==>
            || (protocol == "http" && (key in {"method", "path", "query", "content-type", "content_type"} || '-' in key))
            || (protocol == "coap" && key in {"method", "path", "content_format", "token", "observe"})
            || (protocol == "mq" && key in {"topic", "qos", "retain", "partition_key"})
            || (protocol == "stream" && key in {"stream_id", "profile", "subproto", "chunk_seq"})
  {
    key in AllowedFields(protocol) || (protocol == "http" && '-' in key)
  }

  /** The first complaint of validation, in the order of the checks. */
  function Complaint(m: Message): Option<Invalid> {
    var n := Normalized(m);
    if n.mode != "sync" && n.mode != "async" then Some(BadMode)
    else if n.protocol !in PROTOCOLS then Some(BadProtocol)
    else if n.resource == "" then Some(NoResource)
    else if exists k :: k in FieldsOf(n) && !FieldAllowed(n.protocol, k) then Some(BadProtocolMeta)
    else if n.mode == "sync" && n.header.requestId == "" then Some(NoRequestId)
    else if n.mode == "sync" && n.header.timeoutMs <= 0 then Some(NoTimeout)
    else None
  }

  method CloneMap(m: map<string, string>) returns (out: map<string, string>)
    ensures out == m
  {
    out := map[];
    var rest := m.Keys;
    while rest != {}
      invariant rest <= m.Keys
      invariant out.Keys == m.Keys - rest
      invariant forall k :: k in out ==> out[k] == m[k]
      decreases rest
    {
      var k :| k in rest;
      out := out[k := m[k]];
      rest := rest - {k};
    }
  }

  /** The message object, whose methods normalise it in place. */
  class DdMessage {
    var version: string
    var mode: string
    var protocol: string
    var resource: string
    var header: Header
    var meta: Header
    var headers: map<string, string>
    var protocolMeta: map<string, map<string, string>>
    var payload: seq<byte>
    var createdAt: int

    function View(): Message
      reads this
    {
      Message(version, mode, protocol, resource, header, meta, headers, protocolMeta, payload, createdAt)
    }

    constructor (m: Message)
      ensures View() == m
    {
      version, mode, protocol, resource := m.version, m.mode, m.protocol, m.resource;
      header, meta, headers, protocolMeta := m.header, m.meta, m.headers, m.protocolMeta;
      payload, createdAt := m.payload, m.createdAt;
    }

    method Normalize()
      modifies this
      ensures View() == Normalized(old(View()))
    {
      if version == "" { version := "v1"; }
      if meta == ZERO_HEADER && header != ZERO_HEADER { meta := header; }
      if header == ZERO_HEADER && meta != ZERO_HEADER { header := meta; }
      if |protocolMeta| == 0 && |headers| > 0 {
        var copy := CloneMap(headers);
        protocolMeta := map[protocol := copy];
      }
      if |headers| == 0 && |protocolMeta| > 0 {
        if protocol in protocolMeta {
          headers := CloneMap(protocolMeta[protocol]);
        }
      }
    }

    method ProtocolFields() returns (fields: map<string, string>)
      modifies this
      ensures View() == Normalized(old(View()))
      ensures fields == FieldsOf(old(View()))
      ensures fields == if protocol in protocolMeta then protocolMeta[protocol] else headers
    {
      Normalize();
      if protocol in protocolMeta { return protocolMeta[protocol]; }
      return headers;
    }

    method Validate() returns (err: Option<Invalid>)
      modifies this
      ensures View() == Normalized(old(View()))
      ensures err == Complaint(old(View()))
    {
      ghost var was := View();
      NormalizeIdempotent(was);
      Normalize();
      if mode != "sync" && mode != "async" { return Some(BadMode); }
      if protocol !in PROTOCOLS { return Some(BadProtocol); }
      if resource == "" { return Some(NoResource); }
      var fields := ProtocolFields();
      var rest := fields.Keys;
      while rest != {}
        invariant rest <= fields.Keys && View() == Normalized(was)
        invariant forall k :: k in fields && k !in rest ==> FieldAllowed(protocol, k)
        decreases rest
      {
        var k :| k in rest;
        if k !in AllowedFields(protocol) && !(protocol == "http" && '-' in k) { return Some(BadProtocolMeta); }
        rest := rest - {k};
      }
      if mode == "sync" {
        if header.requestId == "" { return Some(NoRequestId); }
        if header.timeoutMs <= 0 { return Some(NoTimeout); }
      }
      return None;
    }
  }

  lemma NormalizeIdempotent(m: Message)
    ensures Normalized(Normalized(m)) == Normalized(m)
  {
    var n := Normalized(m);
    assert Normalized(n).protocolMeta == n.protocolMeta && Normalized(n).headers == n.headers;
  }

  /** Filling never overwrites: whatever was present stays, what was absent comes from the other generation,
      and afterwards the old and the new header are both present or both absent. */
  lemma NormalizeOnlyFills(m: Message)
    ensures var n := Normalized(m);
            && n.version == (if m.version == "" then "v1" else m.version)
            && n.header == (if m.header != ZERO_HEADER then m.header else m.meta)
            && n.meta == (if m.meta != ZERO_HEADER then m.meta else m.header)
            && (m.headers == map[] ==> n.headers == if m.protocol in m.protocolMeta then m.protocolMeta[m.protocol] else map[])
            && (m.protocolMeta == map[] ==> n.protocolMeta == if m.headers == map[] then map[] else map[m.protocol := m.headers])
            && (n.header == ZERO_HEADER <==> m.header == ZERO_HEADER && m.meta == ZERO_HEADER)
            && (n.header == ZERO_HEADER <==> n.meta == ZERO_HEADER)
            && (m.headers != map[] ==> n.headers == m.headers)
            && (m.protocolMeta != map[] ==> n.protocolMeta == m.protocolMeta)
            && (n.mode, n.protocol, n.resource, n.payload, n.createdAt)
               == (m.mode, m.protocol, m.resource, m.payload, m.createdAt)
  {
  }

  /** A message that carries its fields in the old places and one that carries them in the new
      places normalise to the same message. */
  lemma GenerationsAgree(m: Message, h: Header, fields: map<string, string>)
    requires fields != map[]
    ensures var oldStyle := m.(header := h, meta := ZERO_HEADER, headers := fields, protocolMeta := map[]);
            var newStyle := m.(header := ZERO_HEADER, meta := h, headers := map[], protocolMeta := map[m.protocol := fields]);
            Normalized(oldStyle) == Normalized(newStyle) && FieldsOf(oldStyle) == fields
  {
    var newStyle := m.(header := ZERO_HEADER, meta := h, headers := map[], protocolMeta := map[m.protocol := fields]);
    assert m.protocol in newStyle.protocolMeta;
    assert |newStyle.protocolMeta| > 0;
  }

  /** Which messages are valid, and which complaint comes first. */
  lemma ComplaintsInOrder(m: Message)
    ensures var n := Normalized(m);
            var fields := if n.protocol in n.protocolMeta then n.protocolMeta[n.protocol] else n.headers;
            var modeKnown := n.mode == "sync" || n.mode == "async";
            var protocolKnown := n.protocol in {"http", "mq", "socket", "stream", "coap"};
            var keysKnown := forall k :: k in fields ==> FieldAllowed(n.protocol, k);
            match Complaint(m)
            case Some(BadMode) => !modeKnown
            case Some(BadProtocol) => modeKnown && !protocolKnown
            case Some(NoResource) => modeKnown && protocolKnown && n.resource == ""
            case Some(BadProtocolMeta) => modeKnown && protocolKnown && n.resource != "" && !keysKnown
            case Some(NoRequestId) =>
              n.mode == "sync" && protocolKnown && n.resource != "" && keysKnown && n.header.requestId == ""
            case Some(NoTimeout) =>
              n.mode == "sync" && protocolKnown && n.resource != "" && keysKnown && n.header.requestId != "" && n.header.timeoutMs <= 0
            case None =>
              && modeKnown && protocolKnown && n.resource != "" && keysKnown
              && (n.mode == "sync" ==> n.header.requestId != "" && n.header.timeoutMs > 0)
  {
    var n := Normalized(m);
    NormalizeIdempotent(m);
    var fields := if n.protocol in n.protocolMeta then n.protocolMeta[n.protocol] else n.headers;
    ComplaintOn(m, n, fields);
  }

  lemma ComplaintOn(m: Message, n: Message, fields: map<string, string>)
    requires n == Normalized(m) && fields == FieldsOf(n)
    ensures Complaint(m) == if n.mode != "sync" && n.mode != "async" then Some(BadMode)
                            else if n.protocol !in {"http", "mq", "socket", "stream", "coap"} then Some(BadProtocol)
                            else if n.resource == "" then Some(NoResource)
                            else if exists k :: k in fields && !FieldAllowed(n.protocol, k) then Some(BadProtocolMeta)
                            else if n.mode == "sync" && n.header.requestId == "" then Some(NoRequestId)
                            else if n.mode == "sync" && n.header.timeoutMs <= 0 then Some(NoTimeout)
                            else None
  {
  }

  // ----- The codec -----

  const GZIP_MAGIC: seq<byte> := [0x44, 0x44, 0x47, 0x5a, 0x31]

  const OPEN_BRACE: byte := 0x7b

  /** The JSON and gzip libraries. */
  datatype Libraries = Libraries(
    marshal: Message -> Option<seq<byte>>,
    unmarshal: seq<byte> -> Option<Message>,
    gzip: seq<byte> -> Option<seq<byte>>,
    gunzip: seq<byte> -> Option<seq<byte>>)

  ghost predicate Lawful(lib: Libraries) {
    && (forall m :: lib.marshal(m).Some? ==>
          var raw := lib.marshal(m).value;
          lib.unmarshal(raw) == Some(m) && |raw| > 0 && raw[0] == OPEN_BRACE)
    && (forall raw :: lib.gzip(raw).Some? ==> lib.gunzip(lib.gzip(raw).value) == Some(raw))
  }

  method IsGzipEnvelope(data: seq<byte>) returns (yes: bool)
    ensures yes == (GZIP_MAGIC <= data)
    ensures yes <==> |data| >= 5 && data[..5] == [0x44, 0x44, 0x47, 0x5a, 0x31]
  {
    if |data| < |GZIP_MAGIC| { return false; }
    for i := 0 to |GZIP_MAGIC|
      invariant forall j :: 0 <= j < i ==> data[j] == GZIP_MAGIC[j]
    {
      if data[i] != GZIP_MAGIC[i] { return false; }
    }
    return true;
  }

  /** None when a library fails. */
  function Encoded(lib: Libraries, m: Message, compress: bool): Option<seq<byte>> {
    match lib.marshal(Normalized(m))
    case None => None
    case Some(raw) =>
      if !compress then Some(raw)
      else match lib.gzip(raw)
           case None => None
           case Some(zipped) => Some(GZIP_MAGIC + zipped)
  }

  function Decoded(lib: Libraries, data: seq<byte>): Option<Message> {
    var payload := if GZIP_MAGIC <= data then lib.gunzip(data[|GZIP_MAGIC|..]) else Some(data);
    if payload.None? then None
    else match lib.unmarshal(payload.value)
         case None => None
         case Some(m) => Some(Normalized(m))
  }

  method EncodeDdMessage(lib: Libraries, msg: DdMessage, compress: bool) returns (data: Option<seq<byte>>)
    modifies msg
    ensures msg.View() == Normalized(old(msg.View()))
    ensures data == Encoded(lib, old(msg.View()), compress)
    ensures !compress ==> data == lib.marshal(msg.View())
    ensures lib.marshal(msg.View()).None? ==> data == None
    ensures compress && lib.marshal(msg.View()).Some? ==>
              var zipped := lib.gzip(lib.marshal(msg.View()).value);
              data == if zipped.None? then None else Some([0x44, 0x44, 0x47, 0x5a, 0x31] + zipped.value)
  {
    msg.Normalize();
    var raw := lib.marshal(msg.View());
    if raw.None? { return None; }
    if !compress { return raw; }
    var buf := GZIP_MAGIC;
    var zipped := lib.gzip(raw.value);
    if zipped.None? { return None; }
    buf := buf + zipped.value;
    return Some(buf);
  }

  method DecodeDdMessage(lib: Libraries, data: seq<byte>) returns (out: Option<Message>)
    ensures out == Decoded(lib, data)
    ensures var raw := if |data| >= 5 && data[..5] == [0x44, 0x44, 0x47, 0x5a, 0x31] then lib.gunzip(data[5..]) else Some(data);
            if raw.None? || lib.unmarshal(raw.value).None? then out == None
            else out == Some(Normalized(lib.unmarshal(raw.value).value))
  {
    var payload := data;
    var zipped := IsGzipEnvelope(data);
    if zipped {
      var decoded := lib.gunzip(data[|GZIP_MAGIC|..]);
      if decoded.None? { return None; }
      payload := decoded.value;
    }
    var parsed := lib.unmarshal(payload);
    if parsed.None? { return None; }
    var m := new DdMessage(parsed.value);
    m.Normalize();
    return Some(m.View());
  }

  /** Decoding an encoded message yields the normalised message, compressed or not: in particular
      plain JSON is never mistaken for a gzip envelope. */
  lemma EnvelopeRoundTrip(lib: Libraries, m: Message, compress: bool)
    requires Lawful(lib) && Encoded(lib, m, compress).Some?
    ensures Decoded(lib, Encoded(lib, m, compress).value) == Some(Normalized(m))
  {
    NormalizeIdempotent(m);
    var raw := lib.marshal(Normalized(m)).value;
    if compress {
      var data := Encoded(lib, m, compress).value;
      assert GZIP_MAGIC <= data && data[|GZIP_MAGIC|..] == lib.gzip(raw).value;
    } else {
      assert raw[0] != GZIP_MAGIC[0];
    }
  }

  /** What crosses the wire keeps its verdict and its protocol fields. */
  lemma WireKeepsMeaning(lib: Libraries, m: Message, compress: bool)
    requires Lawful(lib) && Encoded(lib, m, compress).Some?
    ensures var d := Decoded(lib, Encoded(lib, m, compress).value);
            d.Some? && Complaint(d.value) == Complaint(m) && FieldsOf(d.value) == FieldsOf(m)
  {
    EnvelopeRoundTrip(lib, m, compress);
    NormalizeIdempotent(m);
  }
}
