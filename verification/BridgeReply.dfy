/** The reply that a protocol bridge builds for a synchronous request, followed back to the caller. */
module BridgeReply {
  import opened Common
  import opened Envelope
  import TopicLevels
  import TopicSet
  import Service = DdDataService

  /** A request as the bridge takes it off the wire; none if it is malformed or invalid. */
  function Received(lib: Libraries, data: seq<byte>): Option<Message> {
    match Decoded(lib, data)
    case None => None
    case Some(d) =>
      var n := Normalized(d);
      var m := n.(mode := "sync", header := n.header.(timeoutMs := if n.header.timeoutMs <= 0 then 5000 else n.header.timeoutMs));
      if Complaint(m).Some? then None else Some(Normalized(m))
  }

  function ReplyTo(req: Message, bridgePeer: string, protocol: string, headers: map<string, string>, body: seq<byte>, now: int): Message {
    Message("", "sync", protocol, req.resource,
            Header("resp-" + req.header.requestId, req.header.requestId, "", 0, bridgePeer, req.header.sourcePeerId, "",
                   req.header.traceId, ""),
            ZERO_HEADER, headers, map[], body, now)
  }

  function ReplyTopic(req: Message, tenant: string): string {
    if req.header.replyTo == "" then TopicSet.TransferResponse(tenant, req.header.sourcePeerId) else req.header.replyTo
  }

  /** Out over the wire, through a bridge, and back over the wire: a request that the data service sent is
      valid at the bridge, and the reply, if it can be encoded, lands in the caller's own channel. */
  lemma ReplyLandsAtItsCaller(lib: Libraries, p: Message, zipOut: bool, bridgePeer: string, protocol: string,
                              headers: map<string, string>, body: seq<byte>, now: int, zipBack: bool,
                              pending: map<string, int>, channels: map<int, seq<Message>>)
    requires Lawful(lib) && p.mode == "sync" && Complaint(p) == None
    requires p.header.requestId != "" && p.header.requestId in pending && Encoded(lib, p, zipOut).Some?
    ensures var received := Received(lib, Encoded(lib, p, zipOut).value);
            && received == Some(Normalized(p))
            && var wire := Encoded(lib, ReplyTo(received.value, bridgePeer, protocol, headers, body, now), zipBack);
               wire.Some? ==>
               var back := Decoded(lib, wire.value);
               && back.Some? && back.value.payload == body && back.value.resource == p.resource && back.value.mode == "sync"
               && back.value.header == Header("resp-" + p.header.requestId, p.header.requestId, "", 0, bridgePeer,
                                              p.header.sourcePeerId, "", p.header.traceId, "")
               && Service.AfterReply(pending, channels, back) == channels[pending[p.header.requestId] := [back.value]]
  {
    EnvelopeRoundTrip(lib, p, zipOut);
    NormalizeIdempotent(p);
    ReceivedSent(lib, p, zipOut);
    var reply := ReplyTo(Received(lib, Encoded(lib, p, zipOut).value).value, bridgePeer, protocol, headers, body, now);
    if Encoded(lib, reply, zipBack).Some? { EnvelopeRoundTrip(lib, reply, zipBack); }
  }

  lemma ReceivedSent(lib: Libraries, p: Message, zipOut: bool)
    requires Lawful(lib) && p.mode == "sync" && Complaint(p) == None && Encoded(lib, p, zipOut).Some?
    ensures Received(lib, Encoded(lib, p, zipOut).value) == Some(Normalized(p))
    ensures p.header.requestId != "" ==> Normalized(p).header.requestId == p.header.requestId
  {
    EnvelopeRoundTrip(lib, p, zipOut);
    NormalizeIdempotent(p);
    var n := Normalized(p);
    assert n.(mode := "sync", header := n.header.(timeoutMs := n.header.timeoutMs)) == n;
  }

  /** What the bridge makes of a decoded message: a synchronous one that waits five seconds unless it says
      how long, and nothing if that is not valid. */
  lemma BridgeFillsIn(lib: Libraries, data: seq<byte>)
    ensures Received(lib, data).Some? ==>
              && Decoded(lib, data).Some?
              && var d := Decoded(lib, data).value;
                 Received(lib, data).value ==
                 d.(mode := "sync", header := d.header.(timeoutMs := if d.header.timeoutMs > 0 then d.header.timeoutMs else 5000))
    ensures Received(lib, data).None? && Decoded(lib, data).Some? ==>
              var d := Decoded(lib, data).value;
              Complaint(d.(mode := "sync", header := d.header.(timeoutMs := if d.header.timeoutMs > 0 then d.header.timeoutMs else 5000))).Some?
  {
    if Decoded(lib, data).Some? { DecodedIsNormal(lib, data); }
    if Received(lib, data).Some? {
      var d := Decoded(lib, data).value;
      var m := d.(mode := "sync", header := d.header.(timeoutMs := if d.header.timeoutMs > 0 then d.header.timeoutMs else 5000));
      assert m.header != ZERO_HEADER && d.meta != ZERO_HEADER;
      assert Normalized(m) == m;
    }
  }

  lemma DecodedIsNormal(lib: Libraries, data: seq<byte>)
    requires Decoded(lib, data).Some?
    ensures Normalized(Decoded(lib, data).value) == Decoded(lib, data).value
  {
    var payload := if GZIP_MAGIC <= data then lib.gunzip(data[|GZIP_MAGIC|..]) else Some(data);
    NormalizeIdempotent(lib.unmarshal(payload.value).value);
  }

  /** Whether the data service subscribes to the topic such a reply goes to: for the default address exactly
      when the source peer id is a single level; for an address that the request gave, exactly when that is
      the reply topic of some one-level peer or request id. */
  lemma ReplyTopicIsSubscribed(req: Message, tenant: string)
    requires TopicSet.PlainTenant(tenant)
    ensures TopicSet.OnSomeStream(tenant, ReplyTopic(req, tenant)) <==>
              if req.header.replyTo == "" then '/' !in req.header.sourcePeerId
              else exists x :: '/' !in x && (req.header.replyTo == TopicSet.TransferResponse(tenant, x)
                                             || req.header.replyTo == TopicSet.TransferResponseByRequest(tenant, x))
  {
    if req.header.replyTo == "" {
      TopicSet.ResponseOnStreams(tenant, req.header.sourcePeerId);
    } else {
      TopicSet.StreamTopics(tenant, req.header.replyTo);
    }
  }
}
