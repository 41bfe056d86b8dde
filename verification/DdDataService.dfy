/** The data service as one object: pending map, reply channels, status table and idempotency cache,
    and the two entry points that change them.  Each method runs without interference here; ServiceRun
    makes its calls runs of SendSyncSystem, where the atomic steps of all calls interleave. */
module DdDataService {
  import opened Common
  import opened Envelope
  import opened IdempotencyCache
  import opened TopicAcl
  import opened TransferStatus
  import Engine = SyncEngine

  /** The id under which a reply is looked up. */
  function KeyOf(m: Message): string { Engine.ReplyKey(Engine.Reply(m.header.correlationId, m.header.requestId)) }

  datatype Record = Record(
    requestId: string, resource: string, protocol: string, mode: string, sourcePeerId: string, targetPeerId: string,
    createdAt: int, status: Status, latencyMs: int, updatedAt: int)

  type StatusTable = map<string, Record>

  function Recorded(t: StatusTable, m: Message, status: Status, latencyMs: int, now: int): StatusTable {
    var id := m.header.requestId;
    t[id := if id in t then t[id].(status := status, latencyMs := latencyMs, updatedAt := now)
            else Record(id, m.resource, m.protocol, m.mode, m.header.sourcePeerId, m.header.targetPeerId,
                        now, status, latencyMs, now)]
  }

  /** What the retention sweep leaves. */
  function Retained(t: StatusTable, now: int): StatusTable {
    map id | id in t && now - t[id].updatedAt <= RETENTION :: t[id]
  }

  /** The statuses and times of the records, as TransferStatus speaks of them. */
  function Standings(t: StatusTable): map<string, Standing> {
    map id | id in t :: Standing(t[id].status, t[id].updatedAt)
  }

  /** The records of the service make the steps of the table that TransferStatus follows. */
  lemma StandingsFollow(t: StatusTable, log: seq<Note>, sweeps: seq<int>, call: int, m: Message, status: Status, latencyMs: int,
                        before: int, now: int)
    ensures var n := Note(m.header.requestId, call, status, now);
            Standings(Recorded(t, m, status, latencyMs, now)) == Noted(Table(Standings(t), log, sweeps, before), n).records
    ensures Standings(Retained(t, now)) == Swept(Table(Standings(t), log, sweeps, before), now).records
  {
    assert Standings(Retained(t, now)) == Kept(Standings(t), now);
  }

  /** What happens while a call waits: the replies that arrive, in order, and whether it is a cancellation or
      the timer that ends the wait if none of them is its own. */
  datatype Waiting = Waiting(arrivals: seq<seq<byte>>, ctxDone: bool)

  /** The first arrival that is addressed to the id. */
  function FirstOwn(lib: Libraries, arrivals: seq<seq<byte>>, id: string): (m: Option<Message>)
    ensures m.Some? ==> KeyOf(m.value) == id
  {
    if arrivals == [] then None
    else
      var m := Decoded(lib, arrivals[0]);
      if m.Some? && KeyOf(m.value) == id then m else FirstOwn(lib, arrivals[1..], id)
  }

  /** The i-th arrival is addressed to the id: by its correlation id or, if it has none, by its request id. */
  predicate AddressedAt(lib: Libraries, arrivals: seq<seq<byte>>, i: nat, id: string)
    requires i < |arrivals|
    ensures AddressedAt(lib, arrivals, i, id) <==>
            && Decoded(lib, arrivals[i]).Some?
            && var h := Decoded(lib, arrivals[i]).value.header;
               if h.correlationId != "" then h.correlationId == id else h.requestId == id
  {
    Decoded(lib, arrivals[i]).Some? && KeyOf(Decoded(lib, arrivals[i]).value) == id
  }

  /** It is the first one, and there is none only if no arrival is addressed to the id. */
  lemma {:induction false} FirstOwnIs(lib: Libraries, arrivals: seq<seq<byte>>, id: string)
    ensures FirstOwn(lib, arrivals, id).Some? ==>
              exists i :: && 0 <= i < |arrivals| && AddressedAt(lib, arrivals, i, id) && Decoded(lib, arrivals[i]) == FirstOwn(lib, arrivals, id)
                          && forall j :: 0 <= j < i ==> !AddressedAt(lib, arrivals, j, id)
    ensures FirstOwn(lib, arrivals, id).None? ==> forall i :: 0 <= i < |arrivals| ==> !AddressedAt(lib, arrivals, i, id)
  {
    if arrivals != [] && !AddressedAt(lib, arrivals, 0, id) {
      var rest := arrivals[1..];
      FirstOwnIs(lib, rest, id);
      forall j | 0 < j < |arrivals| ensures AddressedAt(lib, arrivals, j, id) <==> AddressedAt(lib, rest, j - 1, id) {}
      if FirstOwn(lib, rest, id).Some? {
        var i :| && 0 <= i < |rest| && AddressedAt(lib, rest, i, id) && Decoded(lib, rest[i]) == FirstOwn(lib, rest, id)
                 && forall j :: 0 <= j < i ==> !AddressedAt(lib, rest, j, id);
        assert AddressedAt(lib, arrivals, i + 1, id) && Decoded(lib, arrivals[i + 1]) == FirstOwn(lib, arrivals, id);
        assert forall j :: 0 <= j < i + 1 ==> !AddressedAt(lib, arrivals, j, id);
      }
    } else if arrivals != [] {
      assert AddressedAt(lib, arrivals, 0, id);
    }
  }

  datatype SyncOutcome =
    | Denied | FromCache(m: Message) | Invalid(why: Invalid) | Backpressure | DuplicateRequest
    | EncodeFailed | PublishFailed | Cancelled | Timeout | Answered(m: Message)

  function FilledIn(n: Message, now: int, defaultTimeoutMs: int): Message {
    n.(mode := "sync",
       createdAt := if n.createdAt == 0 then now else n.createdAt,
       header := n.header.(timeoutMs := if n.header.timeoutMs <= 0 then defaultTimeoutMs else n.header.timeoutMs))
  }

  function Traced(n: Message): Message {
    n.(header := n.header.(traceId := if n.header.traceId == "" then n.header.requestId else n.header.traceId))
  }

  /** The message as SendSync registers and publishes it. */
  function Prepared(m: Message, now: int, defaultTimeoutMs: int): Message {
    Traced(FilledIn(Normalized(m), now, defaultTimeoutMs))
  }

  method FillIn(msg: DdMessage, now: int, defaultTimeoutMs: int)
    modifies msg
    ensures msg.View() == FilledIn(old(msg.View()), now, defaultTimeoutMs)
  {
    msg.mode := "sync";
    if msg.createdAt == 0 { msg.createdAt := now; }
    if msg.header.timeoutMs <= 0 { msg.header := msg.header.(timeoutMs := defaultTimeoutMs); }
  }

  method Trace(msg: DdMessage)
    modifies msg
    ensures msg.View() == Traced(old(msg.View()))
  {
    if msg.header.traceId == "" { msg.header := msg.header.(traceId := msg.header.requestId); }
  }

  /** The checks before registration, in their order: access control, cache, request id, validation. */
  function Screen(allowed: bool, cached: Option<Message>, p: Message): Option<SyncOutcome> {
    if !allowed then Some(Denied)
    else if cached.Some? then Some(FromCache(cached.value))
    else if p.header.requestId == "" then Some(Invalid(NoRequestId))
    else if Complaint(p).Some? then Some(Invalid(Complaint(p).value))
    else None
  }

  /** What one uninterrupted reply delivery does to the channels: the addressee's channel holds just it. */
  function AfterReply(pending: map<string, int>, channels: map<int, seq<Message>>, m: Option<Message>): map<int, seq<Message>> {
    if m.Some? && KeyOf(m.value) != "" && KeyOf(m.value) in pending then channels[pending[KeyOf(m.value)] := [m.value]] else channels
  }

  /** The channels after a wait: every arrival up to the first own one is delivered, and that one is taken. */
  function AfterWait(lib: Libraries, pending: map<string, int>, channels: map<int, seq<Message>>, arrivals: seq<seq<byte>>, id: string)
    : map<int, seq<Message>>
    requires id in pending
    decreases |arrivals|
  {
    if arrivals == [] then channels
    else
      var m := Decoded(lib, arrivals[0]);
      if m.Some? && KeyOf(m.value) == id then channels[pending[id] := []]
      else AfterWait(lib, pending, AfterReply(pending, channels, m), arrivals[1..], id)
  }

  /** What a wait does for another pending id, when the n arrivals before the first own one are delivered: its
      channel holds the last of them addressed to it, and what it held before if there is none. */
  lemma {:induction false} WaitFeedsOthers(lib: Libraries, pending: map<string, int>, channels: map<int, seq<Message>>,
                                           arrivals: seq<seq<byte>>, id: string, n: nat, other: string, last: int)
    requires id in pending && other in pending && other != "" && pending[other] in channels
    requires forall k :: k in pending && k != other ==> pending[k] != pending[other]
    requires n <= |arrivals| && forall i :: 0 <= i < n ==> !AddressedAt(lib, arrivals, i, id)
    requires n == |arrivals| || AddressedAt(lib, arrivals, n, id)
    requires -1 <= last < n && (last >= 0 ==> AddressedAt(lib, arrivals, last, other))
    requires forall j :: last < j < n ==> !AddressedAt(lib, arrivals, j, other)
    requires id != other
    ensures var after := AfterWait(lib, pending, channels, arrivals, id);
            && pending[other] in after
            && after[pending[other]] == if last < 0 then channels[pending[other]] else [Decoded(lib, arrivals[last]).value]
    decreases n
  {
    if n > 0 {
      var m := Decoded(lib, arrivals[0]);
      var rest := arrivals[1..];
      assert !AddressedAt(lib, arrivals, 0, id) && (last < 0 ==> !AddressedAt(lib, arrivals, 0, other));
      AddressedShift(lib, arrivals, id);
      AddressedShift(lib, arrivals, other);
      WaitFeedsOthers(lib, pending, AfterReply(pending, channels, m), rest, id, n - 1, other, if last < 0 then -1 else last - 1);
    } else if arrivals != [] {
      assert AddressedAt(lib, arrivals, 0, id);
    }
  }

  lemma AddressedShift(lib: Libraries, arrivals: seq<seq<byte>>, id: string)
    requires arrivals != []
    ensures forall i :: 0 <= i < |arrivals| - 1 ==> AddressedAt(lib, arrivals[1..], i, id) == AddressedAt(lib, arrivals, i + 1, id)
  {
  }

  /** What a call leaves behind: the status table, the cache, and what was published. */
  datatype Books = Books(statuses: StatusTable, cache: map<string, Entry<Message>>, published: seq<(string, seq<byte>)>) {
    function Note(p: Message, status: Status, latencyMs: int, at: int): Books {
      this.(statuses := Recorded(statuses, p, status, latencyMs, at))
    }
  }

  /** The call of a prepared message from its first status on; `arrived` is the reply addressed to it, if one comes. */
  datatype Sending = Sending(p: Message, topic: string, wire: Option<seq<byte>>, publishFails: bool, waiting: Waiting,
                             arrived: Option<Message>, now: int, later: int)

  /** A registered call: published, then answered by a reply with its own id, cancelled, or timed out. */
  function Exchanged(b: Books, s: Sending): (Books, SyncOutcome) {
    var routed := b.Note(s.p, Routed, 0, s.now);
    if s.wire.None? then (routed.Note(s.p, Failed, 0, s.now), EncodeFailed)
    else if s.publishFails then (routed.Note(s.p, Failed, 0, s.now), PublishFailed)
    else
      var sent := routed.(published := routed.published + [(s.topic, s.wire.value)]);
      Settled(sent, s, s.arrived)
  }

  /** The end of the wait, with the reply that was taken if there was one. */
  function Settled(b: Books, s: Sending, taken: Option<Message>): (Books, SyncOutcome) {
    if taken.Some? then
      var c := Completion(s.p.header.idempotencyKey, taken.value, s.p.header.timeoutMs, s.later);
      (b.Note(s.p, Responded, s.later - s.now, s.later).(cache := Stored(b.cache, c)), Answered(taken.value))
    else if s.waiting.ctxDone then (b, Cancelled)
    else (b.Note(s.p, TimedOut, 0, s.later), Timeout)
  }

  /** A call that passed the checks. */
  function Called(b: Books, admission: Engine.Admission, s: Sending): (Books, SyncOutcome) {
    var accepted := b.Note(s.p, Accepted, 0, s.now);
    match admission
    case Backpressure => (accepted, SyncOutcome.Backpressure)
    case Duplicate => (accepted, DuplicateRequest)
    case Admitted => Exchanged(accepted, s)
  }

  /** A whole call: screened, or sent. */
  function SyncCall(b: Books, allowed: bool, admission: Engine.Admission, s: Sending): (Books, SyncOutcome) {
    var screen := Screen(allowed, Lookup(b.cache, s.p.header.idempotencyKey, s.now), s.p);
    if screen.Some? then (b, screen.value) else Called(b, admission, s)
  }

  /** How a call ends: refused by access control, answered from the cache, or refused as invalid, in this order
      and without a trace; else by the admission, the encoding, the publication, the first own reply, the
      cancellation, or the timer.  Exactly the calls that go out publish, once. */
  lemma CallsEnd(b: Books, allowed: bool, admission: Engine.Admission, s: Sending)
    ensures var (after, result) := SyncCall(b, allowed, admission, s);
            var key := s.p.header.idempotencyKey;
            var hit := key != "" && key in b.cache && s.now < b.cache[key].expireAt;
            var passed := allowed && !hit && s.p.header.requestId != "" && Complaint(s.p).None?;
            var sent := passed && admission.Admitted? && s.wire.Some? && !s.publishFails;
            && (result.Denied? <==> !allowed)
            && (result.FromCache? <==> allowed && hit) && (result.FromCache? ==> result.m == b.cache[key].response)
            && (result.Invalid? <==> allowed && !hit && (s.p.header.requestId == "" || Complaint(s.p).Some?))
            && (result.Backpressure? <==> passed && admission.Backpressure?)
            && (result.DuplicateRequest? <==> passed && admission.Duplicate?)
            && (result.EncodeFailed? <==> passed && admission.Admitted? && s.wire.None?)
            && (result.PublishFailed? <==> passed && admission.Admitted? && s.wire.Some? && s.publishFails)
            && (result.Answered? <==> sent && s.arrived.Some?) && (result.Answered? ==> result.m == s.arrived.value)
            && (result.Cancelled? <==> sent && s.arrived.None? && s.waiting.ctxDone)
            && (result.Timeout? <==> sent && s.arrived.None? && !s.waiting.ctxDone)
            && after.published == (if sent then b.published + [(s.topic, s.wire.value)] else b.published)
            && (!passed ==> after == b)
            && (!result.Answered? ==> after.cache == b.cache)
  {
  }

  /** An answered call leaves its reply in the cache, under its key if it has one. */
  lemma AnswersAreStored(b: Books, allowed: bool, admission: Engine.Admission, s: Sending)
    ensures var (after, result) := SyncCall(b, allowed, admission, s);
            var key := s.p.header.idempotencyKey;
            after.cache == if !result.Answered? || key == "" then b.cache
                           else if s.p.header.timeoutMs <= 12000 then b.cache[key := Entry(result.m, s.later + 60000)]
                           else b.cache[key := Entry(result.m, s.later + 5 * s.p.header.timeoutMs)]
  {
  }

  class DdDataService {
    const lib: Libraries
    const maxPendingRequests: nat
    const defaultTimeoutMs: int
    const compressThreshold: nat
    const acl: Option<TopicAclService>
    const store: IdempotentStore<Message>
    var pendingRequests: map<string, int>
    var channels: map<int, seq<Message>>
    var nextChannel: int
    var transferStatuses: StatusTable
    var published: seq<(string, seq<byte>)>

    ghost predicate Valid()
      reads this
    {
      && (forall id :: id in pendingRequests ==> pendingRequests[id] in channels)
      && (forall id, id' :: id in pendingRequests && id' in pendingRequests && id != id' ==> pendingRequests[id] != pendingRequests[id'])
      && (forall c :: c in channels ==> c < nextChannel && |channels[c]| <= 1)
    }

    constructor (lib: Libraries, acl: Option<TopicAclService>, defaultTimeoutMs: int)
      ensures Valid() && pendingRequests == map[] && transferStatuses == map[] && published == []
      ensures fresh(store) && store.idempotentKeys == map[] && maxPendingRequests == 1024
      ensures compressThreshold == 128
      ensures this.lib == lib && this.acl == acl && this.defaultTimeoutMs == defaultTimeoutMs
    {
      this.lib, this.acl, this.defaultTimeoutMs := lib, acl, defaultTimeoutMs;
      maxPendingRequests, compressThreshold := 1024, 128;
      store := new IdempotentStore<Message>();
      pendingRequests, channels, nextChannel, transferStatuses, published := map[], map[], 0, map[], [];
    }

    method RecordStatus(m: Message, status: Status, latencyMs: int, now: int)
      modifies this`transferStatuses
      ensures transferStatuses == Recorded(old(transferStatuses), m, status, latencyMs, now)
      ensures var id := m.header.requestId;
              id in transferStatuses && transferStatuses ==
              old(transferStatuses)[id := Record(
                if id in old(transferStatuses) then old(transferStatuses)[id].requestId else id,
                if id in old(transferStatuses) then old(transferStatuses)[id].resource else m.resource,
                if id in old(transferStatuses) then old(transferStatuses)[id].protocol else m.protocol,
                if id in old(transferStatuses) then old(transferStatuses)[id].mode else m.mode,
                if id in old(transferStatuses) then old(transferStatuses)[id].sourcePeerId else m.header.sourcePeerId,
                if id in old(transferStatuses) then old(transferStatuses)[id].targetPeerId else m.header.targetPeerId,
                if id in old(transferStatuses) then old(transferStatuses)[id].createdAt else now,
                status, latencyMs, now)]
    {
      var id := m.header.requestId;
      if id !in transferStatuses {
        var rec := Record(id, m.resource, m.protocol, m.mode, m.header.sourcePeerId, m.header.targetPeerId, now, status, 0, now);
        transferStatuses := transferStatuses[id := rec];
      }
      var rec := transferStatuses[id].(status := status);
      rec := rec.(latencyMs := latencyMs);
      rec := rec.(updatedAt := now);
      transferStatuses := transferStatuses[id := rec];
    }

    /** One tick of the retention sweeper. */
    method SweepTransferStatuses(now: int)
      modifies this`transferStatuses
      ensures transferStatuses == Retained(old(transferStatuses), now)
      ensures forall id :: id in transferStatuses <==>
                id in old(transferStatuses) && now - old(transferStatuses)[id].updatedAt <= 1800000
      ensures forall id :: id in transferStatuses ==> transferStatuses[id] == old(transferStatuses)[id]
    {
      var rest := transferStatuses.Keys;
      while rest != {}
        invariant rest <= transferStatuses.Keys <= old(transferStatuses).Keys
        invariant forall id :: id in transferStatuses ==> transferStatuses[id] == old(transferStatuses)[id]
        invariant forall id :: id in old(transferStatuses) && id !in rest ==>
                    (id in transferStatuses <==> now - old(transferStatuses)[id].updatedAt <= RETENTION)
        decreases rest
      {
        var requestId :| requestId in rest;
        rest := rest - {requestId};
        if now - transferStatuses[requestId].updatedAt > RETENTION { transferStatuses := transferStatuses - {requestId}; }
      }
    }

    /** Registration under the pending lock: the bound is checked before the duplicate. */
    method Register(id: string) returns (verdict: Engine.Admission, ch: int)
      requires Valid()
      modifies this`pendingRequests, this`channels, this`nextChannel
      ensures Valid() && verdict == Engine.Admit(old(pendingRequests), maxPendingRequests, id)
      ensures verdict.Backpressure? <==> |old(pendingRequests)| >= maxPendingRequests
      ensures verdict.Duplicate? <==> |old(pendingRequests)| < maxPendingRequests && id in old(pendingRequests)
      ensures ch == old(nextChannel) && ch !in old(channels) && channels == old(channels)[ch := []]
      ensures pendingRequests == if verdict == Engine.Admitted then old(pendingRequests)[id := ch] else old(pendingRequests)
    {
      ch := nextChannel;
      nextChannel := nextChannel + 1;
      channels := channels[ch := []];
      if |pendingRequests| >= maxPendingRequests { return Engine.Backpressure, ch; }
      if id in pendingRequests { return Engine.Duplicate, ch; }
      pendingRequests := pendingRequests[id := ch];
      return Engine.Admitted, ch;
    }

    method Unregister(id: string)
      requires Valid()
      modifies this`pendingRequests
      ensures Valid() && pendingRequests == old(pendingRequests) - {id}
    {
      pendingRequests := pendingRequests - {id};
    }

    /** The subscription callback: a late or duplicate reply replaces the stale one. */
    method HandleReply(data: seq<byte>)
      requires Valid()
      modifies this`channels
      ensures Valid() && channels == AfterReply(pendingRequests, old(channels), Decoded(lib, data))
      ensures Decoded(lib, data).None? ==> channels == old(channels)
      ensures Decoded(lib, data).Some? ==>
                var m := Decoded(lib, data).value; var c, r := m.header.correlationId, m.header.requestId;
                channels == if c != "" && c in pendingRequests then old(channels)[pendingRequests[c] := [m]]
                            else if c == "" && r != "" && r in pendingRequests then old(channels)[pendingRequests[r] := [m]]
                            else old(channels)
    {
      var decoded := DecodeDdMessage(lib, data);
      if decoded.None? { return; }
      var msg := decoded.value;
      var reqId := msg.header.correlationId;
      if reqId == "" { reqId := msg.header.requestId; }
      if reqId == "" { return; }
      if reqId !in pendingRequests { return; }
      var ch := pendingRequests[reqId];
      if |channels[ch]| < 1 {
        channels := channels[ch := Engine.Offered(channels[ch], msg)];
      } else {
        channels := channels[ch := Engine.Drained(channels[ch])];
        channels := channels[ch := Engine.Offered(channels[ch], msg)];
      }
    }

    ghost function Rules(): Option<set<Rule>>
      reads if acl.Some? then {acl.value} else {}
    {
      if acl.None? then None else Some(RuleSet(acl.value.rules))
    }

    ghost predicate Allows(caller: string, topic: string)
      reads if acl.Some? then {acl.value} else {}
    {
      Rules().Some? ==> Permitted(Rules().value, caller, Pub, topic)
    }

    method CheckAcl(caller: string, topic: string) returns (ok: bool)
      ensures ok == Allows(caller, topic)
      ensures ok <==> acl.None? || Permitted(RuleSet(acl.value.rules), caller, Pub, topic)
    {
      if acl.None? { return true; }
      ok := acl.value.Authorize(caller, Pub, topic);
    }

    /** The checks before registration; they change nothing. */
    method Prepare(topic: string, m: Message, now: int) returns (p: Message, refused: Option<SyncOutcome>)
      ensures p == Prepared(m, now, defaultTimeoutMs)
      ensures var n := Normalized(m);
              p == n.(mode := "sync", createdAt := if n.createdAt == 0 then now else n.createdAt,
                      header := n.header.(timeoutMs := if n.header.timeoutMs <= 0 then defaultTimeoutMs else n.header.timeoutMs,
                                          traceId := if n.header.traceId == "" then n.header.requestId else n.header.traceId))
      ensures refused == Some(Denied) <==> acl.Some? && !Permitted(RuleSet(acl.value.rules), Normalized(m).header.sourcePeerId, Pub, topic)
      ensures refused == Screen(Allows(p.header.sourcePeerId, topic),
                                Lookup(store.idempotentKeys, p.header.idempotencyKey, now), p)
    {
      var msg := new DdMessage(m);
      msg.Normalize();
      p := Prepared(m, now, defaultTimeoutMs);
      var allowed := CheckAcl(msg.header.sourcePeerId, topic);
      if !allowed { return p, Some(Denied); }
      var cached := store.LookupIdempotent(msg.header.idempotencyKey, now);
      if cached.Some? { return p, Some(FromCache(cached.value)); }
      FillIn(msg, now, defaultTimeoutMs);
      if msg.header.requestId == "" { return p, Some(Invalid(NoRequestId)); }
      Trace(msg);
      var err := msg.Validate();
      if err.Some? { return p, Some(Invalid(err.value)); }
      return p, None;
    }

    /** One delivery, and what the waiter then finds in its channel. */
    method TakeOwn(id: string, ch: int, data: seq<byte>) returns (resp: Option<Message>)
      requires Valid() && id in pendingRequests && pendingRequests[id] == ch && channels[ch] == [] && id != ""
      modifies this`channels
      ensures Valid() && channels.Keys == old(channels).Keys && channels[ch] == []
      ensures var m := Decoded(lib, data);
              if m.Some? && KeyOf(m.value) == id then resp == m && channels == old(channels)[ch := []]
              else resp == None && channels == AfterReply(pendingRequests, old(channels), m)
    {
      HandleReply(data);
      if channels[ch] == [] { return None; }
      resp := Some(channels[ch][0]);
      channels := channels[ch := channels[ch][1..]];
    }

    /** The wait on an own, still empty channel: replies are delivered as they come, the first own one is taken. */
    method Await(id: string, ch: int, waiting: Waiting) returns (resp: Option<Message>)
      requires Valid() && id in pendingRequests && pendingRequests[id] == ch && channels[ch] == [] && id != ""
      modifies this`channels
      ensures Valid()
      ensures resp == FirstOwn(lib, waiting.arrivals, id)
      ensures channels == AfterWait(lib, pendingRequests, old(channels), waiting.arrivals, id)
    {
      var i := 0;
      ghost var arrivals := waiting.arrivals;
      while i < |waiting.arrivals|
        invariant 0 <= i <= |waiting.arrivals| && arrivals == waiting.arrivals[i..]
        invariant Valid() && channels.Keys == old(channels).Keys && channels[ch] == []
        invariant FirstOwn(lib, arrivals, id) == FirstOwn(lib, waiting.arrivals, id)
        invariant AfterWait(lib, pendingRequests, channels, arrivals, id)
               == AfterWait(lib, pendingRequests, old(channels), waiting.arrivals, id)
      {
        resp := TakeOwn(id, ch, waiting.arrivals[i]);
        if resp.Some? { return; }
        i := i + 1;
        arrivals := arrivals[1..];
      }
      return None;
    }

    ghost function View(): Books
      reads this, store
    {
      Books(transferStatuses, store.idempotentKeys, published)
    }

    ghost function SendingOf(p: Message, topic: string, publishFails: bool, waiting: Waiting, now: int, later: int): Sending {
      Sending(p, topic, Encoded(lib, p, |p.payload| >= compressThreshold), publishFails, waiting,
              FirstOwn(lib, waiting.arrivals, p.header.requestId), now, later)
    }

    /** From registration to the end of the wait. */
    method Exchange(p: Message, topic: string, ch: int, publishFails: bool, waiting: Waiting, now: int, later: int)
      returns (result: SyncOutcome)
      requires Valid() && p.header.requestId != "" && p.header.requestId in pendingRequests
      requires pendingRequests[p.header.requestId] == ch && channels[ch] == []
      modifies this`transferStatuses, this`published, this`channels, store
      ensures Valid()
      ensures (View(), result) == Exchanged(old(View()), SendingOf(p, topic, publishFails, waiting, now, later))
    {
      RecordStatus(p, Routed, 0, now);
      var data := Encoded(lib, p, |p.payload| >= compressThreshold);
      if data.None? {
        RecordStatus(p, Failed, 0, now);
        return EncodeFailed;
      }
      if publishFails {
        RecordStatus(p, Failed, 0, now);
        return PublishFailed;
      }
      published := published + [(topic, data.value)];
      var resp := Await(p.header.requestId, ch, waiting);
      result := Settle(resp, SendingOf(p, topic, publishFails, waiting, now, later), p, waiting, now, later);
    }

    method Settle(resp: Option<Message>, ghost s: Sending, p: Message, waiting: Waiting, now: int, later: int)
      returns (result: SyncOutcome)
      requires s.p == p && s.waiting == waiting && s.now == now && s.later == later
      modifies this`transferStatuses, store
      ensures (View(), result) == Settled(old(View()), s, resp)
    {
      if resp.Some? {
        RecordStatus(p, Responded, later - now, later);
        store.StoreIdempotent(p.header.idempotencyKey, p.header.timeoutMs, resp.value, later);
        return Answered(resp.value);
      }
      if waiting.ctxDone { return Cancelled; }
      RecordStatus(p, TimedOut, 0, later);
      return Timeout;
    }

    /** A call that passed the checks: the pending entry lives from registration to the deferred delete. */
    method RegisterAndExchange(p: Message, topic: string, publishFails: bool, waiting: Waiting, now: int, later: int)
      returns (result: SyncOutcome)
      requires Valid() && p.header.requestId != ""
      modifies this, store
      ensures Valid() && pendingRequests == old(pendingRequests)
      ensures (View(), result) ==
              Called(old(View()), Engine.Admit(old(pendingRequests), maxPendingRequests, p.header.requestId),
                     SendingOf(p, topic, publishFails, waiting, now, later))
    {
      var id := p.header.requestId;
      RecordStatus(p, Accepted, 0, now);
      var verdict, ch := Register(id);
      if verdict == Engine.Backpressure { return Backpressure; }
      if verdict == Engine.Duplicate { return DuplicateRequest; }
      result := Exchange(p, topic, ch, publishFails, waiting, now, later);
      Unregister(id);
      assert pendingRequests == old(pendingRequests);
    }

    /** One synchronous call without other callers in between.  Whatever happens, the pending map is
        afterwards as it was; the books tell how the call went. */
    method SendSync(topic: string, m: Message, now: int, publishFails: bool, waiting: Waiting, later: int)
      returns (result: SyncOutcome)
      requires Valid()
      modifies this, store
      ensures Valid() && pendingRequests == old(pendingRequests)
      ensures var p := Prepared(m, now, defaultTimeoutMs);
              (View(), result) ==
              SyncCall(old(View()), old(Allows(p.header.sourcePeerId, topic)),
                       Engine.Admit(old(pendingRequests), maxPendingRequests, p.header.requestId),
                       SendingOf(p, topic, publishFails, waiting, now, later))
      ensures result.Denied? <==>
              old(acl.Some? && !Permitted(RuleSet(acl.value.rules), Normalized(m).header.sourcePeerId, Pub, topic))
      ensures result.FromCache? <==>
              && !result.Denied?
              && var key := Normalized(m).header.idempotencyKey;
                 key != "" && key in old(store.idempotentKeys) && now < old(store.idempotentKeys)[key].expireAt
      ensures result.Denied? || result.FromCache? || result.Invalid? ==>
                transferStatuses == old(transferStatuses) && store.idempotentKeys == old(store.idempotentKeys)
      ensures if !result.Answered? && !result.Cancelled? && !result.Timeout? then published == old(published)
              else && |published| == |old(published)| + 1 && published[..|old(published)|] == old(published)
                   && published[|old(published)|].0 == topic
                   && var p := Prepared(m, now, defaultTimeoutMs);
                      Encoded(lib, p, |p.payload| >= compressThreshold) == Some(published[|old(published)|].1)
      ensures var id := Normalized(m).header.requestId; var arrivals := waiting.arrivals;
              && (result.Answered? ==>
                    exists i :: && 0 <= i < |arrivals| && AddressedAt(lib, arrivals, i, id) && Decoded(lib, arrivals[i]) == Some(result.m)
                                && forall j :: 0 <= j < i ==> !AddressedAt(lib, arrivals, j, id))
              && (result.Cancelled? || result.Timeout? ==> forall i :: 0 <= i < |arrivals| ==> !AddressedAt(lib, arrivals, i, id))
    {
      ghost var b, allowed := View(), Allows(Prepared(m, now, defaultTimeoutMs).header.sourcePeerId, topic);
      ghost var admission := Engine.Admit(pendingRequests, maxPendingRequests, Prepared(m, now, defaultTimeoutMs).header.requestId);
      ghost var s := SendingOf(Prepared(m, now, defaultTimeoutMs), topic, publishFails, waiting, now, later);
      CallsEnd(b, allowed, admission, s);
      FirstOwnIs(lib, waiting.arrivals, s.p.header.requestId);
      var p, refused := Prepare(topic, m, now);
      if refused.Some? { return refused.value; }
      result := RegisterAndExchange(p, topic, publishFails, waiting, now, later);
    }
  }

  /** The outcome of a call that passed the checks, and the status it leaves under its id: a call that
      ends cancelled stays "routed", and one that was refused stays "accepted" even though the id may
      belong to a running call. */
  lemma StatusTellsOutcome(b: Books, admission: Engine.Admission, s: Sending)
    requires s.arrived.Some? ==> KeyOf(s.arrived.value) == s.p.header.requestId
    ensures var (after, result) := Called(b, admission, s); var id := s.p.header.requestId;
            && id in after.statuses
            && (after.statuses[id].status == Responded <==> result.Answered?)
            && (after.statuses[id].status == TimedOut <==> result.Timeout?)
            && (after.statuses[id].status == Failed <==> result.PublishFailed? || result.EncodeFailed?)
            && (after.statuses[id].status == Routed <==> result.Cancelled?)
            && (after.statuses[id].status == Accepted <==> result.Backpressure? || result.DuplicateRequest?)
            && after.statuses[id].latencyMs == (if result.Answered? then s.later - s.now else 0)
            && after.statuses[id].updatedAt == (if result.Answered? || result.Timeout? then s.later else s.now)
            && (result.Answered? ==> KeyOf(result.m) == id)
            && (forall k :: k != id && k in b.statuses ==> k in after.statuses && after.statuses[k] == b.statuses[k])
            && (id in b.statuses ==> after.statuses[id].createdAt == b.statuses[id].createdAt)
  {
  }

  /** A retry inside the window is answered from the cache, without a new request. */
  lemma RetryIsServedFromCache(b: Books, s: Sending, retry: Message, at: int, allowed: bool, defaultTimeoutMs: int)
    requires allowed && s.arrived.Some? && s.wire.Some? && !s.publishFails
    requires Normalized(retry).header.idempotencyKey == s.p.header.idempotencyKey != ""
    requires at < s.later + 60000 || at < s.later + 5 * s.p.header.timeoutMs
    ensures var p := Prepared(retry, at, defaultTimeoutMs);
            var (after, result) := Called(b, Engine.Admitted, s);
            && result == Answered(s.arrived.value)
            && Screen(allowed, Lookup(after.cache, p.header.idempotencyKey, at), p) == Some(FromCache(s.arrived.value))
  {
  }
}
