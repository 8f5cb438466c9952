/** The request and response client of the bridge (src/xauusd/execution/mt5_broker.py,
    BridgeTransport.call), against a server that answers each request it receives in full with one
    frame, in order.  Responses carry an id that the client never compares; what keeps a call from
    taking another call's answer is that the socket is dropped after every failure. */
module BridgeTransport {
  import opened Domain
  import opened BridgeProtocol

  datatype Response = Response(id: nat, ok: bool, ambiguous: bool, result: int)

  // The encoding of responses, known only to be reversible.
  datatype Json = Json(dump: Response -> bytes, load: bytes -> Response) {
    ghost predicate Faithful() {
      forall r :: load(dump(r)) == r
    }
  }

  datatype Outcome = Value(result: int) | AmbiguousSend | BrokerFailure | FramingFailure

  // The calls that are never written a second time.
  predicate Guarded(name: string) {
    name in ["send_market", "close_position", "modify_position"]
  }

  predicate Mutating(name: string) {
    name in ["send_market", "modify_position", "close_position", "cancel_order"]
  }

  function MaxAttempts(name: string): nat {
    if Guarded(name) then 1 else 2
  }

  /** How one attempt of a call ended: no connection; a request too large to encode; an
      operating-system error once the request was handed over, perhaps only in part; an answer. */
  datatype End = Unconnected | TooLong | Lost | Answered(response: Response) {
    predicate Failed() { this == Unconnected || this == Lost }
    predicate Wrote() { this == Lost || this.Answered? }
  }

  function Writes(ends: seq<End>): nat {
    if ends == [] then 0 else Writes(ends[..|ends| - 1]) + if ends[|ends| - 1].Wrote() then 1 else 0
  }

  /** The attempts one call goes through: one follows another only after a failure, a guarded
      method has no second one, and the call ends with an answer, with a request that cannot be
      encoded, or when no attempt is left. */
  predicate GoesThrough(name: string, ends: seq<End>) {
    && 1 <= |ends| <= MaxAttempts(name)
    && (forall i :: 0 <= i < |ends| - 1 ==> ends[i].Failed())
    && (ends[|ends| - 1].Failed() ==> |ends| == MaxAttempts(name))
  }

  function OutcomeOf(name: string, ends: seq<End>): Outcome
    requires ends != []
  {
    match ends[|ends| - 1]
    case TooLong => FramingFailure
    case Answered(response) => Told(name, Some(response))
    case _ => Told(name, None)
  }

  /** What the caller may conclude, by how the last attempt ended.  A result is returned exactly
      with an answer that carries it; a refusal by the server is passed on as it was meant; a
      request too large to encode says so; and when the answer is missing, the methods that send,
      close or modify report an unknown outcome and the others a failure.  So one of those three
      that was handed over reports a failure only when an answer says it. */
  predicate Reported(name: string, last: End, handedOver: bool, outcome: Outcome) {
    var guarded := name == "send_market" || name == "close_position" || name == "modify_position";
    && (outcome.Value? <==> last.Answered? && last.response.ok)
    && (outcome.Value? ==> outcome.result == last.response.result)
    && (outcome == FramingFailure <==> last == TooLong)
    && (last.Answered? && !last.response.ok ==>
          outcome == if last.response.ambiguous then AmbiguousSend else BrokerFailure)
    && (last == Lost || last == Unconnected ==> outcome == if guarded then AmbiguousSend else BrokerFailure)
    && (guarded && handedOver && outcome == BrokerFailure ==>
          last.Answered? && !last.response.ok && !last.response.ambiguous)
  }

  lemma ReportsWhatHappened(name: string, ends: seq<End>)
    requires ends != []
    ensures Reported(name, ends[|ends| - 1], Writes(ends) > 0, OutcomeOf(name, ends))
  {
    hide Writes;
  }

  function Copies(x: nat, n: nat): seq<nat> {
    seq(n, _ => x)
  }

  // What the caller is told: by the response, or by the lack of one after the last attempt.
  function Told(name: string, reply: Option<Response>): Outcome {
    match reply
    case None => if Guarded(name) then AmbiguousSend else BrokerFailure
    case Some(r) => if r.ok then Value(r.result) else if r.ambiguous then AmbiguousSend else BrokerFailure
  }

  // The frame that answers a request; nothing when it is too large to encode.
  function Answer(json: Json, reply: Response): bytes {
    var frame := Encode(json.dump(reply));
    if frame.Some? then frame.value else []
  }

  // A connection holding just one answer yields that answer and is empty again.
  lemma OneAnswer(json: Json, reply: Response)
    ensures ReadOne(Answer(json, reply)) in {Frame(json.dump(reply), []), Incomplete}
  {
    if |json.dump(reply)| <= MAX_FRAME {
      ReadsBack(json.dump(reply), []);
      assert Answer(json, reply) + [] == Answer(json, reply);
    }
  }

  /** Why the socket is dropped: on a connection kept after an unread answer, the next call reads
      that answer as its own, under an id it does not look at. */
  lemma KeptAnswerGoesToTheNextCall(json: Json, unread: Response, answer: Response)
    requires json.Faithful() && |json.dump(unread)| <= MAX_FRAME
    ensures var r := ReadOne(Answer(json, unread) + Answer(json, answer));
            r.Frame? && json.load(r.payload) == unread && r.rest == Answer(json, answer)
  {
    ReadsBack(json.dump(unread), Answer(json, answer));
  }

  class Transport {
    const json: Json
    var sock: Socket?
    var nextId: nat
    ghost var written: seq<nat> // the id of every request handed to a socket, even in part
    ghost var faults: nat       // how many operating-system errors connecting, writing and reading gave

    ghost function Footprint(): set<object>
      reads this
    {
      if sock == null then {} else {sock}
    }

    /** An open socket has nothing left to read: every answer was taken by the call it belongs to. */
    ghost predicate Valid()
      reads this, Footprint()
    {
      && json.Faithful()
      && (sock != null ==> sock.inbound == [])
      && (forall i :: 0 <= i < |written| ==> written[i] <= nextId)
    }

    constructor (json: Json)
      requires json.Faithful()
      ensures Valid() && fresh(Footprint()) && nextId == 0 && written == [] && this.json == json
    {
      this.json, sock, nextId, written, faults := json, null, 0, [], 0;
    }

    // Connect if needed; false for an operating-system error.
    method Connect() returns (ok: bool)
      requires Valid()
      modifies this`sock, this`faults
      ensures Valid() && fresh(Footprint() - old(Footprint()))
      ensures ok <==> sock != null
      ensures faults == if ok then old(faults) else old(faults) + 1
      ensures old(sock) != null ==> sock == old(sock)
    {
      if sock == null {
        var connected: bool := *;
        if connected {
          sock := new Socket();
        }
      }
      ok := sock != null;
      if !ok {
        faults := faults + 1;
      }
    }

    /** Write a request.  A request delivered in full will be answered with one frame carrying its
        id, unless the answer is too large to encode; after a failed write nothing is known. */
    method SendAll(rid: nat, s: Socket) returns (ok: bool)
      modifies s
      ensures ok ==> exists reply: Response :: reply.id == rid && s.inbound == old(s.inbound) + Answer(json, reply)
    {
      var reply: Response := *;
      reply := reply.(id := rid);
      s.inbound := s.inbound + Answer(json, reply);
      ok := *;
    }

    // One attempt: connect, encode, write, read.
    method Attempt(rid: nat, request: bytes) returns (end: End)
      requires Valid() && rid == nextId
      modifies this`sock, this`written, this`faults, Footprint()
      ensures Valid() && fresh(Footprint() - old(Footprint()))
      ensures written == old(written) + (if end.Wrote() then [rid] else [])
      ensures faults == old(faults) + (if end.Failed() then 1 else 0)
      ensures end.Answered? ==> end.response.id == rid
      ensures end.Failed() <==> sock == null
      ensures end != Unconnected ==> (end == TooLong <==> |request| > MAX_FRAME)
    {
      var connected := Connect();
      if !connected {
        return Unconnected;
      }
      if Encode(request) == None {
        return TooLong;
      }
      var reply := Exchange(rid, sock);
      end := if reply.Some? then Answered(reply.value) else Lost;
    }

    // Write the request and read one frame; any failure drops the socket.
    method Exchange(rid: nat, s: Socket) returns (reply: Option<Response>)
      requires Valid() && rid == nextId && sock == s
      modifies this`sock, this`written, this`faults, s
      ensures Valid() && sock == (if reply.Some? then s else null)
      ensures written == old(written) + [rid]
      ensures reply.Some? ==> reply.value.id == rid
      ensures faults == if reply.Some? then old(faults) else old(faults) + 1
    {
      hide ReadOne, Answer, Encode;
      written := written + [rid];
      var sent := SendAll(rid, s);
      if !sent {
        sock, faults := null, faults + 1;
        return None;
      }
      ghost var answer: Response :| answer.id == rid && s.inbound == Answer(json, answer);
      OneAnswer(json, answer);
      var frame := s.ReadFrame();
      if frame == None {
        sock, faults := null, faults + 1;
        return None;
      }
      reply := Some(json.load(frame.value.payload));
    }

    /** Send one request and return what it came to, by the attempts it went through.  `request` is
        the encoded request for an id. */
    method Call(name: string, request: nat -> bytes) returns (outcome: Outcome, ghost ends: seq<End>)
      requires Valid()
      modifies this, Footprint()
      ensures Valid() && fresh(Footprint() - old(Footprint()))
      ensures nextId == old(nextId) + 1 && nextId !in old(written)
      ensures GoesThrough(name, ends) && outcome == OutcomeOf(name, ends)
      ensures Reported(name, ends[|ends| - 1], Writes(ends) > 0, outcome)
      ensures written == old(written) + Copies(nextId, Writes(ends))
      ensures forall i :: 0 <= i < |ends| && ends[i].Answered? ==> ends[i].response.id == nextId
      ensures forall i :: 0 <= i < |ends| && ends[i] != Unconnected ==>
                  (ends[i] == TooLong <==> |request(nextId)| > MAX_FRAME)
      ensures ends[|ends| - 1].Failed() <==> sock == null
      ensures faults == old(faults) + |ends| - if ends[|ends| - 1].Failed() then 0 else 1
    {
      hide Writes, GoesThrough, Copies, Reported;
      nextId := nextId + 1;
      var rid := nextId;
      ends := [];
      NoAttemptYet(rid);
      assert forall i :: 0 <= i < |written| ==> written[i] != rid;
      var attempt := 1;
      while attempt <= 2
        invariant 1 <= attempt <= 2 && |ends| == attempt - 1
        invariant Valid() && fresh(Footprint() - old(Footprint())) && nextId == rid
        invariant forall i :: 0 <= i < |ends| ==> ends[i].Failed() && (ends[i] == Lost ==> |request(rid)| <= MAX_FRAME)
        invariant faults == old(faults) + |ends|
        invariant written == old(written) + Copies(rid, Writes(ends))
        invariant attempt == 2 ==> !Guarded(name)
        decreases 2 - attempt
      {
        var end := Attempt(rid, request(rid));
        CopiesPush(rid, ends, end);
        GoesOn(name, ends, end);
        ends := ends + [end];
        ReportsWhatHappened(name, ends);
        match end
        case TooLong =>
          return FramingFailure, ends;
        case Answered(response) =>
          if !response.ok {
            return if response.ambiguous then AmbiguousSend else BrokerFailure, ends;
          }
          return Value(response.result), ends;
        case _ =>
          if Guarded(name) {
            return AmbiguousSend, ends;
          }
          if attempt == 2 {
            return BrokerFailure, ends;
          }
          attempt := attempt + 1;
      }
      outcome := BrokerFailure;
    }
  }

  lemma NoAttemptYet(x: nat)
    ensures Copies(x, Writes([])) == []
  {
  }

  lemma CopiesPush(x: nat, ends: seq<End>, end: End)
    ensures Copies(x, Writes(ends + [end])) == Copies(x, Writes(ends)) + if end.Wrote() then [x] else []
  {
    WritesPush(ends, end);
  }

  lemma GoesOn(name: string, failed: seq<End>, end: End)
    requires |failed| < MaxAttempts(name) && forall i :: 0 <= i < |failed| ==> failed[i].Failed()
    ensures !end.Failed() || |failed| + 1 == MaxAttempts(name) ==> GoesThrough(name, failed + [end])
  {
  }

  lemma WritesPush(ends: seq<End>, end: End)
    ensures Writes(ends + [end]) == Writes(ends) + if end.Wrote() then 1 else 0
  {
    assert (ends + [end])[..|ends|] == ends;
  }

  lemma {:induction false} WritesAtMost(ends: seq<End>)
    ensures Writes(ends) <= |ends|
  {
    if ends != [] {
      WritesAtMost(ends[..|ends| - 1]);
    }
  }

  /** A call can hand its request over twice exactly when its method is not guarded; among the
      methods that change money at risk that is exactly `cancel_order`. */
  lemma WrittenTwiceExactlyWhen(name: string, answer: Response)
    ensures (exists ends :: GoesThrough(name, ends) && Writes(ends) == 2) <==> !Guarded(name)
    ensures Mutating(name) ==>
              ((exists ends :: GoesThrough(name, ends) && Writes(ends) == 2) <==> name == "cancel_order")
  {
    var twice := [Lost, Answered(answer)];
    WritesPush([], Lost);
    WritesPush([Lost], Answered(answer));
    assert [] + [Lost] == [Lost] && [Lost] + [Answered(answer)] == twice;
    if !Guarded(name) {
      assert GoesThrough(name, twice) && Writes(twice) == 2;
    }
    if ends :| GoesThrough(name, ends) && Writes(ends) == 2 {
      WritesAtMost(ends);
    }
    GuardedByName(name);
  }

  lemma GuardedByName(name: string)
    ensures Mutating(name) ==> (Guarded(name) <==> name != "cancel_order")
  {
    assert |"cancel_order"| == 12 && |"send_market"| == 11 && |"close_position"| == 14 && |"modify_position"| == 15;
  }
}
