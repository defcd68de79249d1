/**
  Streaming calls over the native transport: the server turns whatever a handler produces into
  numbered lifecycle responses, the client decodes them and admits only a well-formed sequence.
 */
module Lifecycle {
  import opened Prelude
  import opened Json
  import opened JsonCbor
  import Framing

  datatype StreamEvent = StreamEvent(
    status: string, result: Option<Json>, errorCode: Option<string>, errorMessage: Option<string>,
    tokensUsed: Option<nat>, event: Option<string>)

  datatype Envelope = Envelope(taskId: string, sequence: nat, event: string, isFinal: bool)

  datatype ResponseFrame = ResponseFrame(
    sessionId: string, callId: string, status: string, isFinal: bool, lifecycle: Envelope,
    result: Json, error: Json, tokensUsed: Option<nat>)

  datatype Ids = Ids(sessionId: string, callId: string, taskId: string)

  // ---- The client's sequence validator ----

  /** The validator's view of a stream so far. */
  datatype Progress = Progress(ids: Ids, next: nat, terminalSeen: bool)

  predicate NameFits(status: string, name: string) {
    || (status == "partial" && name == "partial")
    || (status == "success" && name == "completed")
    || (status == "error" && (name == "failed" || name == "cancelled"))
    || (status == "timeout" && (name == "timed_out" || name == "expired"))
  }

  function Accept(p: Progress, f: ResponseFrame): Result<Progress, string> {
    if p.terminalSeen then Err("response_after_terminal")
    else if f.sessionId != p.ids.sessionId then Err("session_id_drift")
    else if f.callId != p.ids.callId then Err("call_id_drift")
    else if f.lifecycle.taskId != p.ids.taskId then Err("task_id_drift")
    else if f.lifecycle.sequence != p.next then Err("sequence_drift")
    else if f.isFinal != f.lifecycle.isFinal then Err("finality_disagreement")
    else if !NameFits(f.status, f.lifecycle.event) then Err("status_event_disagreement")
    else if f.isFinal <==> f.status == "partial" then Err("terminal_flag_mismatch")
    else Ok(Progress(p.ids, p.next + 1, f.isFinal))
  }

  function Start(ids: Ids): Progress {
    Progress(ids, 0, false)
  }

  class NativeResponseSequence {
    const ids: Ids
    var nextSequence: nat
    var terminalSeen: bool
    ghost var accepted: seq<ResponseFrame>

    ghost function State(): Progress
      reads this
    {
      Progress(ids, nextSequence, terminalSeen)
    }

    /** The state is where the accepted frames lead. */
    ghost predicate Valid()
      reads this
    {
      AcceptAll(Start(ids), accepted) == Ok(State())
    }

    constructor (ids: Ids)
      ensures Valid() && this.ids == ids && State() == Start(ids) && accepted == []
    {
      this.ids := ids;
      nextSequence := 0;
      terminalSeen := false;
      accepted := [];
    }

    /** Admit the next frame, or refuse it and stay where it was. */
    method AcceptFrame(f: ResponseFrame) returns (refusal: Option<string>)
      requires Valid()
      modifies this
      ensures Valid()
      ensures match Accept(old(State()), f)
              case Ok(p) => refusal == None && State() == p && accepted == old(accepted) + [f]
              case Err(code) => refusal == Some(code) && State() == old(State()) && accepted == old(accepted)
    {
      if terminalSeen { return Some("response_after_terminal"); }
      if f.sessionId != ids.sessionId { return Some("session_id_drift"); }
      if f.callId != ids.callId { return Some("call_id_drift"); }
      if f.lifecycle.taskId != ids.taskId { return Some("task_id_drift"); }
      if f.lifecycle.sequence != nextSequence { return Some("sequence_drift"); }
      if f.isFinal != f.lifecycle.isFinal { return Some("finality_disagreement"); }
      if !NameFits(f.status, f.lifecycle.event) { return Some("status_event_disagreement"); }
      if f.isFinal <==> f.status == "partial" { return Some("terminal_flag_mismatch"); }
      AcceptAllSnoc(Start(ids), accepted, f);
      nextSequence := nextSequence + 1;
      terminalSeen := f.isFinal;
      accepted := accepted + [f];
      return None;
    }

    /** A stream may end exactly when the accepted frames end in a terminal one. */
    method Finish() returns (refusal: Option<string>)
      requires Valid()
      ensures refusal == None <==> accepted != [] && accepted[|accepted| - 1].isFinal
      ensures refusal.Some? ==> refusal.value == "missing_terminal_response"
    {
      AcceptAllExact(ids, accepted);
      refusal := if terminalSeen then None else Some("missing_terminal_response");
    }
  }

  /** Frames admitted one after the other, or the first refusal. */
  function AcceptAll(p: Progress, fs: seq<ResponseFrame>): Result<Progress, string>
    decreases |fs|
  {
    if fs == [] then Ok(p)
    else
      match Accept(p, fs[0])
      case Err(code) => Err(code)
      case Ok(q) => AcceptAll(q, fs[1..])
  }

  /** A frame that may stand at place i of a stream. */
  ghost predicate FitsAt(ids: Ids, f: ResponseFrame, i: nat) {
    && Ids(f.sessionId, f.callId, f.lifecycle.taskId) == ids
    && f.lifecycle.sequence == i
    && NameFits(f.status, f.lifecycle.event)
    && f.isFinal == f.lifecycle.isFinal == (f.status != "partial")
  }

  /** What an admissible stream looks like, said without the validator. */
  ghost predicate WellFormed(ids: Ids, fs: seq<ResponseFrame>) {
    forall i :: 0 <= i < |fs| ==> FitsAt(ids, fs[i], i) && (fs[i].isFinal ==> i == |fs| - 1)
  }

  ghost predicate Terminated(fs: seq<ResponseFrame>) {
    fs != [] && fs[|fs| - 1].isFinal
  }

  lemma WellFormedSnoc(ids: Ids, fs: seq<ResponseFrame>, f: ResponseFrame)
    ensures WellFormed(ids, fs + [f]) <==> WellFormed(ids, fs) && !Terminated(fs) && FitsAt(ids, f, |fs|)
  {
    var all := fs + [f];
    assert all[|fs|] == f;
    assert forall i :: 0 <= i < |fs| ==> all[i] == fs[i];
  }

  lemma AcceptMeans(p: Progress, f: ResponseFrame)
    ensures Accept(p, f) == Ok(Progress(p.ids, p.next + 1, f.isFinal)) || Accept(p, f).Err?
    ensures Accept(p, f).Ok? <==> !p.terminalSeen && FitsAt(p.ids, f, p.next)
  {
  }

  /** The validator admits a stream exactly when it is numbered 0, 1, 2, ... with at most one terminal, last. */
  lemma {:induction false} AcceptAllExact(ids: Ids, fs: seq<ResponseFrame>)
    ensures AcceptAll(Start(ids), fs).Ok? <==> WellFormed(ids, fs)
    ensures AcceptAll(Start(ids), fs).Ok? ==> AcceptAll(Start(ids), fs).value == Progress(ids, |fs|, Terminated(fs))
    decreases |fs|
  {
    if fs != [] {
      var n := |fs| - 1;
      assert fs == fs[..n] + [fs[n]];
      AcceptAllExact(ids, fs[..n]);
      AcceptAllSnoc(Start(ids), fs[..n], fs[n]);
      WellFormedSnoc(ids, fs[..n], fs[n]);
      AcceptMeans(Progress(ids, n, Terminated(fs[..n])), fs[n]);
    }
  }

  lemma {:induction false} AcceptAllSnoc(p: Progress, fs: seq<ResponseFrame>, f: ResponseFrame)
    ensures AcceptAll(p, fs + [f]) ==
            match AcceptAll(p, fs) case Err(code) => Err(code) case Ok(q) => Accept(q, f)
    decreases |fs|
  {
    if fs == [] {
      assert (fs + [f])[1..] == [];
    } else {
      assert (fs + [f])[1..] == fs[1..] + [f];
      if Accept(p, fs[0]).Ok? {
        AcceptAllSnoc(Accept(p, fs[0]).value, fs[1..], f);
      }
    }
  }

  // ---- The wire form ----

  function EventName(e: StreamEvent): string {
    match e.event
    case Some(name) => name
    case None =>
      if e.status == "partial" then "partial"
      else if e.status == "success" then "completed"
      else if e.status == "timeout" then "timed_out"
      else "failed"
  }

  predicate IsFinal(e: StreamEvent) {
    e.status != "partial"
  }

  function Keyed(k: int, v: Cbor): Entry {
    Entry(CInt(k), v)
  }

  function OrText(t: Option<string>, default: string): string {
    if t.Some? then t.value else default
  }

  function EncodedEnvelope(ids: Ids, sequence: nat, e: StreamEvent): seq<Entry> {
    [Keyed(1, CText(ids.taskId)), Keyed(2, CInt(sequence)), Keyed(3, CText(EventName(e))), Keyed(4, CBool(IsFinal(e)))]
  }

  function EncodedFixed(ids: Ids, sequence: nat, e: StreamEvent): seq<Entry> {
    [Keyed(1, CInt(Framing.FRAMING_VERSION)), Keyed(2, CText(ids.sessionId)), Keyed(3, CText(ids.callId)),
     Keyed(4, CText(e.status)), Keyed(12, CBool(IsFinal(e))), Keyed(13, CMap(EncodedEnvelope(ids, sequence, e)))]
  }

  function EncodedError(e: StreamEvent): seq<Entry> {
    [Keyed(1, CText(OrText(e.errorCode, "stream_error"))), Keyed(2, CText(OrText(e.errorMessage, "stream failed")))]
  }

  function EncodeLifecycle(ids: Ids, sequence: nat, e: StreamEvent): Cbor {
    var result := if e.result.Some? then [Keyed(5, ToCbor(e.result.value))] else [];
    var error := if e.errorCode.Some? || e.errorMessage.Some? then [Keyed(6, CMap(EncodedError(e)))] else [];
    var tokens := if e.tokensUsed.Some? then [Keyed(7, CInt(e.tokensUsed.value))] else [];
    CMap(EncodedFixed(ids, sequence, e) + result + error + tokens)
  }

  /** The first entry under an integer key. */
  function Find(entries: seq<Entry>, k: int): Option<Cbor> {
    if entries == [] then None
    else if entries[0].key == CInt(k) then Some(entries[0].value)
    else Find(entries[1..], k)
  }

  function Get(c: Cbor, k: int): Option<Cbor> {
    if c.CMap? then Find(c.entries, k) else None
  }

  function TextOf(c: Option<Cbor>): Option<string> {
    if c.Some? && c.value.CText? then Some(c.value.text) else None
  }

  function FlagOf(c: Option<Cbor>): bool {
    c.Some? && c.value.CBool? && c.value.flag
  }

  function UnsignedOf(c: Option<Cbor>): Option<nat> {
    if c.Some? && c.value.CInt? && 0 <= c.value.value < U64_LIMIT then Some(c.value.value) else None
  }

  function TextOrNull(t: Option<string>): Json {
    if t.Some? then Str(t.value) else Null
  }

  function ErrorObject(code: Option<string>, message: Option<string>): Json {
    Obj([Member("code", TextOrNull(code)), Member("message", TextOrNull(message))])
  }

  function DecodeLifecycle(body: Cbor): Option<ResponseFrame> {
    match Get(body, 13)
    case None => None
    case Some(l) =>
      var sequence := UnsignedOf(Get(l, 2));
      Some(ResponseFrame(
        OrText(TextOf(Get(body, 2)), ""), OrText(TextOf(Get(body, 3)), ""), OrText(TextOf(Get(body, 4)), ""),
        FlagOf(Get(body, 12)),
        Envelope(OrText(TextOf(Get(l, 1)), ""), if sequence.Some? then sequence.value else U64_LIMIT - 1,
                 OrText(TextOf(Get(l, 3)), ""), FlagOf(Get(l, 4))),
        match Get(body, 5) { case Some(r) => FromCbor(r) case None => Null },
        match Get(body, 6) { case Some(e) => ErrorObject(TextOf(Get(e, 1)), TextOf(Get(e, 2))) case None => Null },
        UnsignedOf(Get(body, 7))))
  }

  /** What the client should see of an event. */
  function Seen(ids: Ids, sequence: nat, e: StreamEvent): ResponseFrame {
    ResponseFrame(
      ids.sessionId, ids.callId, e.status, IsFinal(e), Envelope(ids.taskId, sequence, EventName(e), IsFinal(e)),
      if e.result.Some? then FromCbor(ToCbor(e.result.value)) else Null,
      if e.errorCode.Some? || e.errorMessage.Some?
      then ErrorObject(Some(OrText(e.errorCode, "stream_error")), Some(OrText(e.errorMessage, "stream failed")))
      else Null,
      e.tokensUsed)
  }

  lemma {:induction false} FindConcat(a: seq<Entry>, b: seq<Entry>, k: int)
    ensures Find(a + b, k) == if Find(a, k).Some? then Find(a, k) else Find(b, k)
  {
    if a == [] {
      assert a + b == b;
    } else {
      assert (a + b)[1..] == a[1..] + b;
      FindConcat(a[1..], b, k);
    }
  }

  lemma {:induction false} FindAt(entries: seq<Entry>, i: nat)
    requires i < |entries| && entries[i].key.CInt?
    requires forall j :: 0 <= j < i ==> entries[j].key != entries[i].key
    ensures Find(entries, entries[i].key.value) == Some(entries[i].value)
  {
    if i > 0 {
      assert entries[0].key != entries[i].key;
      FindAt(entries[1..], i - 1);
    }
  }

  lemma {:induction false} FindNone(entries: seq<Entry>, k: int)
    requires forall j :: 0 <= j < |entries| ==> entries[j].key != CInt(k)
    ensures Find(entries, k) == None
  {
    if entries != [] {
      FindNone(entries[1..], k);
    }
  }

  /** At most one entry, under a known key. */
  lemma FindSingle(one: seq<Entry>, key: int, k: int)
    requires one == [] || (|one| == 1 && one[0].key == CInt(key))
    ensures Find(one, k) == if one != [] && key == k then Some(one[0].value) else None
  {
    if one != [] {
      assert one[1..] == [];
    }
  }

  /** Lookups in a response: six fixed entries, then three optional ones. */
  lemma FindParts(head: seq<Entry>, r: seq<Entry>, e: seq<Entry>, t: seq<Entry>, k: int)
    requires r == [] || (|r| == 1 && r[0].key == CInt(5))
    requires e == [] || (|e| == 1 && e[0].key == CInt(6))
    requires t == [] || (|t| == 1 && t[0].key == CInt(7))
    ensures Find(head + r + e + t, k) ==
            if Find(head, k).Some? then Find(head, k)
            else if k == 5 && r != [] then Some(r[0].value)
            else if k == 6 && e != [] then Some(e[0].value)
            else if k == 7 && t != [] then Some(t[0].value)
            else None
  {
    FindConcat(head + r + e, t, k);
    FindConcat(head + r, e, k);
    FindConcat(head, r, k);
    FindSingle(r, 5, k);
    FindSingle(e, 6, k);
    FindSingle(t, 7, k);
  }

  lemma EnvelopeFields(entries: seq<Entry>, ids: Ids, sequence: nat, e: StreamEvent)
    requires entries == EncodedEnvelope(ids, sequence, e)
    ensures Find(entries, 1) == Some(CText(ids.taskId)) && Find(entries, 2) == Some(CInt(sequence))
    ensures Find(entries, 3) == Some(CText(EventName(e))) && Find(entries, 4) == Some(CBool(IsFinal(e)))
  {
    FindAt(entries, 0);
    FindAt(entries, 1);
    FindAt(entries, 2);
    FindAt(entries, 3);
  }

  lemma FixedFields(head: seq<Entry>, ids: Ids, sequence: nat, e: StreamEvent)
    requires head == EncodedFixed(ids, sequence, e)
    ensures Find(head, 2) == Some(CText(ids.sessionId)) && Find(head, 3) == Some(CText(ids.callId))
    ensures Find(head, 4) == Some(CText(e.status)) && Find(head, 12) == Some(CBool(IsFinal(e)))
    ensures Find(head, 13) == Some(CMap(EncodedEnvelope(ids, sequence, e)))
    ensures Find(head, 5) == None && Find(head, 6) == None && Find(head, 7) == None
  {
    FindAt(head, 1);
    FindAt(head, 2);
    FindAt(head, 3);
    FindAt(head, 4);
    FindAt(head, 5);
    FindNone(head, 5);
    FindNone(head, 6);
    FindNone(head, 7);
  }

  lemma ErrorFields(entries: seq<Entry>, e: StreamEvent)
    requires entries == EncodedError(e)
    ensures Find(entries, 1) == Some(CText(OrText(e.errorCode, "stream_error")))
    ensures Find(entries, 2) == Some(CText(OrText(e.errorMessage, "stream failed")))
  {
    FindAt(entries, 0);
    FindAt(entries, 1);
  }

  /** Every lookup in an encoded response: among the fixed entries, or the optional one of that key. */
  lemma EncodedField(ids: Ids, sequence: nat, e: StreamEvent, k: int)
    ensures var fixed := Find(EncodedFixed(ids, sequence, e), k);
            Get(EncodeLifecycle(ids, sequence, e), k) ==
            if fixed.Some? then fixed
            else if k == 5 && e.result.Some? then Some(ToCbor(e.result.value))
            else if k == 6 && (e.errorCode.Some? || e.errorMessage.Some?) then Some(CMap(EncodedError(e)))
            else if k == 7 && e.tokensUsed.Some? then Some(CInt(e.tokensUsed.value))
            else None
  {
    var result := if e.result.Some? then [Keyed(5, ToCbor(e.result.value))] else [];
    var error := if e.errorCode.Some? || e.errorMessage.Some? then [Keyed(6, CMap(EncodedError(e)))] else [];
    var tokens := if e.tokensUsed.Some? then [Keyed(7, CInt(e.tokensUsed.value))] else [];
    FindParts(EncodedFixed(ids, sequence, e), result, error, tokens, k);
  }

  /** The client decodes every encoded event to what it should see. */
  lemma DecodeOfEncode(ids: Ids, sequence: nat, e: StreamEvent)
    requires sequence < U64_LIMIT && (e.tokensUsed.Some? ==> e.tokensUsed.value < U64_LIMIT)
    ensures DecodeLifecycle(EncodeLifecycle(ids, sequence, e)) == Some(Seen(ids, sequence, e))
  {
    FixedFields(EncodedFixed(ids, sequence, e), ids, sequence, e);
    EnvelopeFields(EncodedEnvelope(ids, sequence, e), ids, sequence, e);
    ErrorFields(EncodedError(e), e);
    forall k: int {
      EncodedField(ids, sequence, e, k);
    }
  }

  // ---- The server's streaming call ----

  /** An item of the handler's stream: an event, or the handler's own error. */
  datatype Item = Event(event: StreamEvent) | Raised

  function Failure(code: string, message: string): StreamEvent {
    StreamEvent("error", None, Some(code), Some(message), None, None)
  }

  predicate KnownStatus(status: string) {
    status in {"partial", "success", "error", "timeout"}
  }

  function Normalise(item: Item): StreamEvent {
    match item
    case Event(e) =>
      if KnownStatus(e.status) then e
      else Failure("invalid_stream_status", "streaming handler emitted an invalid status")
    case Raised => Failure("backend_error", "streaming handler raised exception")
  }

  const CAPACITY_EXCEEDED := Failure("capacity_exceeded", "node concurrency capacity reached")
  const STREAM_INCOMPLETE := Failure("stream_incomplete", "stream ended without a terminal response")

  /** The events that are answered: up to the first terminal one, which is supplied when missing. */
  function Answered(items: seq<Item>): seq<StreamEvent> {
    if items == [] then [STREAM_INCOMPLETE]
    else
      var e := Normalise(items[0]);
      if IsFinal(e) then [e] else [e] + Answered(items[1..])
  }

  function Responses(ids: Ids, from: nat, events: seq<StreamEvent>): (bodies: seq<Cbor>)
    ensures |bodies| == |events|
    ensures forall i :: 0 <= i < |events| ==> bodies[i] == EncodeLifecycle(ids, from + i, events[i])
  {
    seq(|events|, i requires 0 <= i < |events| => EncodeLifecycle(ids, from + i, events[i]))
  }

  /** All bodies up to the first that cannot be delivered. */
  ghost predicate SentUntilFailure(sent: seq<Cbor>, complete: bool, bodies: seq<Cbor>, delivers: (nat, Cbor) -> bool) {
    && sent <= bodies && (complete <==> sent == bodies)
    && (forall i :: 0 <= i < |sent| ==> delivers(i, sent[i]))
    && (!complete ==> !delivers(|sent|, bodies[|sent|]))
  }

  /** The events a call answers, let in by the concurrency gate or not. */
  function AnsweredCall(items: seq<Item>, acquired: bool): seq<StreamEvent> {
    if acquired then Answered(items) else [CAPACITY_EXCEEDED]
  }

  /**
    The streaming call. `acquired` says whether the concurrency gate let it in; `delivers` whether the
    body with that number is within the frame limit and written, without which the connection fails there.
   */
  method OnStreamCall(ids: Ids, items: seq<Item>, acquired: bool, delivers: (nat, Cbor) -> bool)
    returns (sent: seq<Cbor>, complete: bool)
    ensures SentUntilFailure(sent, complete, Responses(ids, 0, AnsweredCall(items, acquired)), delivers)
  {
    if !acquired {
      var body := EncodeLifecycle(ids, 0, CAPACITY_EXCEEDED);
      assert Responses(ids, 0, [CAPACITY_EXCEEDED]) == [body];
      if !delivers(0, body) {
        return [], false;
      }
      return [body], true;
    }
    var encode := (n: nat, e: StreamEvent) => EncodeLifecycle(ids, n, e);
    sent, complete := SendEvents(encode, items, delivers);
    assert Encoded(encode, Answered(items)) == Responses(ids, 0, Answered(items));
  }

  /** The bodies of events numbered from 0. */
  ghost function Encoded(encode: (nat, StreamEvent) -> Cbor, events: seq<StreamEvent>): seq<Cbor> {
    seq(|events|, i requires 0 <= i < |events| => encode(i, events[i]))
  }

  method SendEvents(encode: (nat, StreamEvent) -> Cbor, items: seq<Item>, delivers: (nat, Cbor) -> bool)
    returns (sent: seq<Cbor>, complete: bool)
    ensures SentUntilFailure(sent, complete, Encoded(encode, Answered(items)), delivers)
  {
    var sequence: nat := 0;
    var terminalSent := false;
    sent := [];
    ghost var all := Answered(items);
    ghost var bodies := Encoded(encode, all);
    while sequence < |items| && !terminalSent
      invariant sequence == |sent| <= |items| && sequence <= |all|
      invariant sent == bodies[..sequence]
      invariant forall i :: 0 <= i < |sent| ==> delivers(i, sent[i])
      invariant if terminalSent then sequence == |all| else NoneFinal(items, sequence)
      decreases |items| - sequence
    {
      AnsweredAt(items, sequence);
      var e := Normalise(items[sequence]);
      var body := encode(sequence, e);
      assert bodies[sequence] == body;
      if !delivers(sequence, body) {
        return sent, false;
      }
      NextPrefix(bodies, sequence);
      sent := sent + [body];
      sequence := sequence + 1;
      terminalSent := IsFinal(e);
    }
    if !terminalSent {
      AnsweredEnd(items);
      var body := encode(sequence, STREAM_INCOMPLETE);
      assert bodies[sequence] == body;
      if !delivers(sequence, body) {
        return sent, false;
      }
      NextPrefix(bodies, sequence);
      sent := sent + [body];
    }
    assert bodies[..|bodies|] == bodies;
    complete := true;
  }

  lemma NextPrefix<T>(s: seq<T>, n: nat)
    requires n < |s|
    ensures s[..n] + [s[n]] == s[..n + 1]
  {
  }

  ghost predicate NoneFinal(items: seq<Item>, n: nat)
    requires n <= |items|
  {
    forall i :: 0 <= i < n ==> !IsFinal(Normalise(items[i]))
  }

  /** As long as nothing terminal came, the n-th item is the n-th event, and the last if it is terminal. */
  lemma {:induction false} AnsweredAt(items: seq<Item>, n: nat)
    requires n < |items| && NoneFinal(items, n)
    ensures n < |Answered(items)| && Answered(items)[n] == Normalise(items[n])
    ensures IsFinal(Normalise(items[n])) ==> |Answered(items)| == n + 1
    decreases n
  {
    if n > 0 {
      assert !IsFinal(Normalise(items[0]));
      assert NoneFinal(items[1..], n - 1) by {
        forall i | 0 <= i < n - 1 ensures !IsFinal(Normalise(items[1..][i])) {
          assert items[1..][i] == items[i + 1];
        }
      }
      AnsweredAt(items[1..], n - 1);
    }
  }

  lemma {:induction false} AnsweredEnd(items: seq<Item>)
    requires NoneFinal(items, |items|)
    ensures |Answered(items)| == |items| + 1 && Answered(items)[|items|] == STREAM_INCOMPLETE
  {
    if items != [] {
      assert !IsFinal(Normalise(items[0]));
      assert NoneFinal(items[1..], |items| - 1) by {
        forall i | 0 <= i < |items| - 1 ensures !IsFinal(Normalise(items[1..][i])) {
          assert items[1..][i] == items[i + 1];
        }
      }
      AnsweredEnd(items[1..]);
    }
  }

  // ---- The client's streaming call ----

  /** A frame read by the client: its type byte, and its payload as CBOR or the reason it is none. */
  datatype Incoming = Incoming(msgType: byte, payload: Result<Cbor, string>)

  datatype ClientError = NotSent(why: string) | WrongType(msgType: byte) | NotCbor(why: string) | Protocol(code: string)

  type Yielding = Result<ResponseFrame, ClientError>

  function Arrived(x: Incoming): Yielding {
    if x.msgType != Framing.RESPONSE then Err(WrongType(x.msgType))
    else
      match x.payload
      case Err(why) => Err(NotCbor(why))
      case Ok(body) =>
        match DecodeLifecycle(body)
        case None => Err(Protocol("missing_lifecycle"))
        case Some(f) => Ok(f)
  }

  /** What the stream yields: frames up to a terminal one, or up to one error. */
  function Yielded(received: seq<Yielding>, p: Progress): seq<Yielding>
    decreases |received|
  {
    if received == [] then [Err(Protocol("missing_terminal_response"))]
    else
      match received[0]
      case Err(e) => [Err(e)]
      case Ok(f) =>
        match Accept(p, f)
        case Err(code) => [Err(Protocol(code))]
        case Ok(q) => if f.isFinal then [Ok(f)] else [Ok(f)] + Yielded(received[1..], q)
  }

  function AllArrived(incoming: seq<Incoming>): (r: seq<Yielding>)
    ensures |r| == |incoming| && forall i :: 0 <= i < |incoming| ==> r[i] == Arrived(incoming[i])
  {
    seq(|incoming|, i requires 0 <= i < |incoming| => Arrived(incoming[i]))
  }

  /**
    The client's stream. `failure` is why the request could not be framed or written, if so; the frames
    read end where a read fails, for whatever reason.
   */
  method CallStream(ids: Ids, failure: Option<string>, incoming: seq<Incoming>) returns (out: seq<Yielding>)
    ensures out == if failure.Some? then [Err(NotSent(failure.value))] else Yielded(AllArrived(incoming), Start(ids))
  {
    if failure.Some? {
      return [Err(NotSent(failure.value))];
    }
    var sequence := new NativeResponseSequence(ids);
    var finished := false;
    var at := 0;
    out := [];
    ghost var received := AllArrived(incoming);
    assert received[0..] == received;
    ghost var whole := Yielded(received, Start(ids));
    ghost var rest := whole;
    while !finished
      invariant 0 <= at <= |incoming| && whole == out + rest && sequence.Valid()
      invariant if finished then rest == [] else rest == Yielded(received[at..], sequence.State())
      decreases |incoming| - at, !finished
    {
      var item;
      ghost var tail;
      item, finished, tail := Step(sequence, incoming, at, received);
      Shift(out, item, tail);
      out := out + [item];
      rest := tail;
      at := if at < |incoming| then at + 1 else at;
    }
  }

  lemma Shift<T>(out: seq<T>, item: T, rest: seq<T>)
    ensures out + ([item] + rest) == out + [item] + rest
  {
  }

  /** One poll of the stream: the next item, whether it is the last, and what is to follow it. */
  method Step(sequence: NativeResponseSequence, incoming: seq<Incoming>, at: nat, ghost received: seq<Yielding>)
    returns (item: Yielding, stop: bool, ghost tail: seq<Yielding>)
    requires at <= |incoming| && received == AllArrived(incoming) && sequence.Valid()
    modifies sequence
    ensures sequence.Valid()
    ensures Yielded(received[at..], old(sequence.State())) == [item] + tail
    ensures if stop then tail == [] else at < |incoming| && tail == Yielded(received[at + 1..], sequence.State())
  {
    tail := [];
    if at == |incoming| {
      return Err(Protocol("missing_terminal_response")), true, [];
    }
    assert received[at..][0] == Arrived(incoming[at]) && received[at..][1..] == received[at + 1..];
    if incoming[at].msgType != Framing.RESPONSE {
      return Err(WrongType(incoming[at].msgType)), true, [];
    }
    if incoming[at].payload.Err? {
      return Err(NotCbor(incoming[at].payload.error)), true, [];
    }
    match DecodeLifecycle(incoming[at].payload.value) {
      case None => return Err(Protocol("missing_lifecycle")), true, [];
      case Some(f) =>
        var refusal := sequence.AcceptFrame(f);
        if refusal.Some? {
          return Err(Protocol(refusal.value)), true, [];
        }
        return Ok(f), f.isFinal, if f.isFinal then [] else Yielded(received[at + 1..], sequence.State());
    }
  }

  // ---- Both ends together ----

  /** The event's own name, if it gives one, belongs to its status. */
  predicate Agrees(e: StreamEvent) {
    NameFits(e.status, EventName(e))
  }

  /** Partial events, then exactly one terminal event; statuses and token counts the transport can carry. */
  ghost predicate OneTerminal(events: seq<StreamEvent>) {
    && events != []
    && (forall i :: 0 <= i < |events| ==> (IsFinal(events[i]) <==> i == |events| - 1) && KnownStatus(events[i].status))
  }

  ghost predicate TokensFit(e: StreamEvent) {
    e.tokensUsed.Some? ==> e.tokensUsed.value < U64_LIMIT
  }

  ghost predicate ItemsFit(items: seq<Item>) {
    && |items| < U64_LIMIT - 1
    && forall i :: 0 <= i < |items| && items[i].Event? ==> TokensFit(items[i].event)
  }

  lemma {:induction false} AnsweredOneTerminal(items: seq<Item>)
    requires ItemsFit(items)
    ensures OneTerminal(Answered(items)) && |Answered(items)| <= |items| + 1
    ensures forall i :: 0 <= i < |Answered(items)| ==> TokensFit(Answered(items)[i])
  {
    if items != [] {
      var e := Normalise(items[0]);
      if !IsFinal(e) {
        AnsweredOneTerminal(items[1..]);
        var rest := Answered(items[1..]);
        var all := [e] + rest;
        forall i | 0 <= i < |all|
          ensures (IsFinal(all[i]) <==> i == |all| - 1) && KnownStatus(all[i].status) && TokensFit(all[i])
        {
          if i > 0 { assert all[i] == rest[i - 1]; }
        }
      }
    }
  }

  /** Without a name of its own an event always agrees. */
  lemma DefaultNameAgrees(e: StreamEvent)
    requires KnownStatus(e.status) && e.event == None
    ensures Agrees(e)
  {
  }

  /** The frames a client sees when nothing is refused. */
  function AllSeen(ids: Ids, from: nat, events: seq<StreamEvent>): (r: seq<Yielding>)
    ensures |r| == |events| && forall i :: 0 <= i < |events| ==> r[i] == Ok(Seen(ids, from + i, events[i]))
  {
    seq(|events|, i requires 0 <= i < |events| => Ok(Seen(ids, from + i, events[i])))
  }

  lemma AcceptSeen(ids: Ids, from: nat, e: StreamEvent)
    requires KnownStatus(e.status)
    ensures Accept(Progress(ids, from, false), Seen(ids, from, e)) ==
            if Agrees(e) then Ok(Progress(ids, from + 1, IsFinal(e))) else Err("status_event_disagreement")
  {
  }

  /** What was sent, as the frames the client reads. */
  function OnTheWire(bodies: seq<Cbor>): (r: seq<Incoming>)
    ensures |r| == |bodies| && forall i :: 0 <= i < |bodies| ==> r[i] == Incoming(Framing.RESPONSE, Ok(bodies[i]))
  {
    seq(|bodies|, i requires 0 <= i < |bodies| => Incoming(Framing.RESPONSE, Ok(bodies[i])))
  }

  lemma ArrivedResponses(ids: Ids, events: seq<StreamEvent>, n: nat)
    requires n <= |events| < U64_LIMIT && forall i :: 0 <= i < |events| ==> TokensFit(events[i])
    ensures AllArrived(OnTheWire(Responses(ids, 0, events)[..n])) == AllSeen(ids, 0, events[..n])
  {
    var sent := Responses(ids, 0, events)[..n];
    forall i | 0 <= i < n ensures AllArrived(OnTheWire(sent))[i] == AllSeen(ids, 0, events[..n])[i] {
      DecodeOfEncode(ids, i, events[i]);
    }
  }

  /** Known statuses, and nothing behind a terminal event. */
  ghost predicate TerminalLast(events: seq<StreamEvent>) {
    forall i :: 0 <= i < |events| ==> KnownStatus(events[i].status) && (IsFinal(events[i]) ==> i == |events| - 1)
  }

  lemma TerminalLastPrefix(events: seq<StreamEvent>, n: nat)
    requires TerminalLast(events) && n <= |events|
    ensures TerminalLast(events[..n])
  {
  }

  lemma TerminalLastTail(events: seq<StreamEvent>)
    requires TerminalLast(events) && events != []
    ensures TerminalLast(events[1..])
  {
    var rest := events[1..];
    forall i | 0 <= i < |rest|
      ensures KnownStatus(rest[i].status) && (IsFinal(rest[i]) ==> i == |rest| - 1)
    {
      assert rest[i] == events[i + 1];
    }
  }

  lemma YieldedCons(ids: Ids, from: nat, events: seq<StreamEvent>)
    requires TerminalLast(events) && events != []
    ensures Yielded(AllSeen(ids, from, events), Progress(ids, from, false)) ==
            if !Agrees(events[0]) then [Err(Protocol("status_event_disagreement"))]
            else if IsFinal(events[0]) then [Ok(Seen(ids, from, events[0]))]
            else [Ok(Seen(ids, from, events[0]))]
                 + Yielded(AllSeen(ids, from + 1, events[1..]), Progress(ids, from + 1, false))
  {
    AcceptSeen(ids, from, events[0]);
    assert AllSeen(ids, from, events)[1..] == AllSeen(ids, from + 1, events[1..]);
    assert AllSeen(ids, from, events)[0] == Ok(Seen(ids, from, events[0]));
  }

  lemma SplitYield<T>(x: T, a: seq<T>, b: seq<T>)
    ensures [x] + (a + b) == ([x] + a) + b
  {
  }

  lemma AllSeenCons(ids: Ids, from: nat, events: seq<StreamEvent>, k: nat)
    requires 0 < k <= |events|
    ensures AllSeen(ids, from, events[..k]) ==
            [Ok(Seen(ids, from, events[0]))] + AllSeen(ids, from + 1, events[1..][..k - 1])
  {
    var a, b := AllSeen(ids, from, events[..k]), AllSeen(ids, from + 1, events[1..][..k - 1]);
    assert forall i :: 1 <= i < k ==> events[..k][i] == events[1..][..k - 1][i - 1];
    assert forall i :: 1 <= i < k ==> a[i] == b[i - 1];
  }

  /** What the client yields, by the events sent alone. */
  ghost function Expected(ids: Ids, from: nat, events: seq<StreamEvent>): seq<Yielding>
    decreases |events|
  {
    if events == [] then [Err(Protocol("missing_terminal_response"))]
    else if !Agrees(events[0]) then [Err(Protocol("status_event_disagreement"))]
    else if IsFinal(events[0]) then [Ok(Seen(ids, from, events[0]))]
    else [Ok(Seen(ids, from, events[0]))] + Expected(ids, from + 1, events[1..])
  }

  lemma {:induction false} YieldsExpected(ids: Ids, from: nat, events: seq<StreamEvent>)
    requires TerminalLast(events)
    ensures Yielded(AllSeen(ids, from, events), Progress(ids, from, false)) == Expected(ids, from, events)
    decreases |events|
  {
    if events != [] {
      YieldedCons(ids, from, events);
      if Agrees(events[0]) && !IsFinal(events[0]) {
        TerminalLastTail(events);
        YieldsExpected(ids, from + 1, events[1..]);
      }
    }
  }

  /** How a stream ends for the client: an error unless it saw the terminal event. */
  ghost function Ending(events: seq<StreamEvent>): seq<Yielding> {
    if FirstDisagreement(events) < |events| then [Err(Protocol("status_event_disagreement"))]
    else if events == [] || !IsFinal(events[|events| - 1]) then [Err(Protocol("missing_terminal_response"))]
    else []
  }

  lemma EndingOfTail(events: seq<StreamEvent>)
    requires TerminalLast(events) && events != [] && Agrees(events[0]) && !IsFinal(events[0])
    ensures Ending(events) == Ending(events[1..]) && FirstDisagreement(events) == FirstDisagreement(events[1..]) + 1
  {
    assert |events| > 1 ==> events[1..][|events| - 2] == events[|events| - 1];
  }

  /** The frames before the first event whose name disagrees, then how it ends. */
  lemma {:induction false} ExpectedPrefix(ids: Ids, from: nat, events: seq<StreamEvent>)
    requires TerminalLast(events)
    ensures Expected(ids, from, events) == AllSeen(ids, from, events[..FirstDisagreement(events)]) + Ending(events)
    decreases |events|
  {
    var k := FirstDisagreement(events);
    if k == 0 {
      assert AllSeen(ids, from, events[..0]) == [];
    } else {
      AllSeenCons(ids, from, events, k);
      if IsFinal(events[0]) {
        assert k == |events| == 1 && AllSeen(ids, from + 1, events[1..][..0]) == [];
      } else {
        EndingOfTail(events);
        TerminalLastTail(events);
        ExpectedPrefix(ids, from + 1, events[1..]);
        SplitYield(Ok(Seen(ids, from, events[0])), AllSeen(ids, from + 1, events[1..][..k - 1]), Ending(events[1..]));
      }
    }
  }

  /** What the client makes of the first n responses to these events. */
  lemma YieldedOf(ids: Ids, events: seq<StreamEvent>, n: nat)
    requires TerminalLast(events) && n <= |events| < U64_LIMIT
    requires forall i :: 0 <= i < |events| ==> TokensFit(events[i])
    ensures Yielded(AllArrived(OnTheWire(Responses(ids, 0, events)[..n])), Start(ids))
         == AllSeen(ids, 0, events[..n][..FirstDisagreement(events[..n])]) + Ending(events[..n])
  {
    ArrivedResponses(ids, events, n);
    TerminalLastPrefix(events, n);
    YieldsExpected(ids, 0, events[..n]);
    ExpectedPrefix(ids, 0, events[..n]);
  }

  lemma CallAnswersOneTerminal(items: seq<Item>, acquired: bool)
    requires ItemsFit(items)
    ensures OneTerminal(AnsweredCall(items, acquired)) && |AnsweredCall(items, acquired)| < U64_LIMIT
    ensures forall i :: 0 <= i < |AnsweredCall(items, acquired)| ==> TokensFit(AnsweredCall(items, acquired)[i])
  {
    AnsweredOneTerminal(items);
  }

  /**
    End to end: whatever the handler produced, whether the gate let the call in and wherever the server
    failed to deliver, the client sees the events sent, in order and numbered from 0, up to the first
    whose own name does not agree with its status, and one error unless it saw the terminal event. It
    sees every answered event, the terminal one last, if and only if all were sent and all agree.
   */
  lemma EndToEnd(ids: Ids, items: seq<Item>, acquired: bool, delivers: (nat, Cbor) -> bool,
                 sent: seq<Cbor>, complete: bool)
    requires ItemsFit(items)
    requires SentUntilFailure(sent, complete, Responses(ids, 0, AnsweredCall(items, acquired)), delivers)
    ensures var events := AnsweredCall(items, acquired);
            var yielded := Yielded(AllArrived(OnTheWire(sent)), Start(ids));
            && yielded == AllSeen(ids, 0, events[..|sent|][..FirstDisagreement(events[..|sent|])])
                          + Ending(events[..|sent|])
            && (yielded == AllSeen(ids, 0, events) <==>
                complete && forall i :: 0 <= i < |events| ==> Agrees(events[i]))
            && OneTerminal(events)
  {
    var events := AnsweredCall(items, acquired);
    CallAnswersOneTerminal(items, acquired);
    assert sent == Responses(ids, 0, events)[..|sent|];
    YieldedOf(ids, events, |sent|);
    SeesAllExactly(ids, events, |sent|);
  }

  lemma SeesAllExactly(ids: Ids, events: seq<StreamEvent>, n: nat)
    requires OneTerminal(events) && n <= |events|
    ensures AllSeen(ids, 0, events[..n][..FirstDisagreement(events[..n])]) + Ending(events[..n])
            == AllSeen(ids, 0, events)
       <==> n == |events| && forall i :: 0 <= i < |events| ==> Agrees(events[i])
  {
    var part := events[..n];
    var k := FirstDisagreement(part);
    var shown := AllSeen(ids, 0, part[..k]) + Ending(part);
    if n == |events| && k == n {
      assert part == events && part[..k] == events;
    } else {
      assert k < |part| || part == [] || !IsFinal(part[|part| - 1]);
      assert shown[k].Err?;
    }
  }

  function FirstDisagreement(events: seq<StreamEvent>): (k: nat)
    ensures k <= |events|
    ensures forall i :: 0 <= i < k ==> Agrees(events[i])
    ensures k < |events| ==> !Agrees(events[k])
  {
    if events == [] || !Agrees(events[0]) then 0
    else
      var k := FirstDisagreement(events[1..]);
      assert forall i :: 1 <= i < |events| ==> events[i] == events[1..][i - 1];
      k + 1
  }

  /** A handler that names a success "done" breaks the stream: the override is not checked by the server. */
  lemma NameOverrideBreaksStream(ids: Ids)
    ensures var e := StreamEvent("success", None, None, None, None, Some("done"));
            && Answered([Event(e)]) == [e]
            && Yielded(AllArrived(OnTheWire(Responses(ids, 0, [e]))), Start(ids))
               == [Err(Protocol("status_event_disagreement"))]
  {
    var e := StreamEvent("success", None, None, None, None, Some("done"));
    YieldedOf(ids, [e], 1);
    assert Responses(ids, 0, [e])[..1] == Responses(ids, 0, [e]) && [e][..1] == [e];
    assert AllSeen(ids, 0, [e][..0]) == [];
  }

  /** Results are delivered unchanged when their integers are in the signed range. */
  lemma ResultDelivered(ids: Ids, sequence: nat, e: StreamEvent)
    requires e.result.Some? && Valid(e.result.value) && IntegersFit(e.result.value)
    ensures Same(Seen(ids, sequence, e).result, e.result.value)
  {
    RoundTripExact(e.result.value);
  }

  /** A response without a usable sequence number is never accepted before the last number there is. */
  lemma MissingSequenceRefused(body: Cbor, p: Progress)
    requires Get(body, 13).Some? && UnsignedOf(Get(Get(body, 13).value, 2)).None? && p.next < U64_LIMIT - 1
    ensures DecodeLifecycle(body).Some? && Accept(p, DecodeLifecycle(body).value).Err?
  {
  }
}
