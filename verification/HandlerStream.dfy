/**
  From the streaming handler to the client: what becomes of each event the handler produced, said in
  terms of the handler's own events and literal texts, without the server's and the client's functions.
 */
module HandlerStream {
  import opened Prelude
  import opened Json
  import opened JsonCbor
  import opened Lifecycle

  /** An item after which the stream goes on: a partial event. */
  predicate GoesOn(item: Item) {
    item.Event? && item.event.status == "partial"
  }

  /** The first item that ends the stream, or the end of the items. */
  ghost predicate FirstStop(items: seq<Item>, k: nat) {
    k <= |items| && (forall i :: 0 <= i < k ==> GoesOn(items[i])) && (k < |items| ==> !GoesOn(items[k]))
  }

  /** The terminal event a handler's stream is answered with. */
  function LastEvent(items: seq<Item>, k: nat): StreamEvent
    requires k <= |items|
  {
    if k == |items| then
      StreamEvent("error", None, Some("stream_incomplete"), Some("stream ended without a terminal response"),
                  None, None)
    else
      match items[k]
      case Raised =>
        StreamEvent("error", None, Some("backend_error"), Some("streaming handler raised exception"), None, None)
      case Event(e) =>
        if e.status == "success" || e.status == "error" || e.status == "timeout" then e
        else StreamEvent("error", None, Some("invalid_stream_status"),
                         Some("streaming handler emitted an invalid status"), None, None)
  }

  lemma GoesOnMeans(item: Item)
    ensures GoesOn(item) <==> !IsFinal(Normalise(item))
    ensures GoesOn(item) ==> Normalise(item) == item.event
  {
  }

  lemma LastEventMeans(items: seq<Item>, k: nat)
    requires FirstStop(items, k)
    ensures LastEvent(items, k) == if k < |items| then Normalise(items[k]) else STREAM_INCOMPLETE
  {
  }

  lemma NoneFinalBefore(items: seq<Item>, k: nat, n: nat)
    requires FirstStop(items, k) && n <= k
    ensures NoneFinal(items, n)
  {
    forall i | 0 <= i < n ensures !IsFinal(Normalise(items[i])) {
      GoesOnMeans(items[i]);
    }
  }

  /** The answered events are the handler's own partial events, unchanged, and one terminal event. */
  lemma AnsweredByHandler(items: seq<Item>, k: nat)
    requires FirstStop(items, k)
    ensures |Answered(items)| == k + 1 && Answered(items)[k] == LastEvent(items, k)
    ensures forall i :: 0 <= i < k ==> Answered(items)[i] == items[i].event
  {
    LastEventMeans(items, k);
    NoneFinalBefore(items, k, k);
    if k < |items| {
      GoesOnMeans(items[k]);
      AnsweredAt(items, k);
    } else {
      AnsweredEnd(items);
    }
    forall i | 0 <= i < k ensures Answered(items)[i] == items[i].event {
      NoneFinalBefore(items, k, i);
      AnsweredAt(items, i);
      GoesOnMeans(items[i]);
    }
  }

  /** A call that the concurrency gate refuses is answered with one error. */
  lemma AnsweredByGate(items: seq<Item>)
    ensures AnsweredCall(items, false)
         == [StreamEvent("error", None, Some("capacity_exceeded"), Some("node concurrency capacity reached"),
                         None, None)]
  {
  }

  /** No name of its own, or one that belongs to the status. */
  predicate NameAgrees(e: StreamEvent) {
    || e.event == None
    || (e.status == "partial" && e.event == Some("partial"))
    || (e.status == "success" && e.event == Some("completed"))
    || (e.status == "error" && (e.event == Some("failed") || e.event == Some("cancelled")))
    || (e.status == "timeout" && (e.event == Some("timed_out") || e.event == Some("expired")))
  }

  function DefaultName(status: string): string {
    if status == "partial" then "partial"
    else if status == "success" then "completed"
    else if status == "timeout" then "timed_out"
    else "failed"
  }

  function Given(t: Option<string>, default: string): Json {
    Str(if t.Some? then t.value else default)
  }

  /** The i-th item the client got is this event: nothing lost, nothing added but its number and default name. */
  ghost predicate Carries(ids: Ids, y: Yielding, e: StreamEvent, i: nat) {
    && y.Ok?
    && var f := y.value;
    && f.sessionId == ids.sessionId && f.callId == ids.callId && f.lifecycle.taskId == ids.taskId
    && f.lifecycle.sequence == i && f.status == e.status && f.tokensUsed == e.tokensUsed
    && f.isFinal == f.lifecycle.isFinal == (e.status != "partial")
    && f.lifecycle.event == (if e.event.Some? then e.event.value else DefaultName(e.status))
    && f.error == (if e.errorCode == None && e.errorMessage == None then Null
                   else Obj([Member("code", Given(e.errorCode, "stream_error")),
                             Member("message", Given(e.errorMessage, "stream failed"))]))
    && (e.result == None ==> f.result == Null)
    && (e.result.Some? && Valid(e.result.value) && IntegersFit(e.result.value) ==> Same(f.result, e.result.value))
  }

  lemma SeenCarries(ids: Ids, e: StreamEvent, i: nat)
    ensures Carries(ids, Ok(Lifecycle.Seen(ids, i, e)), e, i)
  {
    if e.result.Some? && Valid(e.result.value) && IntegersFit(e.result.value) {
      ResultDelivered(ids, i, e);
    }
  }

  lemma AgreesMeans(e: StreamEvent)
    requires KnownStatus(e.status)
    ensures Agrees(e) <==> NameAgrees(e)
  {
  }

  /**
    If the call is let in, everything the server sends is delivered and the handler's own names belong to
    their statuses, the client gets the handler's events one by one, as they were, and the terminal event.
   */
  lemma HandlerToClient(ids: Ids, items: seq<Item>, delivers: (nat, Cbor) -> bool, sent: seq<Cbor>, k: nat)
    requires ItemsFit(items) && FirstStop(items, k)
    requires SentUntilFailure(sent, true, Responses(ids, 0, AnsweredCall(items, true)), delivers)
    requires (forall i :: 0 <= i < k ==> NameAgrees(items[i].event)) && NameAgrees(LastEvent(items, k))
    ensures var yielded := Yielded(AllArrived(OnTheWire(sent)), Start(ids));
            && |yielded| == k + 1
            && (forall i :: 0 <= i < k ==> Carries(ids, yielded[i], items[i].event, i))
            && Carries(ids, yielded[k], LastEvent(items, k), k)
  {
    AnsweredByHandler(items, k);
    AnsweredAgree(items, k);
    EndToEnd(ids, items, true, delivers, sent, true);
    SeenAllCarry(ids, Answered(items));
  }

  lemma AnsweredAgree(items: seq<Item>, k: nat)
    requires ItemsFit(items) && FirstStop(items, k)
    requires (forall i :: 0 <= i < k ==> NameAgrees(items[i].event)) && NameAgrees(LastEvent(items, k))
    ensures forall i :: 0 <= i < |Answered(items)| ==> Agrees(Answered(items)[i])
  {
    AnsweredByHandler(items, k);
    AnsweredOneTerminal(items);
    forall i | 0 <= i < |Answered(items)| ensures Agrees(Answered(items)[i]) {
      AgreesMeans(Answered(items)[i]);
    }
  }

  lemma SeenAllCarry(ids: Ids, events: seq<StreamEvent>)
    ensures forall i :: 0 <= i < |events| ==> Carries(ids, AllSeen(ids, 0, events)[i], events[i], i)
  {
    forall i | 0 <= i < |events| ensures Carries(ids, AllSeen(ids, 0, events)[i], events[i], i) {
      SeenCarries(ids, events[i], i);
    }
  }

  /** The names that go with each status. */
  ghost predicate NameBelongs(status: string, name: string) {
    match status
    case "partial" => name == "partial"
    case "success" => name == "completed"
    case "error" => name in {"failed", "cancelled"}
    case "timeout" => name in {"timed_out", "expired"}
    case _ => false
  }

  /** The validator's table of names, for every status and name. */
  lemma NamesExactly(status: string, name: string)
    ensures NameFits(status, name) <==> NameBelongs(status, name)
  {
  }
}
