/**
  Relayed streams: worker events enter a table of pending streams and a bounded channel per stream;
  a consumer polls its channel and a failure cell. Both sides interleave freely.
 */
module RelayStream {
  import opened Prelude
  import opened Lifecycle

  const MAX_RELAY_STREAM_EVENTS: nat := 32

  /** Why a stream ends in an error; a refused event carries the validator's code. */
  datatype Reason = Refused(code: string) | Backpressure | WriteClosed | TimedOut | ClosedEarly

  /** Where a consumer's polling loop stands; a yielded item suspends it until the next poll. */
  datatype Consumer = Unsent | Checking | Receiving | Yielded(last: bool) | Ended

  type Item = Result<ResponseFrame, Reason>

  /** A stream that was opened: `accepted` and `yielded` record its past. */
  datatype Stream = Stream(
    ids: Ids, queue: seq<ResponseFrame>, failure: Option<Reason>, consumer: Consumer,
    accepted: seq<ResponseFrame>, yielded: seq<Item>)

  /** The locked table holds the validator of every stream that may still receive events. */
  datatype State = State(pending: map<string, Progress>, streams: map<string, Stream>)

  datatype Action =
    | Open(callId: string, sessionId: string, taskId: string, sent: bool)
    | Deliver(callId: string, frame: ResponseFrame)
    | Poll(callId: string, timedOut: bool)
    | Cancel(callId: string)

  const EMPTY := State(map[], map[])

  // ---- The worker's side ----

  /** A stream and its table entry after the validator's verdict on an event. */
  function Offered(st: Stream, f: ResponseFrame, verdict: Result<Progress, string>): (Stream, Option<Progress>) {
    match verdict
    case Err(code) => (st.(failure := Some(Refused(code))), None)
    case Ok(p) =>
      var st' := st.(accepted := st.accepted + [f]);
      if |st.queue| >= MAX_RELAY_STREAM_EVENTS || st.consumer.Ended? then (st'.(failure := Some(Backpressure)), None)
      else (st'.(queue := st.queue + [f]), Some(p))
  }

  /** One event from the worker, under the table's lock. */
  function DeliverEvent(s: State, callId: string, f: ResponseFrame): State {
    if callId !in s.pending || callId !in s.streams then s
    else
      var (st, p) := Offered(s.streams[callId], f, Accept(s.pending[callId], f));
      State(if p.Some? then s.pending[callId := p.value] else s.pending - {callId}, s.streams[callId := st])
  }

  // ---- The consumer's side ----

  function Yield(st: Stream, item: Item, last: bool): Stream {
    st.(yielded := st.yielded + [item], consumer := Yielded(last))
  }

  /**
    One atomic step of the polling loop. The failure cell is looked at before every receive; a
    receive takes the oldest event, reports the end of a closed channel, waits, or times out.
   */
  function Polled(st: Stream, open: bool, timedOut: bool): Stream {
    match st.consumer
    case Unsent => Yield(st, Err(WriteClosed), true)
    case Checking =>
      if st.failure.Some? then Yield(st, Err(st.failure.value), true).(failure := None)
      else st.(consumer := Receiving)
    case Receiving =>
      if timedOut then Yield(st, Err(TimedOut), true)
      else if st.queue != [] then Yield(st, Ok(st.queue[0]), st.queue[0].isFinal).(queue := st.queue[1..])
      else if !open then Yield(st, Err(if st.failure.Some? then st.failure.value else ClosedEarly), true)
      else st
    case Yielded(last) => if last then Closed(st) else st.(consumer := Checking)
    case Ended => st
  }

  /** The loop has returned: the channel is gone. */
  function Closed(st: Stream): Stream {
    st.(consumer := Ended, queue := [])
  }

  /** The loop returns: its guard takes the stream off the table. */
  function Return(s: State, callId: string): State
    requires callId in s.streams
  {
    State(s.pending - {callId}, s.streams[callId := Closed(s.streams[callId])])
  }

  function PollOnce(s: State, callId: string, timedOut: bool): State {
    if callId !in s.streams then s
    else
      var st := Polled(s.streams[callId], callId in s.pending, timedOut);
      State(if st.consumer.Ended? then s.pending - {callId} else s.pending, s.streams[callId := st])
  }

  /** Call ids are fresh, so opening never meets an existing stream. */
  function OpenStream(s: State, callId: string, sessionId: string, taskId: string, sent: bool): State {
    if callId in s.streams then s
    else
      var ids := Ids(sessionId, callId, taskId);
      State(s.pending[callId := Start(ids)],
            s.streams[callId := Stream(ids, [], None, if sent then Checking else Unsent, [], [])])
  }

  function Step(s: State, a: Action): State {
    match a
    case Open(c, sid, tid, sent) => OpenStream(s, c, sid, tid, sent)
    case Deliver(c, f) => DeliverEvent(s, c, f)
    case Poll(c, timedOut) => PollOnce(s, c, timedOut)
    case Cancel(c) => if c in s.streams then Return(s, c) else s
  }

  /** Any interleaving of any number of streams. */
  function Exec(actions: seq<Action>): State {
    if actions == [] then EMPTY else Step(Exec(actions[..|actions| - 1]), actions[|actions| - 1])
  }

  // ---- The same steps as methods on the shared table ----

  class RelaySession {
    var pending: map<string, Progress>
    var streams: map<string, Stream>

    ghost function View(): State
      reads this
    {
      State(pending, streams)
    }

    constructor ()
      ensures View() == EMPTY
    {
      pending := map[];
      streams := map[];
    }

    method DeliverStreamEvent(callId: string, event: ResponseFrame)
      requires pending.Keys <= streams.Keys
      modifies this
      ensures View() == DeliverEvent(old(View()), callId, event)
    {
      if callId !in pending {
        return;
      }
      var verdict := Accept(pending[callId], event);
      if verdict.Err? {
        streams := streams[callId := streams[callId].(failure := Some(Refused(verdict.error)))];
        pending := pending - {callId};
        return;
      }
      var full := |streams[callId].queue| >= MAX_RELAY_STREAM_EVENTS || streams[callId].consumer.Ended?;
      var accepted := streams[callId].(accepted := streams[callId].accepted + [event]);
      if full {
        streams := streams[callId := accepted.(failure := Some(Backpressure))];
        pending := pending - {callId};
      } else {
        pending := pending[callId := verdict.value];
        streams := streams[callId := accepted.(queue := accepted.queue + [event])];
      }
    }

    method ForwardStream(callId: string, sessionId: string, taskId: string, sent: bool)
      requires callId !in streams
      modifies this
      ensures View() == OpenStream(old(View()), callId, sessionId, taskId, sent)
    {
      var ids := Ids(sessionId, callId, taskId);
      pending := pending[callId := Start(ids)];
      streams := streams[callId := Stream(ids, [], None, if sent then Checking else Unsent, [], [])];
    }

    /** One step of the polling loop. */
    method Poll(callId: string, timedOut: bool)
      requires callId in streams
      modifies this
      ensures View() == PollOnce(old(View()), callId, timedOut)
    {
      var st := streams[callId];
      var open := callId in pending;
      match st.consumer {
        case Unsent =>
          st := Yield(st, Err(WriteClosed), true);
        case Checking =>
          if st.failure.Some? {
            st := Yield(st, Err(st.failure.value), true).(failure := None);
          } else {
            st := st.(consumer := Receiving);
          }
        case Receiving =>
          if timedOut {
            st := Yield(st, Err(TimedOut), true);
          } else if st.queue != [] {
            var event := st.queue[0];
            st := Yield(st.(queue := st.queue[1..]), Ok(event), event.isFinal);
          } else if !open {
            st := Yield(st, Err(if st.failure.Some? then st.failure.value else ClosedEarly), true);
          }
        case Yielded(last) =>
          if last {
            pending := pending - {callId};
            st := Closed(st);
          } else {
            st := st.(consumer := Checking);
          }
        case Ended =>
          pending := pending - {callId};
      }
      streams := streams[callId := st];
    }

    /** The guard of a stream that is over, finished or dropped. */
    method DropGuard(callId: string)
      requires callId in streams
      modifies this
      ensures View() == Return(old(View()), callId)
    {
      pending := pending - {callId};
      streams := streams[callId := streams[callId].(consumer := Ended, queue := [])];
    }
  }

  // ---- What holds in every state ----

  /** The frames among the yielded items. */
  function Taken(items: seq<Item>): seq<ResponseFrame> {
    if items == [] then []
    else
      var n := |items| - 1;
      match items[n]
      case Ok(f) => Taken(items[..n]) + [f]
      case Err(_) => Taken(items[..n])
  }

  /** Only frames, none of them terminal: the stream may go on. */
  ghost predicate AllPartial(items: seq<Item>) {
    forall i :: 0 <= i < |items| ==> items[i].Ok? && !items[i].value.isFinal
  }

  /** Partial frames, then one item that ends the stream: its terminal frame or an error. */
  ghost predicate EndsProperly(items: seq<Item>) {
    && items != []
    && AllPartial(items[..|items| - 1])
    && (items[|items| - 1].Ok? ==> items[|items| - 1].value.isFinal)
  }

  /** The validator, the channel and the failure cell; `p` is the stream's entry in the table. */
  ghost predicate ChannelInv(callId: string, st: Stream, p: Option<Progress>) {
    && st.ids.callId == callId
    && AcceptAll(Start(st.ids), st.accepted).Ok?
    && QueueInv(st, p.Some?)
    && (p.Some? ==> AcceptAll(Start(st.ids), st.accepted).value == p.value && st.failure == None)
    && FailureInv(st, p.Some?)
  }

  /** What was taken and what waits is what was accepted, as long as the stream is on the table. */
  ghost predicate QueueInv(st: Stream, open: bool) {
    && |st.queue| <= MAX_RELAY_STREAM_EVENTS
    && Taken(st.yielded) + st.queue <= st.accepted
    && (open ==> Taken(st.yielded) + st.queue == st.accepted)
  }

  /** A stream off the table has a failure to report or nothing left to do. */
  ghost predicate FailureInv(st: Stream, open: bool) {
    && (st.failure.Some? ==> !st.failure.value.ClosedEarly?)
    && (!open ==> st.failure.Some? || st.consumer in {Unsent, Yielded(true), Ended})
    && (st.consumer.Ended? ==> !open)
  }

  ghost predicate OutputInv(st: Stream) {
    && (match st.consumer
        case Unsent => st.yielded == []
        case Checking => AllPartial(st.yielded)
        case Receiving => AllPartial(st.yielded)
        case Yielded(last) => if last then EndsProperly(st.yielded) else AllPartial(st.yielded)
        case Ended => AllPartial(st.yielded) || EndsProperly(st.yielded))
    && (forall i :: 0 <= i < |st.yielded| ==> st.yielded[i] != Err(ClosedEarly))
  }

  function EntryOf(pending: map<string, Progress>, callId: string): Option<Progress> {
    if callId in pending then Some(pending[callId]) else None
  }

  ghost predicate StreamInv(s: State, c: string)
    requires c in s.streams
  {
    ChannelInv(c, s.streams[c], EntryOf(s.pending, c)) && OutputInv(s.streams[c])
  }

  ghost predicate Inv(s: State) {
    && s.pending.Keys <= s.streams.Keys
    && forall c :: c in s.streams ==> StreamInv(s, c)
  }

  /** A step that touches one stream leaves the others as they were. */
  lemma OthersKept(s: State, s': State, callId: string)
    requires Inv(s) && s'.streams.Keys == s.streams.Keys + {callId}
    requires s'.pending.Keys <= s.pending.Keys + {callId} && s.pending.Keys <= s'.pending.Keys + {callId}
    requires forall c :: c != callId && c in s.streams ==> s'.streams[c] == s.streams[c]
    requires forall c :: c != callId && c in s.pending ==> s'.pending[c] == s.pending[c]
    requires StreamInv(s', callId)
    ensures Inv(s')
  {
    forall c | c in s'.streams ensures StreamInv(s', c) {
      if c != callId {
        assert StreamInv(s, c);
        assert EntryOf(s'.pending, c) == EntryOf(s.pending, c);
      }
    }
  }

  lemma TakenSnoc(items: seq<Item>, item: Item)
    ensures Taken(items + [item]) == if item.Ok? then Taken(items) + [item.value] else Taken(items)
  {
    assert (items + [item])[..|items|] == items;
  }

  lemma YieldKeepsShape(items: seq<Item>, item: Item)
    requires AllPartial(items)
    ensures if item.Ok? && !item.value.isFinal then AllPartial(items + [item]) else EndsProperly(items + [item])
  {
    assert (items + [item])[..|items|] == items;
  }

  lemma OfferedChannel(callId: string, st: Stream, p: Progress, f: ResponseFrame, verdict: Result<Progress, string>)
    requires ChannelInv(callId, st, Some(p)) && verdict == AcceptAll(Start(st.ids), st.accepted + [f])
    ensures var (st', p') := Offered(st, f, verdict);
            ChannelInv(callId, st', p') && st'.consumer == st.consumer && st'.yielded == st.yielded
  {
    assert Taken(st.yielded) + (st.queue + [f]) == (Taken(st.yielded) + st.queue) + [f];
  }

  lemma KeepsDeliver(s: State, callId: string, f: ResponseFrame)
    requires Inv(s)
    ensures Inv(DeliverEvent(s, callId, f))
  {
    if callId in s.pending {
      var st := s.streams[callId];
      assert StreamInv(s, callId);
      AcceptAllSnoc(Start(st.ids), st.accepted, f);
      OfferedChannel(callId, st, s.pending[callId], f, Accept(s.pending[callId], f));
      var s' := DeliverEvent(s, callId, f);
      var (st', p') := Offered(st, f, Accept(s.pending[callId], f));
      assert s'.streams[callId] == st' && EntryOf(s'.pending, callId) == p';
      OthersKept(s, s', callId);
    }
  }

  lemma MoveOne<T>(taken: seq<T>, queue: seq<T>)
    requires queue != []
    ensures taken + queue == taken + [queue[0]] + queue[1..]
  {
  }

  lemma DropRest<T>(taken: seq<T>, queue: seq<T>, all: seq<T>)
    requires taken + queue <= all
    ensures taken + [] <= all
  {
    assert taken + [] == (taken + queue)[..|taken|];
  }

  /** An error yielded takes no frame. */
  lemma ErrorQueue(st: Stream, open: bool, why: Reason, last: bool)
    requires QueueInv(st, open)
    ensures QueueInv(Yield(st, Err(why), last), open)
  {
    TakenSnoc(st.yielded, Err(why));
  }

  lemma ReceivedQueue(st: Stream, open: bool)
    requires QueueInv(st, open) && st.queue != []
    ensures QueueInv(Yield(st, Ok(st.queue[0]), st.queue[0].isFinal).(queue := st.queue[1..]), open)
  {
    TakenSnoc(st.yielded, Ok(st.queue[0]));
    MoveOne(Taken(st.yielded), st.queue);
  }

  lemma ClosedQueue(st: Stream, open: bool)
    requires QueueInv(st, open)
    ensures QueueInv(Closed(st), false)
  {
    DropRest(Taken(st.yielded), st.queue, st.accepted);
  }

  lemma PolledQueue(st: Stream, open: bool, timedOut: bool)
    requires QueueInv(st, open)
    ensures var st' := Polled(st, open, timedOut); QueueInv(st', open && !st'.consumer.Ended?)
  {
    match st.consumer
    case Unsent => ErrorQueue(st, open, WriteClosed, true);
    case Checking =>
      if st.failure.Some? { ErrorQueue(st, open, st.failure.value, true); }
    case Receiving =>
      if timedOut {
        ErrorQueue(st, open, TimedOut, true);
      } else if st.queue != [] {
        ReceivedQueue(st, open);
      } else if !open {
        ErrorQueue(st, open, if st.failure.Some? then st.failure.value else ClosedEarly, true);
      }
    case Yielded(last) =>
      if last { ClosedQueue(st, open); }
    case Ended =>
  }

  /** What a poll leaves as it was, and that it takes away no more than a reported failure. */
  lemma PolledKeeps(st: Stream, open: bool, timedOut: bool)
    requires FailureInv(st, open)
    ensures var st' := Polled(st, open, timedOut);
            && st'.ids == st.ids && st'.accepted == st.accepted
            && (st.failure == None ==> st'.failure == None)
            && FailureInv(st', open && !st'.consumer.Ended?)
  {
  }

  lemma PolledChannel(callId: string, st: Stream, p: Option<Progress>, timedOut: bool)
    requires ChannelInv(callId, st, p)
    ensures var st' := Polled(st, p.Some?, timedOut);
            ChannelInv(callId, st', if st'.consumer.Ended? then None else p)
  {
    PolledQueue(st, p.Some?, timedOut);
    PolledKeeps(st, p.Some?, timedOut);
  }

  lemma PolledOutput(st: Stream, open: bool, timedOut: bool)
    requires FailureInv(st, open) && OutputInv(st)
    ensures OutputInv(Polled(st, open, timedOut))
  {
    match st.consumer
    case Unsent => YieldKeepsShape(st.yielded, Err(WriteClosed));
    case Checking =>
      if st.failure.Some? { YieldKeepsShape(st.yielded, Err(st.failure.value)); }
    case Receiving =>
      if timedOut {
        YieldKeepsShape(st.yielded, Err(TimedOut));
      } else if st.queue != [] {
        YieldKeepsShape(st.yielded, Ok(st.queue[0]));
      } else if !open {
        YieldKeepsShape(st.yielded, Err(st.failure.value));
      }
    case Yielded(_) =>
    case Ended =>
  }

  lemma KeepsPoll(s: State, callId: string, timedOut: bool)
    requires Inv(s)
    ensures Inv(PollOnce(s, callId, timedOut))
  {
    if callId in s.streams {
      assert StreamInv(s, callId);
      var st, p := s.streams[callId], EntryOf(s.pending, callId);
      var s' := PollOnce(s, callId, timedOut);
      assert s'.streams[callId] == Polled(st, p.Some?, timedOut);
      assert EntryOf(s'.pending, callId) == if s'.streams[callId].consumer.Ended? then None else p;
      PolledChannel(callId, st, p, timedOut);
      PolledOutput(st, p.Some?, timedOut);
      OthersKept(s, s', callId);
    }
  }

  lemma KeepsOpen(s: State, c: string, sessionId: string, taskId: string, sent: bool)
    requires Inv(s)
    ensures Inv(OpenStream(s, c, sessionId, taskId, sent))
  {
    if c !in s.streams {
      OthersKept(s, OpenStream(s, c, sessionId, taskId, sent), c);
    }
  }

  lemma KeepsReturn(s: State, c: string)
    requires Inv(s) && c in s.streams
    ensures Inv(Return(s, c))
  {
    assert StreamInv(s, c);
    OthersKept(s, Return(s, c), c);
  }

  lemma KeepsInv(s: State, a: Action)
    requires Inv(s)
    ensures Inv(Step(s, a))
  {
    match a
    case Open(c, sid, tid, sent) => KeepsOpen(s, c, sid, tid, sent);
    case Deliver(c, f) => KeepsDeliver(s, c, f);
    case Poll(c, timedOut) => KeepsPoll(s, c, timedOut);
    case Cancel(c) => if c in s.streams { KeepsReturn(s, c); }
  }

  lemma {:induction false} ExecInv(actions: seq<Action>)
    ensures Inv(Exec(actions))
  {
    if actions != [] {
      var n := |actions| - 1;
      ExecInv(actions[..n]);
      KeepsInv(Exec(actions[..n]), actions[n]);
    }
  }

  /**
    What a consumer gets from a stream, in every state of every interleaving: frames numbered 0 to
    n-1 that are the first n the worker's side accepted, in order; after the terminal frame or an
    error, nothing; at most 32 frames waiting; and never the report that the channel just closed.
   */
  lemma StreamGuarantee(actions: seq<Action>, callId: string)
    requires callId in Exec(actions).streams
    ensures var st := Exec(actions).streams[callId];
            && (AllPartial(st.yielded) || EndsProperly(st.yielded))
            && Taken(st.yielded) <= st.accepted
            && WellFormed(st.ids, st.accepted)
            && WellFormed(st.ids, Taken(st.yielded))
            && |st.queue| <= MAX_RELAY_STREAM_EVENTS
            && Err(ClosedEarly) !in st.yielded
  {
    ExecInv(actions);
    var s := Exec(actions);
    var st := s.streams[callId];
    assert StreamInv(s, callId);
    AcceptAllExact(st.ids, st.accepted);
    var t := Taken(st.yielded);
    assert forall i :: 0 <= i < |t| ==> t[i] == st.accepted[i];
  }

  /** Items once yielded stay, and nothing follows an item that ends the stream. */
  lemma YieldedOnlyGrows(s: State, a: Action, callId: string)
    requires Inv(s) && callId in s.streams
    ensures callId in Step(s, a).streams
    ensures s.streams[callId].yielded <= Step(s, a).streams[callId].yielded
    ensures EndsProperly(s.streams[callId].yielded) ==>
              Step(s, a).streams[callId].yielded == s.streams[callId].yielded
  {
    var st := s.streams[callId];
    assert StreamInv(s, callId);
    if EndsProperly(st.yielded) {
      NotBoth(st.yielded);
    }
    if a.Poll? && a.callId == callId {
      PolledGrows(st, callId in s.pending, a.timedOut);
    }
  }

  lemma PolledGrows(st: Stream, open: bool, timedOut: bool)
    ensures st.yielded <= Polled(st, open, timedOut).yielded
    ensures st.consumer.Ended? || st.consumer.Yielded? ==> Polled(st, open, timedOut).yielded == st.yielded
  {
  }

  lemma NotBoth(items: seq<Item>)
    requires EndsProperly(items)
    ensures !AllPartial(items) && items != []
  {
    var last := items[|items| - 1];
    assert last.Err? || last.value.isFinal;
  }

  // ---- What a polling consumer gets ----

  /** Polls with nothing in between. */
  function PollTimes(st: Stream, open: bool, k: nat): Stream
    decreases k
  {
    if k == 0 then st else PollTimes(Polled(st, open, false), open, k - 1)
  }

  function Items(fs: seq<ResponseFrame>): (r: seq<Item>)
    ensures |r| == |fs| && forall i :: 0 <= i < |fs| ==> r[i] == Ok(fs[i])
  {
    seq(|fs|, i requires 0 <= i < |fs| => Ok(fs[i]))
  }

  /** A stream in which only the last waiting frame can be terminal, about to be polled. */
  ghost predicate Ready(st: Stream) {
    && st.consumer.Checking? && st.failure == None
    && forall i :: 0 <= i < |st.queue| - 1 ==> !st.queue[i].isFinal
  }

  /** The stream once every waiting frame was taken. */
  function Drained(st: Stream): Stream {
    st.(yielded := st.yielded + Items(st.queue), queue := [],
        consumer := if st.queue != [] && st.queue[|st.queue| - 1].isFinal then Ended else Checking)
  }

  /** Check the failure cell, receive, resume. */
  lemma ThreePolls(st: Stream, open: bool)
    requires Ready(st) && st.queue != []
    ensures var f := st.queue[0];
            Polled(Polled(Polled(st, open, false), open, false), open, false) ==
            st.(consumer := if f.isFinal then Ended else Checking,
                yielded := st.yielded + [Ok(f)], queue := st.queue[1..])
  {
    var f := st.queue[0];
    var received := Polled(Polled(st, open, false), open, false);
    assert received == st.(consumer := Yielded(f.isFinal), yielded := st.yielded + [Ok(f)], queue := st.queue[1..]);
    if f.isFinal {
      assert |st.queue| == 1 && st.queue[1..] == [];
    }
  }

  lemma ThreeTimes(st: Stream, open: bool, n: nat)
    ensures PollTimes(st, open, n + 3)
         == PollTimes(Polled(Polled(Polled(st, open, false), open, false), open, false), open, n)
  {
    var one := Polled(st, open, false);
    var two := Polled(one, open, false);
    assert PollTimes(st, open, n + 3) == PollTimes(one, open, n + 2);
    assert PollTimes(one, open, n + 2) == PollTimes(two, open, n + 1);
  }

  lemma DrainedTail(st: Stream)
    requires Ready(st) && st.queue != [] && !st.queue[0].isFinal
    ensures Drained(st.(yielded := st.yielded + [Ok(st.queue[0])], queue := st.queue[1..])) == Drained(st)
  {
    var q := st.queue;
    assert (st.yielded + [Ok(q[0])]) + Items(q[1..]) == st.yielded + Items(q);
    if |q| > 1 {
      assert q[1..][|q| - 2] == q[|q| - 1];
    }
  }

  lemma {:induction false} PollsDrain(st: Stream, open: bool)
    requires Ready(st)
    ensures PollTimes(st, open, 3 * |st.queue|) == Drained(st)
    decreases |st.queue|
  {
    if st.queue == [] {
      assert st.yielded + Items([]) == st.yielded;
    } else {
      ThreePolls(st, open);
      ThreeTimes(st, open, 3 * |st.queue| - 3);
      if st.queue[0].isFinal {
        assert |st.queue| == 1 && Items(st.queue) == [Ok(st.queue[0])];
      } else {
        DrainedTail(st);
        var next := st.(yielded := st.yielded + [Ok(st.queue[0])], queue := st.queue[1..]);
        assert Ready(next) by {
          forall i | 0 <= i < |next.queue| - 1 ensures !next.queue[i].isFinal {
            assert next.queue[i] == st.queue[i + 1];
          }
        }
        PollsDrain(next, open);
      }
    }
  }

  /** Nothing but k polls of one stream, none of which times out. */
  function Polls(callId: string, k: nat): seq<Action> {
    seq(k, i => Poll(callId, false))
  }

  lemma {:induction false} OneMorePoll(st: Stream, open: bool, k: nat)
    ensures PollTimes(st, open, k + 1) == Polled(PollTimes(st, open, k), open, false)
    decreases k
  {
    if k > 0 {
      OneMorePoll(Polled(st, open, false), open, k - 1);
    }
  }

  /** Polling in a run is polling the stream; it stays on the table until its loop returns. */
  lemma {:induction false} ExecPolls(actions: seq<Action>, callId: string, k: nat)
    requires callId in Exec(actions).streams && !Exec(actions).streams[callId].consumer.Ended?
    ensures var s, s' := Exec(actions), Exec(actions + Polls(callId, k));
            && callId in s'.streams
            && s'.streams[callId] == PollTimes(s.streams[callId], callId in s.pending, k)
            && (!s'.streams[callId].consumer.Ended? ==> (callId in s'.pending <==> callId in s.pending))
    decreases k
  {
    if k == 0 {
      assert actions + Polls(callId, 0) == actions;
    } else {
      var all := actions + Polls(callId, k);
      assert all[..|all| - 1] == actions + Polls(callId, k - 1) && all[|all| - 1] == Poll(callId, false);
      ExecPolls(actions, callId, k - 1);
      OneMorePoll(Exec(actions).streams[callId], callId in Exec(actions).pending, k - 1);
    }
  }

  /** A reachable stream about to be polled, without a failure, is ready. */
  lemma ReachableReady(actions: seq<Action>, callId: string)
    requires callId in Exec(actions).streams
    requires Exec(actions).streams[callId].consumer.Checking? && Exec(actions).streams[callId].failure == None
    ensures Ready(Exec(actions).streams[callId])
  {
    ExecInv(actions);
    var s := Exec(actions);
    var st := s.streams[callId];
    assert StreamInv(s, callId);
    AcceptAllExact(st.ids, st.accepted);
    OnlyLastFinal(Taken(st.yielded), st.queue, st.accepted);
  }

  lemma OnlyLastFinal(taken: seq<ResponseFrame>, queue: seq<ResponseFrame>, all: seq<ResponseFrame>)
    requires taken + queue <= all && forall i :: 0 <= i < |all| - 1 ==> !all[i].isFinal
    ensures forall i :: 0 <= i < |queue| - 1 ==> !queue[i].isFinal
  {
    forall i | 0 <= i < |queue| - 1 ensures !queue[i].isFinal {
      assert queue[i] == (taken + queue)[|taken| + i] == all[|taken| + i];
    }
  }

  /**
    In every run, three polls for each waiting frame of a stream without a failure deliver all of them, in
    order. With a terminal frame last the stream is then over, otherwise it waits for more.
   */
  lemma Drains(actions: seq<Action>, callId: string)
    requires callId in Exec(actions).streams
    requires Exec(actions).streams[callId].consumer.Checking? && Exec(actions).streams[callId].failure == None
    ensures var st := Exec(actions).streams[callId];
            var s' := Exec(actions + Polls(callId, 3 * |st.queue|));
            callId in s'.streams && s'.streams[callId] == Drained(st)
  {
    var st := Exec(actions).streams[callId];
    ReachableReady(actions, callId);
    PollsDrain(st, callId in Exec(actions).pending);
    ExecPolls(actions, callId, 3 * |st.queue|);
  }
}
