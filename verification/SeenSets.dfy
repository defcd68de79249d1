/**
  The sets of identifiers already used: task ids, relay bind tickets, dispatch tickets and gossip
  proofs. Each forgets expired entries lazily; compared here with the full history of what was accepted.
 */
module SeenSets {
  import opened Prelude
  import opened Json
  import opened TrustBundle

  datatype Outcome = New | Duplicate | Full

  const MAX_REPLAY_IDS := 4096

  /** The answer for an identifier; without a capacity a set never is full. */
  function Answer(seen: Seen, capacity: Option<nat>, id: string, now: int): Outcome {
    if id in Purge(seen, now) then Duplicate
    else if capacity.Some? && |Purge(seen, now)| >= capacity.value then Full
    else New
  }

  function Recorded(seen: Seen, capacity: Option<nat>, id: string, now: int, expires: int): Seen {
    if Answer(seen, capacity, id, now) == New then Purge(seen, now)[id := expires] else Purge(seen, now)
  }

  class IdempotencyGuard {
    const ttl: nat
    var seen: Seen

    constructor (ttl: nat)
      ensures this.ttl == ttl && seen == map[]
    {
      this.ttl := ttl;
      seen := map[];
    }

    method CheckAndRegister(taskId: string, now: int) returns (isNew: bool)
      modifies this
      ensures isNew == (taskId == "" || Answer(old(seen), None, taskId, now) == New)
      ensures seen == if taskId == "" then old(seen) else Recorded(old(seen), None, taskId, now, now + ttl)
    {
      if taskId == "" {
        return true;
      }
      seen := map id | id in seen && seen[id] > now :: seen[id];
      if taskId in seen {
        return false;
      }
      seen := seen[taskId := now + ttl];
      isNew := true;
    }
  }

  class RelayBindReplayCache {
    var seen: Seen

    constructor ()
      ensures seen == map[]
    {
      seen := map[];
    }

    method Consume(jti: string, expires: int, now: int) returns (isNew: bool)
      modifies this
      ensures isNew == (Answer(old(seen), None, jti, now) == New)
      ensures seen == Recorded(old(seen), None, jti, now, expires)
    {
      seen := map id | id in seen && seen[id] > now :: seen[id];
      if jti in seen {
        return false;
      }
      seen := seen[jti := expires];
      isNew := true;
    }
  }

  class LocalDispatchReplayCache {
    var seen: Seen

    constructor ()
      ensures seen == map[]
    {
      seen := map[];
    }

    method Contains(jti: string, now: int) returns (found: bool)
      modifies this
      ensures found == (Answer(old(seen), None, jti, now) == Duplicate)
      ensures seen == Purge(old(seen), now)
    {
      seen := map id | id in seen && seen[id] > now :: seen[id];
      found := jti in seen;
    }

    method Remember(jti: string, expires: int)
      modifies this
      ensures seen == old(seen)[jti := expires]
    {
      seen := seen[jti := expires];
    }

    /** The end of a ticket's verification: refuse a replay, remember anything else. */
    method Use(jti: string, now: int, expires: int) returns (isNew: bool)
      modifies this
      ensures isNew == (Answer(old(seen), None, jti, now) == New)
      ensures seen == Recorded(old(seen), None, jti, now, expires)
    {
      var found := Contains(jti, now);
      if !found {
        Remember(jti, expires);
      }
      isNew := !found;
    }
  }

  class GossipReplayIds {
    var seen: Seen

    constructor ()
      ensures seen == map[]
    {
      seen := map[];
    }

    method RecordReplay(replayId: string, expires: int, now: int) returns (outcome: Outcome)
      modifies this
      ensures outcome == Answer(old(seen), Some(MAX_REPLAY_IDS), replayId, now)
      ensures seen == Recorded(old(seen), Some(MAX_REPLAY_IDS), replayId, now, expires)
    {
      seen := map id | id in seen && seen[id] > now :: seen[id];
      if replayId in seen {
        return Duplicate;
      }
      if |seen| >= MAX_REPLAY_IDS {
        return Full;
      }
      seen := seen[replayId := expires];
      outcome := New;
    }
  }

  // ---- The history ----

  datatype Call = Call(id: string, now: int, expires: int)

  /** The set, and every call it accepted. */
  datatype State = State(seen: Seen, accepted: seq<Call>)

  function Step(s: State, capacity: Option<nat>, c: Call): State {
    State(Recorded(s.seen, capacity, c.id, c.now, c.expires),
          if Answer(s.seen, capacity, c.id, c.now) == New then s.accepted + [c] else s.accepted)
  }

  function Exec(capacity: Option<nat>, run: seq<Call>): State
    decreases |run|
  {
    if run == [] then State(map[], []) else Step(Exec(capacity, run[..|run| - 1]), capacity, run[|run| - 1])
  }

  ghost predicate InClockOrder(run: seq<Call>) {
    forall i, j :: 0 <= i < j < |run| ==> run[i].now <= run[j].now
  }

  /** Some accepted entry for the identifier is unexpired. */
  ghost predicate InForce(accepted: seq<Call>, id: string, now: int) {
    exists i :: 0 <= i < |accepted| && accepted[i].id == id && accepted[i].expires > now
  }

  ghost function LiveIds(accepted: seq<Call>, now: int): set<string> {
    set i | 0 <= i < |accepted| && accepted[i].expires > now :: accepted[i].id
  }

  /** From `now` on the set holds exactly what the history says is in force. */
  ghost predicate Agrees(s: State, now: int) {
    forall id, t :: now <= t ==> (id in Purge(s.seen, t) <==> InForce(s.accepted, id, t))
  }

  lemma AgreesStep(s: State, capacity: Option<nat>, c: Call, last: int)
    requires Agrees(s, last) && last <= c.now
    ensures Agrees(Step(s, capacity, c), c.now)
  {
    var s' := Step(s, capacity, c);
    forall id, t | c.now <= t ensures id in Purge(s'.seen, t) <==> InForce(s'.accepted, id, t) {
      assert id in Purge(s.seen, t) <==> InForce(s.accepted, id, t);
      assert id in Purge(s.seen, c.now) <==> InForce(s.accepted, id, c.now);
      if s'.accepted != s.accepted {
        ForceOfSnoc(s.accepted, c, id, t);
        assert InForce(s.accepted, id, t) ==> InForce(s.accepted, id, c.now);
      }
    }
  }

  lemma ForceOfSnoc(accepted: seq<Call>, c: Call, id: string, t: int)
    ensures InForce(accepted + [c], id, t) <==> InForce(accepted, id, t) || (c.id == id && c.expires > t)
  {
    var more := accepted + [c];
    if InForce(accepted, id, t) {
      var i :| 0 <= i < |accepted| && accepted[i].id == id && accepted[i].expires > t;
      assert more[i] == accepted[i];
    }
    assert more[|accepted|] == c;
  }

  lemma {:induction false} ExecAgrees(capacity: Option<nat>, run: seq<Call>, now: int)
    requires InClockOrder(run) && (run != [] ==> run[|run| - 1].now <= now)
    ensures Agrees(Exec(capacity, run), now)
    decreases |run|
  {
    if run != [] {
      var n := |run| - 1;
      ExecAgrees(capacity, run[..n], run[n].now);
      AgreesStep(Exec(capacity, run[..n]), capacity, run[n], run[n].now);
    }
  }

  /**
    After any calls in clock order an identifier is refused as a duplicate exactly while an earlier
    accepted entry for it is unexpired, and refused for want of room exactly when it is not in force
    and as many others as the capacity are.
   */
  lemma HistoryDecides(capacity: Option<nat>, run: seq<Call>, id: string, now: int)
    requires InClockOrder(run) && (run != [] ==> run[|run| - 1].now <= now)
    ensures var s := Exec(capacity, run);
            && (Answer(s.seen, capacity, id, now) == Duplicate <==> InForce(s.accepted, id, now))
            && (Answer(s.seen, capacity, id, now) == Full <==>
                !InForce(s.accepted, id, now) && capacity.Some? && |LiveIds(s.accepted, now)| >= capacity.value)
  {
    ExecAgrees(capacity, run, now);
    var s := Exec(capacity, run);
    assert Purge(s.seen, now).Keys == LiveIds(s.accepted, now) by {
      forall x ensures x in Purge(s.seen, now) <==> x in LiveIds(s.accepted, now) {
        assert x in Purge(s.seen, now) <==> InForce(s.accepted, x, now);
        if x in LiveIds(s.accepted, now) {
          assert InForce(s.accepted, x, now);
        }
      }
    }
    assert |Purge(s.seen, now)| == |Purge(s.seen, now).Keys|;
  }

  /** A set with a capacity never holds more, at any time and in any order of the clock. */
  lemma {:induction false} NeverOverCapacity(capacity: nat, run: seq<Call>)
    ensures |Exec(Some(capacity), run).seen| <= capacity
  {
    if run != [] {
      var n := |run| - 1;
      NeverOverCapacity(capacity, run[..n]);
      var seen := Exec(Some(capacity), run[..n]).seen;
      SubmapSize(Purge(seen, run[n].now), seen);
    }
  }

  /** A live identifier is never dropped to make room: what was accepted stays until it expires. */
  lemma NeverDropped(capacity: Option<nat>, run: seq<Call>, now: int, i: nat)
    requires InClockOrder(run) && (run != [] ==> run[|run| - 1].now <= now)
    requires i < |Exec(capacity, run).accepted| && Exec(capacity, run).accepted[i].expires > now
    ensures Exec(capacity, run).accepted[i].id in Exec(capacity, run).seen
  {
    ExecAgrees(capacity, run, now);
    var s := Exec(capacity, run);
    assert InForce(s.accepted, s.accepted[i].id, now);
    assert s.accepted[i].id in Purge(s.seen, now);
  }

  // ---- Tickets ----

  datatype Ticket = Ticket(
    claims: Json, signature: string, bundle: Bundle, bindings: Bindings, now: nat, minimumVersion: nat)

  /** The verifier's cache after some tickets, and the uses it accepted. */
  datatype Desk = Desk(cache: Seen, accepted: seq<Call>)

  function Present(d: Desk, t: Ticket, signed: (string, string, string) -> bool): Desk {
    var (decision, cache) :=
      Verdict(t.claims, t.signature, t.bundle, t.bindings, t.now, t.minimumVersion, Some(d.cache), signed);
    var jti, expires := AsText(Field(t.claims, "jti")), AsUnsigned(Field(t.claims, "expires_at"));
    Desk(if cache.Some? then cache.value else d.cache,
         if decision.accepted && jti.Some? && expires.Some? then d.accepted + [Call(jti.value, t.now, expires.value)]
         else d.accepted)
  }

  function PresentAll(tickets: seq<Ticket>, signed: (string, string, string) -> bool): Desk {
    if tickets == [] then Desk(map[], [])
    else Present(PresentAll(tickets[..|tickets| - 1], signed), tickets[|tickets| - 1], signed)
  }

  ghost predicate TicketsInOrder(tickets: seq<Ticket>) {
    forall i, j :: 0 <= i < j < |tickets| ==> tickets[i].now <= tickets[j].now
  }

  /** A verdict uses its cache as a seen-set: an accepted ticket names a new id and is recorded. */
  lemma VerdictRecords(d: Desk, t: Ticket, signed: (string, string, string) -> bool)
    ensures var d' := Present(d, t, signed);
            var (decision, _) :=
              Verdict(t.claims, t.signature, t.bundle, t.bindings, t.now, t.minimumVersion, Some(d.cache), signed);
            if decision.accepted then
              && |d'.accepted| == |d.accepted| + 1 && d'.accepted[..|d.accepted|] == d.accepted
              && var c := d'.accepted[|d.accepted|];
              && c.now == t.now && c.expires > t.now && c.id !in Purge(d.cache, t.now)
              && d'.cache == Purge(d.cache, t.now)[c.id := c.expires]
            else d'.accepted == d.accepted && (d'.cache == d.cache || d'.cache == Purge(d.cache, t.now))
  {
  }

  /** Every accepted use still in force is in the cache with its expiry. */
  ghost predicate Tracks(d: Desk, now: int) {
    forall i :: 0 <= i < |d.accepted| && d.accepted[i].expires > now
                ==> d.accepted[i].id in d.cache && d.cache[d.accepted[i].id] == d.accepted[i].expires
  }

  /** An accepted ticket id is accepted again only once the earlier one has expired. */
  ghost predicate NoReplay(accepted: seq<Call>) {
    forall i, j :: 0 <= i < j < |accepted| && accepted[i].id == accepted[j].id
                   ==> accepted[i].expires <= accepted[j].now
  }

  lemma PresentKeeps(d: Desk, t: Ticket, signed: (string, string, string) -> bool, last: int)
    requires Tracks(d, last) && last <= t.now && NoReplay(d.accepted)
    ensures Tracks(Present(d, t, signed), t.now) && NoReplay(Present(d, t, signed).accepted)
  {
    VerdictRecords(d, t, signed);
    var d' := Present(d, t, signed);
    if d'.accepted != d.accepted {
      var n := |d.accepted|;
      assert forall i :: 0 <= i < n ==> d'.accepted[i] == d'.accepted[..n][i];
    }
  }

  /**
    Whatever tickets, bundles and bindings are presented in clock order to a verifier with one replay
    cache, no ticket id is accepted twice while its earlier acceptance is unexpired.
   */
  lemma {:induction false} TicketsNotReplayed(tickets: seq<Ticket>, signed: (string, string, string) -> bool)
    requires TicketsInOrder(tickets)
    ensures NoReplay(PresentAll(tickets, signed).accepted)
    ensures Tracks(PresentAll(tickets, signed), if tickets == [] then 0 else tickets[|tickets| - 1].now)
  {
    if tickets != [] {
      var n := |tickets| - 1;
      TicketsNotReplayed(tickets[..n], signed);
      PresentKeeps(PresentAll(tickets[..n], signed), tickets[n], signed, if n == 0 then 0 else tickets[n - 1].now);
    }
  }
}
