/**
  The admission ledger: a table of consumed dispatch claims keyed by ticket id, with terminal states
  and bounded cleanup of expired rows. Every operation is one immediate transaction, so a run is a list
  of operations; a transaction the database refuses changes nothing and is not part of a run.
 */
module Admission {
  import opened Prelude

  datatype Status = Accepted | Completed | Failed | Cancelled | Expired | Rejected | Named(name: string)

  datatype Claim = Claim(jti: string, provider: string, intent: string, notBefore: nat, expiresAt: nat)

  /** A row; the stored digests of provider and intent stand as the values they are digests of. */
  datatype Row = Row(
    provider: string, intent: string, status: Status, expiresAt: nat, consumedAt: nat, updatedAt: nat)

  type Rows = map<string, Row>

  datatype Decision =
    | Accept
    | InvalidJti
    | ProviderBinding
    | IntentBinding
    | NotYetValid
    | TooLate
    | IsTerminal(status: Status)
    | IsReplay(status: Status)
    | IssuerKey
    | StoreUnavailable

  datatype Failure = Storage | Unknown | Transition(status: Status)

  predicate Terminal(status: Status) {
    status.Completed? || status.Failed? || status.Cancelled? || status.Expired? || status.Rejected?
  }

  // ---- Operations on the table ----

  function SatAdd(a: nat, b: nat): nat {
    if a + b < U64_LIMIT then a + b else U64_LIMIT - 1
  }

  function SatSub(a: nat, b: nat): nat {
    if b <= a then a - b else 0
  }

  /** The store keeps integers in 64-bit signed columns and refuses larger ones. */
  predicate Storable(n: nat) {
    n < I64_LIMIT
  }

  predicate JtiChar(c: char) {
    'a' <= c <= 'z' || 'A' <= c <= 'Z' || '0' <= c <= '9' || c in "._:-"
  }

  predicate ValidJti(jti: string) {
    16 <= |jti| <= 256 && forall i :: 0 <= i < |jti| ==> JtiChar(jti[i])
  }

  /** The checks made before the table is looked at. */
  function Refusal(claim: Claim, provider: string, intent: string, now: nat, skew: nat): Option<Decision> {
    if !ValidJti(claim.jti) then Some(InvalidJti)
    else if claim.provider != provider then Some(ProviderBinding)
    else if claim.intent != intent then Some(IntentBinding)
    else if SatAdd(now, skew) < claim.notBefore then Some(NotYetValid)
    else if SatSub(now, skew) >= claim.expiresAt then Some(TooLate)
    else None
  }

  function Consumed(rows: Rows, claim: Claim, provider: string, intent: string, now: nat, skew: nat)
    : Result<Decision, Failure>
  {
    var refusal := Refusal(claim, provider, intent, now, skew);
    if refusal.Some? then Ok(refusal.value)
    else if claim.jti in rows then
      var status := rows[claim.jti].status;
      Ok(if Terminal(status) then IsTerminal(status) else IsReplay(status))
    else if Storable(claim.expiresAt) && Storable(now) then Ok(Accept)
    else Err(Storage)
  }

  function AfterConsume(rows: Rows, claim: Claim, provider: string, intent: string, now: nat, skew: nat): Rows {
    if Consumed(rows, claim, provider, intent, now, skew) == Ok(Accept) then
      rows[claim.jti := Row(claim.provider, claim.intent, Accepted, claim.expiresAt, now, now)]
    else rows
  }

  function Moved(rows: Rows, jti: string, status: Status, now: nat): Result<Row, Failure> {
    if !Terminal(status) then Err(Transition(status))
    else if jti !in rows then Err(Unknown)
    else if Terminal(rows[jti].status) && rows[jti].status != status then Err(Transition(rows[jti].status))
    else if rows[jti].status == status then Ok(rows[jti])
    else if Storable(now) then Ok(rows[jti].(status := status, updatedAt := now))
    else Err(Storage)
  }

  function AfterMove(rows: Rows, jti: string, status: Status, now: nat): Rows {
    if Moved(rows, jti, status, now).Ok? then rows[jti := Moved(rows, jti, status, now).value] else rows
  }

  function Stale(rows: Rows, cutoff: nat): set<string> {
    set jti | jti in rows && rows[jti].expiresAt < cutoff
  }

  /** The rows a cleanup may delete: as many stale ones as the limit admits, earliest expiry first. */
  predicate Victims(rows: Rows, cutoff: nat, limit: nat, victims: set<string>) {
    && victims <= Stale(rows, cutoff)
    && (|victims| == limit || (|victims| < limit && victims == Stale(rows, cutoff)))
    && forall v, w :: v in victims && w in Stale(rows, cutoff) - victims ==> rows[v].expiresAt <= rows[w].expiresAt
  }

  predicate CleanupRuns(now: nat, retention: nat, limit: nat) {
    Storable(SatSub(now, retention)) && Storable(Max(limit, 1))
  }

  lemma {:induction false} EarliestExists(rows: Rows, keys: set<string>)
    requires keys != {} && keys <= rows.Keys
    ensures exists k :: k in keys && forall w :: w in keys ==> rows[k].expiresAt <= rows[w].expiresAt
    decreases |keys|
  {
    var k :| k in keys;
    var rest := keys - {k};
    if rest != {} {
      EarliestExists(rows, rest);
      var e :| e in rest && forall w :: w in rest ==> rows[e].expiresAt <= rows[w].expiresAt;
      var best := if rows[e].expiresAt <= rows[k].expiresAt then e else k;
      assert forall w :: w in keys ==> w == k || w in rest;
      assert best in keys && forall w :: w in keys ==> rows[best].expiresAt <= rows[w].expiresAt;
    } else {
      forall w | w in keys ensures w == k {
        assert w !in rest;
      }
    }
  }

  class DispatchAdmissionStore {
    var rows: Rows

    constructor ()
      ensures rows == map[]
    {
      rows := map[];
    }

    method Consume(claim: Claim, provider: string, intent: string, now: nat, skew: nat)
      returns (r: Result<Decision, Failure>)
      modifies this
      ensures r == Consumed(old(rows), claim, provider, intent, now, skew)
      ensures rows == AfterConsume(old(rows), claim, provider, intent, now, skew)
      ensures r == Ok(Accept) <==> claim.jti !in old(rows) && claim.jti in rows
    {
      var refusal := Refusal(claim, provider, intent, now, skew);
      if refusal.Some? {
        return Ok(refusal.value);
      }
      if claim.jti in rows {
        var status := rows[claim.jti].status;
        return Ok(if Terminal(status) then IsTerminal(status) else IsReplay(status));
      }
      if !Storable(claim.expiresAt) || !Storable(now) {
        return Err(Storage);
      }
      rows := rows[claim.jti := Row(claim.provider, claim.intent, Accepted, claim.expiresAt, now, now)];
      r := Ok(Accept);
    }

    /** The caller's entry point: an untrusted issuer or an unavailable store is a rejection. */
    method Evaluate(claim: Claim, provider: string, intent: string, now: nat, trusted: bool, skew: nat)
      returns (d: Decision)
      modifies this
      ensures d == Accept <==> trusted && Consumed(old(rows), claim, provider, intent, now, skew) == Ok(Accept)
      ensures rows == if trusted then AfterConsume(old(rows), claim, provider, intent, now, skew) else old(rows)
      ensures d != Accept ==> rows == old(rows)
    {
      if !trusted {
        return IssuerKey;
      }
      var r := Consume(claim, provider, intent, now, skew);
      d := if r.Ok? then r.value else StoreUnavailable;
    }

    method Move(jti: string, status: Status, now: nat) returns (r: Result<Row, Failure>)
      modifies this
      ensures r == Moved(old(rows), jti, status, now)
      ensures r.Ok? <==> (status in {Completed, Failed, Cancelled, Expired, Rejected} && jti in old(rows)
                          && (old(rows)[jti].status == status
                              || (old(rows)[jti].status !in {Completed, Failed, Cancelled, Expired, Rejected}
                                  && now < 0x8000_0000_0000_0000)))
      ensures rows == AfterMove(old(rows), jti, status, now)
      ensures r.Ok? ==> jti in rows && rows[jti] == r.value && r.value.status == status
      ensures r.Err? ==> rows == old(rows)
    {
      if !Terminal(status) {
        return Err(Transition(status));
      }
      if jti !in rows {
        return Err(Unknown);
      }
      var existing := rows[jti];
      if Terminal(existing.status) && existing.status != status {
        return Err(Transition(existing.status));
      }
      if existing.status != status {
        if !Storable(now) {
          return Err(Storage);
        }
        rows := rows[jti := existing.(status := status, updatedAt := now)];
      }
      r := Ok(rows[jti]);
    }

    method Cleanup(now: nat, retention: nat, limit: nat) returns (r: Result<nat, Failure>, ghost victims: set<string>)
      modifies this
      ensures r.Ok? <==> CleanupRuns(now, retention, limit)
      ensures r.Err? ==> rows == old(rows)
      ensures r.Ok? ==> Victims(old(rows), SatSub(now, retention), Max(limit, 1), victims)
      ensures r.Ok? ==> rows == old(rows) - victims && r.value == |victims|
    {
      victims := {};
      if !CleanupRuns(now, retention, limit) {
        return Err(Storage), {};
      }
      var cutoff := SatSub(now, retention);
      var doomed := EarliestStale(cutoff, Max(limit, 1));
      victims := doomed;
      rows := rows - doomed;
      r := Ok(|doomed|);
    }

    /** The inner query of the deletion, one earliest stale row after another. */
    method EarliestStale(cutoff: nat, limit: nat) returns (victims: set<string>)
      ensures Victims(rows, cutoff, limit, victims)
    {
      victims := {};
      var rest := Stale(rows, cutoff);
      while |victims| < limit && rest != {}
        invariant rest == Stale(rows, cutoff) - victims && victims <= Stale(rows, cutoff) && |victims| <= limit
        invariant forall v, w :: v in victims && w in rest ==> rows[v].expiresAt <= rows[w].expiresAt
        decreases |rest|
      {
        EarliestExists(rows, rest);
        var k :| k in rest && forall w :: w in rest ==> rows[k].expiresAt <= rows[w].expiresAt;
        victims := victims + {k};
        rest := rest - {k};
      }
      if rest == {} {
        assert victims == Stale(rows, cutoff);
      }
    }
  }

  // ---- Runs ----

  datatype Action =
    | DoConsume(claim: Claim, provider: string, intent: string, now: nat, skew: nat)
    | DoMove(jti: string, status: Status, now: nat)
    | DoCleanup(now: nat, retention: nat, limit: nat, victims: set<string>)

  /** The table, and every claim accepted so far. */
  datatype State = State(rows: Rows, accepted: seq<Claim>)

  function Step(s: State, a: Action): State {
    match a
    case DoConsume(claim, provider, intent, now, skew) =>
      State(AfterConsume(s.rows, claim, provider, intent, now, skew),
            if Consumed(s.rows, claim, provider, intent, now, skew) == Ok(Accept) then s.accepted + [claim]
            else s.accepted)
    case DoMove(jti, status, now) => s.(rows := AfterMove(s.rows, jti, status, now))
    case DoCleanup(now, retention, limit, victims) =>
      if CleanupRuns(now, retention, limit) && Victims(s.rows, SatSub(now, retention), Max(limit, 1), victims) then
        s.(rows := s.rows - victims)
      else s
  }

  function Exec(run: seq<Action>): State {
    if run == [] then State(map[], []) else Step(Exec(run[..|run| - 1]), run[|run| - 1])
  }

  ghost predicate InClockOrder(run: seq<Action>) {
    forall i, j :: 0 <= i < j < |run| ==> run[i].now <= run[j].now
  }

  /** Every consume allows at most `skew`, every cleanup keeps rows at least `retention`. */
  predicate Configured(a: Action, skew: nat, retention: nat) {
    (a.DoConsume? ==> a.skew <= skew) && (a.DoCleanup? ==> a.retention >= retention)
  }

  ghost predicate AllConfigured(run: seq<Action>, skew: nat, retention: nat) {
    forall i :: 0 <= i < |run| ==> Configured(run[i], skew, retention)
  }

  /** Claims accepted under one ticket id have strictly later and later expiry. */
  ghost predicate OncePerClaim(accepted: seq<Claim>) {
    forall i, j :: 0 <= i < j < |accepted| && accepted[i].jti == accepted[j].jti
                   ==> accepted[i].expiresAt < accepted[j].expiresAt
  }

  /** An accepted claim still has a row that outlives it, or is too old to be accepted again. */
  ghost predicate Remembered(s: State, c: Claim, now: nat, retention: nat) {
    || (c.jti in s.rows && s.rows[c.jti].expiresAt >= c.expiresAt)
    || now > c.expiresAt + retention
  }

  ghost predicate Inv(s: State, now: nat, retention: nat) {
    && OncePerClaim(s.accepted)
    && forall i :: 0 <= i < |s.accepted| ==> s.accepted[i].expiresAt > 0 && Remembered(s, s.accepted[i], now, retention)
  }

  /**
    The skew is at most one second above the retention, or the retention is so long that a row goes
    stale only when the store can no longer represent the time.
   */
  predicate RetainedLongEnough(skew: nat, retention: nat) {
    skew <= retention + 1 || !Storable(retention + 2)
  }

  lemma KeepsRemembered(s: State, a: Action, c: Claim, now: nat, skew: nat, retention: nat)
    requires Remembered(s, c, now, retention) && now <= a.now && Configured(a, skew, retention)
    ensures Remembered(Step(s, a), c, a.now, retention)
  {
    if a.DoCleanup? && c.jti in s.rows && c.jti !in Step(s, a).rows {
      assert c.jti in Stale(s.rows, SatSub(a.now, a.retention));
    }
  }

  lemma KeepsInv(s: State, a: Action, now: nat, skew: nat, retention: nat)
    requires Inv(s, now, retention) && now <= a.now
    requires Configured(a, skew, retention) && RetainedLongEnough(skew, retention)
    ensures Inv(Step(s, a), a.now, retention)
  {
    var s' := Step(s, a);
    forall i | 0 <= i < |s.accepted| ensures Remembered(s', s.accepted[i], a.now, retention) {
      KeepsRemembered(s, a, s.accepted[i], now, skew, retention);
    }
    if s'.accepted != s.accepted {
      forall i | 0 <= i < |s.accepted| && s.accepted[i].jti == a.claim.jti
        ensures s.accepted[i].expiresAt < a.claim.expiresAt
      {
        assert Remembered(s, s.accepted[i], now, retention);
      }
    }
  }

  lemma {:induction false} ExecInv(run: seq<Action>, skew: nat, retention: nat)
    requires InClockOrder(run) && AllConfigured(run, skew, retention) && RetainedLongEnough(skew, retention)
    ensures Inv(Exec(run), if run == [] then 0 else run[|run| - 1].now, retention)
  {
    if run != [] {
      var n := |run| - 1;
      ExecInv(run[..n], skew, retention);
      KeepsInv(Exec(run[..n]), run[n], if n == 0 then 0 else run[n - 1].now, skew, retention);
    }
  }

  ghost predicate AtMostOnce(skew: nat, retention: nat) {
    forall run :: InClockOrder(run) && AllConfigured(run, skew, retention) ==> OncePerClaim(Exec(run).accepted)
  }

  const TICKET := "0123456789abcdef"

  ghost function Twice(skew: nat, retention: nat): seq<Action> {
    var claim := Claim(TICKET, "", "", 0, 1);
    [DoConsume(claim, "", "", 0, skew), DoCleanup(retention + 2, retention, 1, {TICKET}),
     DoConsume(claim, "", "", retention + 2, skew)]
  }

  lemma TwiceAccepted(skew: nat, retention: nat)
    requires skew >= retention + 2 && Storable(retention + 2)
    ensures Exec(Twice(skew, retention)).accepted == [Claim(TICKET, "", "", 0, 1), Claim(TICKET, "", "", 0, 1)]
  {
    var run := Twice(skew, retention);
    var claim := Claim(TICKET, "", "", 0, 1);
    var row := Row("", "", Accepted, 1, 0, 0);
    assert run[..2] == [run[0], run[1]] && run[..2][..1] == [run[0]] && [run[0]][..0] == [];
    assert Refusal(claim, "", "", 0, skew) == None;
    assert Exec([run[0]]) == State(map[TICKET := row], [claim]);
    assert Stale(map[TICKET := row], 2) == {TICKET};
    assert Exec(run[..2]) == State(map[], [claim]);
    assert Refusal(claim, "", "", retention + 2, skew) == None;
  }

  /** A claim is accepted at most once in every run in clock order, its row deleted or not, exactly then. */
  lemma AtMostOnceExactly(skew: nat, retention: nat)
    ensures AtMostOnce(skew, retention) <==> RetainedLongEnough(skew, retention)
  {
    if RetainedLongEnough(skew, retention) {
      forall run | InClockOrder(run) && AllConfigured(run, skew, retention) ensures OncePerClaim(Exec(run).accepted) {
        ExecInv(run, skew, retention);
      }
    } else {
      var run := Twice(skew, retention);
      TwiceAccepted(skew, retention);
      assert InClockOrder(run) && AllConfigured(run, skew, retention);
      var twice := Exec(run).accepted;
      assert twice[0].jti == twice[1].jti;
      assert !OncePerClaim(twice);
    }
  }

  // ---- Terminal rows ----

  ghost predicate Retained(run: seq<Action>, more: seq<Action>, jti: string) {
    forall k :: 0 <= k <= |more| ==> jti in Exec(run + more[..k]).rows
  }

  lemma TerminalStep(s: State, a: Action, jti: string)
    requires jti in s.rows && Terminal(s.rows[jti].status) && jti in Step(s, a).rows
    ensures Step(s, a).rows[jti] == s.rows[jti]
  {
  }

  /** A row that has reached a terminal state is never changed again while it is retained. */
  lemma {:induction false} TerminalForGood(run: seq<Action>, more: seq<Action>, jti: string)
    requires Retained(run, more, jti)
    requires jti in Exec(run).rows && Terminal(Exec(run).rows[jti].status)
    ensures jti in Exec(run + more).rows && Exec(run + more).rows[jti] == Exec(run).rows[jti]
    decreases |more|
  {
    if more == [] {
      assert run + more == run;
    } else {
      var n := |more| - 1;
      var all := run + more;
      assert all[..|all| - 1] == run + more[..n] && all[|all| - 1] == more[n] && more[..|more|] == more;
      forall k | 0 <= k <= n ensures jti in Exec(run + more[..n][..k]).rows {
        assert more[..n][..k] == more[..k];
      }
      TerminalForGood(run, more[..n], jti);
      assert jti in Exec(run + more[..|more|]).rows;
      TerminalStep(Exec(run + more[..n]), more[n], jti);
    }
  }

  // ---- Which claims are accepted ----

  /** Everything that has to hold of a claim that is consumed. */
  ghost predicate Consumable(claim: Claim, provider: string, intent: string, now: nat, skew: nat) {
    && 16 <= |claim.jti| <= 256
    && (forall i :: 0 <= i < |claim.jti| ==>
          || 'a' <= claim.jti[i] <= 'z' || 'A' <= claim.jti[i] <= 'Z' || '0' <= claim.jti[i] <= '9'
          || claim.jti[i] == '.' || claim.jti[i] == '_' || claim.jti[i] == ':' || claim.jti[i] == '-')
    && claim.provider == provider && claim.intent == intent
    && claim.notBefore <= now + skew && 0 < claim.expiresAt && now < claim.expiresAt + skew
    && claim.expiresAt < 0x8000_0000_0000_0000 && now < 0x8000_0000_0000_0000
  }

  lemma JtiMeans(jti: string)
    ensures ValidJti(jti) <==> 16 <= |jti| <= 256 && forall i :: 0 <= i < |jti| ==>
              || 'a' <= jti[i] <= 'z' || 'A' <= jti[i] <= 'Z' || '0' <= jti[i] <= '9'
              || jti[i] == '.' || jti[i] == '_' || jti[i] == ':' || jti[i] == '-'
  {
    forall c ensures c in "._:-" <==> c == '.' || c == '_' || c == ':' || c == '-' {
      assert "._:-" == ['.', '_', ':', '-'];
    }
  }

  /** A claim with 64-bit times is accepted if and only if it is consumable and has no row. */
  lemma AcceptedExactly(rows: Rows, claim: Claim, provider: string, intent: string, now: nat, skew: nat)
    requires claim.notBefore < U64_LIMIT
    ensures Consumed(rows, claim, provider, intent, now, skew) == Ok(Accept) <==>
            Consumable(claim, provider, intent, now, skew) && claim.jti !in rows
  {
    JtiMeans(claim.jti);
  }

  /** The k-th operation of the run consumed the claim. */
  ghost predicate ConsumedAt(run: seq<Action>, claim: Claim, k: nat) {
    && k < |run| && run[k].DoConsume? && run[k].claim == claim && claim.jti !in Exec(run[..k]).rows
    && Consumable(claim, run[k].provider, run[k].intent, run[k].now, run[k].skew)
  }

  /** Every claim accepted in a run was consumable, for the expected provider and intent, when it was consumed. */
  lemma {:induction false} AcceptedWereConsumable(run: seq<Action>, i: nat)
    requires i < |Exec(run).accepted| && Exec(run).accepted[i].notBefore < U64_LIMIT
    ensures exists k: nat :: ConsumedAt(run, Exec(run).accepted[i], k)
    decreases |run|
  {
    var n := |run| - 1;
    var front, claim := run[..n], Exec(run).accepted[i];
    if i < |Exec(front).accepted| {
      AcceptedWereConsumable(front, i);
      var k: nat :| ConsumedAt(front, claim, k);
      assert front[..k] == run[..k] && front[k] == run[k];
      assert ConsumedAt(run, claim, k);
    } else {
      AcceptedExactly(Exec(front).rows, claim, run[n].provider, run[n].intent, run[n].now, run[n].skew);
      assert ConsumedAt(run, claim, n);
    }
  }
}
