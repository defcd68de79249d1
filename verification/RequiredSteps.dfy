/**
  The recorder of required steps: rows in memory, a durable copy replaced as a whole, and work that
  may start only after its start record is durable. Any write may fail, before or after it lands.
 */
module RequiredSteps {
  import opened Prelude

  datatype Status = NotRun | Incomplete | Pass | Fail

  /** How an attempt to persist ends; `LandsThenRaises` replaced the file and failed afterwards. */
  datatype Write = Lands | LandsThenRaises | Fails

  /** What a step raises: the error of its work, or that of a write. */
  datatype Error = OfTheWork | OfTheWrite

  /** What became of a step's work. */
  datatype Body = NotStarted | Running | ReturnedNormally | Raised

  const MAX_STEPS := 32

  // ---- Declaration ----

  predicate IdentityChar(c: char) {
    'a' <= c <= 'z' || '0' <= c <= '9' || c == '-'
  }

  predicate SafeIdentity(id: string) {
    1 <= |id| <= 64 && 'a' <= id[0] <= 'z' && forall i :: 1 <= i < |id| ==> IdentityChar(id[i])
  }

  predicate ValidDeclaration(expected: seq<string>) {
    && expected != [] && |expected| <= MAX_STEPS
    && (forall i, j :: 0 <= i < j < |expected| ==> expected[i] != expected[j])
    && forall i :: 0 <= i < |expected| ==> SafeIdentity(expected[i])
  }

  // ---- One step ----

  function IndexOf(expected: seq<string>, id: string): (r: Option<nat>)
    ensures r.Some? ==> r.value < |expected| && expected[r.value] == id
    ensures r.None? ==> id !in expected
  {
    if expected == [] then None
    else if expected[0] == id then Some(0)
    else
      var r := IndexOf(expected[1..], id);
      if r.Some? then Some(r.value + 1) else None
  }

  /** The first row that has not passed. */
  function Pending(rows: seq<Status>): (p: nat)
    ensures p <= |rows| && (p < |rows| ==> rows[p] != Pass)
    ensures forall i :: 0 <= i < p ==> rows[i] == Pass
  {
    if rows == [] || rows[0] != Pass then 0 else 1 + Pending(rows[1..])
  }

  /** The row a step may start at: the named one, if it is pending and untouched. */
  function Startable(expected: seq<string>, rows: seq<Status>, id: string): (r: Option<nat>)
    requires |rows| == |expected|
    ensures r.Some? ==> r.value < |rows|
  {
    var row := IndexOf(expected, id);
    if row.Some? && row.value == Pending(rows) && rows[row.value] == NotRun then row else None
  }

  function OnDisk(durable: seq<Status>, rows: seq<Status>, w: Write): seq<Status> {
    if w.Fails? then durable else rows
  }

  class Recorder {
    const expected: seq<string>
    var rows: seq<Status>
    var durable: seq<Status>

    ghost predicate Valid()
      reads this
    {
      ValidDeclaration(expected) && |rows| == |durable| == |expected|
    }

    constructor (expected: seq<string>)
      requires ValidDeclaration(expected)
      ensures Valid() && this.expected == expected
      ensures rows == durable == seq(|expected|, i => NotRun)
    {
      this.expected := expected;
      rows := seq(|expected|, i => NotRun);
      durable := seq(|expected|, i => NotRun);
    }

    /** A recorder, or nothing when the declaration is refused or its first write raises. */
    static method Open(expected: seq<string>, w: Write) returns (r: Option<Recorder>)
      ensures r.Some? <==> ValidDeclaration(expected) && w.Lands?
      ensures r.Some? ==> fresh(r.value) && r.value.Valid() && r.value.expected == expected
      ensures r.Some? ==> r.value.rows == r.value.durable == seq(|expected|, i => NotRun)
    {
      if !ValidDeclaration(expected) || !w.Lands? {
        return None;
      }
      var recorder := new Recorder(expected);
      r := Some(recorder);
    }

    /** Everything before the work of a step; the work starts only on a result. */
    method Enter(id: string, w: Write) returns (started: Option<nat>)
      requires Valid()
      modifies this`rows, this`durable
      ensures Valid()
      ensures var row := Startable(expected, old(rows), id);
              && rows == (if row.Some? then old(rows)[row.value := Incomplete] else old(rows))
              && durable == (if row.Some? then OnDisk(old(durable), rows, w) else old(durable))
              && started == (if row.Some? && w.Lands? then row else None)
      ensures started.Some? ==> durable[started.value] == Incomplete
    {
      var row := Startable(expected, rows, id);
      if row.None? {
        return None;
      }
      rows := rows[row.value := Incomplete];
      if !w.Fails? {
        durable := rows;
      }
      started := if w.Lands? then row else None;
    }

    /**
      Everything after the work, which returned normally or raised. The work's own error wins over a
      failed write; a failed write makes normal work raise.
     */
    method Leave(row: nat, normally: bool, w: Write) returns (raised: Option<Error>)
      requires Valid() && row < |rows|
      modifies this`rows, this`durable
      ensures Valid()
      ensures rows == old(rows)[row := if normally then Pass else Fail]
      ensures durable == OnDisk(old(durable), rows, w)
      ensures raised == Some(OfTheWork) <==> !normally
      ensures raised == Some(OfTheWrite) <==> normally && !w.Lands?
    {
      rows := rows[row := if normally then Pass else Fail];
      if !w.Fails? {
        durable := rows;
      }
      if !normally {
        return Some(OfTheWork);
      }
      raised := if w.Lands? then None else Some(OfTheWrite);
    }
  }

  // ---- Runs ----

  datatype State = State(expected: seq<string>, rows: seq<Status>, durable: seq<Status>, bodies: seq<Body>)

  datatype Action = DoEnter(id: string, w: Write) | DoLeave(row: nat, normally: bool, w: Write)

  function Opened(expected: seq<string>): State {
    State(expected, seq(|expected|, i => NotRun), seq(|expected|, i => NotRun), seq(|expected|, i => NotStarted))
  }

  predicate Sized(s: State) {
    |s.rows| == |s.durable| == |s.bodies| == |s.expected|
  }

  /** A leave is the end of work that is running; anything else out of order changes nothing. */
  function Step(s: State, a: Action): (s': State)
    requires Sized(s)
    ensures Sized(s')
  {
    match a
    case DoEnter(id, w) =>
      var row := Startable(s.expected, s.rows, id);
      if row.None? then s
      else
        var rows := s.rows[row.value := Incomplete];
        State(s.expected, rows, OnDisk(s.durable, rows, w),
              if w.Lands? then s.bodies[row.value := Running] else s.bodies)
    case DoLeave(row, normally, w) =>
      if row >= |s.bodies| || s.bodies[row] != Running then s
      else
        var rows := s.rows[row := if normally then Pass else Fail];
        State(s.expected, rows, OnDisk(s.durable, rows, w),
              s.bodies[row := if normally then ReturnedNormally else Raised])
  }

  function Exec(expected: seq<string>, actions: seq<Action>): (s: State)
    ensures Sized(s)
    decreases |actions|
  {
    if actions == [] then Opened(expected)
    else Step(Exec(expected, actions[..|actions| - 1]), actions[|actions| - 1])
  }

  /** PASS rows, then at most one INCOMPLETE or FAIL, then NOT_RUN rows. */
  ghost predicate Shape(rows: seq<Status>) {
    forall i, j :: 0 <= i < j < |rows| ==> rows[i] == Pass || rows[j] == NotRun
  }

  ghost predicate Returned(bodies: seq<Body>, i: nat) {
    i < |bodies| && bodies[i] == ReturnedNormally
  }

  ghost predicate Inv(s: State) {
    && Sized(s) && Shape(s.rows) && Shape(s.durable)
    && (forall i :: 0 <= i < |s.rows| && s.rows[i] == Pass ==> Returned(s.bodies, i))
    && (forall i :: 0 <= i < |s.rows| && s.durable[i] == Pass ==> s.rows[i] == Pass)
    && (forall i :: 0 <= i < |s.rows| && s.rows[i] == NotRun ==> s.bodies[i] == NotStarted && s.durable[i] == NotRun)
    && (forall i :: 0 <= i < |s.rows| && s.bodies[i] == Running ==> s.rows[i] == Incomplete)
    && (forall i :: 0 <= i < |s.rows| && s.bodies[i] != NotStarted ==> s.durable[i] != NotRun)
  }

  lemma SetAtPending(rows: seq<Status>, p: nat, status: Status)
    requires Shape(rows) && p < |rows| && rows[p] != Pass
    requires status != NotRun && forall i :: 0 <= i < p ==> rows[i] == Pass
    ensures Shape(rows[p := status])
  {
    var rows' := rows[p := status];
    forall i, j | 0 <= i < j < |rows'| ensures rows'[i] == Pass || rows'[j] == NotRun {
      assert rows[i] == Pass || rows[j] == NotRun;
    }
  }

  /** Rows before one that has begun have passed. */
  lemma PassBefore(rows: seq<Status>, i: nat)
    requires Shape(rows) && i < |rows| && rows[i] != NotRun
    ensures forall j :: 0 <= j < i ==> rows[j] == Pass
  {
  }

  lemma KeepsInv(s: State, a: Action)
    requires Inv(s)
    ensures Inv(Step(s, a))
  {
    match a
    case DoEnter(id, w) => KeepsEnter(s, id, w);
    case DoLeave(row, normally, w) => KeepsLeave(s, row, normally, w);
  }

  lemma KeepsEnter(s: State, id: string, w: Write)
    requires Inv(s)
    ensures Inv(Step(s, DoEnter(id, w)))
  {
    var row := Startable(s.expected, s.rows, id);
    if row.Some? {
      SetAtPending(s.rows, row.value, Incomplete);
    }
  }

  lemma KeepsLeave(s: State, row: nat, normally: bool, w: Write)
    requires Inv(s)
    ensures Inv(Step(s, DoLeave(row, normally, w)))
  {
    if row < |s.bodies| && s.bodies[row] == Running {
      PassBefore(s.rows, row);
      SetAtPending(s.rows, row, if normally then Pass else Fail);
    }
  }

  lemma {:induction false} ExecInv(expected: seq<string>, actions: seq<Action>)
    ensures Inv(Exec(expected, actions))
    decreases |actions|
  {
    if actions != [] {
      var n := |actions| - 1;
      ExecInv(expected, actions[..n]);
      KeepsInv(Exec(expected, actions[..n]), actions[n]);
    }
  }

  /** Whichever writes fail, the statuses in memory and on disk keep their shape. */
  lemma ShapeAlways(expected: seq<string>, actions: seq<Action>)
    ensures Shape(Exec(expected, actions).rows) && Shape(Exec(expected, actions).durable)
  {
    ExecInv(expected, actions);
  }

  /** A durable PASS means that the step's work, and all before it, returned normally. */
  lemma DurablePass(expected: seq<string>, actions: seq<Action>, i: nat, j: nat)
    requires j <= i < |expected| && i < |Exec(expected, actions).durable| && Exec(expected, actions).durable[i] == Pass
    ensures Returned(Exec(expected, actions).bodies, j)
  {
    ExecInv(expected, actions);
    var s := Exec(expected, actions);
    PassBefore(s.durable, i);
  }

  /**
    Work starts only with its start record on disk and every earlier step's PASS with it, and
    nothing else is running then.
   */
  lemma StartedWithRecord(expected: seq<string>, actions: seq<Action>, a: Action, i: nat)
    requires i < |Exec(expected, actions).bodies|
    requires Exec(expected, actions).bodies[i] == NotStarted
    requires Step(Exec(expected, actions), a).bodies[i] != NotStarted
    ensures var s' := Step(Exec(expected, actions), a);
            && s'.durable == s'.rows && s'.durable[i] == Incomplete
            && (forall j :: 0 <= j < i ==> s'.durable[j] == Pass)
            && forall j :: 0 <= j < |s'.bodies| && s'.bodies[j] == Running ==> j == i
  {
    ExecInv(expected, actions);
    KeepsInv(Exec(expected, actions), a);
    var s' := Step(Exec(expected, actions), a);
  }

  /** The start record of work that has begun is never lost again. */
  lemma RecordStays(expected: seq<string>, actions: seq<Action>, i: nat)
    requires i < |Exec(expected, actions).bodies| && Exec(expected, actions).bodies[i] != NotStarted
    ensures Exec(expected, actions).durable[i] != NotRun
  {
    ExecInv(expected, actions);
  }

  // ---- Steps do start ----

  lemma {:induction false} IndexOfDeclared(expected: seq<string>, i: nat)
    requires i < |expected| && forall j, k :: 0 <= j < k < |expected| ==> expected[j] != expected[k]
    ensures IndexOf(expected, expected[i]) == Some(i)
  {
    if i > 0 {
      assert expected[0] != expected[i];
      IndexOfDeclared(expected[1..], i - 1);
    }
  }

  /**
    Once all steps before it have passed, the next declared step does start when its record can be
    written, and no other step starts.
   */
  lemma NextStepStarts(expected: seq<string>, actions: seq<Action>, i: nat)
    requires ValidDeclaration(expected) && i < |expected|
    requires var rows := Exec(expected, actions).rows;
             |rows| == |expected| && rows[i] == NotRun && forall j :: 0 <= j < i ==> rows[j] == Pass
    ensures var s, s' := Exec(expected, actions), Step(Exec(expected, actions), DoEnter(expected[i], Lands));
            s'.bodies == s.bodies[i := Running] && s'.rows == s'.durable == s.rows[i := Incomplete]
    ensures forall id, w :: id != expected[i] ==>
              Step(Exec(expected, actions), DoEnter(id, w)) == Exec(expected, actions)
  {
    DeclarationKept(expected, actions);
    IndexOfDeclared(expected, i);
    assert Pending(Exec(expected, actions).rows) == i;
  }

  lemma {:induction false} DeclarationKept(expected: seq<string>, actions: seq<Action>)
    ensures Exec(expected, actions).expected == expected
    decreases |actions|
  {
    if actions != [] {
      DeclarationKept(expected, actions[..|actions| - 1]);
    }
  }

  /** The first n steps taken in order, each with work that returns and writes that land. */
  function InOrder(expected: seq<string>, n: nat): seq<Action>
    requires n <= |expected|
  {
    if n == 0 then []
    else InOrder(expected, n - 1) + [DoEnter(expected[n - 1], Lands)] + [DoLeave(n - 1, true, Lands)]
  }

  ghost predicate PassedUpTo(rows: seq<Status>, n: nat) {
    n <= |rows| && (forall j :: 0 <= j < n ==> rows[j] == Pass) && forall j :: n <= j < |rows| ==> rows[j] == NotRun
  }

  lemma ExecSnoc(expected: seq<string>, actions: seq<Action>, a: Action)
    ensures Exec(expected, actions + [a]) == Step(Exec(expected, actions), a)
  {
    assert (actions + [a])[..|actions|] == actions;
  }

  /** The actions leave the first n rows as PASS and the rest untouched, on disk as well. */
  ghost predicate Reaches(expected: seq<string>, actions: seq<Action>, n: nat) {
    var s := Exec(expected, actions);
    s.durable == s.rows && PassedUpTo(s.rows, n)
  }

  /** Work that returns and whose record lands passes its row. */
  lemma LeavePasses(s: State, i: nat)
    requires Sized(s) && i < |s.bodies| && s.bodies[i] == Running
    ensures Step(s, DoLeave(i, true, Lands)).rows == Step(s, DoLeave(i, true, Lands)).durable == s.rows[i := Pass]
  {
  }

  lemma PassedOneMore(rows: seq<Status>, i: nat)
    requires i < |rows| && PassedUpTo(rows, i)
    ensures PassedUpTo(rows[i := Incomplete][i := Pass], i + 1)
  {
  }

  lemma NextStepPasses(expected: seq<string>, actions: seq<Action>, i: nat)
    requires ValidDeclaration(expected) && i < |expected|
    requires Reaches(expected, actions, i)
    ensures Reaches(expected, actions + [DoEnter(expected[i], Lands)] + [DoLeave(i, true, Lands)], i + 1)
  {
    var entered := actions + [DoEnter(expected[i], Lands)];
    DeclarationKept(expected, actions);
    NextStepStarts(expected, actions, i);
    ExecSnoc(expected, actions, DoEnter(expected[i], Lands));
    ExecSnoc(expected, entered, DoLeave(i, true, Lands));
    LeavePasses(Exec(expected, entered), i);
    PassedOneMore(Exec(expected, actions).rows, i);
  }

  /** Every valid declaration can be completed: all steps taken in order end as PASS, on disk as well. */
  lemma {:induction false} CanComplete(expected: seq<string>, n: nat)
    requires ValidDeclaration(expected) && n <= |expected|
    ensures Reaches(expected, InOrder(expected, n), n)
    decreases n
  {
    if n > 0 {
      CanComplete(expected, n - 1);
      NextStepPasses(expected, InOrder(expected, n - 1), n - 1);
    }
  }

  // ---- Declarations, as the source words them ----

  /** The pattern of a letter and up to 63 letters, digits or dashes. */
  ghost predicate MatchesPattern(id: string) {
    && id != [] && 'a' <= id[0] <= 'z' && |id[1..]| <= 63
    && forall c :: c in id[1..] ==> 'a' <= c <= 'z' || '0' <= c <= '9' || c == '-'
  }

  lemma PatternMeans(id: string)
    ensures SafeIdentity(id) <==> MatchesPattern(id)
  {
    if id != [] {
      assert forall i :: 1 <= i < |id| ==> id[i] == id[1..][i - 1] && id[i] in id[1..];
    }
  }

  ghost predicate Distinct(ids: seq<string>) {
    forall i, j :: 0 <= i < j < |ids| ==> ids[i] != ids[j]
  }

  lemma {:induction false} AsManyAsDifferent(ids: seq<string>)
    ensures |set id | id in ids| <= |ids|
    ensures Distinct(ids) <==> |set id | id in ids| == |ids|
    decreases |ids|
  {
    if ids != [] {
      var n := |ids| - 1;
      AsManyAsDifferent(ids[..n]);
      var before := set id | id in ids[..n];
      assert ids == ids[..n] + [ids[n]];
      assert (set id | id in ids) == before + {ids[n]};
      if ids[n] in before {
        var i :| 0 <= i < n && ids[i] == ids[n];
        assert !Distinct(ids);
      } else {
        assert Distinct(ids) <==> Distinct(ids[..n]);
      }
    }
  }

  /** A declaration is valid if and only if it has 1 to 32 ids, all different, each of that pattern. */
  lemma DeclarationsExactly(expected: seq<string>)
    ensures ValidDeclaration(expected) <==>
            && 1 <= |expected| <= 32 && |set id | id in expected| == |expected|
            && forall id :: id in expected ==> MatchesPattern(id)
  {
    AsManyAsDifferent(expected);
    forall id ensures SafeIdentity(id) <==> MatchesPattern(id) {
      PatternMeans(id);
    }
    assert forall i :: 0 <= i < |expected| ==> expected[i] in expected;
  }
}
