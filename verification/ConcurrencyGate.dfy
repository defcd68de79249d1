/**
  The lock-free gate: a counter of active jobs raised by a compare-and-swap loop. The same loop guards
  the slots of cooperative workers. Any number of threads take atomic steps in any order.
 */
module ConcurrencyGate {
  class Gate {
    const maxConcurrent: nat
    var active: nat

    constructor (max: nat)
      ensures maxConcurrent == max && active == 0
    {
      maxConcurrent := max;
      active := 0;
    }

    /** Returns what the counter held; it is replaced only if that is what was expected. */
    method CompareExchange(expected: nat, desired: nat) returns (ok: bool, actual: nat)
      modifies this`active
      ensures actual == old(active) && ok == (actual == expected)
      ensures active == if ok then desired else old(active)
    {
      actual := active;
      ok := actual == expected;
      if ok {
        active := desired;
      }
    }

    /** Undisturbed, an acquire takes a slot exactly when one is free. */
    method Acquire() returns (ok: bool)
      modifies this`active
      ensures ok <==> old(active) < maxConcurrent
      ensures active == if ok then old(active) + 1 else old(active)
    {
      var cur := active;
      var swapped := false;
      while cur < maxConcurrent && !swapped
        invariant !swapped ==> cur == active == old(active)
        invariant swapped ==> active == old(active) + 1 && old(active) < maxConcurrent
        decreases !swapped
      {
        var actual;
        swapped, actual := CompareExchange(cur, cur + 1);
        if !swapped {
          cur := actual;
        }
      }
      ok := swapped;
    }

    method Release()
      requires active > 0
      modifies this`active
      ensures active == old(active) - 1
    {
      active := active - 1;
    }
  }

  // ---- Threads ----

  /** `began` and `ended` are the numbers of steps the whole system had taken at the call and at its refusal. */
  datatype Phase =
    | Entered(began: nat)
    | Read(began: nat, cur: nat)
    | Holding
    | Refused(began: nat, ended: nat)
    | Left

  datatype State = State(max: nat, active: int, steps: nat, threads: map<nat, Phase>)

  datatype Action = Call(t: nat) | Load(t: nat) | Try(t: nat) | GiveBack(t: nat)

  function Initial(max: nat): State {
    State(max, 0, 0, map[])
  }

  function Go(s: State, t: nat, ph: Phase): State {
    s.(threads := s.threads[t := ph])
  }

  /** One round of the loop: give up on a full gate, else swap, else keep what the swap found. */
  function TryStep(s: State, t: nat): State
    requires t in s.threads && s.threads[t].Read?
  {
    var Read(began, cur) := s.threads[t];
    if cur >= s.max then Go(s, t, Refused(began, s.steps))
    else if s.active == cur then Go(s, t, Holding).(active := cur + 1)
    else if s.active >= 0 then Go(s, t, Read(began, s.active))
    else s
  }

  function Move(s: State, a: Action): State {
    match a
    case Call(t) => if t in s.threads then s else Go(s, t, Entered(s.steps))
    case Load(t) =>
      if t in s.threads && s.threads[t].Entered? && s.active >= 0 then
        Go(s, t, Read(s.threads[t].began, s.active))
      else s
    case Try(t) => if t in s.threads && s.threads[t].Read? then TryStep(s, t) else s
    case GiveBack(t) =>
      if t in s.threads && s.threads[t].Holding? then Go(s, t, Left).(active := s.active - 1) else s
  }

  function Step(s: State, a: Action): State {
    Move(s, a).(steps := s.steps + 1)
  }

  function Exec(max: nat, actions: seq<Action>): State
    decreases |actions|
  {
    if actions == [] then Initial(max) else Step(Exec(max, actions[..|actions| - 1]), actions[|actions| - 1])
  }

  function Holders(s: State): set<nat> {
    set t | t in s.threads && s.threads[t].Holding?
  }

  /** At some instant from `began` to `ended` the counter held `value`. */
  ghost predicate HeldDuring(max: nat, actions: seq<Action>, began: nat, ended: nat, value: int)
    requires ended <= |actions|
  {
    exists k :: began <= k <= ended && Exec(max, actions[..k]).active == value
  }

  ghost predicate Inv(max: nat, actions: seq<Action>) {
    var s := Exec(max, actions);
    && s.max == max && s.steps == |actions| && s.active == |Holders(s)| && s.active <= max
    && forall t :: t in s.threads ==> PhaseInv(max, actions, s.threads[t])
  }

  ghost predicate PhaseInv(max: nat, actions: seq<Action>, ph: Phase) {
    match ph
    case Entered(began) => began <= |actions|
    case Read(began, cur) => began <= |actions| && cur <= max && HeldDuring(max, actions, began, |actions|, cur)
    case Refused(began, ended) => ended <= |actions| && HeldDuring(max, actions, began, ended, max)
    case _ => true
  }

  lemma HeldLater(max: nat, actions: seq<Action>, began: nat, ended: nat, value: int)
    requires actions != [] && ended <= |actions| - 1
    requires HeldDuring(max, actions[..|actions| - 1], began, ended, value)
    ensures HeldDuring(max, actions, began, ended, value)
    ensures HeldDuring(max, actions, began, |actions|, value)
  {
    var front := actions[..|actions| - 1];
    var k :| began <= k <= ended && Exec(max, front[..k]).active == value;
    assert front[..k] == actions[..k];
  }

  lemma HeldNow(max: nat, actions: seq<Action>, began: nat)
    requires began <= |actions|
    ensures HeldDuring(max, actions, began, |actions|, Exec(max, actions).active)
  {
    assert actions[..|actions|] == actions;
  }

  lemma HoldersChange(s: State, t: nat, ph: Phase)
    ensures Holders(Go(s, t, ph)) == (if ph.Holding? then Holders(s) + {t} else Holders(s) - {t})
  {
  }

  lemma CountKept(s: State, a: Action)
    requires s.active == |Holders(s)| && s.active <= s.max
    ensures Step(s, a).active == |Holders(Step(s, a))| && Step(s, a).active <= s.max
  {
    var s' := Step(s, a);
    if s'.threads != s.threads {
      HoldersChange(s, a.t, s'.threads[a.t]);
      assert Holders(s') == Holders(Go(s, a.t, s'.threads[a.t]));
    } else {
      assert Holders(s') == Holders(s);
    }
  }

  lemma {:induction false} ExecInv(max: nat, actions: seq<Action>)
    ensures Inv(max, actions)
    decreases |actions|
  {
    if actions != [] {
      var n := |actions| - 1;
      var front, a := actions[..n], actions[n];
      ExecInv(max, front);
      var s, s' := Exec(max, front), Exec(max, actions);
      CountKept(s, a);
      forall t | t in s'.threads ensures PhaseInv(max, actions, s'.threads[t]) {
        if t in s.threads {
          PhaseLater(max, actions, s.threads[t]);
          if s.threads[t].Read? {
            HeldLater(max, actions, s.threads[t].began, n, s.threads[t].cur);
          }
        }
        if t == a.t && s'.threads != s.threads && s'.threads[t].Read? {
          HeldBefore(max, actions, s'.threads[t].began);
        }
      }
    }
  }

  lemma PhaseLater(max: nat, actions: seq<Action>, ph: Phase)
    requires actions != [] && PhaseInv(max, actions[..|actions| - 1], ph)
    ensures PhaseInv(max, actions, ph)
  {
    match ph
    case Read(began, cur) => HeldLater(max, actions, began, |actions| - 1, cur);
    case Refused(began, ended) => HeldLater(max, actions, began, ended, max);
    case _ =>
  }

  /** What a step reads is what the counter held just before it. */
  lemma HeldBefore(max: nat, actions: seq<Action>, began: nat)
    requires actions != [] && began <= |actions| - 1
    ensures HeldDuring(max, actions, began, |actions|, Exec(max, actions[..|actions| - 1]).active)
  {
    var front := actions[..|actions| - 1];
    HeldNow(max, front, began);
    HeldLater(max, actions, began, |front|, Exec(max, front).active);
  }

  // ---- Every run ----

  /** The counter is always the number of slot holders, and never above the maximum. */
  lemma CountsHolders(max: nat, actions: seq<Action>)
    ensures var s := Exec(max, actions); s.active == |Holders(s)| <= max
  {
    ExecInv(max, actions);
  }

  /** An acquire is refused only if, at some instant from its call to its refusal, every slot was held. */
  lemma RefusedOnlyWhenFull(max: nat, actions: seq<Action>, t: nat)
    requires t in Exec(max, actions).threads && Exec(max, actions).threads[t].Refused?
    ensures var Refused(began, ended) := Exec(max, actions).threads[t];
            ended <= |actions| && exists k :: began <= k <= ended && |Holders(Exec(max, actions[..k]))| == max
  {
    ExecInv(max, actions);
    var Refused(began, ended) := Exec(max, actions).threads[t];
    assert HeldDuring(max, actions, began, ended, max);
    var k :| began <= k <= ended && Exec(max, actions[..k]).active == max;
    ExecInv(max, actions[..k]);
  }

  /** The step number a call carries is that of its call: the thread was not known before it. */
  lemma {:induction false} BeganAtCall(max: nat, actions: seq<Action>, t: nat)
    requires t in Exec(max, actions).threads
    requires var ph := Exec(max, actions).threads[t]; ph.Entered? || ph.Read? || ph.Refused?
    ensures var b := Exec(max, actions).threads[t].began;
            b < |actions| && actions[b] == Call(t) && t !in Exec(max, actions[..b]).threads
    decreases |actions|
  {
    var n := |actions| - 1;
    var front := actions[..n];
    ExecInv(max, front);
    var s := Exec(max, front);
    if t in s.threads {
      BeganAtCall(max, front, t);
      var b := s.threads[t].began;
      assert front[..b] == actions[..b] && front[b] == actions[b];
    }
  }

  /** The step number a refusal carries is that of the round of the loop that gave up. */
  lemma {:induction false} EndedAtRefusal(max: nat, actions: seq<Action>, t: nat)
    requires t in Exec(max, actions).threads && Exec(max, actions).threads[t].Refused?
    ensures var e := Exec(max, actions).threads[t].ended;
            && e < |actions| && actions[e] == Try(t)
            && t in Exec(max, actions[..e]).threads && Exec(max, actions[..e]).threads[t].Read?
    decreases |actions|
  {
    var n := |actions| - 1;
    var front := actions[..n];
    ExecInv(max, front);
    var s := Exec(max, front);
    if t in s.threads && s.threads[t].Refused? {
      EndedAtRefusal(max, front, t);
      var e := s.threads[t].ended;
      assert front[..e] == actions[..e] && front[e] == actions[e];
    }
  }

  /** A call that loads and swaps with nothing in between takes a slot exactly when one is free. */
  lemma UndisturbedAcquire(max: nat, actions: seq<Action>, t: nat)
    requires t in Exec(max, actions).threads && Exec(max, actions).threads[t].Entered?
    ensures var s, s' := Exec(max, actions), Exec(max, actions + [Load(t)] + [Try(t)]);
            t in s'.threads && if |Holders(s)| < max then s'.threads[t].Holding? else s'.threads[t].Refused?
  {
    ExecInv(max, actions);
    assert (actions + [Load(t)])[..|actions|] == actions;
    var loaded := actions + [Load(t)];
    assert (loaded + [Try(t)])[..|loaded|] == loaded;
  }
}
