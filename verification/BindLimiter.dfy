/**
  The per-source limiter of relay binds: a fixed window per source, opened by its first attempt, with
  buckets of closed windows evicted only when many sources are known. Instants are nanoseconds.
 */
module BindLimiter {
  import opened Prelude

  const WINDOW: int := 60_000_000_000
  const MANY_SOURCES: int := 4096

  /** The start of a source's window, and its attempts in it as a 32-bit count that wraps. */
  datatype Bucket = Bucket(start: nat, count: nat)

  type Buckets = map<string, Bucket>

  datatype Attempt = Attempt(source: string, rebind: bool, now: nat)

  /** The time since `start`, zero for a start that lies ahead. */
  function Since(now: nat, start: nat): nat {
    if start <= now then now - start else 0
  }

  predicate Limited(limit: nat, at: Attempt) {
    !at.rebind && limit != 0
  }

  /** The source's bucket after one more attempt. */
  function Touched(b: Buckets, source: string, now: nat): Bucket {
    var found := if source in b then b[source] else Bucket(now, 0);
    var open := if Since(now, found.start) >= WINDOW then Bucket(now, 0) else found;
    Bucket(open.start, (open.count + 1) % U32_LIMIT)
  }

  function Evict(b: Buckets, now: nat): Buckets {
    map s | s in b && Since(now, b[s].start) < WINDOW :: b[s]
  }

  function Answer(limit: nat, b: Buckets, at: Attempt): bool {
    !Limited(limit, at) || Touched(b, at.source, at.now).count <= limit
  }

  /** The buckets after an attempt; a limiter with `evicts` false keeps every bucket for ever. */
  function After(limit: nat, evicts: bool, b: Buckets, at: Attempt): Buckets {
    if !Limited(limit, at) then b
    else
      var touched := b[at.source := Touched(b, at.source, at.now)];
      if evicts && |touched| > MANY_SOURCES then Evict(touched, at.now) else touched
  }

  class RelaySessionRegistry {
    const bindRateLimit: nat
    var buckets: Buckets

    constructor (limit: nat)
      ensures bindRateLimit == limit && buckets == map[]
    {
      bindRateLimit := limit;
      buckets := map[];
    }

    method AllowBind(source: string, rebind: bool, now: nat) returns (allowed: bool)
      modifies this
      ensures allowed == Answer(bindRateLimit, old(buckets), Attempt(source, rebind, now))
      ensures buckets == After(bindRateLimit, true, old(buckets), Attempt(source, rebind, now))
    {
      if rebind || bindRateLimit == 0 {
        return true;
      }
      var entry := if source in buckets then buckets[source] else Bucket(now, 0);
      if Since(now, entry.start) >= WINDOW {
        entry := Bucket(now, 0);
      }
      entry := Bucket(entry.start, (entry.count + 1) % U32_LIMIT);
      buckets := buckets[source := entry];
      allowed := entry.count <= bindRateLimit;
      if |buckets| > MANY_SOURCES {
        buckets := map s | s in buckets && Since(now, buckets[s].start) < WINDOW :: buckets[s];
      }
    }
  }

  // ---- Runs ----

  ghost predicate InClockOrder(run: seq<Attempt>) {
    forall i, j :: 0 <= i < j < |run| ==> run[i].now <= run[j].now
  }

  ghost function BucketsAfter(limit: nat, evicts: bool, run: seq<Attempt>): Buckets {
    if run == [] then map[]
    else
      var n := |run| - 1;
      After(limit, evicts, BucketsAfter(limit, evicts, run[..n]), run[n])
  }

  /** Whether the last attempt of a run is allowed. */
  ghost predicate AllowedLast(limit: nat, evicts: bool, run: seq<Attempt>)
    requires run != []
  {
    Answer(limit, BucketsAfter(limit, evicts, run[..|run| - 1]), run[|run| - 1])
  }

  ghost predicate Within(at: Attempt, source: string, from: nat) {
    at.source == source && !at.rebind && from <= at.now < from + WINDOW
  }

  /** How often a source attempts a bind, without a rebind, in the window from `from`. */
  ghost function Attempts(run: seq<Attempt>, source: string, from: nat): nat {
    if run == [] then 0
    else
      var n := |run| - 1;
      Attempts(run[..n], source, from) + (if Within(run[n], source, from) then 1 else 0)
  }

  ghost function Admitted(limit: nat, evicts: bool, run: seq<Attempt>, source: string, from: nat): nat
    decreases |run|
  {
    if run == [] then 0
    else
      var n := |run| - 1;
      Admitted(limit, evicts, run[..n], source, from)
      + (if Within(run[n], source, from) && AllowedLast(limit, evicts, run) then 1 else 0)
  }

  // ---- Eviction changes no decision ----

  /** The two limiters agree on a source, or its window is over and one has forgotten it. */
  ghost predicate SameUpTo(kept: Buckets, evicted: Buckets, s: string, now: nat) {
    if s in evicted then s in kept && kept[s] == evicted[s]
    else s in kept ==> kept[s].start + WINDOW <= now
  }

  ghost predicate Agree(kept: Buckets, evicted: Buckets, now: nat) {
    && (forall s :: SameUpTo(kept, evicted, s, now))
    && (forall s :: s in kept ==> kept[s].start <= now)
  }

  lemma AgreeStep(limit: nat, kept: Buckets, evicted: Buckets, at: Attempt, last: nat)
    requires Agree(kept, evicted, last) && last <= at.now
    ensures Answer(limit, kept, at) == Answer(limit, evicted, at)
    ensures Agree(After(limit, false, kept, at), After(limit, true, evicted, at), at.now)
  {
    assert SameUpTo(kept, evicted, at.source, last);
    var kept', evicted' := After(limit, false, kept, at), After(limit, true, evicted, at);
    if Limited(limit, at) {
      assert Touched(kept, at.source, at.now) == Touched(evicted, at.source, at.now);
    }
    forall s ensures SameUpTo(kept', evicted', s, at.now) {
      assert SameUpTo(kept, evicted, s, last);
    }
  }

  lemma {:induction false} AgreeInRun(limit: nat, run: seq<Attempt>)
    requires InClockOrder(run)
    ensures Agree(BucketsAfter(limit, false, run), BucketsAfter(limit, true, run),
                  if run == [] then 0 else run[|run| - 1].now)
    ensures run != [] ==> AllowedLast(limit, true, run) == AllowedLast(limit, false, run)
  {
    if run != [] {
      var n := |run| - 1;
      AgreeInRun(limit, run[..n]);
      AgreeStep(limit, BucketsAfter(limit, false, run[..n]), BucketsAfter(limit, true, run[..n]), run[n],
                if n == 0 then 0 else run[n - 1].now);
    }
  }

  /** At every attempt of a run in clock order the limiter answers as one that never evicts. */
  lemma EvictionInvisible(limit: nat, run: seq<Attempt>, i: nat)
    requires InClockOrder(run) && i < |run|
    ensures AllowedLast(limit, true, run[..i + 1]) == AllowedLast(limit, false, run[..i + 1])
  {
    AgreeInRun(limit, run[..i + 1]);
  }

  lemma {:induction false} SameAdmissions(limit: nat, run: seq<Attempt>, source: string, from: nat)
    requires InClockOrder(run)
    ensures Admitted(limit, true, run, source, from) == Admitted(limit, false, run, source, from)
    decreases |run|
  {
    if run != [] {
      SameAdmissions(limit, run[..|run| - 1], source, from);
      AgreeInRun(limit, run);
    }
  }

  // ---- A source's window ----

  /** The source's current window with all its attempts, as a count that does not wrap. */
  ghost function WindowOf(run: seq<Attempt>, source: string): Option<Bucket> {
    if run == [] then None
    else
      var n := |run| - 1;
      var w := WindowOf(run[..n], source);
      if run[n].source != source || run[n].rebind then w
      else Some(Extended(w, run[n].now))
  }

  /** One more attempt: in the open window, or the first of a new one. */
  ghost function Extended(w: Option<Bucket>, now: nat): Bucket {
    if w.Some? && Since(now, w.value.start) < WINDOW then Bucket(w.value.start, w.value.count + 1)
    else Bucket(now, 1)
  }

  ghost function Wrapped(w: Option<Bucket>): Option<Bucket> {
    if w.Some? then Some(Bucket(w.value.start, w.value.count % U32_LIMIT)) else None
  }

  ghost function BucketOf(b: Buckets, source: string): Option<Bucket> {
    if source in b then Some(b[source]) else None
  }

  lemma NextModulo(k: nat)
    ensures (k % U32_LIMIT + 1) % U32_LIMIT == (k + 1) % U32_LIMIT
  {
    var q, m := k / U32_LIMIT, k % U32_LIMIT;
    assert k + 1 == U32_LIMIT * q + (m + 1);
  }

  lemma TouchedExtends(b: Buckets, source: string, now: nat, w: Option<Bucket>)
    requires BucketOf(b, source) == Wrapped(w)
    ensures Some(Touched(b, source, now)) == Wrapped(Some(Extended(w, now)))
  {
    if w.Some? {
      NextModulo(w.value.count);
    }
  }

  /** A bucket is the source's window with its count cut to 32 bits, in every run. */
  lemma {:induction false} BucketIsWindow(limit: nat, run: seq<Attempt>, source: string)
    requires limit > 0
    ensures BucketOf(BucketsAfter(limit, false, run), source) == Wrapped(WindowOf(run, source))
    decreases |run|
  {
    if run != [] {
      var n := |run| - 1;
      BucketIsWindow(limit, run[..n], source);
      TouchedExtends(BucketsAfter(limit, false, run[..n]), run[n].source, run[n].now, WindowOf(run[..n], run[n].source))
        by { BucketIsWindow(limit, run[..n], run[n].source); }
    }
  }

  /** How many attempts lie in the interval from `from`, seen from the source's window. */
  ghost predicate Placed(w: Option<Bucket>, t: nat, from: nat) {
    if w.None? then t == 0
    else
      var Bucket(start, count) := w.value;
      && count >= 1
      && (start + WINDOW <= from ==> t == 0)
      && (start < from < start + WINDOW ==> t < count)
      && (start == from ==> t == count)
  }

  lemma {:induction false} AttemptsPlaced(run: seq<Attempt>, source: string, from: nat)
    requires InClockOrder(run)
    ensures Placed(WindowOf(run, source), Attempts(run, source, from), from)
    ensures WindowOf(run, source).Some? ==> run != [] && WindowOf(run, source).value.start <= run[|run| - 1].now
    decreases |run|
  {
    if run != [] {
      AttemptsPlaced(run[..|run| - 1], source, from);
    }
  }

  /** A bucket counts exactly the attempts of its window, modulo 2^32. */
  lemma BucketCounts(limit: nat, run: seq<Attempt>, source: string)
    requires limit > 0 && InClockOrder(run) && source in BucketsAfter(limit, false, run)
    ensures var b := BucketsAfter(limit, false, run)[source];
            b.count == Attempts(run, source, b.start) % U32_LIMIT
  {
    BucketIsWindow(limit, run, source);
    AttemptsPlaced(run, source, WindowOf(run, source).value.start);
  }

  // ---- The rate bound ----

  /** How many of the first n attempts of a window are allowed. */
  ghost function Served(limit: nat, n: nat): nat {
    if n == 0 then 0 else Served(limit, n - 1) + (if n % U32_LIMIT <= limit then 1 else 0)
  }

  /** No interval holds more attempts of the source than the budget. */
  ghost predicate WithinBudget(run: seq<Attempt>, source: string, budget: nat) {
    forall from: nat :: Attempts(run, source, from) <= budget
  }

  lemma BudgetPrefix(run: seq<Attempt>, source: string, budget: nat)
    requires run != [] && WithinBudget(run, source, budget)
    ensures WithinBudget(run[..|run| - 1], source, budget)
  {
    var front := run[..|run| - 1];
    forall from: nat ensures Attempts(front, source, from) <= budget {
      assert Attempts(run, source, from) <= budget;
    }
  }

  /** Some window of `before` attempts had its last `t` of them admitted or not as they came. */
  ghost predicate Carried(limit: nat, budget: nat, before: nat, t: nat, admitted: int) {
    t < before <= budget && admitted == Served(limit, before) - Served(limit, before - t)
  }

  ghost predicate FromBefore(limit: nat, budget: nat, t: nat, admitted: int) {
    exists before: nat :: Carried(limit, budget, before, t, admitted)
  }

  /**
    The admissions `a` among the `t` attempts of the interval from `from`, seen from the source's window:
    those of the window itself and, if it opened inside the interval, the last ones of the window before.
   */
  ghost predicate Tally(limit: nat, budget: nat, w: Option<Bucket>, t: nat, a: int, from: nat) {
    if w.None? || w.value.start + WINDOW <= from then a == 0
    else
      var Bucket(start, count) := w.value;
      if start < from then t < count && a == Served(limit, count) - Served(limit, count - t)
      else if start == from then a == Served(limit, count)
      else t >= count && FromBefore(limit, budget, t - count, a - Served(limit, count))
  }

  lemma {:induction false} ServedBounds(limit: nat, n: nat, m: nat)
    requires m <= n
    ensures 0 <= Served(limit, n) - Served(limit, m) <= n - m
    decreases n
  {
    if m < n {
      ServedBounds(limit, n - 1, m);
    }
  }

  /** Up to the second time around: the first `limit` attempts, none until the wrap, then all again. */
  lemma {:induction false} ServedClosed(limit: nat, n: nat)
    requires 0 < limit < U32_LIMIT && n <= U32_LIMIT + limit
    ensures Served(limit, n) == if n <= limit then n else if n < U32_LIMIT then limit else limit + n - U32_LIMIT + 1
    decreases n
  {
    if n > 0 {
      ServedClosed(limit, n - 1);
      if n >= U32_LIMIT {
        assert n == U32_LIMIT * 1 + (n - U32_LIMIT);
      }
    }
  }

  /** One window alone keeps the bound. */
  lemma OneWindow(limit: nat, budget: nat, n: nat, m: nat)
    requires 0 < limit < U32_LIMIT && m <= n <= budget < U32_LIMIT + limit - 1
    ensures Served(limit, n) - Served(limit, m) <= 2 * limit - 1
  {
    ServedClosed(limit, n);
  }

  /** So do the end of one window and the beginning of the next. */
  lemma TwoWindows(limit: nat, budget: nat, before: nat, t: nat, count: nat, a: int)
    requires 0 < limit < U32_LIMIT && budget < U32_LIMIT + limit - 1 && count >= 1 && count + t <= budget
    requires Carried(limit, budget, before, t, a)
    ensures a + Served(limit, count) <= 2 * limit - 1
  {
    ServedClosed(limit, before);
    ServedClosed(limit, before - t);
    ServedClosed(limit, count);
    ServedBounds(limit, before, before - t);
  }

  lemma TallyBound(limit: nat, budget: nat, w: Option<Bucket>, t: nat, a: int, from: nat)
    requires 0 < limit < U32_LIMIT && budget < U32_LIMIT + limit - 1
    requires Tally(limit, budget, w, t, a, from) && t <= budget && (w.Some? ==> 1 <= w.value.count <= budget)
    ensures a <= 2 * limit - 1
  {
    if w.Some? && w.value.start + WINDOW > from {
      var Bucket(start, count) := w.value;
      if start <= from {
        OneWindow(limit, budget, count, if start < from then count - t else 0);
      } else {
        var before: nat :| Carried(limit, budget, before, t - count, a - Served(limit, count));
        TwoWindows(limit, budget, before, t - count, count, a - Served(limit, count));
      }
    }
  }

  ghost function One(b: bool): nat {
    if b then 1 else 0
  }

  /** An attempt in the open window. */
  lemma TallySameWindow(limit: nat, budget: nat, w: Bucket, t: nat, a: int, now: nat, from: nat)
    requires Tally(limit, budget, Some(w), t, a, from) && Placed(Some(w), t, from)
    requires w.start <= now < w.start + WINDOW && now < from + WINDOW && (now < from ==> t == 0)
    ensures Tally(limit, budget, Some(Bucket(w.start, w.count + 1)), t + One(from <= now),
                  a + One(from <= now && (w.count + 1) % U32_LIMIT <= limit), from)
  {
    if from < w.start {
      var before: nat :| Carried(limit, budget, before, t - w.count, a - Served(limit, w.count));
      assert Carried(limit, budget, before, (t + 1) - (w.count + 1),
                     a + One((w.count + 1) % U32_LIMIT <= limit) - Served(limit, w.count + 1));
    }
  }

  /** The first attempt of a new window; what the interval had so far came from the window before. */
  lemma TallyNewWindow(limit: nat, budget: nat, w: Option<Bucket>, t: nat, a: int, now: nat, from: nat)
    requires limit > 0 && budget >= 1 && Tally(limit, budget, w, t, a, from) && Placed(w, t, from)
    requires w.Some? ==> w.value.start + WINDOW <= now && w.value.count <= budget
    requires now < from + WINDOW
    ensures Tally(limit, budget, Some(Bucket(now, 1)), t + One(from <= now), a + One(from <= now), from)
  {
    assert Served(limit, 1) == 1;
    if from < now {
      var before := if w.Some? && w.value.start + WINDOW > from then w.value.count else 1;
      assert Carried(limit, budget, before, t, a);
    }
  }

  lemma {:induction false} NoneYet(run: seq<Attempt>, source: string, from: nat)
    requires forall i :: 0 <= i < |run| ==> run[i].now < from
    ensures Attempts(run, source, from) == 0
  {
    if run != [] {
      NoneYet(run[..|run| - 1], source, from);
    }
  }

  /** Any attempt of the source before the interval is over. */
  lemma TallyAttempt(limit: nat, budget: nat, w: Option<Bucket>, t: nat, a: int, now: nat, from: nat)
    requires limit > 0 && budget >= 1 && Tally(limit, budget, w, t, a, from) && Placed(w, t, from)
    requires w.Some? ==> w.value.start <= now && w.value.count <= budget
    requires now < from + WINDOW && (now < from ==> t == 0)
    ensures var e := Extended(w, now);
            Tally(limit, budget, Some(e), t + One(from <= now),
                  a + One(from <= now && e.count % U32_LIMIT <= limit), from)
  {
    if w.Some? && now < w.value.start + WINDOW {
      TallySameWindow(limit, budget, w.value, t, a, now, from);
    } else {
      TallyNewWindow(limit, budget, w, t, a, now, from);
    }
  }

  /** What an attempt of the source adds to its window, its attempts and its admissions. */
  lemma AttemptAdds(limit: nat, run: seq<Attempt>, source: string, from: nat)
    requires limit > 0 && run != [] && run[|run| - 1].source == source && !run[|run| - 1].rebind
    ensures var front, now := run[..|run| - 1], run[|run| - 1].now;
            var e := Extended(WindowOf(front, source), now);
            var inside := from <= now < from + WINDOW;
            && WindowOf(run, source) == Some(e)
            && Attempts(run, source, from) == Attempts(front, source, from) + One(inside)
            && Admitted(limit, false, run, source, from)
               == Admitted(limit, false, front, source, from) + One(inside && e.count % U32_LIMIT <= limit)
  {
    LastAnswer(limit, run, source);
  }

  lemma TallyStep(limit: nat, budget: nat, run: seq<Attempt>, source: string, from: nat)
    requires 0 < limit && InClockOrder(run) && WithinBudget(run, source, budget) && run != []
    requires run[|run| - 1].now < from + WINDOW
    requires var front := run[..|run| - 1];
             Tally(limit, budget, WindowOf(front, source), Attempts(front, source, from),
                   Admitted(limit, false, front, source, from), from)
    ensures Tally(limit, budget, WindowOf(run, source), Attempts(run, source, from),
                  Admitted(limit, false, run, source, from), from)
  {
    var n := |run| - 1;
    var front, now := run[..n], run[n].now;
    if run[n].source == source && !run[n].rebind {
      AttemptAdds(limit, run, source, from);
      WindowWithinBudget(run, source, budget);
      BudgetPrefix(run, source, budget);
      if WindowOf(front, source).Some? {
        WindowWithinBudget(front, source, budget);
      }
      AttemptsPlaced(front, source, from);
      if now < from {
        NoneYet(front, source, from);
      }
      TallyAttempt(limit, budget, WindowOf(front, source), Attempts(front, source, from),
                   Admitted(limit, false, front, source, from), now, from);
    }
  }

  /** The last attempt is answered by its number in the source's window. */
  lemma LastAnswer(limit: nat, run: seq<Attempt>, source: string)
    requires limit > 0 && run != [] && run[|run| - 1].source == source && !run[|run| - 1].rebind
    ensures WindowOf(run, source).Some?
    ensures AllowedLast(limit, false, run) <==> WindowOf(run, source).value.count % U32_LIMIT <= limit
  {
    var n := |run| - 1;
    BucketIsWindow(limit, run[..n], source);
    TouchedExtends(BucketsAfter(limit, false, run[..n]), source, run[n].now, WindowOf(run[..n], source));
  }

  lemma WindowWithinBudget(run: seq<Attempt>, source: string, budget: nat)
    requires InClockOrder(run) && WithinBudget(run, source, budget) && WindowOf(run, source).Some?
    ensures 1 <= WindowOf(run, source).value.count <= budget
  {
    AttemptsPlaced(run, source, WindowOf(run, source).value.start);
  }

  lemma {:induction false} TallyHolds(limit: nat, budget: nat, run: seq<Attempt>, source: string, from: nat)
    requires 0 < limit && InClockOrder(run) && WithinBudget(run, source, budget)
    requires run != [] ==> run[|run| - 1].now < from + WINDOW
    ensures Tally(limit, budget, WindowOf(run, source), Attempts(run, source, from),
                  Admitted(limit, false, run, source, from), from)
    decreases |run|
  {
    if run != [] {
      BudgetPrefix(run, source, budget);
      TallyHolds(limit, budget, run[..|run| - 1], source, from);
      TallyStep(limit, budget, run, source, from);
    }
  }

  /**
    In every run in clock order whose intervals hold fewer than 2^32 + limit - 1 attempts of a source, it
    gets at most 2 * limit - 1 non-rebind admissions in any half-open 60-second interval.
   */
  lemma {:induction false} RateBound(limit: nat, budget: nat, run: seq<Attempt>, source: string, from: nat)
    requires 0 < limit < U32_LIMIT && budget < U32_LIMIT + limit - 1
    requires InClockOrder(run) && WithinBudget(run, source, budget)
    ensures Admitted(limit, true, run, source, from) <= 2 * limit - 1
    decreases |run|
  {
    SameAdmissions(limit, run, source, from);
    if run != [] {
      if run[|run| - 1].now < from + WINDOW {
        TallyHolds(limit, budget, run, source, from);
        assert Attempts(run, source, from) <= budget;
        if WindowOf(run, source).Some? {
          WindowWithinBudget(run, source, budget);
        }
        TallyBound(limit, budget, WindowOf(run, source), Attempts(run, source, from),
                   Admitted(limit, false, run, source, from), from);
      } else {
        BudgetPrefix(run, source, budget);
        RateBound(limit, budget, run[..|run| - 1], source, from);
        SameAdmissions(limit, run[..|run| - 1], source, from);
      }
    }
  }

  // ---- The bound is reached ----

  /** One attempt at 0, further ones just before the window ends, then as many again in the next. */
  ghost function Burst(limit: nat, k: nat): seq<Attempt> {
    seq(k, i => Attempt("", false, if i == 0 then 0 else if i < limit then WINDOW - 1 else WINDOW))
  }

  lemma {:induction false} BurstWindow(limit: nat, k: nat)
    requires 0 < limit && 0 < k <= 2 * limit
    ensures WindowOf(Burst(limit, k), "") == Some(if k <= limit then Bucket(0, k) else Bucket(WINDOW, k - limit))
    decreases k
  {
    var run := Burst(limit, k);
    assert run[..k - 1] == Burst(limit, k - 1);
    if k > 1 {
      BurstWindow(limit, k - 1);
    }
  }

  lemma {:induction false} BurstAdmitted(limit: nat, k: nat)
    requires 0 < limit < U32_LIMIT && 0 < k <= 2 * limit
    ensures Admitted(limit, false, Burst(limit, k), "", WINDOW - 1) == k - 1
    decreases k
  {
    var run := Burst(limit, k);
    assert run[..k - 1] == Burst(limit, k - 1);
    BurstWindow(limit, k);
    AttemptAdds(limit, run, "", WINDOW - 1);
    if k > 1 {
      BurstAdmitted(limit, k - 1);
    }
  }

  /** For every limit some run in clock order admits 2 * limit - 1 within one interval. */
  lemma RateBoundReached(limit: nat)
    requires 0 < limit < U32_LIMIT
    ensures InClockOrder(Burst(limit, 2 * limit))
    ensures Admitted(limit, true, Burst(limit, 2 * limit), "", WINDOW - 1) == 2 * limit - 1
  {
    BurstAdmitted(limit, 2 * limit);
    SameAdmissions(limit, Burst(limit, 2 * limit), "", WINDOW - 1);
  }

  // ---- Exactly how many attempts the bound stands ----

  ghost function Flood(k: nat): seq<Attempt> {
    seq(k, i => Attempt("", false, 0))
  }

  lemma {:induction false} FloodAttempts(k: nat, from: nat)
    ensures Attempts(Flood(k), "", from) == if from == 0 then k else 0
    ensures k > 0 ==> WindowOf(Flood(k), "") == Some(Bucket(0, k))
    decreases k
  {
    if k > 0 {
      var run := Flood(k);
      assert run[..k - 1] == Flood(k - 1);
      FloodAttempts(k - 1, from);
    }
  }

  /** k attempts at one instant get what the first k attempts of a window get. */
  lemma FloodAdmitted(limit: nat, k: nat)
    requires 0 < limit && 0 < k
    ensures InClockOrder(Flood(k)) && WithinBudget(Flood(k), "", k)
    ensures Admitted(limit, true, Flood(k), "", 0) == Served(limit, k)
  {
    var run := Flood(k);
    forall from: nat ensures Attempts(run, "", from) <= k {
      FloodAttempts(k, from);
    }
    FloodAttempts(k, 0);
    TallyHolds(limit, k, run, "", 0);
    SameAdmissions(limit, run, "", 0);
  }

  /** With 2^32 + limit - 1 attempts in one window the count has wrapped and 2 * limit are admitted. */
  lemma WrapBreaksBound(limit: nat)
    requires 0 < limit < U32_LIMIT
    ensures InClockOrder(Flood(U32_LIMIT + limit - 1))
    ensures WithinBudget(Flood(U32_LIMIT + limit - 1), "", U32_LIMIT + limit - 1)
    ensures Admitted(limit, true, Flood(U32_LIMIT + limit - 1), "", 0) == 2 * limit
  {
    FloodAdmitted(limit, U32_LIMIT + limit - 1);
    ServedClosed(limit, U32_LIMIT + limit - 1);
  }

  /** No run in clock order within the budget gives a source 2 * limit admissions in an interval. */
  ghost predicate BoundKept(limit: nat, budget: nat) {
    forall run, source, from: nat :: InClockOrder(run) && WithinBudget(run, source, budget)
                                     ==> Admitted(limit, true, run, source, from) <= 2 * limit - 1
  }

  /** The bound is kept if and only if every interval has fewer than 2^32 + limit - 1 attempts of a source. */
  lemma RateBoundExactly(limit: nat, budget: nat)
    requires 0 < limit < U32_LIMIT
    ensures BoundKept(limit, budget) <==> budget < U32_LIMIT + limit - 1
  {
    if budget < U32_LIMIT + limit - 1 {
      forall run, source, from: nat | InClockOrder(run) && WithinBudget(run, source, budget)
        ensures Admitted(limit, true, run, source, from) <= 2 * limit - 1
      {
        RateBound(limit, budget, run, source, from);
      }
    } else {
      var run := Flood(U32_LIMIT + limit - 1);
      WrapBreaksBound(limit);
      forall from: nat ensures Attempts(run, "", from) <= budget {
        assert Attempts(run, "", from) <= U32_LIMIT + limit - 1;
      }
      assert WithinBudget(run, "", budget);
    }
  }

  // ---- Exactly which attempts are allowed ----

  /** A rebind, and any attempt without a limit, is always allowed and leaves the buckets alone. */
  lemma UnlimitedAlwaysAllowed(limit: nat, evicts: bool, run: seq<Attempt>)
    requires run != [] && (run[|run| - 1].rebind || limit == 0)
    ensures AllowedLast(limit, evicts, run)
    ensures BucketsAfter(limit, evicts, run) == BucketsAfter(limit, evicts, run[..|run| - 1])
  {
  }

  /** Any other attempt is allowed exactly if its number in the source's window, modulo 2^32, is within the limit. */
  lemma AllowedExactly(limit: nat, run: seq<Attempt>, source: string)
    requires limit > 0 && run != [] && InClockOrder(run)
    requires run[|run| - 1].source == source && !run[|run| - 1].rebind
    ensures WindowOf(run, source).Some?
    ensures AllowedLast(limit, true, run) <==>
            Attempts(run, source, WindowOf(run, source).value.start) % U32_LIMIT <= limit
  {
    LastAnswer(limit, run, source);
    AgreeInRun(limit, run);
    AttemptsPlaced(run, source, WindowOf(run, source).value.start);
  }
}
