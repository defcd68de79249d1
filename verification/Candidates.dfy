/**
  Choosing candidate nodes and submitting a task to them: the built-in strategies with any random draw,
  then the loops over nodes and attempts, which swap the request's payload in and out.
 */
module Candidates {
  import opened Prelude

  const MAX_RETRIES: int := 3

  datatype Node = Node(id: string, endpoint: string, encrypts: bool)

  datatype Strategy = Deterministic | WeightedV1 | SoftmaxTopK | EpsilonGreedy

  /** A random draw: whether to explore, and the index of the node drawn. */
  datatype Draw = Draw(explore: bool, index: nat)

  function Min(a: nat, b: nat): nat {
    if a < b then a else b
  }

  function Take(nodes: seq<Node>, n: nat): seq<Node> {
    nodes[..Min(n, |nodes|)]
  }

  function Others(nodes: seq<Node>, id: string): seq<Node> {
    if nodes == [] then []
    else if nodes[0].id == id then Others(nodes[1..], id)
    else [nodes[0]] + Others(nodes[1..], id)
  }

  /** How many nodes a strategy draws from. */
  function PoolSize(strategy: Strategy, n: nat, topK: nat): (size: nat)
    ensures size <= n && (n > 0 ==> size > 0)
    ensures !strategy.EpsilonGreedy? && size < n ==> size == topK || (size == 1 && topK == 0)
    ensures strategy.EpsilonGreedy? || topK >= n ==> size == n
  {
    if strategy.EpsilonGreedy? then n else Min(Max(topK, 1), n)
  }

  function Leading(nodes: seq<Node>, chosen: Node): seq<Node> {
    [chosen] + Take(Others(Take(nodes, MAX_RETRIES), chosen.id), MAX_RETRIES - 1)
  }

  function BuiltIn(nodes: seq<Node>, strategy: Strategy, topK: nat, draw: Draw): seq<Node>
    requires nodes != [] ==> draw.index < PoolSize(strategy, |nodes|, topK)
  {
    if strategy.Deterministic? || |nodes| <= 1 || (strategy.EpsilonGreedy? && !draw.explore) then
      Take(nodes, MAX_RETRIES)
    else Leading(nodes, nodes[draw.index])
  }

  ghost predicate DistinctIds(nodes: seq<Node>) {
    forall i, j :: 0 <= i < j < |nodes| ==> nodes[i].id != nodes[j].id
  }

  ghost predicate DrawnFrom(some: seq<Node>, nodes: seq<Node>) {
    forall i :: 0 <= i < |some| ==> some[i] in nodes
  }

  ghost predicate HasId(nodes: seq<Node>, id: string) {
    exists i :: 0 <= i < |nodes| && nodes[i].id == id
  }

  lemma {:induction false} OthersOf(nodes: seq<Node>, id: string)
    requires DistinctIds(nodes)
    ensures DistinctIds(Others(nodes, id)) && DrawnFrom(Others(nodes, id), nodes)
    ensures forall i :: 0 <= i < |Others(nodes, id)| ==> Others(nodes, id)[i].id != id
  {
    if nodes != [] {
      OthersOf(nodes[1..], id);
    }
  }

  /** Where ids are distinct, removing an id removes exactly the node that has it. */
  lemma {:induction false} OthersCount(nodes: seq<Node>, id: string)
    requires DistinctIds(nodes)
    ensures |Others(nodes, id)| == (if HasId(nodes, id) then |nodes| - 1 else |nodes|)
  {
    if nodes != [] {
      var rest := nodes[1..];
      OthersCount(rest, id);
      HasIdTail(nodes, id);
    }
  }

  lemma HasIdTail(nodes: seq<Node>, id: string)
    requires nodes != [] && DistinctIds(nodes)
    ensures HasId(nodes, id) <==> nodes[0].id == id || HasId(nodes[1..], id)
    ensures nodes[0].id == id ==> !HasId(nodes[1..], id)
  {
    if HasId(nodes[1..], id) {
      var i :| 0 <= i < |nodes[1..]| && nodes[1..][i].id == id;
      assert nodes[i + 1].id == id;
    }
    if HasId(nodes, id) && nodes[0].id != id {
      var i :| 0 <= i < |nodes| && nodes[i].id == id;
      assert nodes[1..][i - 1].id == id;
    }
  }

  lemma LeadingDistinct(nodes: seq<Node>, i: nat)
    requires DistinctIds(nodes) && i < |nodes| && |nodes| >= 2
    ensures var c := Leading(nodes, nodes[i]);
            |c| == Min(MAX_RETRIES, |nodes|) && DistinctIds(c) && DrawnFrom(c, nodes)
  {
    var front := Take(nodes, MAX_RETRIES);
    assert DistinctIds(front) && DrawnFrom(front, nodes);
    OthersOf(front, nodes[i].id);
    OthersCount(front, nodes[i].id);
    if i < |front| {
      assert front[i].id == nodes[i].id;
    }
  }

  /** For every strategy and draw: min(3, n) candidates, no repeats, only eligible nodes. */
  lemma CandidatesChosen(nodes: seq<Node>, strategy: Strategy, topK: nat, draw: Draw)
    requires DistinctIds(nodes) && (nodes != [] ==> draw.index < PoolSize(strategy, |nodes|, topK))
    ensures var c := BuiltIn(nodes, strategy, topK, draw);
            |c| == Min(MAX_RETRIES, |nodes|) && DistinctIds(c) && DrawnFrom(c, nodes)
  {
    if |nodes| >= 2 {
      LeadingDistinct(nodes, draw.index);
    }
  }

  // ---- The weighted draw ----

  function Clamp(x: real, low: real, high: real): real
    requires low <= high
  {
    if x < low then low else if x > high then high else x
  }

  function Weight(score: real, load: real): (w: real)
    ensures w > 0.0
  {
    (if score > 0.01 then score else 0.01) / (1.0 + Clamp(load, 0.0, 1.0))
  }

  /** The total weight of the first n nodes. */
  function Cumulated(scores: seq<real>, loads: seq<real>, n: nat): real
    requires n <= |scores| && n <= |loads|
  {
    if n == 0 then 0.0 else Cumulated(scores, loads, n - 1) + Weight(scores[n - 1], loads[n - 1])
  }

  lemma {:induction false} CumulatedPositive(scores: seq<real>, loads: seq<real>, n: nat)
    requires 0 < n <= |scores| && n <= |loads|
    ensures Cumulated(scores, loads, n) > 0.0
    decreases n
  {
    if n > 1 {
      CumulatedPositive(scores, loads, n - 1);
    }
  }

  function Target(scores: seq<real>, loads: seq<real>, random: real): real
    requires |scores| == |loads|
  {
    Clamp(random, 0.0, 0.999_999_999) * Cumulated(scores, loads, |scores|)
  }

  /** The draw by weight, over reals: the first node at which the cumulated weight reaches the target. */
  method WeightedV1Index(scores: seq<real>, loads: seq<real>, random: real) returns (index: nat)
    requires |scores| == |loads|
    ensures scores == [] ==> index == 0
    ensures scores != [] ==> index < |scores|
    ensures scores != [] ==>
              index == |scores| - 1 || Cumulated(scores, loads, index + 1) >= Target(scores, loads, random)
    ensures forall j :: 1 <= j <= index ==> Cumulated(scores, loads, j) < Target(scores, loads, random)
  {
    var n := |scores|;
    var target := Target(scores, loads, random);
    var remaining := target;
    for i := 0 to n
      invariant remaining == target - Cumulated(scores, loads, i)
      invariant forall j :: 1 <= j <= i ==> Cumulated(scores, loads, j) < target
    {
      remaining := remaining - Weight(scores[i], loads[i]);
      if remaining <= 0.0 {
        return i;
      }
    }
    index := if n == 0 then 0 else n - 1;
  }

  /** The target lies below the total, so the last node is drawn only when it, too, reaches the target. */
  lemma TargetReached(scores: seq<real>, loads: seq<real>, random: real)
    requires |scores| == |loads| && scores != []
    ensures Target(scores, loads, random) < Cumulated(scores, loads, |scores|)
  {
    CumulatedPositive(scores, loads, |scores|);
    ShareBelow(Clamp(random, 0.0, 0.999_999_999), Cumulated(scores, loads, |scores|));
  }

  /** The target is the drawn share of the total. */
  lemma TargetIsShare(scores: seq<real>, loads: seq<real>, random: real)
    requires |scores| == |loads| && 0.0 <= random <= 0.999_999_999
    ensures Target(scores, loads, random) == random * Cumulated(scores, loads, |scores|)
  {
    assert Clamp(random, 0.0, 0.999_999_999) == random;
  }

  lemma ShareBelow(share: real, total: real)
    requires 0.0 <= share <= 0.999_999_999 && total > 0.0
    ensures share * total < total
  {
    assert (1.0 - share) * total > 0.0;
  }

  // ---- Submission ----

  /** What one post brings back; `Broken` is any other error, an unreadable response among them. */
  datatype Reply = Answer(response: string) | EndpointRefused | Network | Protocol(status: nat) | Broken

  datatype Outcome = Success(response: string) | Failure(reply: Reply) | NotPrepared(candidate: nat) | NoNodes

  datatype Post = Post(candidate: nat, attempt: nat, payload: string)

  datatype Trace = Trace(posts: seq<Post>, slept: nat, outcome: Outcome)

  /** The surroundings of a call: replies, whether a candidate's token and body can be had, its payload. */
  datatype World = World(
    reply: (nat, nat) -> Reply, prepared: nat -> bool, tailored: (string, Node, nat) -> string)

  predicate Transient(r: Reply) {
    r.Network? || (r.Protocol? && (r.status == 429 || r.status == 502 || r.status == 503 || r.status == 504))
  }

  /** Replies after which the submission goes on, to the next attempt or the next node. */
  predicate GoesOn(r: Reply) {
    r.EndpointRefused? || Transient(r)
  }

  predicate NextNode(r: Reply, attempt: nat) {
    r.EndpointRefused? || r.Network? || attempt >= MAX_RETRIES - 1
  }

  /** What a reply leads to: the end, the next node, or another attempt after a pause. */
  datatype Reaction = End(outcome: Outcome) | Next | Again

  function React(r: Reply, attempt: nat): (x: Reaction)
    ensures x.End? <==> !GoesOn(r)
    ensures x.Again? ==> attempt < MAX_RETRIES - 1
  {
    if r.Answer? then End(Success(r.response))
    else if !GoesOn(r) then End(Failure(r))
    else if NextNode(r, attempt) then Next
    else Again
  }

  function Delay(attempt: nat): nat {
    if attempt == 0 then 200 else 2 * Delay(attempt - 1)
  }

  /** The submission from one attempt on, by what it posts, sleeps and returns. */
  function Submission(cs: seq<Node>, payload: string, w: World, i: nat, attempt: nat, last: Option<Reply>): Trace
    requires i <= |cs| && attempt < MAX_RETRIES
    decreases |cs| - i, MAX_RETRIES - attempt
  {
    if i == |cs| then Trace([], 0, if last.Some? then Failure(last.value) else NoNodes)
    else if attempt == 0 && !w.prepared(i) then Trace([], 0, NotPrepared(i))
    else
      var r := w.reply(i, attempt);
      var post := Post(i, attempt, w.tailored(payload, cs[i], i));
      match React(r, attempt)
      case End(outcome) => Trace([post], 0, outcome)
      case Next => Continued([post], 0, Submission(cs, payload, w, i + 1, 0, Some(r)))
      case Again => Continued([post], Delay(attempt), Submission(cs, payload, w, i, attempt + 1, Some(r)))
  }

  /** What follows a post. */
  ghost function Following(cs: seq<Node>, payload: string, w: World, i: nat, attempt: nat): Trace
    requires i < |cs| && attempt < MAX_RETRIES
  {
    var r := w.reply(i, attempt);
    match React(r, attempt)
    case End(outcome) => Trace([], 0, outcome)
    case Next => Submission(cs, payload, w, i + 1, 0, Some(r))
    case Again => Submission(cs, payload, w, i, attempt + 1, Some(r))
  }

  /** What has been done so far, continued by `t`. */
  function Continued(posts: seq<Post>, slept: nat, t: Trace): Trace {
    Trace(posts + t.posts, slept + t.slept, t.outcome)
  }

  lemma ContinuedTwice(posts: seq<Post>, slept: nat, more: seq<Post>, pause: nat, t: Trace)
    ensures Continued(posts, slept, Continued(more, pause, t)) == Continued(posts + more, slept + pause, t)
  {
    assert posts + (more + t.posts) == posts + more + t.posts;
  }

  /** The whole submission is what has been done so far, continued by the attempt that is due. */
  ghost predicate SoFar(whole: Trace, posts: seq<Post>, slept: nat, cs: seq<Node>, payload: string, w: World,
                        i: nat, attempt: nat, last: Option<Reply>)
    requires i <= |cs| && attempt < MAX_RETRIES
  {
    whole == Continued(posts, slept, Submission(cs, payload, w, i, attempt, last))
  }

  /** One attempt moves it to what follows its post. */
  lemma AttemptMade(whole: Trace, posts: seq<Post>, slept: nat, cs: seq<Node>, payload: string, w: World,
                    i: nat, attempt: nat, last: Option<Reply>)
    requires i < |cs| && attempt < MAX_RETRIES && w.prepared(i)
    requires SoFar(whole, posts, slept, cs, payload, w, i, attempt, last)
    ensures var r, post := w.reply(i, attempt), Post(i, attempt, w.tailored(payload, cs[i], i));
            match React(r, attempt)
            case End(outcome) => whole == Continued(posts + [post], slept, Trace([], 0, outcome))
            case Next => SoFar(whole, posts + [post], slept, cs, payload, w, i + 1, 0, Some(r))
            case Again =>
              && attempt + 1 < MAX_RETRIES
              && SoFar(whole, posts + [post], slept + Delay(attempt), cs, payload, w, i, attempt + 1, Some(r))
  {
    ContinuedTwice(posts, slept, [Post(i, attempt, w.tailored(payload, cs[i], i))],
                   if React(w.reply(i, attempt), attempt).Again? then Delay(attempt) else 0,
                   Following(cs, payload, w, i, attempt));
  }

  class Request {
    var payload: string

    constructor (payload: string)
      ensures this.payload == payload
    {
      this.payload := payload;
    }
  }

  /** The payload posted to a candidate; a body in the clear is built by swapping it into the request. */
  method BodyFor(request: Request, node: Node, i: nat, w: World) returns (body: string)
    modifies request
    ensures body == w.tailored(old(request.payload), node, i)
    ensures request.payload == old(request.payload)
  {
    var candidatePayload := w.tailored(request.payload, node, i);
    if node.encrypts {
      body := candidatePayload;
    } else {
      var original := request.payload;
      request.payload := candidatePayload;
      body := request.payload;
      request.payload := original;
    }
  }

  /** The branches on a reply, in the order they are taken. */
  method Handle(r: Reply, attempt: nat) returns (x: Reaction)
    ensures x == React(r, attempt)
  {
    if r.Answer? {
      return End(Success(r.response));
    }
    if r.EndpointRefused? {
      return Next;
    }
    if !Transient(r) {
      return End(Failure(r));
    }
    if r.Network? {
      return Next;
    }
    x := if attempt < MAX_RETRIES - 1 then Again else Next;
  }

  /** The attempts on one candidate: what they add, and the outcome if the submission ends with them. */
  method OnNode(cs: seq<Node>, ghost payload: string, body: string, w: World, i: nat, before: Option<Reply>)
    returns (posts: seq<Post>, slept: nat, last: Option<Reply>, end: Option<Outcome>)
    requires i < |cs| && w.prepared(i) && body == w.tailored(payload, cs[i], i)
    ensures Submission(cs, payload, w, i, 0, before)
         == Continued(posts, slept, if end.Some? then Trace([], 0, end.value)
                                    else Submission(cs, payload, w, i + 1, 0, last))
  {
    posts, slept, last, end := [], 0, before, None;
    ghost var whole := Submission(cs, payload, w, i, 0, before);
    var attempt := 0;
    while true
      invariant attempt < MAX_RETRIES
      invariant SoFar(whole, posts, slept, cs, payload, w, i, attempt, last)
      decreases MAX_RETRIES - attempt
    {
      var r := w.reply(i, attempt);
      var reaction := Handle(r, attempt);
      var pause := if reaction.Again? then Delay(attempt) else 0;
      AttemptMade(whole, posts, slept, cs, payload, w, i, attempt, last);
      posts := posts + [Post(i, attempt, body)];
      slept := slept + pause;
      match reaction {
        case End(outcome) =>
          end := Some(outcome);
          return;
        case Next =>
          last := Some(r);
          return;
        case Again =>
          last := Some(r);
          attempt := attempt + 1;
      }
    }
  }

  method SubmitInternal(request: Request, cs: seq<Node>, w: World) returns (t: Trace)
    modifies request
    ensures t == Submission(cs, old(request.payload), w, 0, 0, None)
    ensures request.payload == old(request.payload)
  {
    var posts: seq<Post>, slept: nat, last: Option<Reply> := [], 0, None;
    ghost var payload := request.payload;
    ghost var whole := Submission(cs, payload, w, 0, 0, None);
    for i := 0 to |cs|
      invariant request.payload == payload
      invariant whole == Continued(posts, slept, Submission(cs, payload, w, i, 0, last))
    {
      if !w.prepared(i) {
        return Trace(posts, slept, NotPrepared(i));
      }
      var body := BodyFor(request, cs[i], i, w);
      var more, pause, end;
      more, pause, last, end := OnNode(cs, payload, body, w, i, last);
      ContinuedTwice(posts, slept, more, pause,
                     if end.Some? then Trace([], 0, end.value) else Submission(cs, payload, w, i + 1, 0, last));
      posts := posts + more;
      slept := slept + pause;
      if end.Some? {
        return Trace(posts, slept, end.value);
      }
    }
    t := Trace(posts, slept, if last.Some? then Failure(last.value) else NoNodes);
  }

  // ---- What a submission is ----

  /** At most three posts to each remaining candidate, and at most 600 ms of sleep for each. */
  lemma {:induction false} SubmissionBounded(cs: seq<Node>, payload: string, w: World, i: nat, attempt: nat,
                                             last: Option<Reply>)
    requires i <= |cs| && attempt < MAX_RETRIES && (i == |cs| ==> attempt == 0)
    ensures var t := Submission(cs, payload, w, i, attempt, last);
            && |t.posts| <= 3 * (|cs| - i) - attempt
            && t.slept <= 600 * (|cs| - i) - (if attempt == 0 then 0 else if attempt == 1 then 200 else 600)
    decreases |cs| - i, MAX_RETRIES - attempt
  {
    if i < |cs| && (attempt > 0 || w.prepared(i)) {
      var r := w.reply(i, attempt);
      if GoesOn(r) {
        assert Delay(0) == 200 && Delay(1) == 400;
        if NextNode(r, attempt) {
          SubmissionBounded(cs, payload, w, i + 1, 0, Some(r));
        } else {
          SubmissionBounded(cs, payload, w, i, attempt + 1, Some(r));
        }
      }
    }
  }

  /** Each post carries its candidate's version of the caller's own payload. */
  ghost predicate FromOriginal(posts: seq<Post>, cs: seq<Node>, payload: string, w: World) {
    forall k :: 0 <= k < |posts| ==>
                  posts[k].candidate < |cs|
                  && posts[k].payload == w.tailored(payload, cs[posts[k].candidate], posts[k].candidate)
  }

  /** All replies but the last were ones to go on after; the last one, if final, is the outcome. */
  ghost predicate LastDecides(t: Trace, w: World) {
    && (forall k :: 0 <= k < |t.posts| - 1 ==> GoesOn(w.reply(t.posts[k].candidate, t.posts[k].attempt)))
    && (t.outcome.Success? ==> t.posts != [])
    && (t.posts != [] ==>
          var final := w.reply(t.posts[|t.posts| - 1].candidate, t.posts[|t.posts| - 1].attempt);
          if final.Answer? then t.outcome == Success(final.response)
          else if !GoesOn(final) then t.outcome == Failure(final)
          else t.outcome == Failure(final) || t.outcome.NotPrepared?)
  }

  lemma FromOriginalBefore(post: Post, slept: nat, t: Trace, cs: seq<Node>, payload: string, w: World)
    requires FromOriginal(t.posts, cs, payload, w) && FromOriginal([post], cs, payload, w)
    ensures FromOriginal(Continued([post], slept, t).posts, cs, payload, w)
  {
  }

  lemma LastDecidesBefore(post: Post, slept: nat, t: Trace, w: World)
    requires LastDecides(t, w) && GoesOn(w.reply(post.candidate, post.attempt))
    requires t.posts == [] ==> t.outcome.NotPrepared? || t.outcome == Failure(w.reply(post.candidate, post.attempt))
    ensures LastDecides(Continued([post], slept, t), w)
  {
    var all := Continued([post], slept, t);
    forall k | 0 <= k < |all.posts| - 1 ensures GoesOn(w.reply(all.posts[k].candidate, all.posts[k].attempt)) {
      assert k > 0 ==> all.posts[k] == t.posts[k - 1];
    }
    assert t.posts != [] ==> all.posts[|all.posts| - 1] == t.posts[|t.posts| - 1];
  }

  lemma {:induction false} SubmissionFaithful(cs: seq<Node>, payload: string, w: World, i: nat, attempt: nat,
                                              last: Option<Reply>)
    requires i <= |cs| && attempt < MAX_RETRIES
    ensures var t := Submission(cs, payload, w, i, attempt, last);
            && FromOriginal(t.posts, cs, payload, w) && LastDecides(t, w)
            && (t.posts == [] ==>
                  t.outcome.NotPrepared? || t.outcome == if last.Some? then Failure(last.value) else NoNodes)
    decreases |cs| - i, MAX_RETRIES - attempt
  {
    if i < |cs| && (attempt > 0 || w.prepared(i)) {
      var r := w.reply(i, attempt);
      var post := Post(i, attempt, w.tailored(payload, cs[i], i));
      match React(r, attempt)
      case End(outcome) =>
      case Next =>
        SubmissionFaithful(cs, payload, w, i + 1, 0, Some(r));
        FromOriginalBefore(post, 0, Submission(cs, payload, w, i + 1, 0, Some(r)), cs, payload, w);
        LastDecidesBefore(post, 0, Submission(cs, payload, w, i + 1, 0, Some(r)), w);
      case Again =>
        SubmissionFaithful(cs, payload, w, i, attempt + 1, Some(r));
        FromOriginalBefore(post, Delay(attempt), Submission(cs, payload, w, i, attempt + 1, Some(r)), cs, payload, w);
        LastDecidesBefore(post, Delay(attempt), Submission(cs, payload, w, i, attempt + 1, Some(r)), w);
    }
  }

  /**
    For every eligible list with distinct ids, strategy, draw and behaviour of the nodes, a submission
    makes at most 9 posts and sleeps at most 1800 ms, each post carries its candidate's version of the
    original payload, and the last reply decides.
   */
  lemma SubmissionLimits(nodes: seq<Node>, strategy: Strategy, topK: nat, draw: Draw, payload: string, w: World)
    requires DistinctIds(nodes) && (nodes != [] ==> draw.index < PoolSize(strategy, |nodes|, topK))
    ensures var cs := BuiltIn(nodes, strategy, topK, draw);
            var t := Submission(cs, payload, w, 0, 0, None);
            |t.posts| <= 9 && t.slept <= 1800 && FromOriginal(t.posts, cs, payload, w) && LastDecides(t, w)
  {
    var cs := BuiltIn(nodes, strategy, topK, draw);
    CandidatesChosen(nodes, strategy, topK, draw);
    SubmissionBounded(cs, payload, w, 0, 0, None);
    SubmissionFaithful(cs, payload, w, 0, 0, None);
  }

  // ---- Said with literal values ----

  /** The candidates by place: the leading three, or the drawn node before the leading others. */
  lemma CandidatesByPlace(nodes: seq<Node>, strategy: Strategy, topK: nat, draw: Draw)
    requires DistinctIds(nodes) && |nodes| >= 3 && draw.index < PoolSize(strategy, |nodes|, topK)
    ensures BuiltIn(nodes, strategy, topK, draw) ==
            if strategy.Deterministic? || (strategy.EpsilonGreedy? && !draw.explore) || draw.index == 0 then
              [nodes[0], nodes[1], nodes[2]]
            else if draw.index == 1 then [nodes[1], nodes[0], nodes[2]]
            else [nodes[draw.index], nodes[0], nodes[1]]
  {
    var front := nodes[..3];
    assert Take(nodes, MAX_RETRIES) == front == [nodes[0], nodes[1], nodes[2]];
    var id := nodes[draw.index].id;
    OthersOfThree(nodes[0], nodes[1], nodes[2], id);
  }

  lemma OthersOfThree(a: Node, b: Node, c: Node, id: string)
    ensures Others([a, b, c], id) == Only(a, id) + Only(b, id) + Only(c, id)
  {
    assert [a, b, c][1..] == [b, c] && [b, c][1..] == [c] && [c][1..] == [];
    assert Others([c], id) == Only(c, id);
    assert Others([b, c], id) == Only(b, id) + Only(c, id);
  }

  function Only(n: Node, id: string): seq<Node> {
    if n.id == id then [] else [n]
  }

  /** Which replies end a submission, move it to the next node or repeat the post, and after how long. */
  lemma ReactsExactly(r: Reply, attempt: nat)
    ensures React(r, attempt) == Again <==>
            attempt < 2 && (r == Protocol(429) || r == Protocol(502) || r == Protocol(503) || r == Protocol(504))
    ensures React(r, attempt) == Next <==>
            || r == EndpointRefused || r == Network
            || (attempt >= 2 && (r == Protocol(429) || r == Protocol(502) || r == Protocol(503) || r == Protocol(504)))
    ensures React(r, attempt).End? ==>
              React(r, attempt).outcome == if r.Answer? then Success(r.response) else Failure(r)
    ensures Delay(0) == 200 && Delay(1) == 400
  {
    assert Delay(1) == 2 * Delay(0);
  }

  /** A better score never weighs less and a heavier load never more. */
  lemma WeightOrder(score: real, load: real, better: real, lighter: real)
    requires score <= better && lighter <= load
    ensures Weight(score, load) <= Weight(better, lighter)
    ensures Weight(1.0, 0.0) == 1.0 && Weight(1.0, 1.0) == 0.5 && Weight(0.0, 0.0) == 0.01
  {
    var a, b := if score > 0.01 then score else 0.01, if better > 0.01 then better else 0.01;
    QuotientOrder(a, 1.0 + Clamp(load, 0.0, 1.0), b, 1.0 + Clamp(lighter, 0.0, 1.0));
  }

  lemma QuotientOrder(a: real, x: real, b: real, y: real)
    requires 0.0 < a <= b && 0.0 < y <= x
    ensures a / x <= b / y
  {
    assert a * y <= b * x;
    assert a / x == a * y / (x * y) && b / y == b * x / (x * y);
  }
}
