/**
  Revocation in the peer store: an atomic minimum generation beside a map of peers behind a mutex.
  Verifying a membership is abstract except for its generation test; an advertised peer carries the
  outcome of the rest of it (shape, identity, time, signature) as `genuine`.
 */
module PeerStore {
  import opened Prelude

  const PEER_EXPIRY: int := 90

  datatype Admission = Public | Restricted(policyMinimum: nat)

  datatype Advert = Advert(nodeId: string, genuine: bool, generation: nat, expiresAt: nat)

  datatype Peer = Peer(generation: Option<nat>, expiresAt: Option<nat>, lastContact: nat)

  type Peers = map<string, Peer>

  // ---- Sequential meaning ----

  /** The record to store for an advertised peer under this minimum, if it is admitted. */
  function Admit(mode: Admission, minimum: nat, own: string, ad: Advert, now: nat): Option<Peer> {
    if ad.nodeId == "" || ad.nodeId == own then None
    else
      match mode
      case Public => Some(Peer(None, None, now))
      case Restricted(policyMinimum) =>
        if ad.genuine && ad.generation >= Max(policyMinimum, minimum) then
          Some(Peer(Some(ad.generation), Some(ad.expiresAt), now))
        else None
  }

  function Put(peers: Peers, mode: Admission, minimum: nat, own: string, ad: Advert, now: nat): Peers {
    match Admit(mode, minimum, own, ad, now)
    case None => peers
    case Some(peer) => peers[ad.nodeId := peer]
  }

  function Merged(peers: Peers, mode: Admission, minimum: nat, own: string, ads: seq<Advert>, now: nat): Peers
    decreases |ads|
  {
    if ads == [] then peers
    else
      var n := |ads| - 1;
      Put(Merged(peers, mode, minimum, own, ads[..n], now), mode, minimum, own, ads[n], now)
  }

  predicate Fresh(peer: Peer, minimum: nat) {
    peer.generation.Some? ==> peer.generation.value >= minimum
  }

  function Retained(peers: Peers, minimum: nat): Peers {
    map id | id in peers && Fresh(peers[id], minimum) :: peers[id]
  }

  predicate Live(peer: Peer, now: nat, epoch: nat) {
    && now - peer.lastContact < PEER_EXPIRY
    && (peer.expiresAt.Some? ==> peer.expiresAt.value > epoch)
  }

  function Pruned(peers: Peers, now: nat, epoch: nat): Peers {
    map id | id in peers && Live(peers[id], now, epoch) :: peers[id]
  }

  ghost predicate AllFresh(peers: Peers, minimum: nat) {
    forall id :: id in peers ==> Fresh(peers[id], minimum)
  }

  class PeerManager {
    const admission: Admission
    var ownId: string
    var minimumGeneration: nat
    var peers: Peers

    constructor (mode: Admission)
      ensures admission == mode && peers == map[]
      ensures minimumGeneration == (if mode.Restricted? then mode.policyMinimum else 0)
    {
      admission := mode;
      ownId := "";
      minimumGeneration := if mode.Restricted? then mode.policyMinimum else 0;
      peers := map[];
    }

    method UpdateMinimumGeneration(generation: nat) returns (removed: nat)
      modifies this`minimumGeneration, this`peers
      ensures minimumGeneration == Max(old(minimumGeneration), generation)
      ensures forall id :: id in peers ==> id in old(peers) && peers[id] == old(peers)[id]
      ensures forall id :: id in old(peers) ==>
                (id in peers <==> old(peers)[id].generation == None
                                  || old(peers)[id].generation.value >= minimumGeneration)
      ensures peers == Retained(old(peers), minimumGeneration)
      ensures removed + |peers| == |old(peers)|
    {
      minimumGeneration := Max(minimumGeneration, generation);
      var minimum := minimumGeneration;
      var before := |peers|;
      ghost var all := peers;
      peers := map id | id in peers && Fresh(peers[id], minimum) :: peers[id];
      SubmapSize(peers, all);
      removed := before - |peers|;
    }

    /** Merge advertised peers; the result counts the ids that were not stored before. */
    method MergePeersAt(incoming: seq<Advert>, now: nat) returns (added: nat)
      modifies this`peers
      ensures peers == Merged(old(peers), admission, minimumGeneration, ownId, incoming, now)
      ensures |peers| == |old(peers)| + added
      ensures AllFresh(old(peers), minimumGeneration) ==> AllFresh(peers, minimumGeneration)
    {
      added := 0;
      for i := 0 to |incoming|
        invariant peers == Merged(old(peers), admission, minimumGeneration, ownId, incoming[..i], now)
        invariant |peers| == |old(peers)| + added
        invariant AllFresh(old(peers), minimumGeneration) ==> AllFresh(peers, minimumGeneration)
      {
        var ad := incoming[i];
        assert incoming[..i + 1][..i] == incoming[..i];
        var admitted := Admit(admission, minimumGeneration, ownId, ad, now);
        if admitted.Some? {
          if ad.nodeId !in peers {
            added := added + 1;
          }
          peers := peers[ad.nodeId := admitted.value];
        }
      }
      assert incoming[..|incoming|] == incoming;
    }

    method Prune(now: nat, epoch: nat) returns (removed: nat)
      modifies this`peers
      ensures forall id :: id in peers ==> id in old(peers) && peers[id] == old(peers)[id]
      ensures forall id :: id in old(peers) ==>
                (id in peers <==> now - old(peers)[id].lastContact < 90
                                  && (old(peers)[id].expiresAt == None || old(peers)[id].expiresAt.value > epoch))
      ensures peers == Pruned(old(peers), now, epoch)
      ensures removed + |peers| == |old(peers)|
    {
      var before := |peers|;
      ghost var all := peers;
      peers := map id | id in peers && Live(peers[id], now, epoch) :: peers[id];
      SubmapSize(peers, all);
      removed := before - |peers|;
    }
  }

  // ---- Threads ----

  /** Where a thread stands in an update of the minimum or in a merge. */
  datatype Thread =
    | Asked(g: nat)
    | Raised(g: nat)
    | ReadBack(g: nat, minimum: nat)
    | Retaining(g: nat, minimum: nat)
    | Returned(g: nat)
    | ToMerge(ads: seq<Advert>, own: string, now: nat)
    | Merging(ads: seq<Advert>, own: string, now: nat)
    | Judging(ads: seq<Advert>, own: string, now: nat, minimum: nat)
    | Merger

  datatype State = State(
    mode: Admission, counter: nat, holder: Option<nat>, peers: Peers, threads: map<nat, Thread>)

  datatype Action =
    | CallUpdate(t: nat, g: nat)
    | CallMerge(t: nat, ads: seq<Advert>, own: string, now: nat)
    | Proceed(t: nat)
    | PruneNow(now: nat, epoch: nat)
    | Contacted(id: string, now: nat)

  function Initial(mode: Admission): State {
    State(mode, if mode.Restricted? then mode.policyMinimum else 0, None, map[], map[])
  }

  function Go(s: State, t: nat, th: Thread): State {
    s.(threads := s.threads[t := th])
  }

  /** The thread's next atomic step; a thread that waits for the mutex does not move. */
  function Advance(s: State, t: nat): State
    requires t in s.threads
  {
    match s.threads[t]
    case Asked(g) => Go(s, t, Raised(g)).(counter := Max(s.counter, g))
    case Raised(g) => Go(s, t, ReadBack(g, s.counter))
    case ReadBack(g, minimum) =>
      if s.holder.None? then Go(s, t, Retaining(g, minimum)).(holder := Some(t)) else s
    case Retaining(g, minimum) => Go(s, t, Returned(g)).(peers := Retained(s.peers, minimum), holder := None)
    case Returned(_) => s
    case ToMerge(ads, own, now) =>
      if s.holder.None? then Go(s, t, Merging(ads, own, now)).(holder := Some(t)) else s
    case Merging(ads, own, now) =>
      if ads == [] then Go(s, t, Merger).(holder := None) else Go(s, t, Judging(ads, own, now, s.counter))
    case Judging(ads, own, now, minimum) =>
      if ads == [] then s
      else Go(s, t, Merging(ads[1..], own, now)).(peers := Put(s.peers, s.mode, minimum, own, ads[0], now))
    case Merger => s
  }

  function Step(s: State, a: Action): State {
    match a
    case CallUpdate(t, g) => if t in s.threads then s else Go(s, t, Asked(g))
    case CallMerge(t, ads, own, now) => if t in s.threads then s else Go(s, t, ToMerge(ads, own, now))
    case Proceed(t) => if t in s.threads then Advance(s, t) else s
    case PruneNow(now, epoch) => if s.holder.None? then s.(peers := Pruned(s.peers, now, epoch)) else s
    case Contacted(id, now) =>
      if s.holder.None? && id in s.peers then s.(peers := s.peers[id := s.peers[id].(lastContact := now)]) else s
  }

  function Exec(mode: Admission, actions: seq<Action>): State {
    if actions == [] then Initial(mode)
    else Step(Exec(mode, actions[..|actions| - 1]), actions[|actions| - 1])
  }

  // ---- Invariant ----

  /** `g` was the argument of an update that has returned. */
  ghost predicate Effective(s: State, g: nat) {
    exists t :: t in s.threads && s.threads[t] == Returned(g)
  }

  ghost predicate ThreadInv(s: State, t: nat)
    requires t in s.threads
  {
    match s.threads[t]
    case Asked(_) => true
    case Raised(g) => g <= s.counter
    case ReadBack(g, minimum) => g <= minimum <= s.counter
    case Retaining(g, minimum) => g <= minimum <= s.counter && s.holder == Some(t)
    case Returned(g) => g <= s.counter && AllFresh(s.peers, g)
    case ToMerge(_, _, _) => true
    case Merging(_, _, _) => s.holder == Some(t)
    case Judging(_, _, _, minimum) =>
      s.holder == Some(t) && minimum <= s.counter && forall g: nat :: Effective(s, g) ==> g <= minimum
    case Merger => true
  }

  ghost predicate Inv(s: State) {
    forall t :: t in s.threads ==> ThreadInv(s, t)
  }

  lemma PutFresh(peers: Peers, mode: Admission, minimum: nat, own: string, ad: Advert, now: nat, g: nat)
    requires AllFresh(peers, g) && g <= minimum
    ensures AllFresh(Put(peers, mode, minimum, own, ad, now), g)
  {
  }

  /** After another thread's step that keeps these, a thread's own facts still hold. */
  lemma KeptFor(s: State, s': State, t: nat, u: nat)
    requires Inv(s) && t in s.threads && t in s'.threads && t != u && s'.threads[t] == s.threads[t]
    requires s.counter <= s'.counter
    requires s'.holder == s.holder || s.holder == None || s.holder == Some(u)
    requires s.threads[t].Returned? ==> AllFresh(s'.peers, s.threads[t].g)
    requires s.threads[t].Judging? ==> forall g: nat :: Effective(s', g) ==> Effective(s, g)
    ensures ThreadInv(s', t)
  {
    assert ThreadInv(s, t);
  }

  lemma EffectiveKept(s: State, t: nat, th: Thread)
    requires !th.Returned?
    ensures forall g: nat :: Effective(Go(s, t, th), g) ==> Effective(s, g)
  {
    forall g: nat | Effective(Go(s, t, th), g) ensures Effective(s, g) {
      var u :| u in Go(s, t, th).threads && Go(s, t, th).threads[u] == Returned(g);
      assert u in s.threads && s.threads[u] == Returned(g);
    }
  }

  /** The step that publishes a merged peer: it respects every update that has returned. */
  lemma JudgedFresh(s: State, t: nat, g: nat)
    requires Inv(s) && t in s.threads && s.threads[t].Judging? && s.threads[t].ads != [] && Effective(s, g)
    ensures AllFresh(Advance(s, t).peers, g)
  {
    assert ThreadInv(s, t);
    var u :| u in s.threads && s.threads[u] == Returned(g);
    assert ThreadInv(s, u);
    var Judging(ads, own, now, minimum) := s.threads[t];
    PutFresh(s.peers, s.mode, minimum, own, ads[0], now, g);
  }

  lemma EffectiveBelowCounter(s: State, g: nat)
    requires Inv(s) && Effective(s, g)
    ensures g <= s.counter
  {
    var u :| u in s.threads && s.threads[u] == Returned(g);
    assert ThreadInv(s, u);
  }

  lemma AdvanceKeepsOwn(s: State, t: nat)
    requires Inv(s) && t in s.threads
    ensures t in Advance(s, t).threads && ThreadInv(Advance(s, t), t)
  {
    assert ThreadInv(s, t);
    if s.threads[t].Merging? && s.threads[t].ads != [] {
      var Merging(ads, own, now) := s.threads[t];
      EffectiveKept(s, t, Judging(ads, own, now, s.counter));
      forall g: nat | Effective(Advance(s, t), g) ensures g <= s.counter {
        EffectiveBelowCounter(s, g);
      }
    }
  }

  lemma AdvanceKeepsOther(s: State, t: nat, u: nat)
    requires Inv(s) && t in s.threads && u in s.threads && u != t
    ensures ThreadInv(Advance(s, t), u)
  {
    assert ThreadInv(s, t) && ThreadInv(s, u);
    var s' := Advance(s, t);
    if s != s' {
      if s.threads[u].Returned? {
        assert Effective(s, s.threads[u].g);
        if s.threads[t].Judging? {
          JudgedFresh(s, t, s.threads[u].g);
        }
      }
      if !s'.threads[t].Returned? {
        EffectiveKept(s, t, s'.threads[t]);
        assert s'.threads == Go(s, t, s'.threads[t]).threads;
        assert forall g: nat :: Effective(s', g) <==> Effective(Go(s, t, s'.threads[t]), g);
      }
      KeptFor(s, s', u, t);
    }
  }

  lemma KeepsInv(s: State, a: Action)
    requires Inv(s)
    ensures Inv(Step(s, a))
  {
    var s' := Step(s, a);
    forall t | t in s'.threads ensures ThreadInv(s', t) {
      if a.Proceed? && a.t in s.threads {
        if t == a.t { AdvanceKeepsOwn(s, t); } else { AdvanceKeepsOther(s, a.t, t); }
      } else if t in s.threads {
        assert ThreadInv(s, t);
        CallsKeepEffective(s, a);
      }
    }
  }

  lemma CallsKeepEffective(s: State, a: Action)
    requires !a.Proceed? || a.t !in s.threads
    ensures forall g: nat :: Effective(Step(s, a), g) ==> Effective(s, g)
  {
    match a
    case CallUpdate(t, g) => EffectiveKept(s, t, Asked(g));
    case CallMerge(t, ads, own, now) => EffectiveKept(s, t, ToMerge(ads, own, now));
    case _ =>
  }

  lemma {:induction false} ExecInv(mode: Admission, actions: seq<Action>)
    ensures Inv(Exec(mode, actions))
    decreases |actions|
  {
    if actions != [] {
      var n := |actions| - 1;
      ExecInv(mode, actions[..n]);
      KeepsInv(Exec(mode, actions[..n]), actions[n]);
    }
  }

  // ---- Every run ----

  lemma ReturnedStays(s: State, a: Action, t: nat, g: nat)
    requires t in s.threads && s.threads[t] == Returned(g)
    ensures t in Step(s, a).threads && Step(s, a).threads[t] == Returned(g)
    ensures s.counter <= Step(s, a).counter
  {
  }

  /**
    Once an update to generation g has returned, every later state, whatever the interleaving, holds
    only members of generation g or above, and the counter never falls below g.
   */
  lemma {:induction false} RevocationHolds(
      mode: Admission, actions: seq<Action>, later: seq<Action>, t: nat, g: nat)
    requires t in Exec(mode, actions).threads && Exec(mode, actions).threads[t] == Returned(g)
    ensures var s := Exec(mode, actions + later);
            && t in s.threads && s.threads[t] == Returned(g) && g <= s.counter
            && forall id :: id in s.peers && s.peers[id].generation.Some? ==> s.peers[id].generation.value >= g
    decreases |later|
  {
    ExecInv(mode, actions + later);
    if later == [] {
      assert actions + later == actions;
    } else {
      var n := |later| - 1;
      var all := actions + later;
      assert all[..|all| - 1] == actions + later[..n] && all[|all| - 1] == later[n];
      RevocationHolds(mode, actions, later[..n], t, g);
      ReturnedStays(Exec(mode, actions + later[..n]), later[n], t, g);
    }
    assert ThreadInv(Exec(mode, actions + later), t);
  }

  // ---- Where members come from ----

  predicate NewAndGenuine(mode: Admission, minimum: nat, ad: Advert) {
    mode.Restricted? && ad.genuine && ad.generation >= mode.policyMinimum && ad.generation >= minimum
  }

  /** Which advertised peers are stored, and as what. */
  lemma AdmittedExactly(mode: Admission, minimum: nat, own: string, ad: Advert, now: nat)
    ensures var peer := Admit(mode, minimum, own, ad, now);
            && (peer.Some?
                <==> (ad.nodeId != "" && ad.nodeId != own && (mode == Public || NewAndGenuine(mode, minimum, ad))))
            && (peer.Some? && mode == Public ==> peer.value == Peer(None, None, now))
            && (peer.Some? && mode != Public ==> peer.value == Peer(Some(ad.generation), Some(ad.expiresAt), now))
  {
  }

  /** After a merge an id is stored exactly if it was before or some advertised peer of that id is admitted. */
  lemma {:induction false} MergedExactly(
      peers: Peers, mode: Admission, minimum: nat, own: string, ads: seq<Advert>, now: nat, id: string)
    ensures id in Merged(peers, mode, minimum, own, ads, now) <==>
            id in peers || exists ad :: ad in ads && ad.nodeId == id && Admit(mode, minimum, own, ad, now).Some?
    decreases |ads|
  {
    if ads != [] {
      var n := |ads| - 1;
      MergedExactly(peers, mode, minimum, own, ads[..n], now, id);
      assert forall ad :: ad in ads <==> ad in ads[..n] || ad == ads[n];
    }
  }

  ghost predicate Advertised(actions: seq<Action>, ad: Advert) {
    exists k :: 0 <= k < |actions| && actions[k].CallMerge? && ad in actions[k].ads
  }

  /** The peer is what an advertised entry for this id says; a restricted member was genuine and new enough. */
  ghost predicate TrueTo(mode: Admission, id: string, peer: Peer, ad: Advert) {
    && ad.nodeId == id
    && match mode
       case Public => peer.generation == None
       case Restricted(policyMinimum) =>
         ad.genuine && ad.generation >= policyMinimum
         && peer.generation == Some(ad.generation) && peer.expiresAt == Some(ad.expiresAt)
  }

  ghost predicate HasOrigin(actions: seq<Action>, mode: Admission, id: string, peer: Peer) {
    exists ad :: Advertised(actions, ad) && TrueTo(mode, id, peer, ad)
  }

  function Pending(th: Thread): seq<Advert> {
    if th.ToMerge? || th.Merging? || th.Judging? then th.ads else []
  }

  ghost predicate Origins(mode: Admission, actions: seq<Action>) {
    var s := Exec(mode, actions);
    && s.mode == mode
    && (forall t, ad :: t in s.threads && ad in Pending(s.threads[t]) ==> Advertised(actions, ad))
    && forall id :: id in s.peers ==> HasOrigin(actions, mode, id, s.peers[id])
  }

  lemma AdvertisedLater(actions: seq<Action>, ad: Advert)
    requires actions != [] && Advertised(actions[..|actions| - 1], ad)
    ensures Advertised(actions, ad)
  {
    var front := actions[..|actions| - 1];
    var k :| 0 <= k < |front| && front[k].CallMerge? && ad in front[k].ads;
    assert actions[k] == front[k];
  }

  lemma OriginLater(actions: seq<Action>, mode: Admission, id: string, peer: Peer, peer': Peer)
    requires actions != [] && HasOrigin(actions[..|actions| - 1], mode, id, peer)
    requires peer'.generation == peer.generation && peer'.expiresAt == peer.expiresAt
    ensures HasOrigin(actions, mode, id, peer')
  {
    var ad :| Advertised(actions[..|actions| - 1], ad) && TrueTo(mode, id, peer, ad);
    AdvertisedLater(actions, ad);
    assert TrueTo(mode, id, peer', ad);
  }

  /** A step stores no peer but an advertised one that is admitted, or one that was there. */
  lemma PeerFrom(s: State, a: Action, id: string)
    requires id in Step(s, a).peers
    ensures || (id in s.peers && Step(s, a).peers[id].generation == s.peers[id].generation
                && Step(s, a).peers[id].expiresAt == s.peers[id].expiresAt)
            || (a.Proceed? && a.t in s.threads && s.threads[a.t].Judging? && s.threads[a.t].ads != []
                && TrueTo(s.mode, id, Step(s, a).peers[id], s.threads[a.t].ads[0]))
  {
  }

  lemma PendingFrom(s: State, a: Action, t: nat, ad: Advert)
    requires t in Step(s, a).threads && ad in Pending(Step(s, a).threads[t])
    ensures (t in s.threads && ad in Pending(s.threads[t])) || (a.CallMerge? && ad in a.ads)
  {
  }

  lemma {:induction false} OriginsHold(mode: Admission, actions: seq<Action>)
    ensures Origins(mode, actions)
    decreases |actions|
  {
    if actions != [] {
      var n := |actions| - 1;
      var front, a := actions[..n], actions[n];
      OriginsHold(mode, front);
      var s, s' := Exec(mode, front), Exec(mode, actions);
      forall t, ad | t in s'.threads && ad in Pending(s'.threads[t]) ensures Advertised(actions, ad) {
        PendingFrom(s, a, t, ad);
        if t in s.threads && ad in Pending(s.threads[t]) {
          AdvertisedLater(actions, ad);
        }
      }
      forall id | id in s'.peers ensures HasOrigin(actions, mode, id, s'.peers[id]) {
        OriginStep(mode, actions, id);
      }
    }
  }

  lemma OriginStep(mode: Admission, actions: seq<Action>, id: string)
    requires actions != [] && Origins(mode, actions[..|actions| - 1]) && id in Exec(mode, actions).peers
    ensures HasOrigin(actions, mode, id, Exec(mode, actions).peers[id])
  {
    var front, a := actions[..|actions| - 1], actions[|actions| - 1];
    var s, peer := Exec(mode, front), Exec(mode, actions).peers[id];
    PeerFrom(s, a, id);
    if id in s.peers && peer.generation == s.peers[id].generation && peer.expiresAt == s.peers[id].expiresAt {
      OriginLater(actions, mode, id, s.peers[id], peer);
    } else {
      var ad := s.threads[a.t].ads[0];
      assert ad in Pending(s.threads[a.t]);
      AdvertisedLater(actions, ad);
    }
  }

  /**
    In every run each stored peer comes from an advertised entry of its id; a restricted member from a
    genuine one, of a generation the policy admits, with that generation and expiry.
   */
  lemma MembersAreGenuine(mode: Admission, actions: seq<Action>, id: string)
    requires id in Exec(mode, actions).peers
    ensures exists ad :: Advertised(actions, ad) && TrueTo(mode, id, Exec(mode, actions).peers[id], ad)
  {
    OriginsHold(mode, actions);
    assert HasOrigin(actions, mode, id, Exec(mode, actions).peers[id]);
  }
}
