/**
  When the verifier accepts a dispatch ticket, and which refusal it gives otherwise, said without the
  verifier: as conditions on the ticket, the bundle, the bindings, the time and the replay cache.
 */
module TicketAcceptance {
  import opened Prelude
  import opened Ordering
  import opened Json
  import opened CanonicalJson
  import opened TrustBundle

  /** The first key of the list with the claimed id. */
  ghost predicate FirstKeyAt(keys: seq<TrustKey>, id: Json, i: nat) {
    i < |keys| && id == Str(keys[i].keyId) && forall j :: 0 <= j < i ==> keys[j].keyId != keys[i].keyId
  }

  ghost predicate InWindow(b: Bundle, now: nat) {
    (b.validFrom.Some? ==> b.validFrom.value <= now) && (b.validUntil.Some? ==> now <= b.validUntil.value)
  }

  /** An empty list, or one that names the claim. */
  ghost predicate EmptyOrNames(list: seq<string>, claim: Json) {
    list == [] || exists t :: t in list && claim == Str(t)
  }

  ghost predicate FiveBindings(claims: Json, bindings: Bindings) {
    && Field(claims, "issuer") == Str(bindings.issuer) && Field(claims, "provider_id") == Str(bindings.providerId)
    && Field(claims, "intent") == Str(bindings.intent)
    && Field(claims, "constraints_digest") == Str(bindings.constraintsDigest)
    && (bindings.audience == None || Field(claims, "audience") == Str(bindings.audience.value))
  }

  /** The claimed expiry is an unsigned 64-bit time yet to come, and the ticket id a text that is not empty. */
  ghost predicate Unexpired(claims: Json, now: nat) {
    && (exists e :: now < e < U64_LIMIT && Field(claims, "expires_at") == Num(Int(e)))
    && exists t :: t != "" && Field(claims, "jti") == Str(t)
  }

  ghost predicate NotReplayed(claims: Json, cache: Option<Seen>, now: nat) {
    cache.Some? ==> forall t :: t in cache.value && Field(claims, "jti") == Str(t) ==> cache.value[t] <= now
  }

  /** A check and the code of its refusal. */
  datatype Check = Check(holds: bool, code: string)

  /** The checks made before a key is looked up, in their order. */
  ghost function BundleChecks(claims: Json, b: Bundle, now: nat, minimumVersion: nat): seq<Check> {
    [Check(b.version >= minimumVersion, "reject_bundle_rollback"),
     Check(b.validFrom.Some? ==> b.validFrom.value <= now, "reject_bundle_not_yet_valid"),
     Check(b.validUntil.Some? ==> now <= b.validUntil.value, "reject_bundle_expired"),
     Check(Field(claims, "profile") == Str(PROFILE), "reject_required_profile_downgrade"),
     Check(Field(claims, "key_id").Str?, "reject_unknown_key")]
  }

  /** The checks made with the key, in their order. */
  ghost function KeyChecks(key: TrustKey, claims: Json, signature: string, bindings: Bindings, now: nat,
                           cache: Option<Seen>, signed: (string, string, string) -> bool): seq<Check>
  {
    [Check(key.state != "revoked", "reject_key_revoked"),
     Check(key.validFrom <= now <= key.validUntil, "reject_key_expired"),
     Check(EmptyOrNames(key.allowedProfiles, Str(PROFILE)), "reject_profile_not_allowed"),
     Check(EmptyOrNames(key.issuers, Field(claims, "issuer")), "reject_issuer"),
     Check(EmptyOrNames(key.audiences, Field(claims, "audience")), "reject_audience"),
     Check(FiveBindings(claims, bindings) && Unexpired(claims, now), "reject_claim_mismatch"),
     Check(signed(key.publicKey, signature, DOMAIN + Print(claims)), "reject_signature"),
     Check(NotReplayed(claims, cache, now), "reject_local_replay")]
  }

  ghost predicate FailsFirst(checks: seq<Check>, n: nat) {
    n < |checks| && !checks[n].holds && forall m :: 0 <= m < n ==> checks[m].holds
  }

  ghost predicate AllHold(checks: seq<Check>) {
    forall m :: 0 <= m < |checks| ==> checks[m].holds
  }

  lemma {:induction false} FirstKeyFound(keys: seq<TrustKey>, id: string, i: nat)
    requires FirstKeyAt(keys, Str(id), i)
    ensures FirstWith(keys, KeyId, id) == Some(keys[i])
    decreases i
  {
    if i > 0 {
      assert keys[0].keyId != id;
      assert FirstKeyAt(keys[1..], Str(id), i - 1) by {
        forall j | 0 <= j < i - 1 ensures keys[1..][j].keyId != id { assert keys[1..][j] == keys[j + 1]; }
      }
      FirstKeyFound(keys[1..], id, i - 1);
    }
  }

  lemma {:induction false} FindFirstKey(keys: seq<TrustKey>, id: string)
    ensures FirstWith(keys, KeyId, id) == None <==> forall i :: 0 <= i < |keys| ==> keys[i].keyId != id
    ensures FirstWith(keys, KeyId, id).Some? ==> exists i: nat :: FirstKeyAt(keys, Str(id), i)
  {
    if keys != [] && keys[0].keyId != id {
      FindFirstKey(keys[1..], id);
      assert forall i :: 1 <= i < |keys| ==> keys[i] == keys[1..][i - 1];
      if FirstWith(keys[1..], KeyId, id).Some? {
        var i: nat :| FirstKeyAt(keys[1..], Str(id), i);
        assert FirstKeyAt(keys, Str(id), i + 1);
      }
    } else if keys != [] {
      assert FirstKeyAt(keys, Str(id), 0);
    }
  }

  lemma PermitsMeans(list: seq<string>, v: Json)
    ensures Permits(list, v) <==> EmptyOrNames(list, v)
  {
  }

  lemma ClaimsMeans(claims: Json, bindings: Bindings, now: nat)
    ensures Bound(claims, bindings) <==> FiveBindings(claims, bindings)
    ensures var e, t := AsUnsigned(Field(claims, "expires_at")), AsText(Field(claims, "jti"));
            Unexpired(claims, now) <==> e.Some? && e.value > now && t.Some? && t.value != []
  {
  }

  lemma KeyRefusalByChecks(key: TrustKey, claims: Json, now: nat)
    ensures var issuer, audience := Field(claims, "issuer"), Field(claims, "audience");
            KeyRefusal(key, issuer, audience, now) ==
            if key.state == "revoked" then Some("reject_key_revoked")
            else if !(key.validFrom <= now <= key.validUntil) then Some("reject_key_expired")
            else if !EmptyOrNames(key.allowedProfiles, Str(PROFILE)) then Some("reject_profile_not_allowed")
            else if !EmptyOrNames(key.issuers, issuer) then Some("reject_issuer")
            else if !EmptyOrNames(key.audiences, audience) then Some("reject_audience")
            else None
  {
    PermitsMeans(key.allowedProfiles, Str(PROFILE));
    PermitsMeans(key.issuers, Field(claims, "issuer"));
    PermitsMeans(key.audiences, Field(claims, "audience"));
  }

  lemma ReplayMeans(claims: Json, cache: Seen, now: nat, t: string)
    requires Field(claims, "jti") == Str(t)
    ensures t in Purge(cache, now) <==> !NotReplayed(claims, Some(cache), now)
  {
  }

  /** Before a key is looked up: the first check to fail names the refusal. */
  lemma BundleRefusal(claims: Json, signature: string, b: Bundle, bindings: Bindings, now: nat, minimumVersion: nat,
                      cache: Option<Seen>, signed: (string, string, string) -> bool, n: nat)
    requires FailsFirst(BundleChecks(claims, b, now, minimumVersion), n)
    ensures Verdict(claims, signature, b, bindings, now, minimumVersion, cache, signed)
         == (Reject(BundleChecks(claims, b, now, minimumVersion)[n].code, None), cache)
  {
    var cs := BundleChecks(claims, b, now, minimumVersion);
    assert n > 0 ==> cs[0].holds;
    assert n > 1 ==> cs[1].holds;
    assert n > 2 ==> cs[2].holds;
    assert n > 3 ==> cs[3].holds;
  }

  /** With no key of that id in the bundle. */
  lemma UnknownKeyRefusal(claims: Json, signature: string, b: Bundle, bindings: Bindings, now: nat,
                          minimumVersion: nat, cache: Option<Seen>, signed: (string, string, string) -> bool)
    requires AllHold(BundleChecks(claims, b, now, minimumVersion))
    requires forall i :: 0 <= i < |b.keys| ==> Field(claims, "key_id") != Str(b.keys[i].keyId)
    ensures Field(claims, "key_id").Str?
    ensures Verdict(claims, signature, b, bindings, now, minimumVersion, cache, signed)
         == (Reject("reject_unknown_key", Some(Field(claims, "key_id").text)), cache)
  {
    BundlePassed(claims, b, now, minimumVersion);
    FindFirstKey(b.keys, Field(claims, "key_id").text);
  }

  lemma BundlePassed(claims: Json, b: Bundle, now: nat, minimumVersion: nat)
    ensures AllHold(BundleChecks(claims, b, now, minimumVersion)) <==>
            b.version >= minimumVersion && InWindow(b, now) && Field(claims, "profile") == Str(PROFILE)
            && Field(claims, "key_id").Str?
  {
    var cs := BundleChecks(claims, b, now, minimumVersion);
    if AllHold(cs) {
      assert cs[0].holds && cs[1].holds && cs[2].holds && cs[3].holds && cs[4].holds;
    }
  }

  /** The verdict with the first key of the claimed id: that of the first check to fail, or acceptance. */
  lemma KeyDecides(claims: Json, signature: string, b: Bundle, bindings: Bindings, now: nat, minimumVersion: nat,
                   cache: Option<Seen>, signed: (string, string, string) -> bool, i: nat)
    requires AllHold(BundleChecks(claims, b, now, minimumVersion))
    requires FirstKeyAt(b.keys, Field(claims, "key_id"), i)
    ensures var d := Verdict(claims, signature, b, bindings, now, minimumVersion, cache, signed).0;
            var cs := KeyChecks(b.keys[i], claims, signature, bindings, now, cache, signed);
            && (AllHold(cs) ==> d == Decision(true, "accept_anchored", true, Some(b.keys[i].keyId)))
            && forall n: nat :: FailsFirst(cs, n) ==> d == Reject(cs[n].code, Some(b.keys[i].keyId))
  {
    BundlePassed(claims, b, now, minimumVersion);
    FirstKeyFound(b.keys, b.keys[i].keyId, i);
    FoundKeyDecides(b.keys[i], claims, signature, bindings, now, cache, signed);
  }

  lemma FoundKeyDecides(key: TrustKey, claims: Json, signature: string, bindings: Bindings, now: nat,
                        cache: Option<Seen>, signed: (string, string, string) -> bool)
    ensures var found := Judge(key.keyId, Some(key), Field(claims, "issuer"), Field(claims, "audience"), now);
            var d := FindingVerdict(found, claims, signature, bindings, now, cache, signed).0;
            var cs := KeyChecks(key, claims, signature, bindings, now, cache, signed);
            && (AllHold(cs) ==> d == Decision(true, "accept_anchored", true, Some(key.keyId)))
            && forall n: nat :: FailsFirst(cs, n) ==> d == Reject(cs[n].code, Some(key.keyId))
  {
    var cs := KeyChecks(key, claims, signature, bindings, now, cache, signed);
    KeyRefusalByChecks(key, claims, now);
    ClaimsMeans(claims, bindings, now);
    if cs[5].holds && cache.Some? {
      ReplayMeans(claims, cache.value, now, Field(claims, "jti").text);
    }
    FirstOfEight(cs);
  }

  lemma FirstOfEight(cs: seq<Check>)
    requires |cs| == 8
    ensures AllHold(cs) <==> cs[0].holds && cs[1].holds && cs[2].holds && cs[3].holds && cs[4].holds && cs[5].holds
                             && cs[6].holds && cs[7].holds
    ensures forall n: nat :: FailsFirst(cs, n) ==>
              n == if !cs[0].holds then 0 else if !cs[1].holds then 1 else if !cs[2].holds then 2
                   else if !cs[3].holds then 3 else if !cs[4].holds then 4 else if !cs[5].holds then 5
                   else if !cs[6].holds then 6 else 7
  {
  }

  /** Everything that has to hold of a ticket, with the first key of the claimed id at place i. */
  ghost predicate Acceptable(claims: Json, signature: string, b: Bundle, bindings: Bindings, now: nat,
                             minimumVersion: nat, cache: Option<Seen>, signed: (string, string, string) -> bool, i: nat)
  {
    && b.version >= minimumVersion && InWindow(b, now) && Field(claims, "profile") == Str(PROFILE)
    && FirstKeyAt(b.keys, Field(claims, "key_id"), i)
    && b.keys[i].state != "revoked" && b.keys[i].validFrom <= now <= b.keys[i].validUntil
    && EmptyOrNames(b.keys[i].allowedProfiles, Str(PROFILE))
    && EmptyOrNames(b.keys[i].issuers, Field(claims, "issuer"))
    && EmptyOrNames(b.keys[i].audiences, Field(claims, "audience"))
    && FiveBindings(claims, bindings) && Unexpired(claims, now)
    && signed(b.keys[i].publicKey, signature, DOMAIN + Print(claims))
    && NotReplayed(claims, cache, now)
  }

  /** A ticket is accepted if and only if all of that holds for the first key of the claimed id. */
  lemma AcceptedExactly(claims: Json, signature: string, b: Bundle, bindings: Bindings, now: nat,
                        minimumVersion: nat, cache: Option<Seen>, signed: (string, string, string) -> bool)
    ensures Verdict(claims, signature, b, bindings, now, minimumVersion, cache, signed).0.accepted <==>
            exists i: nat :: Acceptable(claims, signature, b, bindings, now, minimumVersion, cache, signed, i)
  {
    var cs := BundleChecks(claims, b, now, minimumVersion);
    BundlePassed(claims, b, now, minimumVersion);
    if !AllHold(cs) {
      var n := FirstFailure(cs);
      BundleRefusal(claims, signature, b, bindings, now, minimumVersion, cache, signed, n);
    } else if i: nat :| FirstKeyAt(b.keys, Field(claims, "key_id"), i) {
      KeyAccepts(claims, signature, b, bindings, now, minimumVersion, cache, signed, i);
      forall j: nat | FirstKeyAt(b.keys, Field(claims, "key_id"), j) ensures j == i {
        OneFirstKey(b.keys, Field(claims, "key_id"), i, j);
      }
    } else {
      FindFirstKey(b.keys, Field(claims, "key_id").text);
      UnknownKeyRefusal(claims, signature, b, bindings, now, minimumVersion, cache, signed);
    }
  }

  lemma OneFirstKey(keys: seq<TrustKey>, id: Json, i: nat, j: nat)
    requires FirstKeyAt(keys, id, i) && FirstKeyAt(keys, id, j)
    ensures i == j
  {
  }

  lemma KeyAccepts(claims: Json, signature: string, b: Bundle, bindings: Bindings, now: nat, minimumVersion: nat,
                   cache: Option<Seen>, signed: (string, string, string) -> bool, i: nat)
    requires AllHold(BundleChecks(claims, b, now, minimumVersion))
    requires FirstKeyAt(b.keys, Field(claims, "key_id"), i)
    ensures Verdict(claims, signature, b, bindings, now, minimumVersion, cache, signed).0.accepted <==>
            Acceptable(claims, signature, b, bindings, now, minimumVersion, cache, signed, i)
  {
    var cs := KeyChecks(b.keys[i], claims, signature, bindings, now, cache, signed);
    BundlePassed(claims, b, now, minimumVersion);
    KeyDecides(claims, signature, b, bindings, now, minimumVersion, cache, signed, i);
    FirstOfEight(cs);
    if !AllHold(cs) {
      var n := FirstFailure(cs);
      assert FailsFirst(cs, n);
    }
  }

  lemma {:induction false} FirstFailure(checks: seq<Check>) returns (n: nat)
    requires !AllHold(checks)
    ensures FailsFirst(checks, n)
  {
    n := 0;
    while checks[n].holds
      invariant n < |checks| && forall m :: 0 <= m < n ==> checks[m].holds
      decreases |checks| - n
    {
      n := n + 1;
    }
  }
}
