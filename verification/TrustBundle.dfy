/**
  Dispatch trust bundles: the canonical form that is stored, the ticket verifier that consults a
  bundle, and the record that a commit writes and a load reads back.
 */
module TrustBundle {
  import opened Prelude
  import opened Ordering
  import opened Json
  import opened CanonicalJson

  const PROFILE := "dispatch_ticket_v2"
  const DOMAIN := "IICP-DISPATCH-TICKET-V2\0"

  datatype TrustKey = TrustKey(
    keyId: string, publicKey: string, state: string, validFrom: nat, validUntil: nat,
    allowedProfiles: seq<string>, issuers: seq<string>, audiences: seq<string>)

  datatype Bundle = Bundle(
    version: nat, keys: seq<TrustKey>, issuer: Option<string>, validFrom: Option<nat>, validUntil: Option<nat>)

  function KeyId(k: TrustKey): string { k.keyId }

  function Itself(s: string): string { s }

  // ---- The canonical form ----

  function CanonKey(k: TrustKey): TrustKey {
    k.(allowedProfiles := SortBy(if k.allowedProfiles == [] then [PROFILE] else k.allowedProfiles, Itself),
       issuers := SortBy(k.issuers, Itself),
       audiences := SortBy(k.audiences, Itself))
  }

  function CanonKeys(ks: seq<TrustKey>): (r: seq<TrustKey>)
    ensures |r| == |ks| && forall i :: 0 <= i < |ks| ==> r[i] == CanonKey(ks[i])
  {
    seq(|ks|, i requires 0 <= i < |ks| => CanonKey(ks[i]))
  }

  function CanonBundle(b: Bundle): Bundle {
    b.(keys := CanonKeys(SortBy(b.keys, KeyId)))
  }

  lemma CanonKeyIdempotent(k: TrustKey)
    ensures CanonKey(CanonKey(k)) == CanonKey(k)
  {
    SortByIdempotent(if k.allowedProfiles == [] then [PROFILE] else k.allowedProfiles, Itself);
    SortByIdempotent(k.issuers, Itself);
    SortByIdempotent(k.audiences, Itself);
  }

  lemma CanonBundleIdempotent(b: Bundle)
    ensures CanonBundle(CanonBundle(b)) == CanonBundle(b)
  {
    var sorted := SortBy(b.keys, KeyId);
    var once := CanonKeys(sorted);
    SortBySorts(b.keys, KeyId);
    assert SortedBy(once, KeyId);
    SortByFixesSorted(once, KeyId);
    forall i | 0 <= i < |once| ensures CanonKeys(once)[i] == once[i] {
      CanonKeyIdempotent(sorted[i]);
    }
    assert CanonKeys(once) == once;
  }

  // ---- The verifier ----

  datatype Bindings = Bindings(
    issuer: string, providerId: string, intent: string, constraintsDigest: string, audience: Option<string>)

  datatype Decision = Decision(accepted: bool, code: string, anchored: bool, keyId: Option<string>)

  function Reject(code: string, keyId: Option<string>): Decision {
    Decision(false, code, false, keyId)
  }

  /** Index a JSON value by member name; anything absent is null. */
  function Field(v: Json, name: string): Json {
    if !v.Obj? then Null
    else
      match FirstWith(v.members, KeyOf, name)
      case Some(m) => m.value
      case None => Null
  }

  function AsUnsigned(v: Json): Option<nat> {
    if v.Num? && v.number.Int? && 0 <= v.number.value < U64_LIMIT then Some(v.number.value) else None
  }

  function AsText(v: Json): Option<string> {
    if v.Str? then Some(v.text) else None
  }

  /** An empty list permits everything. */
  predicate Permits(allowed: seq<string>, v: Json) {
    allowed == [] || (v.Str? && v.text in allowed)
  }

  predicate Bound(claims: Json, bindings: Bindings) {
    && Field(claims, "issuer") == Str(bindings.issuer)
    && Field(claims, "provider_id") == Str(bindings.providerId)
    && Field(claims, "intent") == Str(bindings.intent)
    && Field(claims, "constraints_digest") == Str(bindings.constraintsDigest)
    && (bindings.audience.Some? ==> Field(claims, "audience") == Str(bindings.audience.value))
  }

  /** The checks on the key named by a ticket. */
  function KeyRefusal(key: TrustKey, issuer: Json, audience: Json, now: nat): Option<string> {
    FirstRefusal(key.state == "revoked", now < key.validFrom || now > key.validUntil,
                 Permits(key.allowedProfiles, Str(PROFILE)), Permits(key.issuers, issuer),
                 Permits(key.audiences, audience))
  }

  function FirstRefusal(revoked: bool, expired: bool, profile: bool, issuer: bool, audience: bool): Option<string> {
    if revoked then Some("reject_key_revoked")
    else if expired then Some("reject_key_expired")
    else if !profile then Some("reject_profile_not_allowed")
    else if !issuer then Some("reject_issuer")
    else if !audience then Some("reject_audience")
    else None
  }

  /** What a bundle has to say about the key that a ticket names. */
  datatype Finding = NoKeyId | UnknownKey(keyId: string) | Refused(keyId: string, code: string)
                   | Usable(keyId: string, publicKey: string)

  function LookUp(keys: seq<TrustKey>, keyId: Json, issuer: Json, audience: Json, now: nat): Finding {
    if keyId.Str? then Judge(keyId.text, FirstWith(keys, KeyId, keyId.text), issuer, audience, now) else NoKeyId
  }

  function Judge(keyId: string, key: Option<TrustKey>, issuer: Json, audience: Json, now: nat): Finding {
    match key
    case None => UnknownKey(keyId)
    case Some(k) =>
      match KeyRefusal(k, issuer, audience, now)
      case Some(code) => Refused(keyId, code)
      case None => Usable(keyId, k.publicKey)
  }

  /** The rest of the decision for a usable key. */
  function KeyVerdict(keyId: string, publicKey: string, claims: Json, signature: string, bindings: Bindings,
                      now: nat, cache: Option<Seen>, signed: (string, string, string) -> bool)
    : (Decision, Option<Seen>)
  {
    var expires, jti := AsUnsigned(Field(claims, "expires_at")), AsText(Field(claims, "jti"));
    if !Bound(claims, bindings) || expires.None? || jti.None? || expires.value <= now || jti.value == [] then
      (Reject("reject_claim_mismatch", Some(keyId)), cache)
    else if !signed(publicKey, signature, DOMAIN + Print(claims)) then
      (Reject("reject_signature", Some(keyId)), cache)
    else if cache.None? then (Decision(true, "accept_anchored", true, Some(keyId)), cache)
    else
      var live := Purge(cache.value, now);
      if jti.value in live then (Reject("reject_local_replay", Some(keyId)), Some(live))
      else (Decision(true, "accept_anchored", true, Some(keyId)), Some(live[jti.value := expires.value]))
  }

  /**
    The decision and the replay cache it leaves. `signed(publicKey, signature, message)` stands for
    the signature check; no cache means that replays are not tracked.
   */
  function Verdict(claims: Json, signature: string, b: Bundle, bindings: Bindings, now: nat, minimumVersion: nat,
                   cache: Option<Seen>, signed: (string, string, string) -> bool): (Decision, Option<Seen>)
  {
    if b.version < minimumVersion then (Reject("reject_bundle_rollback", None), cache)
    else if b.validFrom.Some? && now < b.validFrom.value then (Reject("reject_bundle_not_yet_valid", None), cache)
    else if b.validUntil.Some? && now > b.validUntil.value then (Reject("reject_bundle_expired", None), cache)
    else if Field(claims, "profile") != Str(PROFILE) then
      (Reject("reject_required_profile_downgrade", None), cache)
    else
      var found := LookUp(b.keys, Field(claims, "key_id"), Field(claims, "issuer"), Field(claims, "audience"), now);
      FindingVerdict(found, claims, signature, bindings, now, cache, signed)
  }

  /** The decision once the key is looked up; nothing else of the bundle matters from here on. */
  function FindingVerdict(found: Finding, claims: Json, signature: string, bindings: Bindings, now: nat,
                          cache: Option<Seen>, signed: (string, string, string) -> bool): (Decision, Option<Seen>)
  {
    match found
    case NoKeyId => (Reject("reject_unknown_key", None), cache)
    case UnknownKey(keyId) => (Reject("reject_unknown_key", Some(keyId)), cache)
    case Refused(keyId, code) => (Reject(code, Some(keyId)), cache)
    case Usable(keyId, publicKey) => KeyVerdict(keyId, publicKey, claims, signature, bindings, now, cache, signed)
  }

  /** The first key with an identifier, looked up in the canonical form, is the canonical form of the first. */
  lemma {:induction false} FirstCanonKey(ks: seq<TrustKey>, id: string)
    ensures FirstWith(CanonKeys(ks), KeyId, id) == CanonOption(FirstWith(ks, KeyId, id))
  {
    if ks != [] {
      FirstCanonKey(ks[1..], id);
      assert CanonKeys(ks)[1..] == CanonKeys(ks[1..]);
    }
  }

  lemma SameRefusal(key: TrustKey, issuer: Json, audience: Json, now: nat)
    ensures KeyRefusal(CanonKey(key), issuer, audience, now) == KeyRefusal(key, issuer, audience, now)
  {
    SortedPermits(if key.allowedProfiles == [] then [PROFILE] else key.allowedProfiles, Str(PROFILE));
    SortedPermits(key.issuers, issuer);
    SortedPermits(key.audiences, audience);
  }

  lemma SortedPermits(allowed: seq<string>, v: Json)
    ensures Permits(SortBy(allowed, Itself), v) == Permits(allowed, v)
  {
    SameElements(SortBy(allowed, Itself), allowed);
  }

  function CanonOption(k: Option<TrustKey>): Option<TrustKey> {
    match k case None => None case Some(key) => Some(CanonKey(key))
  }

  lemma SameJudgement(keyId: string, k: Option<TrustKey>, issuer: Json, audience: Json, now: nat)
    ensures Judge(keyId, CanonOption(k), issuer, audience, now) == Judge(keyId, k, issuer, audience, now)
  {
    if k.Some? {
      SameRefusal(k.value, issuer, audience, now);
    }
  }

  lemma SameFinding(keys: seq<TrustKey>, keyId: Json, issuer: Json, audience: Json, now: nat)
    ensures LookUp(CanonKeys(SortBy(keys, KeyId)), keyId, issuer, audience, now)
         == LookUp(keys, keyId, issuer, audience, now)
  {
    if keyId.Str? {
      SortByKeepsFirst(keys, KeyId, keyId.text);
      FirstCanonKey(SortBy(keys, KeyId), keyId.text);
      SameJudgement(keyId.text, FirstWith(keys, KeyId, keyId.text), issuer, audience, now);
    }
  }

  /**
    Canonicalising never changes a verdict, nor the replay cache left behind: for every ticket,
    signature, binding, time, minimum version and cache, with duplicate key ids and empty lists.
   */
  lemma CanonicalVerdict(claims: Json, signature: string, b: Bundle, bindings: Bindings, now: nat,
                         minimumVersion: nat, cache: Option<Seen>, signed: (string, string, string) -> bool)
    ensures Verdict(claims, signature, CanonBundle(b), bindings, now, minimumVersion, cache, signed)
         == Verdict(claims, signature, b, bindings, now, minimumVersion, cache, signed)
  {
    SameFinding(b.keys, Field(claims, "key_id"), Field(claims, "issuer"), Field(claims, "audience"), now);
  }

  // ---- JSON form of a bundle ----

  function Texts(ts: seq<string>): (r: seq<Json>)
    ensures |r| == |ts| && forall i :: 0 <= i < |ts| ==> r[i] == Str(ts[i])
  {
    seq(|ts|, i requires 0 <= i < |ts| => Str(ts[i]))
  }

  function KeyValue(k: TrustKey): Json {
    Obj([Member("key_id", Str(k.keyId)), Member("public_key_b64url", Str(k.publicKey)),
         Member("state", Str(k.state)), Member("valid_from", Num(Int(k.validFrom))),
         Member("valid_until", Num(Int(k.validUntil))), Member("allowed_profiles", Arr(Texts(k.allowedProfiles))),
         Member("issuers", Arr(Texts(k.issuers))), Member("audiences", Arr(Texts(k.audiences)))])
  }

  function KeyValues(ks: seq<TrustKey>): (r: seq<Json>)
    ensures |r| == |ks| && forall i :: 0 <= i < |ks| ==> r[i] == KeyValue(ks[i])
  {
    seq(|ks|, i requires 0 <= i < |ks| => KeyValue(ks[i]))
  }

  /** A member that is left out when it has no value. */
  function Optional(name: string, v: Option<Json>): seq<Member> {
    if v.Some? then [Member(name, v.value)] else []
  }

  function OptionalNumber(n: Option<nat>): Option<Json> {
    if n.Some? then Some(Num(Int(n.value))) else None
  }

  function OptionalText(t: Option<string>): Option<Json> {
    if t.Some? then Some(Str(t.value)) else None
  }

  function BundleValue(b: Bundle): Json {
    Obj([Member("bundle_version", Num(Int(b.version))), Member("keys", Arr(KeyValues(b.keys)))]
        + Optional("issuer", OptionalText(b.issuer))
        + Optional("valid_from", OptionalNumber(b.validFrom))
        + Optional("valid_until", OptionalNumber(b.validUntil)))
  }

  function CanonicalText(b: Bundle): string {
    Print(BundleValue(CanonBundle(b)))
  }

  function ReadTexts(v: Json): Option<seq<string>> {
    if v.Arr? && forall i :: 0 <= i < |v.items| ==> v.items[i].Str? then
      Some(seq(|v.items|, i requires 0 <= i < |v.items| && v.items[i].Str? => v.items[i].text))
    else None
  }

  predicate Has(v: Json, name: string) {
    v.Obj? && FirstWith(v.members, KeyOf, name).Some?
  }

  /** A list member, empty when absent. */
  function ReadList(v: Json, name: string): Option<seq<string>> {
    if Has(v, name) then ReadTexts(Field(v, name)) else Some([])
  }

  function ReadKey(v: Json): Option<TrustKey> {
    var keyId, publicKey := AsText(Field(v, "key_id")), AsText(Field(v, "public_key_b64url"));
    var state := AsText(Field(v, "state"));
    var from, until := AsUnsigned(Field(v, "valid_from")), AsUnsigned(Field(v, "valid_until"));
    var profiles := ReadList(v, "allowed_profiles");
    var issuers, audiences := ReadList(v, "issuers"), ReadList(v, "audiences");
    if keyId.Some? && publicKey.Some? && state.Some? && from.Some? && until.Some?
       && profiles.Some? && issuers.Some? && audiences.Some? then
      Some(TrustKey(keyId.value, publicKey.value, state.value, from.value, until.value,
                    profiles.value, issuers.value, audiences.value))
    else None
  }

  function ReadKeys(vs: seq<Json>): Option<seq<TrustKey>> {
    if vs == [] then Some([])
    else
      match (ReadKey(vs[0]), ReadKeys(vs[1..]))
      case (Some(k), Some(ks)) => Some([k] + ks)
      case _ => None
  }

  /** An optional member; null counts as absent, the wrong type is an error. */
  function ReadOptional<T>(v: Json, name: string, as_: Json -> Option<T>): Option<Option<T>> {
    if Field(v, name) == Null then Some(None)
    else
      match as_(Field(v, name))
      case Some(x) => Some(Some(x))
      case None => None
  }

  function ReadBundle(v: Json): Option<Bundle> {
    var version, keys := AsUnsigned(Field(v, "bundle_version")), Field(v, "keys");
    var issuer := ReadOptional(v, "issuer", AsText);
    var from := ReadOptional(v, "valid_from", AsUnsigned);
    var until := ReadOptional(v, "valid_until", AsUnsigned);
    if version.Some? && keys.Arr? && ReadKeys(keys.items).Some? && issuer.Some? && from.Some? && until.Some? then
      Some(Bundle(version.value, ReadKeys(keys.items).value, issuer.value, from.value, until.value))
    else None
  }

  /** The numbers of a bundle are 64-bit unsigned. */
  ghost predicate U64Key(k: TrustKey) {
    k.validFrom < U64_LIMIT && k.validUntil < U64_LIMIT
  }

  ghost predicate U64Bundle(b: Bundle) {
    && b.version < U64_LIMIT
    && (b.validFrom.Some? ==> b.validFrom.value < U64_LIMIT)
    && (b.validUntil.Some? ==> b.validUntil.value < U64_LIMIT)
    && forall i :: 0 <= i < |b.keys| ==> U64Key(b.keys[i])
  }

  /** Putting members in order does not disturb lookups. */
  lemma FieldOfCanon(ms: seq<Member>, name: string)
    ensures Field(Canon(Obj(ms)), name) == Canon(Field(Obj(ms), name))
    ensures Has(Canon(Obj(ms)), name) <==> Has(Obj(ms), name)
  {
    SortByKeepsFirst(CanonMembers(ms), KeyOf, name);
    FirstOfCanon(ms, name);
  }

  lemma {:induction false} FirstOfCanon(ms: seq<Member>, name: string)
    ensures FirstWith(CanonMembers(ms), KeyOf, name) ==
            match FirstWith(ms, KeyOf, name)
            case None => None
            case Some(m) => Some(Member(m.key, Canon(m.value)))
  {
    if ms != [] {
      FirstOfCanon(ms[1..], name);
      assert CanonMembers(ms)[1..] == CanonMembers(ms[1..]);
    }
  }

  lemma ReadTextsOfCanon(ts: seq<string>)
    ensures ReadTexts(Canon(Arr(Texts(ts)))) == Some(ts)
  {
    var v := Canon(Arr(Texts(ts)));
    assert forall i :: 0 <= i < |ts| ==> v.items[i] == Str(ts[i]);
    assert ReadTexts(v).value == ts;
  }

  /** With distinct names the lookup finds each member where it stands, before and after sorting. */
  lemma FieldAt(ms: seq<Member>, i: nat)
    requires DistinctBy(ms, KeyOf) && i < |ms|
    ensures Field(Obj(ms), ms[i].key) == ms[i].value && Has(Obj(ms), ms[i].key)
    ensures Field(Canon(Obj(ms)), ms[i].key) == Canon(ms[i].value) && Has(Canon(Obj(ms)), ms[i].key)
  {
    FirstAt(ms, i);
    FieldOfCanon(ms, ms[i].key);
  }

  lemma FieldNamed(ms: seq<Member>, i: nat, name: string, v: Json)
    requires DistinctBy(ms, KeyOf) && i < |ms| && ms[i] == Member(name, v)
    ensures Field(Canon(Obj(ms)), name) == Canon(v)
  {
    FieldAt(ms, i);
  }

  lemma ListNamed(ms: seq<Member>, i: nat, name: string, ts: seq<string>)
    requires DistinctBy(ms, KeyOf) && i < |ms| && ms[i] == Member(name, Arr(Texts(ts)))
    ensures ReadList(Canon(Obj(ms)), name) == Some(ts)
  {
    ReadListAt(ms, i, ts);
  }

  lemma {:induction false} FirstAt(ms: seq<Member>, i: nat)
    requires DistinctBy(ms, KeyOf) && i < |ms|
    ensures FirstWith(ms, KeyOf, ms[i].key) == Some(ms[i])
  {
    if i > 0 {
      assert KeyOf(ms[0]) != KeyOf(ms[i]);
      DistinctTail(ms, KeyOf);
      FirstAt(ms[1..], i - 1);
    }
  }

  lemma FieldMissing(ms: seq<Member>, name: string)
    requires forall j :: 0 <= j < |ms| ==> ms[j].key != name
    ensures Field(Canon(Obj(ms)), name) == Null
  {
    FirstMissing(ms, name);
    FieldOfCanon(ms, name);
  }

  lemma {:induction false} FirstMissing(ms: seq<Member>, name: string)
    requires forall j :: 0 <= j < |ms| ==> ms[j].key != name
    ensures FirstWith(ms, KeyOf, name) == None
  {
    if ms != [] {
      FirstMissing(ms[1..], name);
    }
  }

  lemma KeyMembersDistinct(k: TrustKey)
    ensures DistinctBy(KeyValue(k).members, KeyOf)
  {
  }

  lemma ReadKeyFields(v: Json, k: TrustKey)
    requires Field(v, "key_id") == Str(k.keyId) && Field(v, "public_key_b64url") == Str(k.publicKey)
    requires Field(v, "state") == Str(k.state) && U64Key(k)
    requires Field(v, "valid_from") == Num(Int(k.validFrom)) && Field(v, "valid_until") == Num(Int(k.validUntil))
    requires ReadList(v, "allowed_profiles") == Some(k.allowedProfiles)
    requires ReadList(v, "issuers") == Some(k.issuers) && ReadList(v, "audiences") == Some(k.audiences)
    ensures ReadKey(v) == Some(k)
  {
  }

  lemma ReadListAt(ms: seq<Member>, i: nat, ts: seq<string>)
    requires DistinctBy(ms, KeyOf) && i < |ms| && ms[i].value == Arr(Texts(ts))
    ensures ReadList(Canon(Obj(ms)), ms[i].key) == Some(ts)
  {
    FieldAt(ms, i);
    ReadTextsOfCanon(ts);
  }

  lemma ReadKeyOfMembers(ms: seq<Member>, k: TrustKey)
    requires U64Key(k) && ms == KeyValue(k).members
    ensures ReadKey(Canon(Obj(ms))) == Some(k)
  {
    KeyMembersDistinct(k);
    var v := Canon(Obj(ms));
    FieldNamed(ms, 0, "key_id", Str(k.keyId));
    FieldNamed(ms, 1, "public_key_b64url", Str(k.publicKey));
    FieldNamed(ms, 2, "state", Str(k.state));
    FieldNamed(ms, 3, "valid_from", Num(Int(k.validFrom)));
    FieldNamed(ms, 4, "valid_until", Num(Int(k.validUntil)));
    ListNamed(ms, 5, "allowed_profiles", k.allowedProfiles);
    ListNamed(ms, 6, "issuers", k.issuers);
    ListNamed(ms, 7, "audiences", k.audiences);
    ReadKeyFields(v, k);
  }

  /** The lists of a stored key may be missing; they then are empty. */
  lemma MissingListsAreEmpty(v: Json, k: TrustKey)
    requires U64Key(k) && !Has(v, "allowed_profiles") && !Has(v, "issuers") && !Has(v, "audiences")
    requires Field(v, "key_id") == Str(k.keyId) && Field(v, "public_key_b64url") == Str(k.publicKey)
    requires Field(v, "state") == Str(k.state)
    requires Field(v, "valid_from") == Num(Int(k.validFrom)) && Field(v, "valid_until") == Num(Int(k.validUntil))
    ensures ReadKey(v) == Some(k.(allowedProfiles := [], issuers := [], audiences := []))
  {
  }

  lemma {:induction false} ReadKeysPointwise(vs: seq<Json>, ks: seq<TrustKey>)
    requires |vs| == |ks| && forall i :: 0 <= i < |vs| ==> ReadKey(vs[i]) == Some(ks[i])
    ensures ReadKeys(vs) == Some(ks)
  {
    if ks != [] {
      assert ReadKey(vs[0]) == Some(ks[0]);
      ReadKeysPointwise(vs[1..], ks[1..]);
      assert [ks[0]] + ks[1..] == ks;
    }
  }

  lemma ReadKeysOfCanon(ks: seq<TrustKey>)
    requires forall i :: 0 <= i < |ks| ==> U64Key(ks[i])
    ensures ReadKeys(CanonItems(KeyValues(ks))) == Some(ks)
  {
    var vs := CanonItems(KeyValues(ks));
    forall i | 0 <= i < |vs| ensures ReadKey(vs[i]) == Some(ks[i]) {
      ReadKeyOfMembers(KeyValue(ks[i]).members, ks[i]);
    }
    ReadKeysPointwise(vs, ks);
  }

  /** An optional member at the end: present under its name, or the name is free. */
  lemma AppendOptional(ms: seq<Member>, name: string, v: Option<Json>)
    requires DistinctBy(ms, KeyOf) && forall j :: 0 <= j < |ms| ==> ms[j].key != name
    ensures var all := ms + Optional(name, v);
            && DistinctBy(all, KeyOf)
            && forall j :: |ms| <= j < |all| ==> all[j].key == name
  {
  }

  lemma BundleMembersDistinct(b: Bundle)
    ensures DistinctBy(BundleValue(b).members, KeyOf)
  {
    var base := [Member("bundle_version", Num(Int(b.version))), Member("keys", Arr(KeyValues(b.keys)))];
    AppendOptional(base, "issuer", OptionalText(b.issuer));
    var two := base + Optional("issuer", OptionalText(b.issuer));
    AppendOptional(two, "valid_from", OptionalNumber(b.validFrom));
    var three := two + Optional("valid_from", OptionalNumber(b.validFrom));
    AppendOptional(three, "valid_until", OptionalNumber(b.validUntil));
  }

  /** The lookup of an optional member: it is in the list, or nothing is under its name. */
  lemma OptionalField(ms: seq<Member>, name: string, v: Option<Json>)
    requires DistinctBy(ms, KeyOf)
    requires if v.Some? then Member(name, v.value) in ms else forall m :: m in ms ==> m.key != name
    ensures Field(Canon(Obj(ms)), name) == if v.Some? then Canon(v.value) else Null
  {
    if v.Some? {
      var i :| 0 <= i < |ms| && ms[i] == Member(name, v.value);
      FieldAt(ms, i);
    } else {
      FieldMissing(ms, name);
    }
  }

  lemma BundleFields(b: Bundle)
    ensures var v := Canon(BundleValue(b));
            && Field(v, "bundle_version") == Num(Int(b.version))
            && Field(v, "keys") == Arr(CanonItems(KeyValues(b.keys)))
  {
    var ms := BundleValue(b).members;
    BundleMembersDistinct(b);
    FieldAt(ms, 0);
    FieldAt(ms, 1);
  }

  lemma BundleOptions(b: Bundle)
    ensures var v := Canon(BundleValue(b));
            && ReadOptional(v, "issuer", AsText) == Some(b.issuer)
            && (U64Bundle(b) ==> ReadOptional(v, "valid_from", AsUnsigned) == Some(b.validFrom))
            && (U64Bundle(b) ==> ReadOptional(v, "valid_until", AsUnsigned) == Some(b.validUntil))
  {
    var base := [Member("bundle_version", Num(Int(b.version))), Member("keys", Arr(KeyValues(b.keys)))];
    BundleMembersDistinct(b);
    OptionsOf(base, OptionalText(b.issuer), OptionalNumber(b.validFrom), OptionalNumber(b.validUntil));
    var v := Canon(BundleValue(b));
    TextOption(v, "issuer", b.issuer);
    if U64Bundle(b) {
      NumberOption(v, "valid_from", b.validFrom);
      NumberOption(v, "valid_until", b.validUntil);
    }
  }

  lemma TextOption(v: Json, name: string, t: Option<string>)
    requires Field(v, name) == if t.Some? then Str(t.value) else Null
    ensures ReadOptional(v, name, AsText) == Some(t)
  {
  }

  lemma NumberOption(v: Json, name: string, n: Option<nat>)
    requires Field(v, name) == if n.Some? then Num(Int(n.value)) else Null
    requires n.Some? ==> n.value < U64_LIMIT
    ensures ReadOptional(v, name, AsUnsigned) == Some(n)
  {
  }

  lemma OptionsOf(base: seq<Member>, i: Option<Json>, f: Option<Json>, u: Option<Json>)
    requires forall m :: m in base ==> m.key != "issuer" && m.key != "valid_from" && m.key != "valid_until"
    requires DistinctBy(base + Optional("issuer", i) + Optional("valid_from", f) + Optional("valid_until", u), KeyOf)
    ensures var v := Canon(Obj(base + Optional("issuer", i) + Optional("valid_from", f) + Optional("valid_until", u)));
            && Field(v, "issuer") == (if i.Some? then Canon(i.value) else Null)
            && Field(v, "valid_from") == (if f.Some? then Canon(f.value) else Null)
            && Field(v, "valid_until") == (if u.Some? then Canon(u.value) else Null)
  {
    OptionsAt(base, "issuer", i, "valid_from", f, "valid_until", u);
  }

  predicate IsOption(m: Member, name: string, v: Option<Json>) {
    v.Some? && m == Member(name, v.value)
  }

  lemma InParts(a: seq<Member>, b: seq<Member>, c: seq<Member>, d: seq<Member>, m: Member)
    ensures m in a + b + c + d <==> m in a || m in b || m in c || m in d
  {
  }

  lemma OptionsAt(base: seq<Member>, ni: string, i: Option<Json>, nf: string, f: Option<Json>,
                  nu: string, u: Option<Json>)
    requires ni != nf && ni != nu && nf != nu
    requires forall m :: m in base ==> m.key != ni && m.key != nf && m.key != nu
    requires DistinctBy(base + Optional(ni, i) + Optional(nf, f) + Optional(nu, u), KeyOf)
    ensures var v := Canon(Obj(base + Optional(ni, i) + Optional(nf, f) + Optional(nu, u)));
            && Field(v, ni) == (if i.Some? then Canon(i.value) else Null)
            && Field(v, nf) == (if f.Some? then Canon(f.value) else Null)
            && Field(v, nu) == (if u.Some? then Canon(u.value) else Null)
  {
    forall m ensures m in base + Optional(ni, i) + Optional(nf, f) + Optional(nu, u)
                <==> m in base || IsOption(m, ni, i) || IsOption(m, nf, f) || IsOption(m, nu, u)
    {
      InParts(base, Optional(ni, i), Optional(nf, f), Optional(nu, u), m);
    }
    OptionsIn(base + Optional(ni, i) + Optional(nf, f) + Optional(nu, u), base, ni, i, nf, f, nu, u);
  }

  lemma OptionsIn(ms: seq<Member>, base: seq<Member>, ni: string, i: Option<Json>, nf: string, f: Option<Json>,
                  nu: string, u: Option<Json>)
    requires ni != nf && ni != nu && nf != nu && DistinctBy(ms, KeyOf)
    requires forall m :: m in base ==> m.key != ni && m.key != nf && m.key != nu
    requires forall m :: m in ms <==> m in base || IsOption(m, ni, i) || IsOption(m, nf, f) || IsOption(m, nu, u)
    ensures Field(Canon(Obj(ms)), ni) == if i.Some? then Canon(i.value) else Null
    ensures Field(Canon(Obj(ms)), nf) == if f.Some? then Canon(f.value) else Null
    ensures Field(Canon(Obj(ms)), nu) == if u.Some? then Canon(u.value) else Null
  {
    OptionalField(ms, ni, i);
    OptionalField(ms, nf, f);
    OptionalField(ms, nu, u);
  }

  /** A bundle survives being written as JSON, put in canonical order and read back. */
  lemma ReadBundleOfCanon(b: Bundle)
    requires U64Bundle(b)
    ensures ReadBundle(Canon(BundleValue(b))) == Some(b)
  {
    BundleFields(b);
    BundleOptions(b);
    ReadKeysOfCanon(b.keys);
    ReadBundleFields(Canon(BundleValue(b)), CanonItems(KeyValues(b.keys)), b);
  }

  lemma ReadBundleFields(v: Json, keys: seq<Json>, b: Bundle)
    requires Field(v, "bundle_version") == Num(Int(b.version)) && b.version < U64_LIMIT
    requires Field(v, "keys") == Arr(keys) && ReadKeys(keys) == Some(b.keys)
    requires ReadOptional(v, "issuer", AsText) == Some(b.issuer)
    requires ReadOptional(v, "valid_from", AsUnsigned) == Some(b.validFrom)
    requires ReadOptional(v, "valid_until", AsUnsigned) == Some(b.validUntil)
    ensures ReadBundle(v) == Some(b)
  {
  }

  lemma BundleValueValid(b: Bundle)
    requires U64Bundle(b)
    ensures Valid(BundleValue(b))
  {
    BundleMembersDistinct(b);
    forall i | 0 <= i < |b.keys| ensures Valid(KeyValue(b.keys[i])) {
      KeyValueValid(b.keys[i]);
    }
    assert Valid(Arr(KeyValues(b.keys)));
  }

  lemma KeyValueValid(k: TrustKey)
    requires U64Key(k)
    ensures Valid(KeyValue(k))
  {
    assert Valid(Arr(Texts(k.allowedProfiles)));
    assert Valid(Arr(Texts(k.issuers)));
    assert Valid(Arr(Texts(k.audiences)));
    KeyMembersDistinct(k);
  }

  lemma CanonBundleU64(b: Bundle)
    requires U64Bundle(b)
    ensures U64Bundle(CanonBundle(b))
  {
    SameElements(SortBy(b.keys, KeyId), b.keys);
    var sorted := SortBy(b.keys, KeyId);
    forall i | 0 <= i < |sorted| ensures U64Key(CanonKey(sorted[i])) {
      assert sorted[i] in b.keys;
    }
  }

  /** Reading a canonical text yields the canonical bundle, whose canonical text it is. */
  lemma CanonicalTextRoundTrip(b: Bundle)
    requires U64Bundle(b)
    ensures var text := CanonicalText(b);
            && Read(text).Some?
            && ReadBundle(Read(text).value) == Some(CanonBundle(b))
            && CanonicalText(CanonBundle(b)) == text
  {
    var c := CanonBundle(b);
    CanonBundleU64(b);
    BundleValueValid(c);
    ReadOfPrint(BundleValue(c));
    ReadBundleOfCanon(c);
    CanonBundleIdempotent(b);
  }

  // ---- The stored record ----

  const STATE_LIMIT: nat := 4 * 1024 * 1024

  datatype Stored = Stored(bundle: Bundle, canonical: string, digest: string, highWater: nat)

  datatype LoadError = StateTooLarge | StateUnreadable | BadBase64 | DigestMismatch | BundleUnreadable
                     | VersionMismatch | NotCanonical

  /** The base-64 codec and the digest, both from other libraries. */
  datatype Codec = Codec(encode: string -> string, decode: string -> Option<string>, digest: string -> string)

  ghost predicate Inverts(codec: Codec) {
    forall t :: codec.decode(codec.encode(t)) == Some(t)
  }

  function StateValue(b64: string, digest: string, version: nat, highWater: nat): Json {
    Obj([Member("bundle_b64", Str(b64)), Member("bundle_digest", Str(digest)),
         Member("bundle_version", Num(Int(version))), Member("high_water", Num(Int(highWater)))])
  }

  /** The file contents that a commit renames into place. */
  function CommittedText(b: Bundle, highWater: nat, codec: Codec): string {
    var canonical := CanonicalText(b);
    Print(StateValue(codec.encode(canonical), codec.digest(canonical), b.version, highWater))
  }

  /** What a load makes of the stored canonical text. */
  function LoadBundle(canonical: string, digest: string, version: nat, highWater: nat): Result<Stored, LoadError> {
    if Read(canonical).None? || ReadBundle(Read(canonical).value).None? then Err(BundleUnreadable)
    else
      var bundle := ReadBundle(Read(canonical).value).value;
      if bundle.version != version || highWater < bundle.version then Err(VersionMismatch)
      else if CanonicalText(bundle) != canonical then Err(NotCanonical)
      else Ok(Stored(bundle, canonical, digest, highWater))
  }

  function LoadState(v: Json, codec: Codec): Result<Stored, LoadError> {
    var b64, digest := AsText(Field(v, "bundle_b64")), AsText(Field(v, "bundle_digest"));
    var version, highWater := AsUnsigned(Field(v, "bundle_version")), AsUnsigned(Field(v, "high_water"));
    if b64.None? || digest.None? || version.None? || highWater.None? then Err(StateUnreadable)
    else
      match codec.decode(b64.value)
      case None => Err(BadBase64)
      case Some(canonical) =>
        if codec.digest(canonical) != digest.value then Err(DigestMismatch)
        else LoadBundle(canonical, digest.value, version.value, highWater.value)
  }

  function Load(raw: string, codec: Codec): Result<Stored, LoadError> {
    if |raw| > STATE_LIMIT then Err(StateTooLarge)
    else
      match Read(raw)
      case None => Err(StateUnreadable)
      case Some(v) => LoadState(v, codec)
  }

  lemma StateMembersDistinct(b64: string, digest: string, version: nat, highWater: nat)
    ensures DistinctBy(StateValue(b64, digest, version, highWater).members, KeyOf)
  {
  }

  lemma StateFields(b64: string, digest: string, version: nat, highWater: nat)
    requires version < U64_LIMIT && highWater < U64_LIMIT
    ensures var v := StateValue(b64, digest, version, highWater);
            && Valid(v)
            && Field(Canon(v), "bundle_b64") == Str(b64) && Field(Canon(v), "bundle_digest") == Str(digest)
            && Field(Canon(v), "bundle_version") == Num(Int(version))
            && Field(Canon(v), "high_water") == Num(Int(highWater))
  {
    StateMembersDistinct(b64, digest, version, highWater);
    StateFieldsOf(StateValue(b64, digest, version, highWater).members, b64, digest, version, highWater);
  }

  lemma StateFieldsOf(ms: seq<Member>, b64: string, digest: string, version: nat, highWater: nat)
    requires DistinctBy(ms, KeyOf) && ms == StateValue(b64, digest, version, highWater).members
    ensures var v := Canon(Obj(ms));
            && Field(v, "bundle_b64") == Str(b64) && Field(v, "bundle_digest") == Str(digest)
            && Field(v, "bundle_version") == Num(Int(version)) && Field(v, "high_water") == Num(Int(highWater))
  {
    FieldNamed(ms, 0, "bundle_b64", Str(b64));
    FieldNamed(ms, 1, "bundle_digest", Str(digest));
    FieldNamed(ms, 2, "bundle_version", Num(Int(version)));
    FieldNamed(ms, 3, "high_water", Num(Int(highWater)));
  }

  lemma LoadBundleOfCanonical(b: Bundle, digest: string, highWater: nat)
    requires U64Bundle(b) && b.version <= highWater
    ensures LoadBundle(CanonicalText(b), digest, b.version, highWater)
         == Ok(Stored(CanonBundle(b), CanonicalText(b), digest, highWater))
  {
    CanonicalTextRoundTrip(b);
    LoadBundleFrom(CanonicalText(b), Read(CanonicalText(b)).value, CanonBundle(b), digest, highWater);
  }

  lemma LoadBundleFrom(canonical: string, v: Json, bundle: Bundle, digest: string, highWater: nat)
    requires Read(canonical) == Some(v) && ReadBundle(v) == Some(bundle)
    requires bundle.version <= highWater && CanonicalText(bundle) == canonical
    ensures LoadBundle(canonical, digest, bundle.version, highWater) == Ok(Stored(bundle, canonical, digest, highWater))
  {
  }

  lemma LoadStateFrom(v: Json, codec: Codec, canonical: string, version: nat, highWater: nat)
    requires codec.decode(codec.encode(canonical)) == Some(canonical)
    requires version < U64_LIMIT && highWater < U64_LIMIT
    requires Field(v, "bundle_b64") == Str(codec.encode(canonical))
    requires Field(v, "bundle_digest") == Str(codec.digest(canonical))
    requires Field(v, "bundle_version") == Num(Int(version)) && Field(v, "high_water") == Num(Int(highWater))
    ensures LoadState(v, codec) == LoadBundle(canonical, codec.digest(canonical), version, highWater)
  {
  }

  /**
    A committed bundle loads exactly when its file is within the size limit, which the commit does
    not check: then it loads as the canonical bundle with the high-water mark it was given.
   */
  lemma LoadOfCommit(b: Bundle, highWater: nat, codec: Codec)
    requires U64Bundle(b) && b.version <= highWater < U64_LIMIT && Inverts(codec)
    ensures var raw := CommittedText(b, highWater, codec);
            Load(raw, codec) ==
            if |raw| <= STATE_LIMIT
            then Ok(Stored(CanonBundle(b), CanonicalText(b), codec.digest(CanonicalText(b)), highWater))
            else Err(StateTooLarge)
  {
    var canonical := CanonicalText(b);
    var v := StateValue(codec.encode(canonical), codec.digest(canonical), b.version, highWater);
    StateFields(codec.encode(canonical), codec.digest(canonical), b.version, highWater);
    ReadOfPrint(v);
    LoadStateFrom(Canon(v), codec, canonical, b.version, highWater);
    LoadBundleOfCanonical(b, codec.digest(canonical), highWater);
  }

  /** Two bundles are stored under the same text exactly when their canonical forms are equal. */
  lemma CanonicalTextUnambiguous(b: Bundle, c: Bundle)
    requires U64Bundle(b) && U64Bundle(c)
    ensures CanonicalText(b) == CanonicalText(c) <==> CanonBundle(b) == CanonBundle(c)
  {
    CanonicalTextRoundTrip(b);
    CanonicalTextRoundTrip(c);
  }

  // ---- What the canonical form forgets ----

  /** The same key up to the order of its lists. */
  ghost predicate KeysAlike(k: TrustKey, l: TrustKey) {
    && k.(allowedProfiles := [], issuers := [], audiences := [])
       == l.(allowedProfiles := [], issuers := [], audiences := [])
    && multiset(k.allowedProfiles) == multiset(l.allowedProfiles)
    && multiset(k.issuers) == multiset(l.issuers) && multiset(k.audiences) == multiset(l.audiences)
  }

  lemma SortedTexts(a: seq<string>, b: seq<string>)
    requires multiset(a) == multiset(b)
    ensures SortBy(a, Itself) == SortBy(b, Itself)
  {
    SortBySorts(a, Itself);
    SortBySorts(b, Itself);
    SortedTextsUnique(SortBy(a, Itself), SortBy(b, Itself), Itself);
  }

  lemma SameEmptiness(a: seq<string>, b: seq<string>)
    requires multiset(a) == multiset(b)
    ensures a == [] <==> b == []
  {
    assert |multiset(a)| == |multiset(b)|;
  }

  lemma CanonKeyForgetsOrder(k: TrustKey, l: TrustKey)
    requires KeysAlike(k, l)
    ensures CanonKey(k) == CanonKey(l)
  {
    SameEmptiness(k.allowedProfiles, l.allowedProfiles);
    SortedTexts(k.allowedProfiles, l.allowedProfiles);
    SortedTexts(k.issuers, l.issuers);
    SortedTexts(k.audiences, l.audiences);
  }

  /** Bundles with distinct key ids that differ in the order of their keys have one canonical form. */
  ghost predicate InTextOrder(texts: seq<string>) {
    forall i, j :: 0 <= i < j < |texts| ==> !Precedes(texts[j], texts[i])
  }

  lemma SortedInTextOrder(texts: seq<string>)
    ensures InTextOrder(SortBy(texts, Itself))
  {
    SortBySorts(texts, Itself);
    var r := SortBy(texts, Itself);
    forall i, j | 0 <= i < j < |r| ensures !Precedes(r[j], r[i]) {
      LessMeans(r[j], r[i]);
      assert !Less(Itself(r[j]), Itself(r[i]));
    }
  }

  /** A canonical key holds the same entries in order; a key without profiles gets the ticket profile. */
  lemma CanonKeyContents(k: TrustKey)
    ensures var c := CanonKey(k);
            && InTextOrder(c.allowedProfiles) && InTextOrder(c.issuers) && InTextOrder(c.audiences)
            && multiset(c.issuers) == multiset(k.issuers) && multiset(c.audiences) == multiset(k.audiences)
            && (k.allowedProfiles != [] ==> multiset(c.allowedProfiles) == multiset(k.allowedProfiles))
            && (k.allowedProfiles == [] ==> c.allowedProfiles == [PROFILE])
            && c.(allowedProfiles := [], issuers := [], audiences := [])
               == k.(allowedProfiles := [], issuers := [], audiences := [])
  {
    SortedInTextOrder(if k.allowedProfiles == [] then [PROFILE] else k.allowedProfiles);
    SortedInTextOrder(k.issuers);
    SortedInTextOrder(k.audiences);
  }

  lemma CanonBundleForgetsOrder(b: Bundle, c: Bundle)
    requires b.(keys := []) == c.(keys := []) && multiset(b.keys) == multiset(c.keys) && DistinctBy(b.keys, KeyId)
    ensures CanonBundle(b) == CanonBundle(c) && CanonicalText(b) == CanonicalText(c)
  {
    var x, y := SortBy(b.keys, KeyId), SortBy(c.keys, KeyId);
    SortBySorts(b.keys, KeyId);
    SortBySorts(c.keys, KeyId);
    DistinctPermutation(b.keys, x, KeyId);
    DistinctPermutation(b.keys, y, KeyId);
    SameElements(x, y);
    assert |multiset(x)| == |multiset(y)|;
    SortedUnique(x, y, KeyId);
  }

  /** The keys of a canonical bundle come in text order of their ids. */
  lemma CanonBundleInOrder(b: Bundle, i: nat, j: nat)
    requires i < j < |b.keys|
    ensures var keys := CanonBundle(b).keys; |keys| == |b.keys| && !Precedes(keys[j].keyId, keys[i].keyId)
  {
    var sorted := SortBy(b.keys, KeyId);
    SortBySorts(b.keys, KeyId);
    assert !Less(KeyId(sorted[j]), KeyId(sorted[i]));
    LessMeans(sorted[j].keyId, sorted[i].keyId);
  }

  // ---- What a load promises ----

  lemma {:induction false} ReadKeysU64(vs: seq<Json>)
    requires ReadKeys(vs).Some?
    ensures forall i :: 0 <= i < |ReadKeys(vs).value| ==> U64Key(ReadKeys(vs).value[i])
  {
    if vs != [] {
      ReadKeysU64(vs[1..]);
    }
  }

  lemma ReadBundleU64(v: Json)
    requires ReadBundle(v).Some?
    ensures U64Bundle(ReadBundle(v).value)
  {
    ReadKeysU64(Field(v, "keys").items);
  }

  /** A canonical bundle with its own text, the digest of that text and a mark not below its version. */
  ghost predicate Sound(st: Stored, codec: Codec) {
    && st.canonical == CanonicalText(st.bundle) && st.digest == codec.digest(st.canonical)
    && CanonBundle(st.bundle) == st.bundle && st.bundle.version <= st.highWater
  }

  lemma LoadBundleSound(canonical: string, digest: string, version: nat, highWater: nat, codec: Codec)
    requires LoadBundle(canonical, digest, version, highWater).Ok? && digest == codec.digest(canonical)
    ensures Sound(LoadBundle(canonical, digest, version, highWater).value, codec)
  {
    var v := Read(canonical).value;
    var bundle := ReadBundle(v).value;
    ReadBundleU64(v);
    CanonicalTextRoundTrip(bundle);
  }

  lemma LoadStateSound(v: Json, codec: Codec)
    requires LoadState(v, codec).Ok?
    ensures Sound(LoadState(v, codec).value, codec)
  {
    var b64, digest := Field(v, "bundle_b64").text, Field(v, "bundle_digest").text;
    var version, highWater := Field(v, "bundle_version").number.value, Field(v, "high_water").number.value;
    LoadBundleSound(codec.decode(b64).value, digest, version, highWater, codec);
  }

  /** Whatever file is there, a load that succeeds read at most 4 MiB and returns something sound. */
  lemma LoadIsSound(raw: string, codec: Codec)
    requires Load(raw, codec).Ok?
    ensures |raw| <= 4 * 1024 * 1024 && Sound(Load(raw, codec).value, codec)
  {
    LoadStateSound(Read(raw).value, codec);
  }
}
