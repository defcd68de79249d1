/** JSON trees as the service's JSON library holds them, and what it means for two of them to be the same. */
module Json {
  import opened Prelude
  import opened Ordering

  /** A finite floating-point number is named by its shortest decimal text, as printed by the library. */
  datatype Number = Int(value: int) | Float(digits: string)

  datatype Json =
    | Null
    | Bool(flag: bool)
    | Num(number: Number)
    | Str(text: string)
    | Arr(items: seq<Json>)
    | Obj(members: seq<Member>)

  datatype Member = Member(key: string, value: Json)

  function KeyOf(m: Member): string { m.key }

  predicate NumberChar(c: char) {
    '0' <= c <= '9' || c in {'-', '+', '.', 'e', 'E'}
  }

  predicate FloatMark(c: char) {
    c in {'.', 'e', 'E'}
  }

  ghost predicate ValidNumber(n: Number) {
    match n
    case Int(i) => -I64_LIMIT <= i < U64_LIMIT
    case Float(t) =>
      && t != [] && ('0' <= t[0] <= '9' || t[0] == '-')
      && (forall c :: c in t ==> NumberChar(c))
      && exists c :: c in t && FloatMark(c)
  }

  /** No object names a member twice; numbers are ones the library can hold. */
  ghost predicate Valid(v: Json) {
    match v
    case Num(n) => ValidNumber(n)
    case Arr(items) => forall i :: 0 <= i < |items| ==> Valid(items[i])
    case Obj(ms) => DistinctBy(ms, KeyOf) && forall i :: 0 <= i < |ms| ==> Valid(ms[i].value)
    case _ => true
  }

  ghost predicate HasKey(ms: seq<Member>, k: string) {
    exists i :: 0 <= i < |ms| && ms[i].key == k
  }

  ghost predicate SameKeys(a: seq<Member>, b: seq<Member>) {
    && (forall i :: 0 <= i < |a| ==> HasKey(b, a[i].key))
    && (forall j :: 0 <= j < |b| ==> HasKey(a, b[j].key))
  }

  /** Equal up to the order of object members, at every depth. */
  ghost predicate Same(v: Json, w: Json)
    decreases v
  {
    match (v, w)
    case (Arr(a), Arr(b)) =>
      |a| == |b| && forall i :: 0 <= i < |a| ==> Same(a[i], b[i])
    case (Obj(a), Obj(b)) =>
      && SameKeys(a, b)
      && forall i, j :: 0 <= i < |a| && 0 <= j < |b| && a[i].key == b[j].key ==> Same(a[i].value, b[j].value)
    case _ => v == w
  }

  /** The representative with sorted members at every depth. */
  function Canon(v: Json): (r: Json)
    decreases v, 1
  {
    match v
    case Arr(items) => Arr(CanonItems(items))
    case Obj(ms) => Obj(SortBy(CanonMembers(ms), KeyOf))
    case _ => v
  }

  function CanonItems(items: seq<Json>): (r: seq<Json>)
    ensures |r| == |items|
    ensures forall i :: 0 <= i < |items| ==> r[i] == Canon(items[i])
    decreases items, 0
  {
    if items == [] then [] else [Canon(items[0])] + CanonItems(items[1..])
  }

  function CanonMembers(ms: seq<Member>): (r: seq<Member>)
    ensures |r| == |ms|
    ensures forall i :: 0 <= i < |ms| ==> r[i] == Member(ms[i].key, Canon(ms[i].value))
    decreases ms, 0
  {
    if ms == [] then [] else [Member(ms[0].key, Canon(ms[0].value))] + CanonMembers(ms[1..])
  }

  /** Same is exactly having the same representative. */
  lemma {:induction false} SameIffCanonEqual(v: Json, w: Json)
    requires Valid(v) && Valid(w)
    ensures Same(v, w) <==> Canon(v) == Canon(w)
    decreases v
  {
    match (v, w)
    case (Arr(a), Arr(b)) =>
      if |a| == |b| {
        forall i | 0 <= i < |a| ensures Same(a[i], b[i]) <==> Canon(a[i]) == Canon(b[i]) {
          SameIffCanonEqual(a[i], b[i]);
        }
        if Same(v, w) {
          assert CanonItems(a) == CanonItems(b);
        } else {
          var i :| 0 <= i < |a| && !Same(a[i], b[i]);
          assert CanonItems(a)[i] != CanonItems(b)[i];
        }
      } else {
        assert |CanonItems(a)| != |CanonItems(b)|;
      }
    case (Obj(a), Obj(b)) =>
      forall i, j | 0 <= i < |a| && 0 <= j < |b|
        ensures Same(a[i].value, b[j].value) <==> Canon(a[i].value) == Canon(b[j].value)
      {
        SameIffCanonEqual(a[i].value, b[j].value);
      }
      SameMembers(a, b, CanonMembers(a), CanonMembers(b));
      SortEqualIffSameBindings(CanonMembers(a), CanonMembers(b));
    case _ =>
  }

  lemma SameMembers(a: seq<Member>, b: seq<Member>, ca: seq<Member>, cb: seq<Member>)
    requires CanonOf(a, ca) && CanonOf(b, cb)
    requires forall i, j :: 0 <= i < |a| && 0 <= j < |b| ==>
               (Same(a[i].value, b[j].value) <==> Canon(a[i].value) == Canon(b[j].value))
    ensures Same(Obj(a), Obj(b)) <==> SameBindings(ca, cb)
  {
    KeysUnchanged(a, ca, b, cb);
    if Same(Obj(a), Obj(b)) {
      SameToCanon(a, b, ca, cb);
    }
    if SameBindings(ca, cb) {
      CanonToSame(a, b, ca, cb);
    }
  }

  /** The members and their representatives, position by position. */
  ghost predicate CanonOf(a: seq<Member>, ca: seq<Member>) {
    |ca| == |a| && forall i :: 0 <= i < |a| ==> ca[i] == Member(a[i].key, Canon(a[i].value))
  }

  lemma SameToCanon(a: seq<Member>, b: seq<Member>, ca: seq<Member>, cb: seq<Member>)
    requires CanonOf(a, ca) && CanonOf(b, cb)
    requires forall i, j :: 0 <= i < |a| && 0 <= j < |b| ==>
               (Same(a[i].value, b[j].value) <==> Canon(a[i].value) == Canon(b[j].value))
    requires forall i, j :: 0 <= i < |a| && 0 <= j < |b| && a[i].key == b[j].key ==> Same(a[i].value, b[j].value)
    ensures forall i, j :: 0 <= i < |ca| && 0 <= j < |cb| && ca[i].key == cb[j].key ==> ca[i] == cb[j]
  {
    forall i, j | 0 <= i < |ca| && 0 <= j < |cb| && ca[i].key == cb[j].key ensures ca[i] == cb[j] {
      assert Same(a[i].value, b[j].value);
    }
  }

  lemma CanonToSame(a: seq<Member>, b: seq<Member>, ca: seq<Member>, cb: seq<Member>)
    requires CanonOf(a, ca) && CanonOf(b, cb)
    requires forall i, j :: 0 <= i < |a| && 0 <= j < |b| ==>
               (Same(a[i].value, b[j].value) <==> Canon(a[i].value) == Canon(b[j].value))
    requires forall i, j :: 0 <= i < |ca| && 0 <= j < |cb| && ca[i].key == cb[j].key ==> ca[i] == cb[j]
    ensures forall i, j :: 0 <= i < |a| && 0 <= j < |b| && a[i].key == b[j].key ==> Same(a[i].value, b[j].value)
  {
    forall i, j | 0 <= i < |a| && 0 <= j < |b| && a[i].key == b[j].key ensures Same(a[i].value, b[j].value) {
      assert ca[i] == cb[j];
    }
  }

  lemma KeysUnchanged(a: seq<Member>, a': seq<Member>, b: seq<Member>, b': seq<Member>)
    requires |a| == |a'| && forall i :: 0 <= i < |a| ==> a[i].key == a'[i].key
    requires |b| == |b'| && forall i :: 0 <= i < |b| ==> b[i].key == b'[i].key
    ensures SameKeys(a, b) <==> SameKeys(a', b')
  {
    forall k ensures HasKey(a, k) <==> HasKey(a', k) {
      assert forall i :: 0 <= i < |a| ==> a[i].key == a'[i].key;
    }
    forall k ensures HasKey(b, k) <==> HasKey(b', k) {
      assert forall i :: 0 <= i < |b| ==> b[i].key == b'[i].key;
    }
  }

  /** Two lists bind the same keys, and each to equal values. */
  ghost predicate SameBindings(a: seq<Member>, b: seq<Member>) {
    && SameKeys(a, b)
    && forall i, j :: 0 <= i < |a| && 0 <= j < |b| && a[i].key == b[j].key ==> a[i] == b[j]
  }

  lemma SortEqualIffSameBindings(a: seq<Member>, b: seq<Member>)
    requires DistinctBy(a, KeyOf) && DistinctBy(b, KeyOf)
    ensures SortBy(a, KeyOf) == SortBy(b, KeyOf) <==> SameBindings(a, b)
  {
    if SameBindings(a, b) {
      forall x ensures x in a <==> x in b {
        if x in a { BoundInOther(a, b, x); }
        if x in b { BoundInOther(b, a, x); }
      }
      DistinctLists(a, b);
      SortOfSameSet(a, b);
    }
    if SortBy(a, KeyOf) == SortBy(b, KeyOf) {
      SameElements(a, b);
      SameSetSameBindings(a, b);
    }
  }

  lemma BoundInOther(a: seq<Member>, b: seq<Member>, x: Member)
    requires x in a && forall i :: 0 <= i < |a| ==> HasKey(b, a[i].key)
    requires forall i, j :: 0 <= i < |a| && 0 <= j < |b| && a[i].key == b[j].key ==> a[i] == b[j]
    ensures x in b
  {
    var i :| 0 <= i < |a| && a[i] == x;
    assert HasKey(b, a[i].key);
  }

  lemma SameSetSameBindings(a: seq<Member>, b: seq<Member>)
    requires DistinctBy(a, KeyOf) && DistinctBy(b, KeyOf) && forall x :: x in a <==> x in b
    ensures SameBindings(a, b)
  {
    forall i | 0 <= i < |a| ensures HasKey(b, a[i].key) {
      assert a[i] in b;
    }
    forall j | 0 <= j < |b| ensures HasKey(a, b[j].key) {
      assert b[j] in a;
    }
    forall i, j | 0 <= i < |a| && 0 <= j < |b| && a[i].key == b[j].key ensures a[i] == b[j] {
      assert a[i] in b;
    }
  }

  lemma DistinctLists(a: seq<Member>, b: seq<Member>)
    requires DistinctBy(a, KeyOf) && DistinctBy(b, KeyOf) && forall x :: x in a <==> x in b
    ensures multiset(a) == multiset(b)
  {
    forall x ensures multiset(a)[x] == multiset(b)[x] {
      if x in a {
        var i :| 0 <= i < |a| && a[i] == x;
        var j :| 0 <= j < |b| && b[j] == x;
        OnceInMultiset(a, i, KeyOf);
        OnceInMultiset(b, j, KeyOf);
      } else {
        assert x !in multiset(a) && x !in multiset(b);
      }
    }
  }

  lemma SortOfSameSet(a: seq<Member>, b: seq<Member>)
    requires DistinctBy(a, KeyOf) && multiset(a) == multiset(b)
    ensures SortBy(a, KeyOf) == SortBy(b, KeyOf)
  {
    var sa, sb := SortBy(a, KeyOf), SortBy(b, KeyOf);
    SortBySorts(a, KeyOf);
    SortBySorts(b, KeyOf);
    DistinctPermutation(a, sa, KeyOf);
    DistinctPermutation(a, sb, KeyOf);
    SameElements(sa, sb);
    assert |multiset(sa)| == |sa| && |multiset(sb)| == |sb|;
    SortedUnique(sa, sb, KeyOf);
  }

  /** The representative is valid and its own representative. */
  lemma {:induction false} CanonIdempotent(v: Json)
    requires Valid(v)
    ensures Valid(Canon(v)) && Canon(Canon(v)) == Canon(v)
    decreases v
  {
    match v
    case Arr(items) =>
      forall i | 0 <= i < |items| ensures Valid(Canon(items[i])) && Canon(Canon(items[i])) == Canon(items[i]) {
        CanonIdempotent(items[i]);
      }
      assert CanonItems(CanonItems(items)) == CanonItems(items);
    case Obj(ms) =>
      var cs := CanonMembers(ms);
      var sorted := SortBy(cs, KeyOf);
      forall i | 0 <= i < |ms| ensures Valid(cs[i].value) && Canon(cs[i].value) == cs[i].value {
        CanonIdempotent(ms[i].value);
      }
      DistinctPermutation(cs, sorted, KeyOf);
      SameElements(cs, sorted);
      forall i | 0 <= i < |sorted| ensures Valid(sorted[i].value) && Canon(sorted[i].value) == sorted[i].value {
        assert sorted[i] in cs;
      }
      assert CanonMembers(sorted) == sorted;
      SortByIdempotent(cs, KeyOf);
    case _ =>
  }
}
