/** The conversions between JSON and CBOR values on the two ends of the native transport. */
module JsonCbor {
  import opened Prelude
  import opened Ordering
  import opened Json
  import opened CanonicalJson
  import Base64

  datatype Float64 = Finite(digits: string) | NotFinite

  datatype Cbor =
    | CNull
    | CBool(flag: bool)
    | CInt(value: int)
    | CFloat(f: Float64)
    | CBytes(bytes: seq<byte>)
    | CText(text: string)
    | CArray(items: seq<Cbor>)
    | CMap(entries: seq<Entry>)
    | CTag(tag: nat, inner: Cbor)

  datatype Entry = Entry(key: Cbor, value: Cbor)

  predicate FitsI64(i: int) {
    -I64_LIMIT <= i < I64_LIMIT
  }

  /** Objects become maps with text keys in order. */
  function ToCbor(v: Json): Cbor
    decreases v, 1, 0
  {
    match v
    case Null => CNull
    case Bool(b) => CBool(b)
    case Num(Int(i)) => CInt(i)
    case Num(Float(d)) => CFloat(Finite(d))
    case Str(t) => CText(t)
    case Arr(items) => CArray(ItemsToCbor(items))
    case Obj(ms) =>
      SortedMembersSmaller(v);
      CMap(MembersToCbor(v, SortBy(ms, KeyOf)))
  }

  function ItemsToCbor(items: seq<Json>): (r: seq<Cbor>)
    ensures |r| == |items|
    decreases items, 0, 0
  {
    if items == [] then [] else [ToCbor(items[0])] + ItemsToCbor(items[1..])
  }

  function MembersToCbor(of: Json, ms: seq<Member>): (r: seq<Entry>)
    requires AllWithin(ms, of)
    ensures |r| == |ms|
    decreases of, 0, |ms|
  {
    if ms == [] then []
    else [Entry(CText(ms[0].key), ToCbor(ms[0].value))] + MembersToCbor(of, ms[1..])
  }

  /** Insert into an ordered map, replacing an earlier value for the key. */
  function Put(ms: seq<Member>, m: Member): seq<Member> {
    Insert(m, Without(ms, m.key), KeyOf)
  }

  function Without(ms: seq<Member>, k: string): seq<Member> {
    if ms == [] then []
    else if ms[0].key == k then Without(ms[1..], k)
    else [ms[0]] + Without(ms[1..], k)
  }

  function IntText(i: int): string {
    PrintNumber(Int(i))
  }

  function EntryKey(k: Cbor): Option<string> {
    match k
    case CText(t) => Some(t)
    case CInt(i) => Some(IntText(i))
    case _ => None
  }

  function FromCbor(c: Cbor): Json
    decreases c, 1
  {
    match c
    case CNull => Null
    case CBool(b) => Bool(b)
    case CInt(i) => if FitsI64(i) then Num(Int(i)) else Str(IntText(i))
    case CFloat(Finite(d)) => Num(Float(d))
    case CFloat(NotFinite) => Null
    case CText(t) => Str(t)
    case CBytes(b) => Str(Base64.Encode(b))
    case CArray(items) => Arr(ItemsFromCbor(items))
    case CMap(entries) => Obj(InsertEntries([], entries))
    case CTag(_, _) => Null
  }

  function ItemsFromCbor(items: seq<Cbor>): (r: seq<Json>)
    ensures |r| == |items|
    decreases items, 0
  {
    if items == [] then [] else [FromCbor(items[0])] + ItemsFromCbor(items[1..])
  }

  /** Entries are inserted one after the other; those without a usable key are skipped. */
  function InsertEntries(obj: seq<Member>, entries: seq<Entry>): seq<Member>
    decreases entries, 0
  {
    if entries == [] then obj
    else
      match EntryKey(entries[0].key)
      case None => InsertEntries(obj, entries[1..])
      case Some(k) => InsertEntries(Put(obj, Member(k, EntryValue(entries[0]))), entries[1..])
  }

  function EntryValue(e: Entry): Json
    decreases e, 0
  {
    FromCbor(e.value)
  }

  // ---- What a round trip does ----

  /** Integers above the signed range come back as their decimal text; everything else is kept. */
  function Narrow(v: Json): Json
    decreases v, 1
  {
    match v
    case Num(Int(i)) => if FitsI64(i) then v else Str(IntText(i))
    case Arr(items) => Arr(NarrowItems(items))
    case Obj(ms) => Obj(NarrowMembers(ms))
    case _ => v
  }

  function NarrowItems(items: seq<Json>): (r: seq<Json>)
    ensures |r| == |items| && forall i :: 0 <= i < |items| ==> r[i] == Narrow(items[i])
    decreases items, 0
  {
    if items == [] then [] else [Narrow(items[0])] + NarrowItems(items[1..])
  }

  function NarrowMembers(ms: seq<Member>): (r: seq<Member>)
    ensures |r| == |ms| && forall i :: 0 <= i < |ms| ==> r[i] == Member(ms[i].key, Narrow(ms[i].value))
    decreases ms, 0
  {
    if ms == [] then [] else [Member(ms[0].key, Narrow(ms[0].value))] + NarrowMembers(ms[1..])
  }

  ghost predicate IntegersFit(v: Json) {
    match v
    case Num(Int(i)) => FitsI64(i)
    case Arr(items) => forall i :: 0 <= i < |items| ==> IntegersFit(items[i])
    case Obj(ms) => forall i :: 0 <= i < |ms| ==> IntegersFit(ms[i].value)
    case _ => true
  }

  /** Appending a key above all others needs no search. */
  lemma {:induction false} InsertAtEnd(x: Member, ms: seq<Member>)
    requires forall i :: 0 <= i < |ms| ==> Less(ms[i].key, x.key)
    ensures Insert(x, ms, KeyOf) == ms + [x]
  {
    if ms != [] {
      InsertAtEnd(x, ms[1..]);
      assert ms + [x] == [ms[0]] + (ms[1..] + [x]);
    }
  }

  lemma {:induction false} WithoutAbsent(ms: seq<Member>, k: string)
    requires forall i :: 0 <= i < |ms| ==> ms[i].key != k
    ensures Without(ms, k) == ms
  {
    if ms != [] {
      WithoutAbsent(ms[1..], k);
      assert ms == [ms[0]] + ms[1..];
    }
  }

  ghost predicate Builds(obj: seq<Member>, entries: seq<Entry>, all: seq<Member>) {
    InsertEntries(obj, entries) == all
  }

  /** Entries in key order rebuild exactly the ordered members; the first k are done. */
  lemma {:induction false} EntriesInOrder(all: seq<Member>, entries: seq<Entry>, k: nat)
    requires SortedBy(all, KeyOf) && DistinctBy(all, KeyOf) && k <= |all| == |entries|
    requires forall i :: 0 <= i < |all| ==>
               entries[i].key == CText(all[i].key) && FromCbor(entries[i].value) == all[i].value
    ensures Builds(all[..k], entries[k..], all)
    decreases |all| - k
  {
    if k < |all| {
      EntriesInOrder(all, entries, k + 1);
      InsertNext(all, entries, k);
    } else {
      assert all[..k] == all && entries[k..] == [];
    }
  }

  lemma InsertNext(all: seq<Member>, entries: seq<Entry>, k: nat)
    requires SortedBy(all, KeyOf) && DistinctBy(all, KeyOf) && k < |all| == |entries|
    requires entries[k].key == CText(all[k].key) && FromCbor(entries[k].value) == all[k].value
    requires Builds(all[..k + 1], entries[k + 1..], all)
    ensures Builds(all[..k], entries[k..], all)
  {
    AboveAll(all, k);
    ShiftByOne(entries, k);
    assert all[..k] + [all[k]] == all[..k + 1];
    PutAtEnd(all[..k], entries[k..], all[k], all);
  }

  lemma ShiftByOne<T>(xs: seq<T>, k: nat)
    requires k < |xs|
    ensures xs[k..][0] == xs[k] && xs[k..][1..] == xs[k + 1..]
  {
  }

  lemma PutAtEnd(obj: seq<Member>, entries: seq<Entry>, m: Member, all: seq<Member>)
    requires entries != [] && entries[0].key == CText(m.key) && FromCbor(entries[0].value) == m.value
    requires forall i :: 0 <= i < |obj| ==> Less(obj[i].key, m.key) && obj[i].key != m.key
    requires Builds(obj + [m], entries[1..], all)
    ensures Builds(obj, entries, all)
  {
    WithoutAbsent(obj, m.key);
    InsertAtEnd(m, obj);
  }

  lemma AboveAll(all: seq<Member>, k: nat)
    requires SortedBy(all, KeyOf) && DistinctBy(all, KeyOf) && k < |all|
    ensures forall i :: 0 <= i < k ==> Less(all[..k][i].key, all[k].key) && all[..k][i].key != all[k].key
  {
    forall i | 0 <= i < k ensures Less(all[i].key, all[k].key) && all[i].key != all[k].key {
      assert KeyOf(all[i]) != KeyOf(all[k]) && !Less(KeyOf(all[k]), KeyOf(all[i]));
      LessTrichotomy(all[i].key, all[k].key);
    }
  }

  lemma {:induction false} MembersToCborAt(of: Json, ms: seq<Member>, i: nat)
    requires AllWithin(ms, of) && i < |ms|
    ensures MembersToCbor(of, ms)[i] == Entry(CText(ms[i].key), ToCbor(ms[i].value))
    decreases i
  {
    if i > 0 {
      MembersToCborAt(of, ms[1..], i - 1);
    }
  }

  /** The round trip of every tree: its ordered form with the oversized integers turned to text. */
  lemma {:induction false} RoundTrip(v: Json)
    requires Valid(v)
    ensures FromCbor(ToCbor(v)) == Canon(Narrow(v))
    decreases v, 1, 0
  {
    match v
    case Arr(items) => RoundTripItems(items);
    case Obj(ms) => RoundTripObject(v);
    case _ =>
  }

  lemma {:induction false} RoundTripItems(items: seq<Json>)
    requires forall i :: 0 <= i < |items| ==> Valid(items[i])
    ensures ItemsFromCbor(ItemsToCbor(items)) == CanonItems(NarrowItems(items))
    decreases items, 0, 0
  {
    if items != [] {
      RoundTrip(items[0]);
      RoundTripItems(items[1..]);
      assert ItemsToCbor(items)[1..] == ItemsToCbor(items[1..]);
      assert NarrowItems(items)[1..] == NarrowItems(items[1..]);
    }
  }

  lemma {:induction false} RoundTripObject(v: Json)
    requires v.Obj? && Valid(v)
    ensures FromCbor(ToCbor(v)) == Canon(Narrow(v))
    decreases v, 0, 1
  {
    var ms := v.members;
    var sorted := SortBy(ms, KeyOf);
    SortedMembersSmaller(v);
    var entries := MembersToCbor(v, sorted);
    RoundTripEntries(v, sorted, entries);
    SortBySorts(ms, KeyOf);
    DistinctPermutation(ms, sorted, KeyOf);
    RebuildObject(entries, ms);
    ObjectThroughCbor(v, entries);
    CanonOfNarrow(v);
  }

  lemma ObjectThroughCbor(v: Json, entries: seq<Entry>)
    requires v.Obj? && AllWithin(SortBy(v.members, KeyOf), v) && entries == MembersToCbor(v, SortBy(v.members, KeyOf))
    ensures FromCbor(ToCbor(v)) == Obj(InsertEntries([], entries))
  {
    ObjectToCbor(v, entries);
    MapFromCbor(ToCbor(v), entries);
  }

  lemma ObjectToCbor(v: Json, entries: seq<Entry>)
    requires v.Obj? && AllWithin(SortBy(v.members, KeyOf), v) && entries == MembersToCbor(v, SortBy(v.members, KeyOf))
    ensures ToCbor(v) == CMap(entries)
  {
  }

  lemma MapFromCbor(c: Cbor, entries: seq<Entry>)
    requires c == CMap(entries)
    ensures FromCbor(c) == Obj(InsertEntries([], entries))
  {
  }

  lemma CanonOfNarrow(v: Json)
    requires v.Obj?
    ensures Canon(Narrow(v)) == Obj(SortBy(CanonMembers(NarrowMembers(v.members)), KeyOf))
  {
    assert Narrow(v) == Obj(NarrowMembers(v.members));
  }

  lemma {:induction false} RoundTripEntries(v: Json, sorted: seq<Member>, entries: seq<Entry>)
    requires v.Obj? && Valid(v) && sorted == SortBy(v.members, KeyOf)
    requires AllWithin(sorted, v) && entries == MembersToCbor(v, sorted)
    ensures forall i :: 0 <= i < |sorted| ==> entries[i].key == CText(sorted[i].key)
                                              && FromCbor(entries[i].value) == Canon(Narrow(sorted[i].value))
    decreases v, 0, 0
  {
    SameElements(sorted, v.members);
    forall i | 0 <= i < |sorted|
      ensures entries[i].key == CText(sorted[i].key)
      ensures FromCbor(entries[i].value) == Canon(Narrow(sorted[i].value))
    {
      MembersToCborAt(v, sorted, i);
      assert sorted[i] in v.members;
      RoundTrip(sorted[i].value);
    }
  }

  lemma RebuildObject(entries: seq<Entry>, ms: seq<Member>)
    requires DistinctBy(SortBy(ms, KeyOf), KeyOf) && SortedBy(SortBy(ms, KeyOf), KeyOf) && |entries| == |ms|
    requires var sorted := SortBy(ms, KeyOf);
             forall i :: 0 <= i < |sorted| ==>
               entries[i].key == CText(sorted[i].key) && FromCbor(entries[i].value) == Canon(Narrow(sorted[i].value))
    ensures InsertEntries([], entries) == SortBy(CanonMembers(NarrowMembers(ms)), KeyOf)
  {
    var sorted := SortBy(ms, KeyOf);
    var back := CanonMembers(NarrowMembers(sorted));
    KeepsOrder(sorted, back);
    assert back[..0] == [] && entries[0..] == entries;
    EntriesInOrder(back, entries, 0);
    SortCommutesWithCanon(NarrowMembers(ms));
    SortCommutesWithNarrow(ms);
  }

  lemma KeepsOrder(a: seq<Member>, b: seq<Member>)
    requires |a| == |b| && forall i :: 0 <= i < |a| ==> a[i].key == b[i].key
    requires SortedBy(a, KeyOf) && DistinctBy(a, KeyOf)
    ensures SortedBy(b, KeyOf) && DistinctBy(b, KeyOf)
  {
    forall i, j | 0 <= i < j < |b| ensures !Less(KeyOf(b[j]), KeyOf(b[i])) && KeyOf(b[i]) != KeyOf(b[j]) {
      assert !Less(KeyOf(a[j]), KeyOf(a[i])) && KeyOf(a[i]) != KeyOf(a[j]);
    }
  }

  lemma {:induction false} InsertCommutesWithNarrow(x: Member, ms: seq<Member>)
    ensures Insert(Member(x.key, Narrow(x.value)), NarrowMembers(ms), KeyOf) == NarrowMembers(Insert(x, ms, KeyOf))
  {
    if ms != [] && Less(ms[0].key, x.key) {
      InsertCommutesWithNarrow(x, ms[1..]);
      assert NarrowMembers(ms)[1..] == NarrowMembers(ms[1..]);
      assert ([ms[0]] + Insert(x, ms[1..], KeyOf))[1..] == Insert(x, ms[1..], KeyOf);
    } else {
      assert ([x] + ms)[1..] == ms;
    }
  }

  lemma {:induction false} SortCommutesWithNarrow(ms: seq<Member>)
    ensures SortBy(NarrowMembers(ms), KeyOf) == NarrowMembers(SortBy(ms, KeyOf))
  {
    if ms != [] {
      assert NarrowMembers(ms)[1..] == NarrowMembers(ms[1..]);
      SortCommutesWithNarrow(ms[1..]);
      InsertCommutesWithNarrow(ms[0], SortBy(ms[1..], KeyOf));
    }
  }

  lemma {:induction false} NarrowValid(v: Json)
    requires Valid(v)
    ensures Valid(Narrow(v))
  {
    match v
    case Arr(items) =>
      forall i | 0 <= i < |items| ensures Valid(Narrow(items[i])) { NarrowValid(items[i]); }
    case Obj(ms) =>
      forall i | 0 <= i < |ms| ensures Valid(Narrow(ms[i].value)) { NarrowValid(ms[i].value); }
      assert forall i, j :: 0 <= i < j < |ms| ==> KeyOf(ms[i]) != KeyOf(ms[j]);
    case _ =>
  }

  lemma {:induction false} NarrowIsIdentity(v: Json)
    ensures IntegersFit(v) <==> Narrow(v) == v
  {
    match v
    case Arr(items) =>
      forall i | 0 <= i < |items| ensures IntegersFit(items[i]) <==> Narrow(items[i]) == items[i] {
        NarrowIsIdentity(items[i]);
      }
      if IntegersFit(v) { assert NarrowItems(items) == items; }
    case Obj(ms) =>
      forall i | 0 <= i < |ms| ensures IntegersFit(ms[i].value) <==> Narrow(ms[i].value) == ms[i].value {
        NarrowIsIdentity(ms[i].value);
      }
      if IntegersFit(v) {
        assert NarrowMembers(ms) == ms;
      } else {
        var i :| 0 <= i < |ms| && !IntegersFit(ms[i].value);
        assert NarrowMembers(ms)[i] != ms[i];
      }
    case _ =>
  }

  /** A tree with an oversized integer is not even the same up to member order after narrowing. */
  lemma {:induction false} NarrowSame(v: Json)
    requires Valid(v)
    ensures Same(Narrow(v), v) ==> IntegersFit(v)
  {
    if Same(Narrow(v), v) {
      match v
      case Arr(items) =>
        forall i | 0 <= i < |items| ensures IntegersFit(items[i]) {
          assert Same(NarrowItems(items)[i], items[i]);
          NarrowSame(items[i]);
        }
      case Obj(ms) =>
        var ns := NarrowMembers(ms);
        forall i | 0 <= i < |ms| ensures IntegersFit(ms[i].value) {
          assert ns[i].key == ms[i].key;
          assert Same(ns[i].value, ms[i].value);
          NarrowSame(ms[i].value);
        }
      case _ =>
    }
  }

  /**
    A tree comes back the same (up to member order) if and only if all of its integers are within
    the signed 64-bit range.
   */
  lemma RoundTripExact(v: Json)
    requires Valid(v)
    ensures Same(FromCbor(ToCbor(v)), v) <==> IntegersFit(v)
    ensures IntegersFit(v) ==> FromCbor(ToCbor(v)) == Canon(v)
  {
    RoundTrip(v);
    NarrowValid(v);
    NarrowIsIdentity(v);
    NarrowSame(v);
    CanonIdempotent(Narrow(v));
    CanonIdempotent(v);
    SameIffCanonEqual(Canon(Narrow(v)), v);
    SameIffCanonEqual(Narrow(v), v);
  }

  /** The largest unsigned value is a witness: it comes back as text. */
  lemma OversizedInteger()
    ensures Valid(Num(Int(U64_LIMIT - 1)))
    ensures FromCbor(ToCbor(Num(Int(U64_LIMIT - 1)))).Str?
  {
  }

  // ---- Any CBOR value ----

  /** The keys that become the name k: that text, or an integer written in decimal. */
  ghost predicate Names(key: Cbor, k: string) {
    key == CText(k) || (key.CInt? && k == PrintNumber(Int(key.value)))
  }

  ghost predicate LastNamed(entries: seq<Entry>, k: string, i: nat) {
    && i < |entries| && Names(entries[i].key, k)
    && forall j :: i < j < |entries| ==> !Names(entries[j].key, k)
  }

  ghost predicate NoneNamed(entries: seq<Entry>, k: string) {
    forall j :: 0 <= j < |entries| ==> !Names(entries[j].key, k)
  }

  lemma {:induction false} WithoutFirst(ms: seq<Member>, q: string, k: string)
    ensures FirstWith(Without(ms, q), KeyOf, k) == if q == k then None else FirstWith(ms, KeyOf, k)
  {
    if ms != [] {
      WithoutFirst(ms[1..], q, k);
      assert ([ms[0]] + Without(ms[1..], q))[1..] == Without(ms[1..], q);
    }
  }

  lemma {:induction false} WithoutOrdered(ms: seq<Member>, q: string)
    requires SortedBy(ms, KeyOf) && DistinctBy(ms, KeyOf)
    ensures SortedBy(Without(ms, q), KeyOf) && DistinctBy(Without(ms, q), KeyOf)
    ensures forall m :: m in Without(ms, q) ==> m in ms && m.key != q
  {
    if ms != [] {
      DistinctTail(ms, KeyOf);
      WithoutOrdered(ms[1..], q);
      var rest := Without(ms[1..], q);
      forall j | 0 <= j < |rest| ensures !Less(rest[j].key, ms[0].key) && rest[j].key != ms[0].key {
        assert rest[j] in ms[1..];
        var p :| 0 <= p < |ms[1..]| && ms[1..][p] == rest[j];
        assert ms[p + 1] == rest[j] && KeyOf(ms[0]) != KeyOf(ms[p + 1]);
        assert !Less(KeyOf(ms[p + 1]), KeyOf(ms[0]));
      }
      Prepended(ms[0], rest);
    }
  }

  lemma Prepended(m: Member, rest: seq<Member>)
    requires SortedBy(rest, KeyOf) && DistinctBy(rest, KeyOf)
    requires forall j :: 0 <= j < |rest| ==> !Less(rest[j].key, m.key) && rest[j].key != m.key
    ensures SortedBy([m] + rest, KeyOf) && DistinctBy([m] + rest, KeyOf)
  {
  }

  lemma {:induction false} InsertKeepsDistinct(x: Member, ms: seq<Member>)
    requires DistinctBy(ms, KeyOf) && forall m :: m in ms ==> m.key != x.key
    ensures DistinctBy(Insert(x, ms, KeyOf), KeyOf)
  {
    if ms != [] && Less(ms[0].key, x.key) {
      DistinctTail(ms, KeyOf);
      InsertKeepsDistinct(x, ms[1..]);
      var rest := Insert(x, ms[1..], KeyOf);
      forall j | 0 <= j < |rest| ensures rest[j].key != ms[0].key {
        assert rest[j] in multiset(rest);
        if rest[j] != x {
          assert rest[j] in ms[1..];
          var p :| 0 <= p < |ms[1..]| && ms[1..][p] == rest[j];
          assert KeyOf(ms[0]) != KeyOf(ms[p + 1]);
        }
      }
      DistinctPrepended(ms[0], rest);
    } else {
      DistinctPrepended(x, ms);
    }
  }

  lemma DistinctPrepended(m: Member, rest: seq<Member>)
    requires DistinctBy(rest, KeyOf) && forall j :: 0 <= j < |rest| ==> rest[j].key != m.key
    ensures DistinctBy([m] + rest, KeyOf)
  {
  }

  lemma PutOrdered(ms: seq<Member>, m: Member, k: string)
    requires SortedBy(ms, KeyOf) && DistinctBy(ms, KeyOf)
    ensures SortedBy(Put(ms, m), KeyOf) && DistinctBy(Put(ms, m), KeyOf)
    ensures FirstWith(Put(ms, m), KeyOf, k) == if m.key == k then Some(m) else FirstWith(ms, KeyOf, k)
  {
    WithoutOrdered(ms, m.key);
    WithoutFirst(ms, m.key, k);
    InsertKeepsSorted(m, Without(ms, m.key), KeyOf);
    InsertKeepsDistinct(m, Without(ms, m.key));
    InsertKeepsFirst(m, Without(ms, m.key), KeyOf, k);
  }

  lemma {:induction false} InsertedEntries(obj: seq<Member>, entries: seq<Entry>, k: string)
    requires SortedBy(obj, KeyOf) && DistinctBy(obj, KeyOf)
    ensures var r := InsertEntries(obj, entries);
            && SortedBy(r, KeyOf) && DistinctBy(r, KeyOf)
            && (NoneNamed(entries, k) ==> FirstWith(r, KeyOf, k) == FirstWith(obj, KeyOf, k))
            && forall i: nat :: LastNamed(entries, k, i) ==>
                 FirstWith(r, KeyOf, k) == Some(Member(k, FromCbor(entries[i].value)))
    decreases |entries|
  {
    if entries != [] {
      var name := EntryKey(entries[0].key);
      var next := if name.Some? then Put(obj, Member(name.value, EntryValue(entries[0]))) else obj;
      if name.Some? {
        PutOrdered(obj, Member(name.value, EntryValue(entries[0])), k);
      }
      InsertedEntries(next, entries[1..], k);
      FromTail(entries, k);
    }
  }

  lemma FromTail(entries: seq<Entry>, k: string)
    requires entries != []
    ensures NoneNamed(entries, k) <==> !Names(entries[0].key, k) && NoneNamed(entries[1..], k)
    ensures LastNamed(entries, k, 0) <==> Names(entries[0].key, k) && NoneNamed(entries[1..], k)
    ensures forall i: nat :: i > 0 ==> (LastNamed(entries, k, i) <==> LastNamed(entries[1..], k, i - 1))
  {
    assert forall j :: 0 < j < |entries| ==> entries[1..][j - 1] == entries[j];
    assert forall j :: 0 <= j < |entries[1..]| ==> entries[1..][j] == entries[j + 1];
  }

  /**
    Any CBOR map, with whatever keys in whatever order: the object's names are in order and without
    repeats; a name is there if and only if some entry has it, with the value of the last such entry.
   */
  lemma DecodedObject(entries: seq<Entry>, k: string)
    ensures var o := FromCbor(CMap(entries));
            && o.Obj? && SortedBy(o.members, KeyOf) && DistinctBy(o.members, KeyOf)
            && (NoneNamed(entries, k) ==> FirstWith(o.members, KeyOf, k) == None)
            && forall i: nat :: LastNamed(entries, k, i) ==>
                 FirstWith(o.members, KeyOf, k) == Some(Member(k, FromCbor(entries[i].value)))
  {
    InsertedEntries([], entries, k);
  }

  /** What JSON cannot hold: bytes become text that decodes to them, tags and non-finite numbers null. */
  lemma DecodedOutsideJson(bytes: seq<byte>, tag: nat, inner: Cbor)
    ensures FromCbor(CBytes(bytes)).Str? && Base64.Decode(FromCbor(CBytes(bytes)).text) == Some(bytes)
    ensures FromCbor(CTag(tag, inner)) == Null && FromCbor(CFloat(NotFinite)) == Null
  {
    Base64.DecodeOfEncode(bytes);
  }
}
