/** Text order (by code point, which is also the byte order of UTF-8) and the stable sort by a text key. */
module Ordering {
  import opened Prelude

  predicate Less(a: string, b: string) {
    b != [] && (a == [] || a[0] < b[0] || (a[0] == b[0] && Less(a[1..], b[1..])))
  }

  /** Text order said outright: the first place where they differ decides, and a prefix comes first. */
  ghost predicate Precedes(a: string, b: string) {
    exists k :: DecidedAt(a, b, k)
  }

  predicate DecidedAt(a: string, b: string, k: int) {
    0 <= k <= |a| && k < |b| && a[..k] == b[..k] && (k == |a| || a[k] < b[k])
  }

  lemma {:induction false} LessMeans(a: string, b: string)
    ensures Less(a, b) <==> Precedes(a, b)
  {
    if a == [] || b == [] || a[0] != b[0] {
      if Less(a, b) {
        assert DecidedAt(a, b, 0);
      }
      DecidedLater(a, b);
    } else {
      LessMeans(a[1..], b[1..]);
      if Less(a, b) {
        var k :| DecidedAt(a[1..], b[1..], k);
        assert a[..k + 1] == [a[0]] + a[1..][..k] && b[..k + 1] == [b[0]] + b[1..][..k];
        assert DecidedAt(a, b, k + 1);
      }
      if k :| DecidedAt(a, b, k) {
        assert k > 0;
        assert a[1..][..k - 1] == a[..k][1..] && b[1..][..k - 1] == b[..k][1..];
        assert DecidedAt(a[1..], b[1..], k - 1);
      }
    }
  }

  lemma SameHead(a: string, b: string, k: nat)
    requires 0 < k <= |a| && k <= |b| && a[..k] == b[..k]
    ensures a[0] == b[0]
  {
    assert a[..k][0] == a[0] && b[..k][0] == b[0];
  }

  lemma DecidedLater(a: string, b: string)
    requires a == [] || b == [] || a[0] != b[0]
    ensures forall k :: DecidedAt(a, b, k) ==> k == 0
  {
    forall k | DecidedAt(a, b, k) ensures k == 0 {
      if k > 0 { SameHead(a, b, k); }
    }
  }

  lemma {:induction false} LessTrichotomy(a: string, b: string)
    ensures a == b <==> !Less(a, b) && !Less(b, a)
    ensures !(Less(a, b) && Less(b, a))
  {
    if a != [] && b != [] {
      assert a == [a[0]] + a[1..] && b == [b[0]] + b[1..];
      LessTrichotomy(a[1..], b[1..]);
    }
  }

  lemma {:induction false} LessTransitive(a: string, b: string, c: string)
    requires Less(a, b) && !Less(c, b)
    ensures Less(a, c)
  {
    LessTrichotomy(b, c);
    if b != c && a != [] && a[0] == b[0] && b[0] == c[0] {
      LessTrichotomy(b[1..], c[1..]);
      LessTransitive(a[1..], b[1..], c[1..]);
    }
  }

  ghost predicate SortedBy<T>(xs: seq<T>, key: T -> string) {
    forall i, j :: 0 <= i < j < |xs| ==> !Less(key(xs[j]), key(xs[i]))
  }

  ghost predicate DistinctBy<T>(xs: seq<T>, key: T -> string) {
    forall i, j :: 0 <= i < j < |xs| ==> key(xs[i]) != key(xs[j])
  }

  /** Insert before everything that is not smaller: equal keys keep their order. */
  function Insert<T>(x: T, xs: seq<T>, key: T -> string): (r: seq<T>)
    ensures |r| == |xs| + 1
    ensures multiset(r) == multiset{x} + multiset(xs)
  {
    if xs == [] || !Less(key(xs[0]), key(x)) then [x] + xs
    else
      assert xs == [xs[0]] + xs[1..];
      [xs[0]] + Insert(x, xs[1..], key)
  }

  function SortBy<T>(xs: seq<T>, key: T -> string): (r: seq<T>)
    ensures |r| == |xs|
    ensures multiset(r) == multiset(xs)
  {
    if xs == [] then []
    else
      assert xs == [xs[0]] + xs[1..];
      Insert(xs[0], SortBy(xs[1..], key), key)
  }

  lemma SameElements<T>(a: seq<T>, b: seq<T>)
    requires multiset(a) == multiset(b)
    ensures forall x :: x in a <==> x in b
  {
    forall x ensures x in a <==> x in b {
      assert x in multiset(a) <==> x in multiset(b);
    }
  }

  lemma {:induction false} InsertKeepsSorted<T>(x: T, xs: seq<T>, key: T -> string)
    requires SortedBy(xs, key)
    ensures SortedBy(Insert(x, xs, key), key)
  {
    if xs == [] {
    } else if !Less(key(xs[0]), key(x)) {
      var r := [x] + xs;
      forall j | 0 < j < |r| ensures !Less(key(r[j]), key(x)) {
        if j > 1 && Less(key(r[j]), key(x)) {
          LessTransitive(key(r[j]), key(x), key(xs[0]));
        }
      }
      forall i, j | 0 <= i < j < |r| ensures !Less(key(r[j]), key(r[i])) {
        if i > 0 { assert r[i] == xs[i - 1] && r[j] == xs[j - 1]; }
      }
    } else {
      var tail := Insert(x, xs[1..], key);
      InsertKeepsSorted(x, xs[1..], key);
      var r := [xs[0]] + tail;
      assert multiset(tail) == multiset{x} + multiset(xs[1..]);
      forall j | 0 < j < |r| ensures !Less(key(r[j]), key(xs[0])) {
        assert r[j] in multiset(tail);
        LessTrichotomy(key(xs[0]), key(x));
        if r[j] != x {
          assert r[j] in xs[1..];
        }
      }
      forall i, j | 0 <= i < j < |r| ensures !Less(key(r[j]), key(r[i])) {
        if i > 0 { assert r[i] == tail[i - 1] && r[j] == tail[j - 1]; }
      }
    }
  }

  lemma {:induction false} SortBySorts<T>(xs: seq<T>, key: T -> string)
    ensures SortedBy(SortBy(xs, key), key)
  {
    if xs != [] {
      SortBySorts(xs[1..], key);
      InsertKeepsSorted(xs[0], SortBy(xs[1..], key), key);
    }
  }

  lemma {:induction false} SortByFixesSorted<T>(xs: seq<T>, key: T -> string)
    requires SortedBy(xs, key)
    ensures SortBy(xs, key) == xs
  {
    if xs != [] {
      SortByFixesSorted(xs[1..], key);
      if |xs| > 1 {
        assert !Less(key(xs[1]), key(xs[0]));
      }
    }
  }

  lemma SortByIdempotent<T>(xs: seq<T>, key: T -> string)
    ensures SortBy(SortBy(xs, key), key) == SortBy(xs, key)
  {
    SortBySorts(xs, key);
    SortByFixesSorted(SortBy(xs, key), key);
  }

  /** Stability, seen from a lookup: the first element with a given key stays the first. */
  function FirstWith<T>(xs: seq<T>, key: T -> string, k: string): Option<T> {
    if xs == [] then None
    else if key(xs[0]) == k then Some(xs[0])
    else FirstWith(xs[1..], key, k)
  }

  lemma {:induction false} InsertKeepsFirst<T>(x: T, xs: seq<T>, key: T -> string, k: string)
    ensures FirstWith(Insert(x, xs, key), key, k) == if key(x) == k then Some(x) else FirstWith(xs, key, k)
  {
    if xs == [] || !Less(key(xs[0]), key(x)) {
      assert ([x] + xs)[1..] == xs;
    } else {
      InsertKeepsFirst(x, xs[1..], key, k);
      assert ([xs[0]] + Insert(x, xs[1..], key))[1..] == Insert(x, xs[1..], key);
      LessTrichotomy(key(xs[0]), key(x));
    }
  }

  lemma {:induction false} SortByKeepsFirst<T>(xs: seq<T>, key: T -> string, k: string)
    ensures FirstWith(SortBy(xs, key), key, k) == FirstWith(xs, key, k)
  {
    if xs != [] {
      SortByKeepsFirst(xs[1..], key, k);
      InsertKeepsFirst(xs[0], SortBy(xs[1..], key), key, k);
    }
  }

  lemma DistinctTail<T>(xs: seq<T>, key: T -> string)
    requires DistinctBy(xs, key) && xs != []
    ensures DistinctBy(xs[1..], key) && forall x :: x in xs[1..] ==> key(x) != key(xs[0])
  {
  }

  /** The order of a list with distinct keys is all that sorting forgets. */
  lemma {:induction false} SortedUnique<T>(a: seq<T>, b: seq<T>, key: T -> string)
    requires SortedBy(a, key) && SortedBy(b, key) && DistinctBy(a, key) && DistinctBy(b, key)
    requires |a| == |b| && forall x :: x in a <==> x in b
    ensures a == b
  {
    if a != [] {
      assert a[0] in b;
      assert b[0] in a;
      var i :| 0 <= i < |b| && b[i] == a[0];
      var j :| 0 <= j < |a| && a[j] == b[0];
      LessTrichotomy(key(a[0]), key(b[0]));
      assert i == 0 && j == 0;
      DistinctTail(a, key);
      DistinctTail(b, key);
      forall x ensures x in a[1..] <==> x in b[1..] {
        assert a == [a[0]] + a[1..] && b == [b[0]] + b[1..];
        assert x in a <==> x == a[0] || x in a[1..];
        assert x in b <==> x == b[0] || x in b[1..];
      }
      SortedUnique(a[1..], b[1..], key);
      assert a == [a[0]] + a[1..] && b == [b[0]] + b[1..];
    }
  }

  lemma DistinctPermutation<T>(a: seq<T>, b: seq<T>, key: T -> string)
    requires multiset(a) == multiset(b) && DistinctBy(a, key)
    ensures DistinctBy(b, key)
  {
    forall i, j | 0 <= i < j < |b| ensures key(b[i]) != key(b[j]) {
      SameElements(a, b);
      if key(b[i]) == key(b[j]) {
        assert b[i] in a && b[j] in a;
        var p :| 0 <= p < |a| && a[p] == b[i];
        var q :| 0 <= q < |a| && a[q] == b[j];
        assert p == q;
        TwiceInMultiset(b, i, j);
        OnceInMultiset(a, p, key);
      }
    }
  }

  lemma TwiceInMultiset<T>(b: seq<T>, i: nat, j: nat)
    requires i < j < |b| && b[i] == b[j]
    ensures multiset(b)[b[i]] >= 2
  {
    assert b == b[..i] + [b[i]] + b[i + 1..j] + [b[j]] + b[j + 1..];
  }

  lemma OnceInMultiset<T>(a: seq<T>, p: nat, key: T -> string)
    requires p < |a| && DistinctBy(a, key)
    ensures multiset(a)[a[p]] == 1
  {
    assert a == a[..p] + [a[p]] + a[p + 1..];
    assert a[p] !in a[..p];
    assert a[p] !in a[p + 1..];
  }

  lemma FirstIsLeast(a: seq<string>, x: string, itself: string -> string)
    requires SortedBy(a, itself) && x in a && forall t :: itself(t) == t
    ensures !Less(x, a[0])
  {
    var i :| 0 <= i < |a| && a[i] == x;
    LessTrichotomy(x, x);
    if i > 0 {
      assert !Less(itself(a[i]), itself(a[0]));
    }
  }

  lemma TailElements(a: seq<string>, b: seq<string>)
    requires a != [] && b != [] && multiset(a) == multiset(b) && a[0] == b[0]
    ensures multiset(a[1..]) == multiset(b[1..])
  {
    assert a == [a[0]] + a[1..] && b == [b[0]] + b[1..];
    assert multiset(a[1..]) == multiset(a) - multiset{a[0]};
    assert multiset(b[1..]) == multiset(b) - multiset{b[0]};
  }

  /** Sorted lists of texts with the same elements are the same list. */
  lemma {:induction false} SortedTextsUnique(a: seq<string>, b: seq<string>, itself: string -> string)
    requires SortedBy(a, itself) && SortedBy(b, itself) && multiset(a) == multiset(b)
    requires forall t :: itself(t) == t
    ensures a == b
  {
    assert |multiset(a)| == |multiset(b)|;
    if a != [] {
      SameElements(a, b);
      FirstIsLeast(a, b[0], itself);
      FirstIsLeast(b, a[0], itself);
      LessTrichotomy(a[0], b[0]);
      TailElements(a, b);
      SortedTextsUnique(a[1..], b[1..], itself);
      assert a == [a[0]] + a[1..] && b == [b[0]] + b[1..];
    }
  }
}
