/** Shared value types. */
module Prelude {
  datatype Option<+T> = None | Some(value: T)

  datatype Result<+T, +E> = Ok(value: T) | Err(error: E)

  type byte = x: int | 0 <= x < 256

  const U32_LIMIT: int := 0x1_0000_0000
  const I64_LIMIT: int := 0x8000_0000_0000_0000
  const U64_LIMIT: int := 0x1_0000_0000_0000_0000

  function Max(a: int, b: int): int {
    if a < b then b else a
  }

  /** Identifiers, each with the time it lapses. */
  type Seen = map<string, int>

  /** The identifiers not lapsed yet. */
  function Purge(seen: Seen, now: int): Seen {
    map id | id in seen && seen[id] > now :: seen[id]
  }

  lemma SubmapSize<K, V>(some: map<K, V>, all: map<K, V>)
    requires some.Keys <= all.Keys
    ensures |some| <= |all|
  {
    assert |all.Keys - some.Keys| == |all.Keys| - |some.Keys|;
    assert |some| == |some.Keys| && |all| == |all.Keys|;
  }

  // ---- Division ----

  lemma ProductBound(m: int, d: int)
    requires m > 0
    ensures d >= 1 ==> m * d >= m
    ensures d <= -1 ==> m * d <= -m
  {
  }

  /** A quotient with a remainder in range is the quotient. */
  lemma DivMod(n: int, m: int, q: int, r: int)
    requires 0 <= r < m && n == m * q + r
    ensures n / m == q && n % m == r
  {
    var p := n / m;
    assert m * (p - q) == r - n % m;
    ProductBound(m, p - q);
  }
}
