/** Value types shared by every component. */
module Common {

  type Byte = x: int | 0 <= x < 256

  type Bytes = seq<Byte>

  datatype Option<+T> = None | Some(value: T)

  datatype Result<+T, +E> = Ok(value: T) | Err(error: E)

  /** The libraries the launcher calls without showing them: a digest and a compression codec. */
  datatype Codec = Codec(hash: Bytes -> string, encode: Bytes -> Bytes, decode: Bytes -> Option<Bytes>)

  /** Decompression undoes compression, and no frame is empty. */
  ghost predicate RoundTrips(codec: Codec) {
    forall raw: Bytes :: |codec.encode(raw)| > 0 && codec.decode(codec.encode(raw)) == Some(raw)
  }

  /** No two of the given byte strings share a digest. */
  ghost predicate CollisionFree(hash: Bytes -> string, inputs: set<Bytes>) {
    forall x, y | x in inputs && y in inputs && hash(x) == hash(y) :: x == y
  }

  function Flatten(pieces: seq<Bytes>): Bytes {
    if pieces == [] then [] else pieces[0] + Flatten(pieces[1..])
  }

  function Max(a: int, b: int): int {
    if a >= b then a else b
  }

  function Min(a: int, b: int): int {
    if a <= b then a else b
  }

  predicate Distinct<T(==)>(xs: seq<T>) {
    forall i, j | 0 <= i < j < |xs| :: xs[i] != xs[j]
  }

  function Elements<T(==)>(xs: seq<T>): set<T> {
    set x | x in xs
  }
}

/** Sums over finite maps, independent of the order in which keys are visited. */
module MapSums {

  ghost function Sum<K>(m: map<K, nat>): (total: nat)
    ensures m == map[] ==> total == 0
  {
    if m == map[] then 0 else
      var k :| k in m;
      m[k] + Sum(m - {k})
  }

  /** Any key may be taken out first. */
  lemma {:induction false} SumRemove<K>(m: map<K, nat>, k: K)
    requires k in m
    ensures Sum(m) == m[k] + Sum(m - {k})
    decreases |m|
  {
    var p :| p in m && Sum(m) == m[p] + Sum(m - {p});
    if p != k {
      assert |m - {p}| < |m| by { assert (m - {p}).Keys == m.Keys - {p}; }
      SumRemove(m - {p}, k);
      assert |m - {k}| < |m| by { assert (m - {k}).Keys == m.Keys - {k}; }
      SumRemove(m - {k}, p);
      assert m - {p} - {k} == m - {k} - {p};
    }
  }

  lemma {:induction false} SumInsert<K>(m: map<K, nat>, k: K, v: nat)
    ensures Sum(m[k := v]) == Sum(m - {k}) + v
    ensures Sum(m[k := v]) == Sum(m) + v - (if k in m then m[k] else 0)
  {
    SumRemove(m[k := v], k);
    assert m[k := v] - {k} == m - {k};
    if k in m {
      SumRemove(m, k);
    } else {
      assert m - {k} == m;
    }
  }

  /** A map with no larger values at some of the keys has no larger sum. */
  lemma {:induction false} SumMonotone<K>(less: map<K, nat>, more: map<K, nat>)
    requires forall k | k in less :: k in more && less[k] <= more[k]
    ensures Sum(less) <= Sum(more)
    decreases |less|
  {
    if less == map[] {
      assert Sum(less) == 0;
    } else {
      var k :| k in less;
      SumRemove(less, k);
      SumRemove(more, k);
      assert |less - {k}| < |less| by { assert (less - {k}).Keys == less.Keys - {k}; }
      SumMonotone(less - {k}, more - {k});
    }
  }
}
