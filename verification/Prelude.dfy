/** Small helpers shared by every module: options, machine integers, sizes of sets, and sums over finite maps. */
module Prelude {
  datatype Option<+T> = None | Some(value: T)

  const TWO63: int := 0x8000_0000_0000_0000
  const TWO64: int := 0x1_0000_0000_0000_0000

  /** What 64-bit two's-complement arithmetic makes of an integer. */
  function Wrap(x: int): int {
    var r := x % TWO64;
    if r >= TWO63 then r - TWO64 else r
  }

  /** The only 64-bit value that differs from `x` by a multiple of 2^64. */
  lemma WrapLaw(x: int, y: int)
    ensures -0x8000_0000_0000_0000 <= Wrap(x) < 0x8000_0000_0000_0000
    ensures (x - Wrap(x)) % 0x1_0000_0000_0000_0000 == 0
    ensures -0x8000_0000_0000_0000 <= y < 0x8000_0000_0000_0000 && (x - y) % 0x1_0000_0000_0000_0000 == 0
        ==> Wrap(x) == y
  {
  }

  function Min(x: real, y: real): real {
    if x <= y then x else y
  }

  lemma {:induction false} SubsetSize<T>(a: set<T>, b: set<T>)
    requires a <= b
    ensures |a| <= |b|
    decreases a
  {
    if a != {} {
      var x :| x in a;
      SubsetSize(a - {x}, b - {x});
    }
  }

  /** The sum of the values of a finite map. */
  ghost function Sum<K(!new)>(m: map<K, nat>): nat {
    if m == map[] then 0
    else
      var k :| k in m;
      m[k] + Sum(m - {k})
  }

  /** Any key may be taken out first. */
  lemma {:induction false} SumRemove<K(!new)>(m: map<K, nat>, k: K)
    requires k in m
    ensures Sum(m) == m[k] + Sum(m - {k})
    decreases |m|
  {
    var j :| j in m && Sum(m) == m[j] + Sum(m - {j});
    if j != k {
      SumRemove(m - {j}, k);
      SumRemove(m - {k}, j);
      assert m - {j} - {k} == m - {k} - {j};
    }
  }

  /** Changing (or adding) one entry changes the sum by that entry only. */
  lemma SumUpdate<K(!new)>(m: map<K, nat>, k: K, v: nat)
    ensures Sum(m[k := v]) == Sum(m) - (if k in m then m[k] else 0) + v
  {
    var m' := m[k := v];
    SumRemove(m', k);
    if k in m {
      SumRemove(m, k);
      assert m' - {k} == m - {k};
    } else {
      assert m' - {k} == m;
    }
  }

  /** A map that is pointwise below another, over no more keys, has no larger sum. */
  lemma {:induction false} SumMonotone<K(!new)>(m: map<K, nat>, m': map<K, nat>)
    requires m.Keys <= m'.Keys
    requires forall k :: k in m ==> m[k] <= m'[k]
    ensures Sum(m) <= Sum(m')
    decreases |m|
  {
    if m != map[] {
      var k :| k in m;
      SumRemove(m, k);
      SumRemove(m', k);
      SumMonotone(m - {k}, m' - {k});
    }
  }

  /** As above, strictly below at one key. */
  lemma SumStrict<K(!new)>(m: map<K, nat>, m': map<K, nat>, k: K)
    requires m.Keys == m'.Keys && k in m && m[k] < m'[k]
    requires forall j :: j in m ==> m[j] <= m'[j]
    ensures Sum(m) < Sum(m')
  {
    SumRemove(m, k);
    SumRemove(m', k);
    SumMonotone(m - {k}, m' - {k});
  }

  /** Adding maps entry by entry adds their sums. */
  lemma {:induction false} SumTwo<K(!new)>(m: map<K, nat>, f: map<K, nat>, g: map<K, nat>)
    requires m.Keys == f.Keys == g.Keys && forall k :: k in m ==> m[k] == f[k] + g[k]
    ensures Sum(m) == Sum(f) + Sum(g)
    decreases |m|
  {
    if m != map[] {
      var k :| k in m;
      SumRemove(m, k);
      SumRemove(f, k);
      SumRemove(g, k);
      SumTwo(m - {k}, f - {k}, g - {k});
    }
  }

  lemma {:induction false} SumZero<K(!new)>(m: map<K, nat>)
    ensures Sum(m) == 0 <==> forall k :: k in m ==> m[k] == 0
    decreases |m|
  {
    if m != map[] {
      var k :| k in m;
      SumRemove(m, k);
      SumZero(m - {k});
      assert forall j :: j in m && j != k ==> (m - {k})[j] == m[j];
    }
  }

  /** Adding up entries along a walk over some of the keys. */
  function WalkTotal<K>(m: map<K, nat>, walk: seq<K>): nat
    requires forall k :: k in walk ==> k in m
  {
    if walk == [] then 0 else WalkTotal(m, walk[..|walk| - 1]) + m[walk[|walk| - 1]]
  }

  lemma WithoutLast<K>(keys: set<K>, front: seq<K>, last: K)
    requires forall k :: k in front + [last] <==> k in keys
    requires forall i, j :: 0 <= i < j < |front + [last]| ==> (front + [last])[i] != (front + [last])[j]
    ensures forall k :: k in front <==> k in keys && k != last
  {
    forall i | 0 <= i < |front|
      ensures front[i] != last && front[i] in front + [last]
    {
      assert (front + [last])[i] != (front + [last])[|front|];
    }
  }

  /** A walk that meets every key once arrives at the sum, whatever its order. */
  lemma {:induction false} WalkSum<K(!new)>(m: map<K, nat>, walk: seq<K>)
    requires forall k :: k in walk <==> k in m
    requires forall i, j :: 0 <= i < j < |walk| ==> walk[i] != walk[j]
    ensures WalkTotal(m, walk) == Sum(m)
    decreases |walk|
  {
    if walk == [] {
      assert m == map[];
    } else {
      var front, k := walk[..|walk| - 1], walk[|walk| - 1];
      SumRemove(m, k);
      assert walk == front + [k];
      WithoutLast(m.Keys, front, k);
      WalkSum(m - {k}, front);
      WalkOther(m, m - {k}, front);
    }
  }

  lemma {:induction false} WalkOther<K>(m: map<K, nat>, m': map<K, nat>, walk: seq<K>)
    requires forall k :: k in walk ==> k in m && k in m' && m[k] == m'[k]
    ensures WalkTotal(m, walk) == WalkTotal(m', walk)
  {
    if walk != [] {
      WalkOther(m, m', walk[..|walk| - 1]);
    }
  }
}
