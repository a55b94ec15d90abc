/** The metrics collector as an object (internal/metrics/metrics.go): counters, latency windows and percentiles. */
module Metrics {
  import opened Prelude

  class Cell {
    var value: int

    constructor ()
      ensures value == 0
    {
      value := 0;
    }
  }

  const WINDOW: nat := 1000

  /** Keeping only the most recent samples. */
  function Keep(buf: seq<int>, us: int): seq<int> {
    (if |buf| >= WINDOW then buf[1..] else buf) + [us]
  }

  /** time.Duration.Microseconds: division truncates toward zero. */
  function Microseconds(d: int): int {
    if d >= 0 then d / 1000 else -(-d / 1000)
  }

  class Collector {
    var counters: map<string, Cell>
    var latency: map<string, seq<int>>

    ghost predicate Valid()
      reads this
    {
      forall m, n :: m in counters && n in counters && counters[m] == counters[n] ==> m == n
    }

    ghost function Values(): map<string, int>
      reads this, counters.Values
    {
      map name | name in counters :: counters[name].value
    }

    function Samples(name: string): seq<int>
      reads this
    {
      if name in latency then latency[name] else []
    }

    constructor (names: seq<string>)
      ensures Valid() && latency == map[]
      ensures Values() == map name | name in names :: 0
    {
      counters, latency := map[], map[];
      new;
      var i := 0;
      while i < |names|
        invariant 0 <= i <= |names|
        invariant Valid() && latency == map[]
        invariant forall name :: name in counters <==> name in names[..i]
        invariant forall name :: name in counters ==> fresh(counters[name]) && counters[name].value == 0
      {
        var c := new Cell();
        counters := counters[names[i] := c];
        assert names[..i + 1] == names[..i] + [names[i]];
        i := i + 1;
      }
      assert names[..|names|] == names;
    }

    /** Finds the cell of a name: a first look, then a second one that registers the name if still absent. */
    method CellFor(name: string) returns (c: Cell)
      requires Valid()
      modifies this`counters
      ensures Valid() && name in counters && counters[name] == c && c in counters.Values
      ensures name in old(counters) ==> counters == old(counters)
      ensures name !in old(counters) ==> fresh(c) && c.value == 0 && counters == old(counters)[name := c]
    {
      if name in counters {
        return counters[name];
      }
      if name !in counters {
        var zero := new Cell();
        counters := counters[name := zero];
      }
      c := counters[name];
    }

    /** Adds with 64-bit wrap-around; a new name starts at 0. */
    method Add(name: string, delta: int)
      requires Valid()
      modifies this`counters, counters.Values
      ensures Valid() && latency == old(latency)
      ensures var before := old(Values());
              Values() == before[name := Wrap((if name in before then before[name] else 0) + delta)]
    {
      var c := CellFor(name);
      c.value := Wrap(c.value + delta);
    }

    method Set(name: string, val: int)
      requires Valid()
      modifies this`counters, counters.Values
      ensures Valid() && latency == old(latency)
      ensures Values() == old(Values())[name := val]
    {
      var c := CellFor(name);
      c.value := val;
    }

    method RecordLatency(name: string, d: int)
      requires Valid()
      modifies this`latency
      ensures Valid() && counters == old(counters)
      ensures Samples(name) == Keep(old(Samples(name)), Microseconds(d))
      ensures forall other :: other != name ==> Samples(other) == old(Samples(other))
    {
      var buf := if name in latency then latency[name] else [];
      if |buf| >= WINDOW {
        buf := buf[1..];
      }
      latency := latency[name := buf + [Microseconds(d)]];
    }

    /** Percentiles of a sorted copy; the window itself is only read. */
    method LatencySnapshot(name: string) returns (p50: int, p95: int, p99: int)
      ensures Samples(name) == [] ==> p50 == 0 && p95 == 0 && p99 == 0
      ensures Samples(name) != [] ==>
                && p50 <= p95 <= p99
                && IsPercentile(Samples(name), 50, p50)
                && IsPercentile(Samples(name), 95, p95)
                && IsPercentile(Samples(name), 99, p99)
    {
      var buf := if name in latency then latency[name] else [];
      if |buf| == 0 {
        return 0, 0, 0;
      }
      var sorted := Sort(buf);
      var n := |buf|;
      assert Index(n, 50) <= Index(n, 95) <= Index(n, 99) < n;
      SortedRank(buf, sorted, 50);
      SortedRank(buf, sorted, 95);
      SortedRank(buf, sorted, 99);
      p50, p95, p99 := sorted[Index(n, 50)], sorted[Index(n, 95)], sorted[Index(n, 99)];
    }
  }

  // ---- The window ----

  function KeepAll(samples: seq<int>): seq<int> {
    if samples == [] then [] else Keep(KeepAll(samples[..|samples| - 1]), samples[|samples| - 1])
  }

  /** However many samples arrive, the buffer is the last thousand of them, oldest first. */
  lemma {:induction false} WindowIsSuffix(samples: seq<int>)
    ensures KeepAll(samples) == samples[if |samples| <= 1000 then 0 else |samples| - 1000..]
  {
    if samples != [] {
      var n := |samples| - 1;
      WindowIsSuffix(samples[..n]);
      assert samples == samples[..n] + [samples[n]];
    }
  }

  /** Whole microseconds of a duration in nanoseconds, truncated toward zero for either sign. */
  lemma MicrosecondsLaw(d: int)
    ensures d >= 0 ==> 0 <= 1000 * Microseconds(d) <= d < 1000 * Microseconds(d) + 1000
    ensures Microseconds(-d) == -Microseconds(d)
  {
  }

  // ---- Percentiles ----

  function CountAtMost(s: seq<int>, v: int): nat {
    if s == [] then 0 else (if s[0] <= v then 1 else 0) + CountAtMost(s[1..], v)
  }

  function CountAtLeast(s: seq<int>, v: int): nat {
    if s == [] then 0 else (if s[0] >= v then 1 else 0) + CountAtLeast(s[1..], v)
  }

  /** The position read for a percentile: (n - 1) * p / 100, rounded down. */
  function Index(n: nat, p: nat): nat
    requires n >= 1
  {
    (n - 1) * p / 100
  }

  lemma IndexInRange(n: nat, p: nat)
    requires n >= 1 && p <= 100
    ensures Index(n, p) < n
  {
    assert (n - 1) * p <= (n - 1) * 100;
  }

  /** `k` is p percent of n - 1, rounded down. */
  predicate IsRank(n: nat, p: nat, k: nat) {
    100 * k <= (n - 1) * p < 100 * (k + 1)
  }

  /** A recorded sample with the right number of samples on either side. */
  ghost predicate IsPercentile(s: seq<int>, p: nat, v: int)
    requires s != [] && p <= 100
  {
    v in s && exists k: nat :: IsRank(|s|, p, k) && CountAtMost(s, v) >= k + 1 && CountAtLeast(s, v) >= |s| - k
  }

  /** Percentiles are unique: the count conditions fix the value. */
  lemma PercentileUnique(s: seq<int>, p: nat, v: int, w: int)
    requires s != [] && p <= 100 && IsPercentile(s, p, v) && IsPercentile(s, p, w)
    ensures v == w
  {
    if v < w {
      Apart(s, v, w);
    } else if w < v {
      Apart(s, w, v);
    }
  }

  lemma {:induction false} Apart(s: seq<int>, v: int, w: int)
    requires v < w
    ensures CountAtMost(s, v) + CountAtLeast(s, w) <= |s|
  {
    if s != [] {
      Apart(s[1..], v, w);
    }
  }

  ghost predicate Sorted(s: seq<int>) {
    forall i, j :: 0 <= i <= j < |s| ==> s[i] <= s[j]
  }

  /** Same samples, as far as any count can tell. */
  ghost predicate SameCounts(s: seq<int>, t: seq<int>) {
    && |s| == |t|
    && (forall v :: CountAtMost(s, v) == CountAtMost(t, v))
    && (forall v :: CountAtLeast(s, v) == CountAtLeast(t, v))
    && (forall v :: v in s <==> v in t)
  }

  function Insert(x: int, s: seq<int>): seq<int> {
    if s == [] || x <= s[0] then [x] + s else [s[0]] + Insert(x, s[1..])
  }

  lemma {:induction false} InsertCounts(x: int, s: seq<int>, v: int)
    ensures |Insert(x, s)| == |s| + 1
    ensures CountAtMost(Insert(x, s), v) == CountAtMost(s, v) + (if x <= v then 1 else 0)
    ensures CountAtLeast(Insert(x, s), v) == CountAtLeast(s, v) + (if x >= v then 1 else 0)
    ensures v in Insert(x, s) <==> v == x || v in s
  {
    if s != [] && x > s[0] {
      InsertCounts(x, s[1..], v);
      assert Insert(x, s)[1..] == Insert(x, s[1..]);
      assert s == [s[0]] + s[1..];
    } else {
      assert Insert(x, s)[1..] == s;
    }
  }

  lemma {:induction false} InsertSorted(x: int, s: seq<int>)
    requires Sorted(s)
    ensures Sorted(Insert(x, s))
  {
    if s != [] && x > s[0] {
      InsertSorted(x, s[1..]);
      var r := Insert(x, s[1..]);
      forall i | 0 <= i < |r|
        ensures r[i] >= s[0]
      {
        InsertCounts(x, s[1..], r[i]);
      }
    }
  }

  lemma {:induction false} CountSnoc(s: seq<int>, x: int, v: int)
    ensures CountAtMost(s + [x], v) == CountAtMost(s, v) + (if x <= v then 1 else 0)
    ensures CountAtLeast(s + [x], v) == CountAtLeast(s, v) + (if x >= v then 1 else 0)
  {
    if s != [] {
      assert (s + [x])[1..] == s[1..] + [x];
      CountSnoc(s[1..], x, v);
    }
  }

  lemma InsertNext(r: seq<int>, front: seq<int>, x: int)
    requires Sorted(r) && SameCounts(r, front)
    ensures Sorted(Insert(x, r)) && SameCounts(Insert(x, r), front + [x])
  {
    InsertSorted(x, r);
    InsertCounts(x, r, x);
    forall v
      ensures CountAtMost(Insert(x, r), v) == CountAtMost(front + [x], v)
      ensures CountAtLeast(Insert(x, r), v) == CountAtLeast(front + [x], v)
      ensures v in Insert(x, r) <==> v in front + [x]
    {
      InsertCounts(x, r, v);
      CountSnoc(front, x, v);
    }
  }

  /** A library sort: only its contract is used. */
  method Sort(s: seq<int>) returns (r: seq<int>)
    ensures Sorted(r) && SameCounts(r, s)
  {
    r := [];
    for i := 0 to |s|
      invariant Sorted(r) && SameCounts(r, s[..i])
    {
      InsertNext(r, s[..i], s[i]);
      assert s[..i + 1] == s[..i] + [s[i]];
      r := Insert(s[i], r);
    }
    assert s[..|s|] == s;
  }

  lemma {:induction false} SortedCounts(s: seq<int>, k: nat)
    requires Sorted(s) && k < |s|
    ensures CountAtMost(s, s[k]) >= k + 1 && CountAtLeast(s, s[k]) >= |s| - k
  {
    if k == 0 {
      AllAtLeast(s, s[0]);
    } else {
      SortedCounts(s[1..], k - 1);
    }
  }

  lemma {:induction false} AllAtLeast(s: seq<int>, v: int)
    requires forall i :: 0 <= i < |s| ==> s[i] >= v
    ensures CountAtLeast(s, v) == |s|
  {
    if s != [] {
      AllAtLeast(s[1..], v);
    }
  }

  lemma SortedRank(s: seq<int>, sorted: seq<int>, p: nat)
    requires s != [] && p <= 100 && Sorted(sorted) && SameCounts(sorted, s)
    ensures Index(|s|, p) < |s| && IsPercentile(s, p, sorted[Index(|s|, p)])
  {
    IndexInRange(|s|, p);
    assert IsRank(|s|, p, Index(|s|, p));
    SortedCounts(sorted, Index(|s|, p));
  }
}
