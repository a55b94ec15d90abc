/** Aggregated counts over the store (internal/storage/store.go:162-222). */
module StoreStats {
  import opened Prelude
  import opened Text
  import opened Events
  import opened Storage

  /** What each id is counted under. */
  type Kinds = map<string, string>

  function Group(kinds: Kinds, k: string): set<string> {
    set id | id in kinds && kinds[id] == k
  }

  /** One count per kind that occurs. */
  ghost function Counts(kinds: Kinds): map<string, nat> {
    map k | k in kinds.Values :: |Group(kinds, k)|
  }

  function CountOf(counts: map<string, nat>, k: string): nat {
    if k in counts then counts[k] else 0
  }

  /** `counts[k]++` on a Go map. */
  function Bump(counts: map<string, nat>, k: string): map<string, nat> {
    counts[k := CountOf(counts, k) + 1]
  }

  lemma Occurs(kinds: Kinds, k: string)
    ensures CountOf(Counts(kinds), k) == |Group(kinds, k)|
  {
    if k !in kinds.Values {
      assert Group(kinds, k) == {};
    }
  }

  lemma ValuesAdd(kinds: Kinds, id: string, k: string)
    requires id !in kinds
    ensures kinds[id := k].Values == kinds.Values + {k}
  {
    var kinds' := kinds[id := k];
    assert kinds'[id] == k;
    forall j | j in kinds.Values
      ensures j in kinds'.Values
    {
      var i :| i in kinds && kinds[i] == j;
      assert kinds'[i] == j;
    }
  }

  lemma GroupAdd(kinds: Kinds, id: string, k: string, j: string)
    requires id !in kinds
    ensures |Group(kinds[id := k], j)| == |Group(kinds, j)| + (if j == k then 1 else 0)
  {
    assert Group(kinds[id := k], j) == Group(kinds, j) + (if j == k then {id} else {});
  }

  /** Counting one more id. */
  lemma CountsAdd(kinds: Kinds, id: string, k: string)
    requires id !in kinds
    ensures Counts(kinds[id := k]) == Bump(Counts(kinds), k)
  {
    var counts, counts' := Counts(kinds), Counts(kinds[id := k]);
    ValuesAdd(kinds, id, k);
    assert counts'.Keys == counts.Keys + {k};
    Occurs(kinds, k);
    forall j | j in counts'
      ensures counts'[j] == Bump(counts, k)[j]
    {
      GroupAdd(kinds, id, k, j);
    }
  }

  /** The counts add up to the number of ids. */
  lemma {:induction false} CountsTotal(kinds: Kinds)
    ensures Sum(Counts(kinds)) == |kinds|
    decreases |kinds|
  {
    if kinds != map[] {
      var id :| id in kinds;
      var rest := kinds - {id};
      assert kinds == rest[id := kinds[id]];
      assert kinds.Keys == rest.Keys + {id};
      CountsTotal(rest);
      CountsAdd(rest, id, kinds[id]);
      SumUpdate(Counts(rest), kinds[id], CountOf(Counts(rest), kinds[id]) + 1);
    }
  }

  function Bucket(score: real): string {
    if score >= 80.0 then "80-100"
    else if score >= 55.0 then "55-79"
    else if score >= 30.0 then "30-54"
    else "0-29"
  }

  function CategoryKinds(primary: Primary): Kinds {
    map id | id in primary :: primary[id].category
  }

  function PriorityKinds(primary: Primary): Kinds {
    map id | id in primary :: primary[id].priority
  }

  function ScoreKinds(primary: Primary): Kinds {
    map id | id in primary :: Bucket(primary[id].funScore)
  }

  datatype Stats = Stats(
    totalEvents: nat,
    byCategory: map<string, nat>,
    byPriority: map<string, nat>,
    scoreDistrib: map<string, nat>)

  function Without(primary: Primary, ids: set<string>): Primary {
    map id | id in primary && id !in ids :: primary[id]
  }

  lemma WithoutLess(primary: Primary, ids: set<string>, id: string)
    requires id in ids && id in primary
    ensures Without(primary, ids - {id}) == Without(primary, ids)[id := primary[id]]
  {
  }

  /** The counting loop, over the events in any order. */
  method Collect(st: Store) returns (r: Stats)
    ensures r.totalEvents == |st.primary|
    ensures r.byCategory == Counts(CategoryKinds(st.primary))
    ensures r.byPriority == Counts(PriorityKinds(st.primary))
    ensures r.scoreDistrib == Counts(ScoreKinds(st.primary))
  {
    var byCategory, byPriority, scoreDistrib: map<string, nat> := map[], map[], map[];
    var todo := st.primary.Keys;
    ghost var seen: Primary := map[];
    while todo != {}
      invariant todo <= st.primary.Keys
      invariant seen == Without(st.primary, todo)
      invariant byCategory == Counts(CategoryKinds(seen))
      invariant byPriority == Counts(PriorityKinds(seen))
      invariant scoreDistrib == Counts(ScoreKinds(seen))
      decreases todo
    {
      var id :| id in todo;
      var e := st.primary[id];
      byCategory := Bump(byCategory, e.category);
      byPriority := Bump(byPriority, e.priority);
      scoreDistrib := Bump(scoreDistrib, Bucket(e.funScore));
      assert id !in seen;
      SeenCategory(seen, id, e);
      SeenPriority(seen, id, e);
      SeenScore(seen, id, e);
      WithoutLess(st.primary, todo, id);
      seen := seen[id := e];
      todo := todo - {id};
    }
    assert Without(st.primary, {}) == st.primary;
    r := Stats(|st.primary|, byCategory, byPriority, scoreDistrib);
  }

  lemma SeenCategory(seen: Primary, id: string, e: Event)
    requires id !in seen
    ensures Counts(CategoryKinds(seen[id := e])) == Bump(Counts(CategoryKinds(seen)), e.category)
  {
    assert CategoryKinds(seen[id := e]) == CategoryKinds(seen)[id := e.category];
    CountsAdd(CategoryKinds(seen), id, e.category);
  }

  lemma SeenPriority(seen: Primary, id: string, e: Event)
    requires id !in seen
    ensures Counts(PriorityKinds(seen[id := e])) == Bump(Counts(PriorityKinds(seen)), e.priority)
  {
    assert PriorityKinds(seen[id := e]) == PriorityKinds(seen)[id := e.priority];
    CountsAdd(PriorityKinds(seen), id, e.priority);
  }

  lemma SeenScore(seen: Primary, id: string, e: Event)
    requires id !in seen
    ensures Counts(ScoreKinds(seen[id := e])) == Bump(Counts(ScoreKinds(seen)), Bucket(e.funScore))
  {
    assert ScoreKinds(seen[id := e]) == ScoreKinds(seen)[id := Bucket(e.funScore)];
    CountsAdd(ScoreKinds(seen), id, Bucket(e.funScore));
  }

  /** Each of the three breakdowns accounts for every event once. */
  lemma BreakdownsTotal(primary: Primary)
    ensures Sum(Counts(CategoryKinds(primary))) == |primary|
    ensures Sum(Counts(PriorityKinds(primary))) == |primary|
    ensures Sum(Counts(ScoreKinds(primary))) == |primary|
  {
    CountsTotal(CategoryKinds(primary));
    CountsTotal(PriorityKinds(primary));
    CountsTotal(ScoreKinds(primary));
    assert CategoryKinds(primary).Keys == PriorityKinds(primary).Keys == ScoreKinds(primary).Keys == primary.Keys;
    assert |CategoryKinds(primary)| == |primary.Keys| && |PriorityKinds(primary)| == |primary.Keys|
        && |ScoreKinds(primary)| == |primary.Keys|;
  }

  /** The counts of the spellings that share a lower case. */
  ghost function Spellings(u: Letters, primary: Primary, key: string): map<string, nat> {
    map c | c in Counts(CategoryKinds(primary)) && Lower(u, c) == key :: Counts(CategoryKinds(primary))[c]
  }

  /** Summed over its spellings, a category's count is the size of its index set. */
  lemma SpellingsMatchIndex(u: Letters, primary: Primary, byCategory: Index, key: string)
    requires Agrees(u, Category, primary, byCategory)
    ensures Sum(Spellings(u, primary, key)) == |At(byCategory, key)|
  {
    var all := CategoryKinds(primary);
    var kinds: Kinds := map id | id in Ids(u, Category, primary, key) :: primary[id].category;
    CountsTotal(kinds);
    assert kinds.Keys == Ids(u, Category, primary, key);
    assert |kinds| == |At(byCategory, key)|;
    forall c
      ensures c in kinds.Values <==> c in all.Values && Lower(u, c) == key
    {
      if c in all.Values && Lower(u, c) == key {
        var id :| id in all && all[id] == c;
        assert id in kinds && kinds[id] == c;
      }
      if c in kinds.Values {
        var id :| id in kinds && kinds[id] == c;
        assert id in all && all[id] == c;
      }
    }
    forall c | c in kinds.Values
      ensures Group(kinds, c) == Group(all, c)
    {
    }
    assert Counts(kinds) == Spellings(u, primary, key);
  }

  /** Every stored event carries the tier its score earns, as the pipeline's last two computing stages leave it. */
  ghost predicate Classified(primary: Primary) {
    forall id :: id in primary ==> Tiered(primary[id])
  }

  /** In a classified store the four score buckets are the four priority counts. */
  lemma BucketsArePriorities(primary: Primary, score: real)
    requires Classified(primary)
    ensures CountOf(Counts(ScoreKinds(primary)), Bucket(score))
         == CountOf(Counts(PriorityKinds(primary)), PriorityOf(score))
  {
    var buckets, tiers := ScoreKinds(primary), PriorityKinds(primary);
    forall x: real
      ensures Bucket(x) == Bucket(score) <==> PriorityOf(x) == PriorityOf(score)
    {
      TierByFirstLetter(x, score);
    }
    assert Group(buckets, Bucket(score)) == Group(tiers, PriorityOf(score));
    Occurs(buckets, Bucket(score));
    Occurs(tiers, PriorityOf(score));
  }

  lemma TierByFirstLetter(x: real, y: real)
    ensures Bucket(x) == Bucket(y) <==> PriorityOf(x) == PriorityOf(y)
  {
    assert Bucket(x)[0] == Bucket(y)[0] <==> Bucket(x) == Bucket(y);
    assert PriorityOf(x)[0] == PriorityOf(y)[0] <==> PriorityOf(x) == PriorityOf(y);
  }

  /** Each count in the terms of the events counted. */
  lemma CountsPlain(primary: Primary, k: string)
    ensures CountOf(Counts(CategoryKinds(primary)), k) == |set id | id in primary && primary[id].category == k|
    ensures CountOf(Counts(PriorityKinds(primary)), k) == |set id | id in primary && primary[id].priority == k|
  {
    Occurs(CategoryKinds(primary), k);
    Occurs(PriorityKinds(primary), k);
    assert Group(CategoryKinds(primary), k) == set id | id in primary && primary[id].category == k;
    assert Group(PriorityKinds(primary), k) == set id | id in primary && primary[id].priority == k;
  }

  /** The ids of events with a score from `low` up to but not including `high`. */
  function ScoredIn(primary: Primary, low: real, high: real): set<string> {
    set id | id in primary && low <= primary[id].funScore < high
  }

  /** The four buckets of scores between 0 and 100 meet at 30, 55 and 80. */
  lemma BucketsPlain(primary: Primary)
    requires forall id :: id in primary ==> 0.0 <= primary[id].funScore <= 100.0
    ensures CountOf(Counts(ScoreKinds(primary)), "0-29") == |ScoredIn(primary, 0.0, 30.0)|
    ensures CountOf(Counts(ScoreKinds(primary)), "30-54") == |ScoredIn(primary, 30.0, 55.0)|
    ensures CountOf(Counts(ScoreKinds(primary)), "55-79") == |ScoredIn(primary, 55.0, 80.0)|
    ensures CountOf(Counts(ScoreKinds(primary)), "80-100") == |ScoredIn(primary, 80.0, 101.0)|
  {
    forall bucket
      ensures CountOf(Counts(ScoreKinds(primary)), bucket) == |Group(ScoreKinds(primary), bucket)|
    {
      Occurs(ScoreKinds(primary), bucket);
    }
    assert Group(ScoreKinds(primary), "0-29") == ScoredIn(primary, 0.0, 30.0) by { BucketOf(primary); }
    assert Group(ScoreKinds(primary), "30-54") == ScoredIn(primary, 30.0, 55.0) by { BucketOf(primary); }
    assert Group(ScoreKinds(primary), "55-79") == ScoredIn(primary, 55.0, 80.0) by { BucketOf(primary); }
    assert Group(ScoreKinds(primary), "80-100") == ScoredIn(primary, 80.0, 101.0) by { BucketOf(primary); }
  }

  lemma BucketIff(x: real)
    ensures Bucket(x) == "0-29" <==> x < 30.0
    ensures Bucket(x) == "30-54" <==> 30.0 <= x < 55.0
    ensures Bucket(x) == "55-79" <==> 55.0 <= x < 80.0
    ensures Bucket(x) == "80-100" <==> x >= 80.0
  {
    assert Bucket(x)[0] in {'0', '3', '5', '8'};
  }

  lemma BucketOf(primary: Primary)
    ensures forall id :: id in primary ==>
              && (Bucket(primary[id].funScore) == "0-29" <==> primary[id].funScore < 30.0)
              && (Bucket(primary[id].funScore) == "30-54" <==> 30.0 <= primary[id].funScore < 55.0)
              && (Bucket(primary[id].funScore) == "55-79" <==> 55.0 <= primary[id].funScore < 80.0)
              && (Bucket(primary[id].funScore) == "80-100" <==> primary[id].funScore >= 80.0)
  {
    forall id | id in primary
      ensures Bucket(primary[id].funScore) == "0-29" <==> primary[id].funScore < 30.0
      ensures Bucket(primary[id].funScore) == "30-54" <==> 30.0 <= primary[id].funScore < 55.0
      ensures Bucket(primary[id].funScore) == "55-79" <==> 55.0 <= primary[id].funScore < 80.0
      ensures Bucket(primary[id].funScore) == "80-100" <==> primary[id].funScore >= 80.0
    {
      BucketIff(primary[id].funScore);
    }
  }
}
