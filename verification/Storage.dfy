/** The indexed event store (internal/storage/store.go): one primary map and two secondary indices. */
module Storage {
  import opened Text
  import opened Events

  type Primary = map<string, Event>
  type Index = map<string, set<string>>

  datatype Field = Category | Priority

  /** The index key of an event; an empty priority is not indexed. */
  function KeyOf(u: Letters, f: Field, e: Event): string {
    match f
    case Category => Lower(u, e.category)
    case Priority => Lower(u, e.priority)
  }

  predicate Indexed(f: Field, key: string) {
    f.Category? || key != ""
  }

  /** Reading a Go map of sets: an absent key is an empty set. */
  function At(ix: Index, key: string): set<string> {
    if key in ix then ix[key] else {}
  }

  function Enter(u: Letters, f: Field, ix: Index, e: Event): Index {
    var key := KeyOf(u, f, e);
    if Indexed(f, key) then ix[key := At(ix, key) + {e.id}] else ix
  }

  function Leave(u: Letters, f: Field, ix: Index, e: Event): Index {
    var key := KeyOf(u, f, e);
    if Indexed(f, key) && key in ix then ix[key := ix[key] - {e.id}] else ix
  }

  /** The ids a plain scan of the primary map finds under a key. */
  function Ids(u: Letters, f: Field, primary: Primary, key: string): set<string> {
    set id | id in primary && KeyOf(u, f, primary[id]) == key
  }

  /** An index lists exactly the ids a scan would find, key by key. */
  ghost predicate Agrees(u: Letters, f: Field, primary: Primary, ix: Index) {
    && (forall key :: Indexed(f, key) ==> At(ix, key) == Ids(u, f, primary, key))
    && (forall key :: key in ix ==> Indexed(f, key))
  }

  ghost predicate Keyed(primary: Primary) {
    forall id :: id in primary ==> primary[id].id == id
  }

  lemma EnterAgrees(u: Letters, f: Field, primary: Primary, ix: Index, e: Event)
    requires Agrees(u, f, primary, ix) && e.id !in primary
    ensures Agrees(u, f, primary[e.id := e], Enter(u, f, ix, e))
  {
    forall key | Indexed(f, key)
      ensures At(Enter(u, f, ix, e), key) == Ids(u, f, primary[e.id := e], key)
    {
      assert At(ix, key) == Ids(u, f, primary, key);
    }
  }

  lemma LeaveAgrees(u: Letters, f: Field, primary: Primary, ix: Index, id: string)
    requires Agrees(u, f, primary, ix) && Keyed(primary) && id in primary
    ensures Agrees(u, f, primary - {id}, Leave(u, f, ix, primary[id]))
  {
    forall key | Indexed(f, key)
      ensures At(Leave(u, f, ix, primary[id]), key) == Ids(u, f, primary - {id}, key)
    {
      assert At(ix, key) == Ids(u, f, primary, key);
    }
  }

  /** Kept by eviction: no expiry time, or one that is not yet past. */
  predicate Live(e: Event, now: int) {
    e.expiresAt == 0 || e.expiresAt >= now
  }

  function Unexpired(primary: Primary, now: int): Primary {
    map id | id in primary && Live(primary[id], now) :: primary[id]
  }

  /** The ids whose events have an expiry time and are past it. */
  function ExpiredIds(primary: Primary, now: int): set<string> {
    set id | id in primary && primary[id].expiresAt != 0 && primary[id].expiresAt < now
  }

  /** What eviction keeps, id by id; and a second sweep at the same or an earlier time finds nothing more. */
  lemma EvictionLaw(primary: Primary, now: int, earlier: int)
    requires earlier <= now
    ensures forall id :: id in Unexpired(primary, now) <==>
                           id in primary && (primary[id].expiresAt == 0 || primary[id].expiresAt >= now)
    ensures forall id :: id in Unexpired(primary, now) ==> Unexpired(primary, now)[id] == primary[id]
    ensures Unexpired(Unexpired(primary, now), earlier) == Unexpired(primary, now)
    ensures ExpiredIds(Unexpired(primary, now), earlier) == {}
  {
  }

  lemma EvictionCount(primary: Primary, now: int)
    ensures |ExpiredIds(primary, now)| + |Unexpired(primary, now)| == |primary|
  {
    assert primary.Keys == ExpiredIds(primary, now) + Unexpired(primary, now).Keys;
    assert ExpiredIds(primary, now) !! Unexpired(primary, now).Keys;
  }

  class Store {
    var primary: Primary
    var byCategory: Index
    var byPriority: Index
    const letters: Letters

    ghost predicate Valid()
      reads this
    {
      Keyed(primary) && Agrees(letters, Category, primary, byCategory) && Agrees(letters, Priority, primary, byPriority)
    }

    constructor (letters: Letters)
      ensures Valid() && primary == map[] && this.letters == letters
    {
      this.letters := letters;
      primary, byCategory, byPriority := map[], map[], map[];
    }

    method AddIndex(e: Event)
      modifies this`byCategory, this`byPriority
      ensures byCategory == Enter(letters, Category, old(byCategory), e)
      ensures byPriority == Enter(letters, Priority, old(byPriority), e)
    {
      var cat := Lower(letters, e.category);
      if cat !in byCategory {
        byCategory := byCategory[cat := {}];
      }
      byCategory := byCategory[cat := byCategory[cat] + {e.id}];
      var pri := Lower(letters, e.priority);
      if pri != "" {
        if pri !in byPriority {
          byPriority := byPriority[pri := {}];
        }
        byPriority := byPriority[pri := byPriority[pri] + {e.id}];
      }
    }

    method RemoveIndex(e: Event)
      modifies this`byCategory, this`byPriority
      ensures byCategory == Leave(letters, Category, old(byCategory), e)
      ensures byPriority == Leave(letters, Priority, old(byPriority), e)
    {
      var cat := Lower(letters, e.category);
      if cat in byCategory {
        byCategory := byCategory[cat := byCategory[cat] - {e.id}];
      }
      var pri := Lower(letters, e.priority);
      if pri != "" && pri in byPriority {
        byPriority := byPriority[pri := byPriority[pri] - {e.id}];
      }
    }

    /** Inserts or overwrites; both indices follow, also when category or priority changed. */
    method Put(e: Event)
      requires Valid()
      modifies this
      ensures Valid() && primary == old(primary)[e.id := e]
    {
      if e.id in primary {
        LeaveAgrees(letters, Category, primary, byCategory, e.id);
        LeaveAgrees(letters, Priority, primary, byPriority, e.id);
        RemoveIndex(primary[e.id]);
      } else {
        assert primary - {e.id} == primary;
      }
      EnterAgrees(letters, Category, primary - {e.id}, byCategory, e);
      EnterAgrees(letters, Priority, primary - {e.id}, byPriority, e);
      assert (primary - {e.id})[e.id := e] == primary[e.id := e];
      primary := primary[e.id := e];
      AddIndex(e);
    }

    method Delete(id: string) returns (existed: bool)
      requires Valid()
      modifies this
      ensures Valid() && primary == old(primary) - {id} && existed == (id in old(primary))
    {
      if id !in primary {
        assert primary == primary - {id};
        return false;
      }
      LeaveAgrees(letters, Category, primary, byCategory, id);
      LeaveAgrees(letters, Priority, primary, byPriority, id);
      RemoveIndex(primary[id]);
      primary := primary - {id};
      return true;
    }

    /** The eviction sweep, over the ids in any order. */
    method EvictExpired(now: int) returns (removed: nat)
      requires Valid()
      modifies this
      ensures Valid() && primary == Unexpired(old(primary), now)
      ensures forall id :: id in primary <==>
                             && id in old(primary)
                             && (old(primary)[id].expiresAt == 0 || old(primary)[id].expiresAt >= now)
      ensures forall id :: id in primary ==> primary[id] == old(primary)[id]
      ensures removed == |ExpiredIds(old(primary), now)| == |old(primary)| - |primary|
    {
      removed := 0;
      var todo := primary.Keys;
      while todo != {}
        invariant Valid()
        invariant todo <= primary.Keys <= old(primary).Keys
        invariant forall id :: id in primary ==> primary[id] == old(primary)[id]
        invariant forall id :: id in primary && id !in todo ==> Live(primary[id], now)
        invariant forall id :: id in old(primary) && Live(old(primary)[id], now) ==> id in primary
        invariant removed + |primary| == |old(primary)|
        decreases todo
      {
        var id :| id in todo;
        var e := primary[id];
        if e.expiresAt != 0 && e.expiresAt < now {
          LeaveAgrees(letters, Category, primary, byCategory, id);
          LeaveAgrees(letters, Priority, primary, byPriority, id);
          RemoveIndex(e);
          Shrinks(primary, id);
          primary := primary - {id};
          removed := removed + 1;
        }
        todo := todo - {id};
      }
      assert primary == Unexpired(old(primary), now);
      EvictionLaw(old(primary), now, now);
      EvictionCount(old(primary), now);
    }

    /** What the maps hold at any time: events under their own ids, and ids by lower-cased category and priority. */
    lemma Contents(key: string)
      requires Valid()
      ensures forall id :: id in primary ==> primary[id].id == id
      ensures At(byCategory, key) == set id | id in primary && Lower(letters, primary[id].category) == key
      ensures key != "" ==> At(byPriority, key) == set id | id in primary && Lower(letters, primary[id].priority) == key
    {
      assert At(byCategory, key) == Ids(letters, Category, primary, key);
      assert key != "" ==> At(byPriority, key) == Ids(letters, Priority, primary, key);
    }
  }

  lemma Shrinks(m: Primary, id: string)
    requires id in m
    ensures |m - {id}| == |m| - 1
  {
    assert m.Keys == (m - {id}).Keys + {id};
  }

  // ---- The index path against the scan ----

  function Scan(u: Letters, primary: Primary, f: Filter): set<string> {
    set id | id in primary && Matches(u, primary[id], f)
  }

  /** The ids `List` collects: through the category index when the filter names a category. */
  function Selected(u: Letters, primary: Primary, byCategory: Index, f: Filter): set<string> {
    if f.category != "" then
      set id | id in At(byCategory, Lower(u, f.category)) && id in primary && Matches(u, primary[id], f)
    else Scan(u, primary, f)
  }

  /** The index never adds anything a scan would not find; on ASCII categories it misses nothing either. */
  lemma IndexRefinesScan(u: Letters, primary: Primary, byCategory: Index, f: Filter)
    requires Agrees(u, Category, primary, byCategory)
    ensures Selected(u, primary, byCategory, f) <= Scan(u, primary, f)
    ensures KnowsAscii(u) && Ascii(f.category) && (forall id :: id in primary ==> Ascii(primary[id].category)) ==>
              Selected(u, primary, byCategory, f) == Scan(u, primary, f)
  {
    if KnowsAscii(u) && f.category != "" && Ascii(f.category)
       && forall id :: id in primary ==> Ascii(primary[id].category)
    {
      assert At(byCategory, Lower(u, f.category)) == Ids(u, Category, primary, Lower(u, f.category));
      forall id | id in Scan(u, primary, f)
        ensures id in Selected(u, primary, byCategory, f)
      {
        AsciiAgree(u, primary[id].category, f.category);
      }
    }
  }

  // ---- The filter, letter by letter ----

  ghost predicate SameLetters(u: Letters, a: string, b: string) {
    |a| == |b| && forall i :: 0 <= i < |a| ==> u.fold(a[i]) == u.fold(b[i])
  }

  ghost predicate QueryAt(u: Letters, name: string, query: string, k: int) {
    && 0 <= k <= |name| - |query|
    && forall j :: 0 <= j < |query| ==> u.lower(name[k + j]) == u.lower(query[j])
  }

  /** An event passes when each field the filter names agrees with it; an empty field names nothing. */
  ghost predicate Passes(u: Letters, e: Event, f: Filter) {
    && (f.category == "" || SameLetters(u, e.category, f.category))
    && (f.priority == "" || SameLetters(u, e.priority, f.priority))
    && (f.query == "" || exists k :: QueryAt(u, e.name, f.query, k))
  }

  lemma QueryIff(u: Letters, name: string, query: string)
    ensures Contains(Lower(u, name), Lower(u, query)) <==> exists k :: QueryAt(u, name, query, k)
  {
    var s, sub := Lower(u, name), Lower(u, query);
    if Contains(s, sub) {
      var i: nat :| i <= |s| && OccursAt(s, sub, i);
      forall j | 0 <= j < |query|
        ensures u.lower(name[i + j]) == u.lower(query[j])
      {
        assert s[i..i + |sub|][j] == sub[j];
      }
      assert QueryAt(u, name, query, i);
    }
    if exists k :: QueryAt(u, name, query, k) {
      var k :| QueryAt(u, name, query, k);
      assert s[k..k + |sub|] == sub;
      assert OccursAt(s, sub, k);
    }
  }

  lemma PassesIff(u: Letters, e: Event, f: Filter)
    ensures Matches(u, e, f) <==> Passes(u, e, f)
  {
    QueryIff(u, e.name, f.query);
  }

  /** The ids of the stored events that pass. */
  ghost function Passing(u: Letters, primary: Primary, f: Filter): set<string> {
    set id | id in primary && Passes(u, primary[id], f)
  }

  /** The filter names no category, or all categories are ASCII. */
  ghost predicate PlainCategories(u: Letters, primary: Primary, f: Filter) {
    || f.category == ""
    || (KnowsAscii(u) && Ascii(f.category) && forall id :: id in primary ==> Ascii(primary[id].category))
  }

  /** Everything selected passes; everything that passes is selected when no category is named, or all are ASCII. */
  lemma SelectedPass(u: Letters, primary: Primary, byCategory: Index, f: Filter)
    requires Agrees(u, Category, primary, byCategory)
    ensures Selected(u, primary, byCategory, f) <= Passing(u, primary, f)
    ensures PlainCategories(u, primary, f) ==> Selected(u, primary, byCategory, f) == Passing(u, primary, f)
  {
    IndexRefinesScan(u, primary, byCategory, f);
    forall id | id in primary
      ensures Matches(u, primary[id], f) <==> Passes(u, primary[id], f)
    {
      PassesIff(u, primary[id], f);
    }
    assert Scan(u, primary, f) == Passing(u, primary, f);
  }

  /** Every store the index can be built for gives the scan's answer. */
  ghost predicate IndexComplete(u: Letters, f: Filter) {
    forall primary, byCategory :: Keyed(primary) && Agrees(u, Category, primary, byCategory) ==>
                                    Selected(u, primary, byCategory, f) == Scan(u, primary, f)
  }

  /**
   The index can miss matches (a sigma for a final sigma). For which filters it never does, whatever the letter
   tables: those without a category, and those none of whose letters folds with one of another lower case.
   */
  lemma IndexCompleteIff(u: Letters, f: Filter)
    ensures IndexComplete(u, f) <==> Steady(u, f.category)
  {
    var category := f.category;
    if Steady(u, category) {
      forall primary, byCategory | Agrees(u, Category, primary, byCategory)
        ensures Selected(u, primary, byCategory, f) == Scan(u, primary, f)
      {
        SteadyIff(u, category);
        if category != "" {
          assert At(byCategory, Lower(u, category)) == Ids(u, Category, primary, Lower(u, category));
        }
      }
    } else {
      SteadyIff(u, category);
      var g :| EqualFold(u, g, category) && Lower(u, g) != Lower(u, category);
      var e := Event("x", f.query, g, 1, [], 0.0, f.priority, 0, "", 0, 0, 0);
      assert OccursAt(Lower(u, f.query), Lower(u, f.query), 0);
      assert Matches(u, e, f);
      var primary: Primary := map["x" := e];
      var ix: Index := map[Lower(u, g) := {"x"}];
      forall key
        ensures At(ix, key) == Ids(u, Category, primary, key)
      {
        assert Ids(u, Category, primary, key) == if Lower(u, g) == key then {"x"} else {};
      }
      assert Agrees(u, Category, primary, ix);
      assert "x" in Scan(u, primary, f);
      assert "x" !in Selected(u, primary, ix, f);
    }
  }

  /** Concrete misses: an event filed under a final sigma or a beta symbol, asked for with the plain letter. */
  lemma GreekMissed()
    ensures !IndexComplete(Sample(), Filter([SIGMA], "", "")) && !IndexComplete(Sample(), Filter([BETA], "", ""))
  {
    SampleLetters();
    IndexCompleteIff(Sample(), Filter([SIGMA], "", ""));
    IndexCompleteIff(Sample(), Filter([BETA], "", ""));
    assert Ambiguous(Sample(), [SIGMA][0]) && Ambiguous(Sample(), [BETA][0]);
  }
}
