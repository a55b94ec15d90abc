/** Sorted, paged listings (internal/storage/store.go:68-144). */
module Listing {
  import opened Prelude
  import opened Text
  import opened Events
  import opened Storage

  // ---- Listings: any sorted arrangement of a set of events ----

  ghost predicate Enumerates(s: seq<Event>, evs: set<Event>) {
    && (forall e :: e in s <==> e in evs)
    && (forall i, j :: 0 <= i < j < |s| ==> s[i] != s[j])
  }

  ghost predicate NewestFirst(s: seq<Event>) {
    forall i, j :: 0 <= i < j < |s| ==> s[i].createdAt >= s[j].createdAt
  }

  /** What sort.Slice may return for the matches: every match once, newest first, ties in any order. */
  ghost predicate IsListing(s: seq<Event>, evs: set<Event>) {
    Enumerates(s, evs) && NewestFirst(s)
  }

  lemma {:induction false} EnumeratesSize(s: seq<Event>, evs: set<Event>)
    requires Enumerates(s, evs)
    ensures |s| == |evs|
  {
    if s == [] {
      assert evs == {};
    } else {
      assert s == [s[0]] + s[1..];
      EnumeratesSize(s[1..], evs - {s[0]});
    }
  }

  ghost predicate DistinctTimes(evs: set<Event>) {
    forall d, e :: d in evs && e in evs && d != e ==> d.createdAt != e.createdAt
  }

  /** With distinct creation times there is only one listing, whatever order the map was walked in. */
  lemma {:induction false} ListingUnique(s: seq<Event>, t: seq<Event>, evs: set<Event>)
    requires IsListing(s, evs) && IsListing(t, evs) && DistinctTimes(evs)
    ensures s == t
  {
    EnumeratesSize(s, evs);
    EnumeratesSize(t, evs);
    if s != [] {
      Uncons(s, evs);
      Uncons(t, evs);
      assert s[0] == t[0];
      ListingUnique(s[1..], t[1..], evs - {s[0]});
    }
  }

  function Insert(e: Event, s: seq<Event>): seq<Event> {
    if s == [] then [e]
    else if e.createdAt >= s[0].createdAt then [e] + s
    else [s[0]] + Insert(e, s[1..])
  }

  lemma Cons(e: Event, s: seq<Event>, evs: set<Event>)
    requires IsListing(s, evs) && e !in evs && forall d :: d in evs ==> d.createdAt <= e.createdAt
    ensures IsListing([e] + s, evs + {e})
  {
    assert forall i :: 0 <= i < |s| ==> s[i] in evs;
    assert forall d :: d in [e] + s <==> d == e || d in s;
  }

  lemma Uncons(s: seq<Event>, evs: set<Event>)
    requires IsListing(s, evs) && s != []
    ensures s[0] in evs && IsListing(s[1..], evs - {s[0]})
    ensures forall d :: d in evs ==> d.createdAt <= s[0].createdAt
  {
    assert s == [s[0]] + s[1..];
    forall d | d in evs
      ensures d.createdAt <= s[0].createdAt
    {
      var i :| 0 <= i < |s| && s[i] == d;
    }
  }

  lemma {:induction false} InsertLists(e: Event, s: seq<Event>, evs: set<Event>)
    requires IsListing(s, evs) && e !in evs
    ensures IsListing(Insert(e, s), evs + {e})
  {
    if s == [] {
      Cons(e, s, evs);
    } else {
      Uncons(s, evs);
      if e.createdAt >= s[0].createdAt {
        Cons(e, s, evs);
      } else {
        InsertLists(e, s[1..], evs - {s[0]});
        Cons(s[0], Insert(e, s[1..]), evs - {s[0]} + {e});
        assert evs - {s[0]} + {e} + {s[0]} == evs + {e};
      }
    }
  }

  /** A library sort: only its contract is used. */
  method SortNewestFirst(s: seq<Event>, ghost evs: set<Event>) returns (r: seq<Event>)
    requires Enumerates(s, evs)
    ensures IsListing(r, evs)
  {
    r := [];
    for i := 0 to |s|
      invariant IsListing(r, set k | 0 <= k < i :: s[k])
    {
      InsertLists(s[i], r, set k | 0 <= k < i :: s[k]);
      assert (set k | 0 <= k < i + 1 :: s[k]) == (set k | 0 <= k < i :: s[k]) + {s[i]};
      r := Insert(s[i], r);
    }
    assert (set k | 0 <= k < |s| :: s[k]) == evs;
  }

  // ---- Pages ----

  function AtMost(n: nat, bound: nat): nat {
    if n < bound then n else bound
  }

  function PageFrom(s: seq<Event>, from: nat, limit: nat): seq<Event> {
    s[AtMost(from, |s|)..AtMost(from + limit, |s|)]
  }

  /** Page `k` (counting from 0) of a listing. */
  function Page(s: seq<Event>, k: nat, limit: nat): seq<Event> {
    PageFrom(s, k * limit, limit)
  }

  datatype ListResult = ListResult(events: seq<Event>, total: nat, page: int, limit: int)

  /** The slice expression can fail: a negative start index, or an end before the start, panics. */
  datatype Outcome = Listed(result: ListResult) | Panicked

  function ClampPage(page: int): int {
    if page < 1 then 1 else page
  }

  function ClampLimit(limit: int): int {
    if limit < 1 || limit > 100 then 20 else limit
  }

  /** The slicing from a start index, as the machine computes it. */
  function CutFrom(s: seq<Event>, from: int, page: int, limit: int): Outcome
    requires limit >= 1
  {
    var start := Wrap(from);
    var end := Wrap(start + limit);
    var end' := if end > |s| then |s| else end;
    if start >= |s| then Listed(ListResult([], |s|, page, limit))
    else if start < 0 || end' < start then Panicked
    else Listed(ListResult(s[start..end'], |s|, page, limit))
  }

  /** The slicing of a sorted candidate list. */
  function Cut(s: seq<Event>, page: int, limit: int): Outcome
    requires page >= 1 && limit >= 1
  {
    CutFrom(s, (page - 1) * limit, page, limit)
  }

  /** What the cut is meant to be. */
  function MeantFrom(s: seq<Event>, from: nat, page: int, limit: int): Outcome
    requires limit >= 1
  {
    Listed(ListResult(PageFrom(s, from, limit), |s|, page, limit))
  }

  function Meant(s: seq<Event>, page: int, limit: int): Outcome
    requires page >= 1 && limit >= 1
  {
    MeantFrom(s, (page - 1) * limit, page, limit)
  }

  /** When the machine's indices, starting from `from`, do no harm to stores of at most `most` events. */
  predicate IndexFits(from: int, limit: int, most: nat) {
    from + limit < TWO63 || Wrap(from) >= most
  }

  lemma WrapSmall(x: int)
    requires 0 <= x < TWO63
    ensures Wrap(x) == x
  {
  }

  lemma WrapBelow(x: int)
    requires x >= 0
    ensures Wrap(x) <= x
  {
  }

  lemma FitsFrom(s: seq<Event>, from: nat, page: int, limit: int)
    requires limit >= 1 && IndexFits(from, limit, |s|)
    ensures CutFrom(s, from, page, limit) == MeantFrom(s, from, page, limit)
  {
    if from + limit < TWO63 {
      WrapSmall(from);
      WrapSmall(from + limit);
    } else {
      WrapBelow(from);
    }
    if from >= |s| {
      assert PageFrom(s, from, limit) == [];
    }
  }

  lemma CutFits(s: seq<Event>, page: int, limit: int)
    requires page >= 1 && limit >= 1 && IndexFits((page - 1) * limit, limit, |s|)
    ensures Cut(s, page, limit) == Meant(s, page, limit)
  {
    FitsFrom(s, (page - 1) * limit, page, limit);
  }

  // ---- A store of any size ----

  ghost function EventsOf(primary: Primary, ids: set<string>): set<Event> {
    set id | id in ids && id in primary :: primary[id]
  }

  ghost function All(primary: Primary): set<Event> {
    EventsOf(primary, primary.Keys)
  }

  /** A store holds no more events than ids. */
  lemma {:induction false} EventsAtMostIds(evs: set<Event>, ids: set<string>)
    requires forall e :: e in evs ==> e.id in ids
    requires forall d, e :: d in evs && e in evs && d.id == e.id ==> d == e
    ensures |evs| <= |ids|
    decreases |evs|
  {
    if evs != {} {
      var e :| e in evs;
      EventsAtMostIds(evs - {e}, ids - {e.id});
    }
  }

  function Nth(i: nat): Event {
    Event(seq(i, _ => 'e'), "", "", 0, [], 0.0, "", 0, "", 0 - i, 0, 0)
  }

  /** `n` events with different ids, newest first. */
  function Row(n: nat): seq<Event> {
    if n == 0 then [] else Row(n - 1) + [Nth(n - 1)]
  }

  function Stored(n: nat): Primary {
    if n == 0 then map[] else Stored(n - 1)[Nth(n - 1).id := Nth(n - 1)]
  }

  lemma {:induction false} RowStored(n: nat)
    ensures Keyed(Stored(n)) && |Stored(n)| == n == |Row(n)|
    ensures forall i :: 0 <= i < n ==> Row(n)[i] == Nth(i)
    ensures forall e :: e in Row(n) <==> e in All(Stored(n))
    ensures forall id :: id in Stored(n) ==> |id| < n
  {
    if n > 0 {
      RowStored(n - 1);
      var e := Nth(n - 1);
      assert |e.id| == n - 1;
      assert Stored(n).Keys == Stored(n - 1).Keys + {e.id};
      assert All(Stored(n)) == All(Stored(n - 1)) + {e};
    }
  }

  lemma RowIsListing(n: nat)
    ensures Keyed(Stored(n)) && |Stored(n)| == n == |Row(n)| && IsListing(Row(n), All(Stored(n)))
  {
    RowStored(n);
    forall i, j | 0 <= i < j < n
      ensures Row(n)[i] != Row(n)[j]
    {
      assert |Nth(i).id| == i && |Nth(j).id| == j;
    }
  }

  lemma PastTheTop(from: nat, limit: int)
    requires from < TWO63 <= from + limit && limit <= 100
    ensures Wrap(from) == from && Wrap(from + limit) < 0
  {
  }

  /** The cut of a list of `start + 1` events, where the start index has wrapped round to `start`. */
  lemma WrappedCut(s: seq<Event>, from: nat, page: int, limit: int)
    requires 1 <= limit <= 100 && from >= TWO63 && 0 <= Wrap(from) == |s| - 1
    ensures CutFrom(s, from, page, limit) != MeantFrom(s, from, page, limit)
  {
    assert PageFrom(s, from, limit) == [];
  }

  /** Wherever the index does not fit, some store of at most `most` events shows it. */
  lemma Overflows(from: nat, page: int, limit: int, most: nat) returns (n: nat)
    requires 1 <= limit <= 100 && most < TWO63 && !IndexFits(from, limit, most)
    ensures n <= most && CutFrom(Row(n), from, page, limit) != MeantFrom(Row(n), from, page, limit)
  {
    n := if Wrap(from) < 0 then 0 else Wrap(from) + 1;
    RowStored(n);
    if from < TWO63 {
      PastTheTop(from, limit);
    } else if Wrap(from) >= 0 {
      WrappedCut(Row(n), from, page, limit);
    }
  }

  /** The slice shown is the one meant, for every listing of every store of at most `most` events. */
  ghost predicate AlwaysMeant(from: nat, page: int, limit: int, most: nat)
    requires limit >= 1
  {
    forall primary, s :: Keyed(primary) && |primary| <= most && IsListing(s, All(primary)) ==>
                           CutFrom(s, from, page, limit) == MeantFrom(s, from, page, limit)
  }

  lemma StartIndexIff(from: nat, page: int, limit: int, most: nat)
    requires 1 <= limit <= 100 && most < TWO63
    ensures AlwaysMeant(from, page, limit, most) <==> IndexFits(from, limit, most)
  {
    if IndexFits(from, limit, most) {
      forall primary, s | Keyed(primary) && |primary| <= most && IsListing(s, All(primary))
        ensures CutFrom(s, from, page, limit) == MeantFrom(s, from, page, limit)
      {
        EnumeratesSize(s, All(primary));
        EventsAtMostIds(All(primary), primary.Keys);
        FitsFrom(s, from, page, limit);
      }
    } else {
      var n := Overflows(from, page, limit, most);
      RowIsListing(n);
    }
  }

  function PageStart(page: int, limit: int): nat
    requires page >= 1 && limit >= 1
  {
    (page - 1) * limit
  }

  /**
   For which pages the answer is right for every store of at most `most` events: those whose end index fits in 64
   bits, and those whose start index, wrapped, still lies past the end. All others panic or show another page for some
   store.
   */
  lemma PageIndexIff(page: int, limit: int, most: nat)
    requires 1 <= page < TWO63 && 1 <= limit <= 100 && most < TWO63
    ensures AlwaysMeant(PageStart(page, limit), page, limit, most) <==> IndexFits((page - 1) * limit, limit, most)
  {
    StartIndexIff(PageStart(page, limit), page, limit, most);
  }

  // ---- List ----

  /** `r` is a possible answer: some listing of the selected events, cut at the requested page. */
  ghost predicate IsAnswer(evs: set<Event>, page: int, limit: int, r: Outcome) {
    exists s :: IsListing(s, evs) && r == Cut(s, ClampPage(page), ClampLimit(limit))
  }

  lemma {:induction false} EventsCount(primary: Primary, ids: set<string>)
    requires Keyed(primary) && ids <= primary.Keys
    ensures |EventsOf(primary, ids)| == |ids|
  {
    if ids != {} {
      var id :| id in ids;
      EventsCount(primary, ids - {id});
      assert EventsOf(primary, ids) == EventsOf(primary, ids - {id}) + {primary[id]};
      forall other | other in ids - {id}
        ensures primary[other] != primary[id]
      {
        assert primary[other].id == other;
      }
    }
  }

  /** Every event of the answer is stored and passes. */
  ghost predicate AllPass(u: Letters, primary: Primary, f: Filter, events: seq<Event>) {
    forall e :: e in events ==> e.id in primary && primary[e.id] == e && Passes(u, e, f)
  }

  /** What an answer shows and counts, and the page and limit it was given for. */
  lemma AnswerPasses(u: Letters, primary: Primary, byCategory: Index, f: Filter, page: int, limit: int, r: Outcome)
    requires Keyed(primary) && Agrees(u, Category, primary, byCategory) && r.Listed?
    requires IsAnswer(EventsOf(primary, Selected(u, primary, byCategory, f)), page, limit, r)
    ensures AllPass(u, primary, f, r.result.events)
    ensures r.result.total <= |Passing(u, primary, f)|
    ensures PlainCategories(u, primary, f) ==> r.result.total == |Passing(u, primary, f)|
    ensures r.result.page == (if page >= 1 then page else 1)
    ensures r.result.limit == (if 1 <= limit <= 100 then limit else 20)
  {
    var ids := Selected(u, primary, byCategory, f);
    var evs := EventsOf(primary, ids);
    var s :| IsListing(s, evs) && r == Cut(s, ClampPage(page), ClampLimit(limit));
    SelectedPass(u, primary, byCategory, f);
    EnumeratesSize(s, evs);
    EventsCount(primary, ids);
    SubsetSize(ids, Passing(u, primary, f));
    forall e | e in r.result.events
      ensures e in evs
    {
      assert e in s;
    }
  }

  /** The page arithmetic on the sorted candidates. */
  method Slice(sorted: seq<Event>, page: int, limit: int) returns (r: Outcome)
    requires page >= 1 && limit >= 1
    ensures r == Cut(sorted, page, limit)
  {
    var total := |sorted|;
    var start := Wrap((page - 1) * limit);
    if start >= total {
      r := Listed(ListResult([], total, page, limit));
    } else if start < 0 {
      r := Panicked;
    } else {
      var end := Wrap(start + limit);
      if end > total {
        end := total;
      }
      if end < start {
        r := Panicked;
      } else {
        r := Listed(ListResult(sorted[start..end], total, page, limit));
      }
    }
  }

  /** Walks the candidate ids in any order, filters, sorts and slices. */
  method List(st: Store, f: Filter, page0: int, limit0: int) returns (r: Outcome)
    requires st.Valid()
    ensures IsAnswer(EventsOf(st.primary, Selected(st.letters, st.primary, st.byCategory, f)), page0, limit0, r)
    ensures r.Listed? ==> AllPass(st.letters, st.primary, f, r.result.events)
    ensures r.Listed? && PlainCategories(st.letters, st.primary, f) ==>
              r.result.total == |Passing(st.letters, st.primary, f)|
    ensures r.Listed? ==> r.result.limit == if 1 <= limit0 <= 100 then limit0 else 20
  {
    var page, limit := page0, limit0;
    if page < 1 {
      page := 1;
    }
    if limit < 1 || limit > 100 {
      limit := 20;
    }
    var todo;
    if f.category != "" {
      todo := At(st.byCategory, Lower(st.letters, f.category));
      assert todo == Ids(st.letters, Category, st.primary, Lower(st.letters, f.category));
    } else {
      todo := st.primary.Keys;
    }
    ghost var all := todo;
    ghost var picked: set<string> := {};
    var candidates: seq<Event> := [];
    while todo != {}
      invariant todo <= all <= st.primary.Keys
      invariant picked == set id | id in all && id !in todo && Matches(st.letters, st.primary[id], f)
      invariant Enumerates(candidates, EventsOf(st.primary, picked))
      decreases todo
    {
      var id :| id in todo;
      var e := st.primary[id];
      if Matches(st.letters, e, f) {
        assert e !in EventsOf(st.primary, picked);
        assert EventsOf(st.primary, picked + {id}) == EventsOf(st.primary, picked) + {e};
        candidates := candidates + [e];
        picked := picked + {id};
      }
      todo := todo - {id};
    }
    assert picked == Selected(st.letters, st.primary, st.byCategory, f);
    var sorted := SortNewestFirst(candidates, EventsOf(st.primary, picked));
    r := Slice(sorted, page, limit);
    assert IsAnswer(EventsOf(st.primary, picked), page0, limit0, r);
    if r.Listed? {
      AnswerPasses(st.letters, st.primary, st.byCategory, f, page0, limit0, r);
    }
  }
}
