/**
 Separate page requests put together. Each request sorts afresh, and the sort is free in how it orders ties, so
 pages of one unchanged store need not fit together; these lemmas say exactly when they do.
 */
module Paging {
  import opened Prelude
  import opened Events
  import opened Listing

  function Flatten(pages: seq<seq<Event>>): seq<Event> {
    if pages == [] then [] else Flatten(pages[..|pages| - 1]) + pages[|pages| - 1]
  }

  ghost predicate SomePage(evs: set<Event>, k: nat, limit: nat, page: seq<Event>) {
    exists s :: IsListing(s, evs) && page == Page(s, k, limit)
  }

  /** Pages 0, 1, ... as separate requests may return them, each from its own listing. */
  ghost predicate Requests(evs: set<Event>, limit: nat, pages: seq<seq<Event>>) {
    forall k :: 0 <= k < |pages| ==> SomePage(evs, k, limit, pages[k])
  }

  lemma FrontRequests(evs: set<Event>, limit: nat, pages: seq<seq<Event>>)
    requires Requests(evs, limit, pages) && pages != []
    ensures Requests(evs, limit, pages[..|pages| - 1])
  {
    var front := pages[..|pages| - 1];
    forall j | 0 <= j < |front|
      ensures SomePage(evs, j, limit, front[j])
    {
      assert SomePage(evs, j, limit, pages[j]);
    }
  }

  // ---- Listings exist, and how prefixes of two listings compare ----

  lemma {:induction false} SomeListing(evs: set<Event>) returns (s: seq<Event>)
    ensures IsListing(s, evs)
  {
    if evs == {} {
      s := [];
    } else {
      var e :| e in evs;
      var r := SomeListing(evs - {e});
      InsertLists(e, r, evs - {e});
      s := Insert(e, r);
      assert evs - {e} + {e} == evs;
    }
  }

  function Newer(evs: set<Event>, w: int): set<Event> {
    set e | e in evs && e.createdAt > w
  }

  /** Exactly `b` of the events are newer than some moment. */
  ghost predicate CleanCut(evs: set<Event>, b: nat) {
    exists w: int :: |Newer(evs, w)| == b
  }

  /** No tie in creation time straddles a page boundary. */
  ghost predicate CleanCuts(evs: set<Event>, limit: nat) {
    forall k: nat :: k >= 1 && k * limit < |evs| ==> CleanCut(evs, k * limit)
  }

  lemma Peel(s: seq<Event>, n: nat)
    requires s != [] && n <= |s| - 1
    ensures forall e :: e in s[..n + 1] <==> e == s[0] || e in s[1..][..n]
  {
    assert s[..n + 1] == [s[0]] + s[1..][..n];
  }

  /** The newest ones come first in every listing. */
  lemma {:induction false} PrefixIsNewer(s: seq<Event>, evs: set<Event>, w: int)
    requires IsListing(s, evs)
    ensures |Newer(evs, w)| <= |s|
    ensures forall e :: e in s[..|Newer(evs, w)|] <==> e in Newer(evs, w)
  {
    if s == [] {
      assert Newer(evs, w) == {};
    } else {
      Uncons(s, evs);
      if s[0].createdAt > w {
        var rest, newer := s[1..], Newer(evs - {s[0]}, w);
        PrefixIsNewer(rest, evs - {s[0]}, w);
        assert Newer(evs, w) == newer + {s[0]};
        assert |Newer(evs, w)| == |newer| + 1;
        Peel(s, |newer|);
      } else {
        assert Newer(evs, w) == {};
      }
    }
  }

  lemma CutAgrees(s: seq<Event>, t: seq<Event>, evs: set<Event>, b: nat)
    requires IsListing(s, evs) && IsListing(t, evs) && b <= |evs|
    requires b == 0 || b == |evs| || CleanCut(evs, b)
    ensures |s| == |t| == |evs|
    ensures forall e :: e in s[..b] <==> e in t[..b]
  {
    EnumeratesSize(s, evs);
    EnumeratesSize(t, evs);
    if b == |evs| {
      assert s[..b] == s && t[..b] == t;
    } else if b > 0 {
      var w: int :| |Newer(evs, w)| == b;
      PrefixIsNewer(s, evs, w);
      PrefixIsNewer(t, evs, w);
    }
  }

  lemma SliceMembers(s: seq<Event>, evs: set<Event>, b: nat, c: nat)
    requires Enumerates(s, evs) && b <= c <= |s|
    ensures forall e :: e in s[b..c] <==> e in s[..c] && e !in s[..b]
  {
    assert s[..c] == s[..b] + s[b..c];
    forall e | e in s[b..c]
      ensures e !in s[..b]
    {
      var i :| 0 <= i < c - b && s[b..c][i] == e;
      assert s[b + i] == e;
    }
  }

  // ---- Clean cuts suffice ----

  lemma Concat(s: seq<Event>, t: seq<Event>, a: set<Event>, b: set<Event>)
    requires Enumerates(s, a) && Enumerates(t, b) && a !! b
    ensures Enumerates(s + t, a + b)
  {
    forall i, j | 0 <= i < j < |s + t|
      ensures (s + t)[i] != (s + t)[j]
    {
      if i < |s| <= j {
        assert s[i] in a && t[j - |s|] in b;
      }
    }
  }

  function Members(s: seq<Event>): set<Event> {
    set e | e in s
  }

  lemma NextBoundary(k: nat, limit: nat)
    ensures (k + 1) * limit == k * limit + limit
  {
  }

  ghost predicate Boundary(evs: set<Event>, b: nat) {
    b == 0 || b >= |evs| || CleanCut(evs, b)
  }

  /** Between two clean cuts every listing has the same events. */
  lemma BetweenCuts(s: seq<Event>, t: seq<Event>, evs: set<Event>, b: nat, c: nat)
    requires IsListing(s, evs) && IsListing(t, evs) && b <= c <= |evs|
    requires b == 0 || b == |evs| || CleanCut(evs, b)
    requires c == 0 || c == |evs| || CleanCut(evs, c)
    ensures |s| == |t| == |evs|
    ensures Enumerates(t[b..c], Members(s[..c]) - Members(s[..b]))
  {
    CutAgrees(s, t, evs, b);
    CutAgrees(s, t, evs, c);
    SliceMembers(t, evs, b, c);
  }

  lemma PageMembers(s: seq<Event>, t: seq<Event>, evs: set<Event>, from: nat, limit: nat)
    requires IsListing(s, evs) && IsListing(t, evs)
    requires Boundary(evs, from) && Boundary(evs, from + limit)
    ensures |s| == |evs|
    ensures Enumerates(PageFrom(t, from, limit),
                       Members(s[..AtMost(from + limit, |s|)]) - Members(s[..AtMost(from, |s|)]))
  {
    BetweenCuts(s, t, evs, AtMost(from, |evs|), AtMost(from + limit, |evs|));
  }

  lemma {:induction false} CleanTiles(s: seq<Event>, evs: set<Event>, limit: nat, pages: seq<seq<Event>>)
    requires IsListing(s, evs) && CleanCuts(evs, limit) && Requests(evs, limit, pages)
    ensures |s| == |evs|
    ensures Enumerates(Flatten(pages), Members(s[..AtMost(|pages| * limit, |s|)]))
  {
    EnumeratesSize(s, evs);
    if pages != [] {
      var k := |pages| - 1;
      var front := pages[..k];
      FrontRequests(evs, limit, pages);
      CleanTiles(s, evs, limit, front);
      assert SomePage(evs, k, limit, pages[k]);
      var t :| IsListing(t, evs) && pages[k] == Page(t, k, limit);
      NextBoundary(k, limit);
      BoundaryAt(evs, limit, k);
      BoundaryAt(evs, limit, k + 1);
      PageMembers(s, t, evs, k * limit, limit);
      var b, c := AtMost(k * limit, |s|), AtMost(k * limit + limit, |s|);
      Concat(Flatten(front), pages[k], Members(s[..b]), Members(s[..c]) - Members(s[..b]));
      MembersGrow(s, b, c);
    }
  }

  lemma MembersGrow(s: seq<Event>, b: nat, c: nat)
    requires b <= c <= |s|
    ensures Members(s[..b]) + (Members(s[..c]) - Members(s[..b])) == Members(s[..c])
  {
    assert s[..c] == s[..b] + s[b..c];
  }

  lemma BoundaryAt(evs: set<Event>, limit: nat, k: nat)
    requires CleanCuts(evs, limit)
    ensures Boundary(evs, k * limit)
  {
    if k == 0 {
      assert k * limit == 0;
    }
  }

  // ---- ... and are needed ----

  /** Strictly descending at `b` means the first `b` are exactly the newer ones. */
  lemma StepIsClean(s: seq<Event>, evs: set<Event>, b: nat)
    requires IsListing(s, evs) && 1 <= b < |s| && s[b - 1].createdAt > s[b].createdAt
    ensures CleanCut(evs, b)
  {
    var w := s[b].createdAt;
    forall e
      ensures e in Newer(evs, w) <==> e in s[..b]
    {
      if e in Newer(evs, w) {
        var i :| 0 <= i < |s| && s[i] == e;
        assert i < b;
        assert s[..b][i] == e;
      }
      if e in s[..b] {
        var i :| 0 <= i < b && s[..b][i] == e;
        assert s[i].createdAt >= s[b - 1].createdAt;
      }
    }
    assert Enumerates(s[..b], Newer(evs, w));
    EnumeratesSize(s[..b], Newer(evs, w));
  }

  lemma SwapListing(s: seq<Event>, evs: set<Event>, b: nat)
    requires IsListing(s, evs) && 1 <= b < |s| && s[b - 1].createdAt == s[b].createdAt
    ensures IsListing(s[b - 1 := s[b]][b := s[b - 1]], evs)
  {
    var t := s[b - 1 := s[b]][b := s[b - 1]];
    forall e
      ensures e in t <==> e in evs
    {
      if e in t {
        var i :| 0 <= i < |t| && t[i] == e;
        assert e == s[if i == b then b - 1 else if i == b - 1 then b else i];
      }
      if e in s {
        var i :| 0 <= i < |s| && s[i] == e;
        assert e == t[if i == b then b - 1 else if i == b - 1 then b else i];
      }
    }
  }

  lemma {:induction false} InFlatten(pages: seq<seq<Event>>, i: nat, x: Event)
    requires i < |pages| && x in pages[i]
    ensures x in Flatten(pages)
  {
    var k := |pages| - 1;
    if i < k {
      InFlatten(pages[..k], i, x);
    }
  }

  lemma {:induction false} FlattenTwice(pages: seq<seq<Event>>, i: nat, j: nat, x: Event)
    requires i < j < |pages| && x in pages[i] && x in pages[j]
    ensures exists p, q :: 0 <= p < q < |Flatten(pages)| && Flatten(pages)[p] == Flatten(pages)[q]
  {
    var k := |pages| - 1;
    var front := Flatten(pages[..k]);
    if j < k {
      FlattenTwice(pages[..k], i, j, x);
      var p, q :| 0 <= p < q < |front| && front[p] == front[q];
      assert Flatten(pages)[p] == Flatten(pages)[q];
    } else {
      InFlatten(pages[..k], i, x);
      var p :| 0 <= p < |front| && front[p] == x;
      var q :| 0 <= q < |pages[k]| && pages[k][q] == x;
      assert Flatten(pages)[p] == Flatten(pages)[|front| + q];
    }
  }

  /** Page `k` from one listing, the others from another. */
  lemma Mixed(s: seq<Event>, t: seq<Event>, evs: set<Event>, limit: nat, k: nat, m: nat)
    returns (pages: seq<seq<Event>>)
    requires IsListing(s, evs) && IsListing(t, evs)
    ensures |pages| == m && Requests(evs, limit, pages)
    ensures forall j :: 0 <= j < m ==> pages[j] == if j == k then Page(t, k, limit) else Page(s, j, limit)
  {
    pages := seq(m, j requires 0 <= j < m => if j == k then Page(t, k, limit) else Page(s, j, limit));
    forall j | 0 <= j < m
      ensures SomePage(evs, j, limit, pages[j])
    {
      assert IsListing(if j == k then t else s, evs);
    }
  }

  /** A tie across a boundary lets one event show up on two pages. */
  lemma TieRepeats(s: seq<Event>, evs: set<Event>, limit: nat, k: nat, m: nat) returns (pages: seq<seq<Event>>)
    requires IsListing(s, evs) && limit >= 1 && 1 <= k < m && k * limit < |s|
    requires s[k * limit - 1].createdAt == s[k * limit].createdAt
    ensures |pages| == m && Requests(evs, limit, pages) && !Enumerates(Flatten(pages), evs)
  {
    var b := k * limit;
    NextBoundary(k - 1, limit);
    var t := s[b - 1 := s[b]][b := s[b - 1]];
    SwapListing(s, evs, b);
    pages := Mixed(s, t, evs, limit, k, m);
    LastOfPage(s, k - 1, limit);
    FirstOfPage(t, k, limit);
    FlattenTwice(pages, k - 1, k, s[b - 1]);
  }

  lemma LastOfPage(s: seq<Event>, k: nat, limit: nat)
    requires limit >= 1 && k * limit + limit <= |s|
    ensures s[k * limit + limit - 1] in Page(s, k, limit)
  {
    assert Page(s, k, limit)[limit - 1] == s[k * limit + limit - 1];
  }

  lemma FirstOfPage(s: seq<Event>, k: nat, limit: nat)
    requires limit >= 1 && k * limit < |s|
    ensures s[k * limit] in Page(s, k, limit)
  {
    assert Page(s, k, limit)[0] == s[k * limit];
  }

  /** `m` separate requests always show every event exactly once. */
  ghost predicate AlwaysTile(evs: set<Event>, limit: nat, m: nat) {
    forall pages :: |pages| == m && Requests(evs, limit, pages) ==> Enumerates(Flatten(pages), evs)
  }

  lemma TimesMonotone(a: nat, b: nat, limit: nat)
    ensures a <= b ==> a * limit <= b * limit
  {
    if a <= b {
      assert b * limit == a * limit + (b - a) * limit;
    }
  }

  /**
   Enough pages to cover the matches show each match exactly once, whatever the sorts do with ties, if and only if
   no tie in creation time straddles a page boundary.
   */
  lemma PagesTileIff(evs: set<Event>, limit: nat, m: nat)
    requires limit >= 1 && |evs| <= m * limit
    ensures AlwaysTile(evs, limit, m) <==> CleanCuts(evs, limit)
  {
    var s := SomeListing(evs);
    EnumeratesSize(s, evs);
    if CleanCuts(evs, limit) {
      forall pages | |pages| == m && Requests(evs, limit, pages)
        ensures Enumerates(Flatten(pages), evs)
      {
        CleanTiles(s, evs, limit, pages);
        assert s[..AtMost(m * limit, |s|)] == s;
        assert Members(s) == evs;
      }
    } else {
      var k: nat :| k >= 1 && k * limit < |evs| && !CleanCut(evs, k * limit);
      NextBoundary(k - 1, limit);
      if s[k * limit - 1].createdAt > s[k * limit].createdAt {
        StepIsClean(s, evs, k * limit);
      }
      TimesMonotone(m, k, limit);
      var pages := TieRepeats(s, evs, limit, k, m);
      assert !AlwaysTile(evs, limit, m);
    }
  }

  // ---- Distinct creation times: the pages are the listing ----

  lemma OnePage(s: seq<Event>, evs: set<Event>, limit: nat, k: nat, page: seq<Event>)
    requires IsListing(s, evs) && DistinctTimes(evs) && SomePage(evs, k, limit, page)
    ensures page == Page(s, k, limit)
  {
    var t :| IsListing(t, evs) && page == Page(t, k, limit);
    ListingUnique(s, t, evs);
  }

  lemma PrefixGrows(s: seq<Event>, k: nat, limit: nat)
    ensures s[..AtMost((k + 1) * limit, |s|)] == s[..AtMost(k * limit, |s|)] + Page(s, k, limit)
  {
    NextBoundary(k, limit);
    NextPage(s, k * limit, limit);
  }

  lemma {:induction false} PagesInOrder(s: seq<Event>, evs: set<Event>, limit: nat, pages: seq<seq<Event>>)
    requires IsListing(s, evs) && DistinctTimes(evs) && Requests(evs, limit, pages)
    ensures Flatten(pages) == s[..AtMost(|pages| * limit, |s|)]
  {
    if pages != [] {
      var k := |pages| - 1;
      FrontRequests(evs, limit, pages);
      PagesInOrder(s, evs, limit, pages[..k]);
      assert SomePage(evs, k, limit, pages[k]);
      OnePage(s, evs, limit, k, pages[k]);
      PrefixGrows(s, k, limit);
    }
  }

  lemma NextPage(s: seq<Event>, b: nat, limit: nat)
    ensures s[..AtMost(b + limit, |s|)] == s[..AtMost(b, |s|)] + s[AtMost(b, |s|)..AtMost(b + limit, |s|)]
  {
  }

  /** The events of a sequence of answers from `List`. */
  function EventsIn(answers: seq<Outcome>): seq<seq<Event>>
    requires forall k :: 0 <= k < |answers| ==> answers[k].Listed?
  {
    seq(|answers|, k requires 0 <= k < |answers| => answers[k].result.events)
  }

  lemma AnswerIsPage(evs: set<Event>, k: nat, limit: nat, r: Outcome)
    requires 1 <= limit <= 100 && k * limit + limit < TWO63 && IsAnswer(evs, k + 1, limit, r)
    ensures r.Listed? && r.result.total == |evs| && SomePage(evs, k, limit, r.result.events)
    ensures k * limit >= |evs| ==> r.result.events == []
  {
    var s :| IsListing(s, evs) && r == Cut(s, ClampPage(k + 1), ClampLimit(limit));
    EnumeratesSize(s, evs);
    CutFits(s, k + 1, limit);
  }

  lemma Earlier(k: nat, n: nat, limit: nat)
    requires k < n
    ensures k * limit + limit <= n * limit
  {
    assert n * limit == k * limit + limit + (n - k - 1) * limit;
  }

  /**
   Asking `List` for pages 1, 2, ... of an unchanged store whose matches have distinct creation times: every
   answer carries the right total, and together they are every match once, newest first, with nothing after.
   */
  lemma ListPages(evs: set<Event>, limit: nat, answers: seq<Outcome>)
    requires 1 <= limit <= 100 && DistinctTimes(evs)
    requires |evs| <= |answers| * limit < TWO63
    requires forall k :: 0 <= k < |answers| ==> IsAnswer(evs, k + 1, limit, answers[k])
    ensures forall k :: 0 <= k < |answers| ==> answers[k].Listed? && answers[k].result.total == |evs|
    ensures forall k :: 0 <= k < |answers| && k * limit >= |evs| ==> answers[k].result.events == []
    ensures IsListing(Flatten(EventsIn(answers)), evs)
  {
    forall k | 0 <= k < |answers|
      ensures answers[k].Listed? && answers[k].result.total == |evs|
      ensures SomePage(evs, k, limit, answers[k].result.events)
      ensures k * limit >= |evs| ==> answers[k].result.events == []
    {
      Earlier(k, |answers|, limit);
      AnswerIsPage(evs, k, limit, answers[k]);
    }
    var s := SomeListing(evs);
    EnumeratesSize(s, evs);
    PagesInOrder(s, evs, limit, EventsIn(answers));
    assert s[..AtMost(|answers| * limit, |s|)] == s;
  }
}
