/**
  Paging through two collections as if they were one
  (providerSummaries in src/kyc/kyc.service.ts).

  Each query returns the first offset+limit rows of one collection, newest first. The rows are
  concatenated, stably sorted by the same key and sliced.
 */
module Pagination {
  import opened Wrappers
  import Sorting

  const DEFAULT_LIMIT := 25
  const MAX_REVIEW_QUEUE_LIMIT := 100

  datatype Candidate = Candidate(providerId: string, sortKey: int)

  const NewestFirst := (c: Candidate) => -c.sortKey

  function Take<T>(s: seq<T>, n: nat): seq<T> { if n < |s| then s[..n] else s }

  /** JavaScript's slice, which clips both bounds to the list. */
  function Slice<T>(s: seq<T>, from: nat, to: nat): seq<T>
    requires from <= to
  {
    Take(s, to)[|Take(s, from)|..]
  }

  function LimitOf(requested: Option<int>): (n: nat)
    ensures 1 <= n <= MAX_REVIEW_QUEUE_LIMIT
  {
    Min(Max(requested.GetOr(DEFAULT_LIMIT), 1), MAX_REVIEW_QUEUE_LIMIT)
  }

  function OffsetOf(requested: Option<int>): nat { Max(requested.GetOr(0), 0) }

  /** The page as computed from two bounded queries. */
  function Page(branches: seq<Candidate>, washers: seq<Candidate>, limit: nat, offset: nat): seq<Candidate> {
    var window := offset + limit;
    Slice(Sorting.Sort(Take(branches, window) + Take(washers, window), NewestFirst), offset, offset + limit)
  }

  /** The reference: both whole collections, sorted together. */
  function Whole(branches: seq<Candidate>, washers: seq<Candidate>): seq<Candidate> {
    Sorting.Sort(branches + washers, NewestFirst)
  }

  /** Stable merge of two newest-first lists; a tie goes to the left list. */
  function Merge(a: seq<Candidate>, b: seq<Candidate>): seq<Candidate> {
    if a == [] then b
    else if b == [] then a
    else if NewestFirst(a[0]) <= NewestFirst(b[0]) then [a[0]] + Merge(a[1..], b)
    else [b[0]] + Merge(a, b[1..])
  }

  lemma {:induction false} MergeSize(a: seq<Candidate>, b: seq<Candidate>)
    ensures |Merge(a, b)| == |a| + |b|
  {
    if a != [] && b != [] {
      if NewestFirst(a[0]) <= NewestFirst(b[0]) { MergeSize(a[1..], b); } else { MergeSize(a, b[1..]); }
    }
  }

  /** Inserting a head no newer row precedes is what the merge does with it. */
  lemma {:induction false} InsertIntoMerge(x: Candidate, a: seq<Candidate>, b: seq<Candidate>)
    requires Sorting.SortedBy([x] + a, NewestFirst)
    ensures Sorting.Insert(x, Merge(a, b), NewestFirst) == Merge([x] + a, b)
    decreases |b|
  {
    var m := Merge(a, b);
    if a != [] {
      assert NewestFirst(([x] + a)[0]) <= NewestFirst(([x] + a)[1]);
    }
    assert ([x] + a)[1..] == a;
    if b == [] {
    } else if NewestFirst(x) <= NewestFirst(b[0]) {
      assert m[0] == b[0] || m[0] == a[0];
    } else {
      if a != [] {
        assert m == [b[0]] + Merge(a, b[1..]);
      } else {
        assert m == [b[0]] + b[1..];
        assert Merge(a, b[1..]) == b[1..];
      }
      assert m[1..] == Merge(a, b[1..]);
      InsertIntoMerge(x, a, b[1..]);
    }
  }

  lemma {:induction false} SortConcatIsMerge(a: seq<Candidate>, b: seq<Candidate>)
    requires Sorting.SortedBy(a, NewestFirst) && Sorting.SortedBy(b, NewestFirst)
    ensures Sorting.Sort(a + b, NewestFirst) == Merge(a, b)
  {
    if a == [] {
      assert a + b == b;
      Sorting.SortOfSorted(b, NewestFirst);
    } else {
      assert (a + b)[1..] == a[1..] + b && (a + b)[0] == a[0];
      assert [a[0]] + a[1..] == a;
      SortConcatIsMerge(a[1..], b);
      InsertIntoMerge(a[0], a[1..], b);
    }
  }

  /** A merge's first m rows need only the first m of each side. */
  lemma {:induction false} MergePrefix(a: seq<Candidate>, b: seq<Candidate>, p: nat, q: nat, m: nat)
    requires m <= p && m <= q
    ensures Take(Merge(Take(a, p), Take(b, q)), m) == Take(Merge(a, b), m)
    decreases m
  {
    MergeSize(a, b);
    MergeSize(Take(a, p), Take(b, q));
    if m > 0 && a != [] && b != [] {
      var ta, tb := Take(a, p), Take(b, q);
      assert ta[0] == a[0] && tb[0] == b[0];
      if NewestFirst(a[0]) <= NewestFirst(b[0]) {
        assert ta[1..] == Take(a[1..], p - 1);
        MergePrefix(a[1..], b, p - 1, q, m - 1);
        TakeCons(a[0], Merge(a[1..], b), m);
        TakeCons(a[0], Merge(ta[1..], tb), m);
      } else {
        assert tb[1..] == Take(b[1..], q - 1);
        MergePrefix(a, b[1..], p, q - 1, m - 1);
        TakeCons(b[0], Merge(a, b[1..]), m);
        TakeCons(b[0], Merge(ta, tb[1..]), m);
      }
    }
  }

  lemma TakeCons(x: Candidate, s: seq<Candidate>, m: nat)
    requires m > 0
    ensures Take([x] + s, m) == [x] + Take(s, m - 1)
  {
  }

  lemma TakeSorted(s: seq<Candidate>, n: nat)
    requires Sorting.SortedBy(s, NewestFirst)
    ensures Sorting.SortedBy(Take(s, n), NewestFirst)
  {
    forall i, j | 0 <= i < j < |Take(s, n)| ensures NewestFirst(Take(s, n)[i]) <= NewestFirst(Take(s, n)[j]) {
      assert NewestFirst(s[i]) <= NewestFirst(s[j]);
    }
  }

  /**
    The page cut from two bounded queries is the page cut from both whole collections sorted together,
    for all lists, ties, offsets and limits.
   */
  lemma PageIsExact(branches: seq<Candidate>, washers: seq<Candidate>, limit: nat, offset: nat)
    requires Sorting.SortedBy(branches, NewestFirst) && Sorting.SortedBy(washers, NewestFirst)
    ensures Page(branches, washers, limit, offset) == Slice(Whole(branches, washers), offset, offset + limit)
  {
    var window := offset + limit;
    TakeSorted(branches, window);
    TakeSorted(washers, window);
    SortConcatIsMerge(branches, washers);
    SortConcatIsMerge(Take(branches, window), Take(washers, window));
    var merged, cut := Merge(branches, washers), Merge(Take(branches, window), Take(washers, window));
    MergePrefix(branches, washers, window, window, window);
    MergePrefix(branches, washers, window, window, offset);
  }

  /** Pages 0..n-1 at a fixed limit, laid end to end. */
  function Pages(branches: seq<Candidate>, washers: seq<Candidate>, limit: nat, n: nat): seq<Candidate> {
    if n == 0 then []
    else Pages(branches, washers, limit, n - 1) + Page(branches, washers, limit, (n - 1) * limit)
  }

  lemma {:induction false} PagesArePrefix(branches: seq<Candidate>, washers: seq<Candidate>, limit: nat, n: nat)
    requires Sorting.SortedBy(branches, NewestFirst) && Sorting.SortedBy(washers, NewestFirst)
    ensures Pages(branches, washers, limit, n) == Take(Whole(branches, washers), n * limit)
  {
    hide Page, Whole, Slice;
    if n > 0 {
      var from := (n - 1) * limit;
      assert from + limit == n * limit;
      PagesArePrefix(branches, washers, limit, n - 1);
      PageIsExact(branches, washers, limit, from);
      SliceExtends(Whole(branches, washers), from, from + limit);
    }
  }

  lemma SliceExtends(s: seq<Candidate>, from: nat, to: nat)
    requires from <= to
    ensures Take(s, from) + Slice(s, from, to) == Take(s, to)
  {
  }

  /** Consecutive pages show every row of the union exactly once, in newest-first order. */
  lemma PagesCoverUnionOnce(branches: seq<Candidate>, washers: seq<Candidate>, limit: nat, n: nat)
    requires Sorting.SortedBy(branches, NewestFirst) && Sorting.SortedBy(washers, NewestFirst)
    requires n * limit >= |branches| + |washers|
    ensures multiset(Pages(branches, washers, limit, n)) == multiset(branches) + multiset(washers)
    ensures Sorting.SortedBy(Pages(branches, washers, limit, n), NewestFirst)
  {
    PagesArePrefix(branches, washers, limit, n);
    Sorting.SortSorted(branches + washers, NewestFirst);
  }

  datatype KindFilter = AnyKind | BranchesOnly | WashersOnly

  datatype Summaries = Summaries(data: seq<Candidate>, total: nat, limit: nat, offset: nat)

  function ProviderSummaries(
    branches: seq<Candidate>, washers: seq<Candidate>, kind: KindFilter,
    limit: Option<int>, offset: Option<int>): Summaries
  {
    var b := if kind == WashersOnly then [] else branches;
    var w := if kind == BranchesOnly then [] else washers;
    Summaries(Page(b, w, LimitOf(limit), OffsetOf(offset)), |b| + |w|, LimitOf(limit), OffsetOf(offset))
  }

  /** A response is the requested stretch of the filtered union, and short only where the union ends. */
  lemma SummariesAreExact(
    branches: seq<Candidate>, washers: seq<Candidate>, kind: KindFilter, limit: Option<int>, offset: Option<int>)
    requires Sorting.SortedBy(branches, NewestFirst) && Sorting.SortedBy(washers, NewestFirst)
    ensures var r := ProviderSummaries(branches, washers, kind, limit, offset);
      var whole := Whole(if kind == WashersOnly then [] else branches, if kind == BranchesOnly then [] else washers);
      && r.total == |whole|
      && r.data == Slice(whole, r.offset, r.offset + r.limit)
      && |r.data| == Max(0, Min(r.limit, r.total - r.offset))
      && 1 <= r.limit <= MAX_REVIEW_QUEUE_LIMIT
  {
    hide Page, Slice, Sorting.Sort;
    var b := if kind == WashersOnly then [] else branches;
    var w := if kind == BranchesOnly then [] else washers;
    PageIsExact(b, w, LimitOf(limit), OffsetOf(offset));
    SliceSize(Whole(b, w), OffsetOf(offset), LimitOf(limit));
  }

  lemma SliceSize(s: seq<Candidate>, from: nat, n: nat)
    ensures |Slice(s, from, from + n)| == Max(0, Min(n, |s| - from))
  {
  }
}
