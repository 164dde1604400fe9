/**
  The booking-window algebra (src/booking-availability/availability-resolution.util.ts).

  A window is half-open: 08:00-20:00 offers the minutes 480..1199. Two lists mean the same when
  they offer the same minutes, and the algebra is proved against that meaning alone.
 */
module Windows {
  import opened Wrappers
  import opened PhTime
  import Sorting

  datatype Window = Window(start: string, end: string)

  datatype Span = Span(start: int, end: int)

  const StartOf: Span -> int := (w: Span) => w.start

  // ----- Meaning -----

  /** The span a window text denotes; malformed and empty windows denote none. */
  function SpanOf(w: Window): (r: Option<Span>)
    ensures r.Some? ==> 0 <= r.value.start < r.value.end < MINUTES_PER_DAY
  {
    match (ParseHHMM(w.start), ParseHHMM(w.end))
    case (Some(s), Some(e)) => if e > s then Some(Span(s, e)) else None
    case _ => None
  }

  predicate Within(w: Span, m: int) { w.start <= m < w.end }

  ghost predicate Covers(spans: seq<Span>, m: int) {
    exists w :: w in spans && Within(w, m)
  }

  /** Minute m can be booked under this list of windows. */
  ghost predicate Offers(windows: seq<Window>, m: int) {
    exists w :: w in windows && SpanOf(w).Some? && Within(SpanOf(w).value, m)
  }

  ghost predicate SameMinutes(a: seq<Window>, b: seq<Window>) {
    forall m :: Offers(a, m) <==> Offers(b, m)
  }

  predicate WellFormed(w: Span) { 0 <= w.start < w.end < MINUTES_PER_DAY }

  predicate Beyond(spans: seq<Span>, bound: int) { spans == [] || bound < spans[0].start }

  /** Sorted, and neighbours separated by at least one minute nobody offers. */
  predicate Separated(spans: seq<Span>) {
    spans == []
    || (WellFormed(spans[0]) && Beyond(spans[1..], spans[0].end) && Separated(spans[1..]))
  }

  /** The stored form of a separated span list: every bound is written with two digits. */
  ghost predicate Canonical(windows: seq<Window>) {
    exists spans :: Separated(spans) && windows == FormatAll(spans)
  }

  // ----- normalizeWindows -----

  function ParseAll(windows: seq<Window>): seq<Span> {
    if windows == [] then []
    else
      var rest := ParseAll(windows[1..]);
      match SpanOf(windows[0])
      case Some(w) => [w] + rest
      case None => rest
  }

  function FormatAll(spans: seq<Span>): seq<Window> {
    if spans == [] then [] else [FormatSpan(spans[0])] + FormatAll(spans[1..])
  }

  function FormatSpan(w: Span): Window { Window(FormatHHMM(w.start), FormatHHMM(w.end)) }

  /** One turn of the merge sweep: extend the last span, or open a new one. */
  function Absorb(merged: seq<Span>, w: Span): seq<Span> {
    if merged == [] then [w]
    else
      var last := merged[|merged| - 1];
      if w.start <= last.end then merged[..|merged| - 1] + [Span(last.start, Max(last.end, w.end))]
      else merged + [w]
  }

  function MergeSpans(sorted: seq<Span>): seq<Span> {
    if sorted == [] then [] else Absorb(MergeSpans(sorted[..|sorted| - 1]), sorted[|sorted| - 1])
  }

  function Normalize(windows: seq<Window>): seq<Window> {
    FormatAll(MergeSpans(Sorting.Sort(ParseAll(windows), StartOf)))
  }

  /** The sweep as the source runs it, growing the last merged span in place. */
  method MergeSorted(parsed: seq<Span>) returns (merged: seq<Span>)
    ensures merged == MergeSpans(parsed)
  {
    merged := [];
    for k := 0 to |parsed|
      invariant merged == MergeSpans(parsed[..k])
    {
      assert parsed[..k + 1][..k] == parsed[..k];
      var w := parsed[k];
      if |merged| > 0 && w.start <= merged[|merged| - 1].end {
        var last := merged[|merged| - 1];
        merged := merged[|merged| - 1 := Span(last.start, Max(last.end, w.end))];
      } else {
        merged := merged + [w];
      }
    }
    assert parsed[..|parsed|] == parsed;
  }

  method NormalizeWindows(windows: seq<Window>) returns (out: seq<Window>)
    ensures out == Normalize(windows)
    ensures Canonical(out) && SameMinutes(out, windows)
  {
    var merged := MergeSorted(Sorting.Sort(ParseAll(windows), StartOf));
    out := FormatAll(merged);
    NormalizeExact(windows);
  }

  // ----- intersectWindows -----

  /** Two-pointer sweep: emit the overlap of the two heads, drop the head that closes first. */
  function Sweep(left: seq<Span>, right: seq<Span>): seq<Span>
    decreases |left| + |right|
  {
    if left == [] || right == [] then []
    else
      var start := Max(left[0].start, right[0].start);
      var end := Min(left[0].end, right[0].end);
      (if end > start then [Span(start, end)] else [])
      + (if left[0].end < right[0].end then Sweep(left[1..], right) else Sweep(left, right[1..]))
  }

  function Intersect(a: seq<Window>, b: seq<Window>): seq<Window> {
    FormatAll(Sweep(ParseAll(Normalize(a)), ParseAll(Normalize(b))))
  }

  lemma SweepStep(left: seq<Span>, right: seq<Span>, i: nat, j: nat)
    requires i < |left| && j < |right|
    ensures var start := Max(left[i].start, right[j].start);
      var end := Min(left[i].end, right[j].end);
      Sweep(left[i..], right[j..])
      == (if end > start then [Span(start, end)] else [])
         + (if left[i].end < right[j].end then Sweep(left[i + 1..], right[j..]) else Sweep(left[i..], right[j + 1..]))
  {
    assert left[i..][1..] == left[i + 1..] && right[j..][1..] == right[j + 1..];
  }

  method SweepSpans(left: seq<Span>, right: seq<Span>) returns (spans: seq<Span>)
    ensures spans == Sweep(left, right)
  {
    hide Sweep;
    spans := [];
    var i, j := 0, 0;
    while i < |left| && j < |right|
      invariant 0 <= i <= |left| && 0 <= j <= |right|
      invariant Sweep(left, right) == spans + Sweep(left[i..], right[j..])
      decreases |left| - i + |right| - j
    {
      ghost var before := spans;
      var start := Max(left[i].start, right[j].start);
      var end := Min(left[i].end, right[j].end);
      SweepStep(left, right, i, j);
      if end > start {
        spans := spans + [Span(start, end)];
      }
      if left[i].end < right[j].end {
        i := i + 1;
      } else {
        j := j + 1;
      }
      AppendAssociates(before, if end > start then [Span(start, end)] else [], Sweep(left[i..], right[j..]));
    }
    SweepExhausted(left[i..], right[j..]);
  }

  lemma SweepExhausted(left: seq<Span>, right: seq<Span>)
    requires left == [] || right == []
    ensures Sweep(left, right) == []
  {
  }

  lemma AppendAssociates(a: seq<Span>, b: seq<Span>, c: seq<Span>)
    ensures a + (b + c) == (a + b) + c
  {
  }

  method IntersectWindows(a: seq<Window>, b: seq<Window>) returns (out: seq<Window>)
    ensures out == Intersect(a, b)
    ensures Canonical(out)
    ensures forall m :: Offers(out, m) <==> Offers(a, m) && Offers(b, m)
  {
    var na := NormalizeWindows(a);
    var nb := NormalizeWindows(b);
    var spans := SweepSpans(ParseAll(na), ParseAll(nb));
    out := FormatAll(spans);
    IntersectExact(a, b);
  }

  // ----- Coverage lemmas on spans -----

  lemma CoversBy(w: Span, spans: seq<Span>, m: int)
    requires w in spans && Within(w, m)
    ensures Covers(spans, m)
  {
  }

  lemma CoversConcat(a: seq<Span>, b: seq<Span>, m: int)
    ensures Covers(a + b, m) <==> Covers(a, m) || Covers(b, m)
  {
    if Covers(a + b, m) {
      var w :| w in a + b && Within(w, m);
      if w in a { CoversBy(w, a, m); } else { CoversBy(w, b, m); }
    }
    if Covers(a, m) {
      var w :| w in a && Within(w, m);
      CoversBy(w, a + b, m);
    }
    if Covers(b, m) {
      var w :| w in b && Within(w, m);
      CoversBy(w, a + b, m);
    }
  }

  lemma CoversOne(w: Span, m: int)
    ensures Covers([w], m) <==> Within(w, m)
  {
    if Within(w, m) { CoversBy(w, [w], m); }
  }

  lemma {:induction false} ParseAllCovers(windows: seq<Window>, m: int)
    ensures Covers(ParseAll(windows), m) <==> Offers(windows, m)
    ensures forall w :: w in ParseAll(windows) ==> WellFormed(w)
  {
    if windows != [] {
      ParseAllCovers(windows[1..], m);
      assert windows == [windows[0]] + windows[1..];
      var rest := ParseAll(windows[1..]);
      match SpanOf(windows[0])
      case Some(w) =>
        assert ParseAll(windows) == [w] + rest;
        assert Covers([w] + rest, m) <==> Within(w, m) || Covers(rest, m) by {
          if Within(w, m) { assert w in [w] + rest; }
        }
      case None =>
    }
  }

  lemma SpanOfFormat(w: Span)
    requires WellFormed(w)
    ensures SpanOf(FormatSpan(w)) == Some(w)
  {
    hide ParseHHMM, FormatHHMM;
    ParseOfFormat(w.start);
    ParseOfFormat(w.end);
  }

  /** Formatting separated spans and reading them back loses nothing. */
  lemma {:induction false} ParseOfFormatAll(spans: seq<Span>)
    requires Separated(spans)
    ensures ParseAll(FormatAll(spans)) == spans
  {
    if spans != [] {
      SpanOfFormat(spans[0]);
      ParseOfFormatAll(spans[1..]);
      assert FormatAll(spans)[1..] == FormatAll(spans[1..]);
    }
  }

  lemma FormatAllOffers(spans: seq<Span>, m: int)
    requires Separated(spans)
    ensures Offers(FormatAll(spans), m) <==> Covers(spans, m)
  {
    ParseOfFormatAll(spans);
    ParseAllCovers(FormatAll(spans), m);
  }

  lemma CoversSame(a: seq<Span>, b: seq<Span>, m: int)
    requires forall w :: w in a <==> w in b
    ensures Covers(a, m) <==> Covers(b, m)
  {
  }

  /** The sweep invariant: separated so far, every later span starts no earlier than the last one kept. */
  lemma {:induction false} MergeSpansExact(sorted: seq<Span>, m: int)
    requires forall w :: w in sorted ==> WellFormed(w)
    requires Sorting.SortedBy(sorted, StartOf)
    ensures Separated(MergeSpans(sorted))
    ensures Covers(MergeSpans(sorted), m) <==> Covers(sorted, m)
    ensures sorted != [] ==> LastStart(MergeSpans(sorted)) <= LastStart(sorted)
  {
    hide Absorb, Separated, Covers, Within;
    if sorted == [] {
      MergeSpansOfNone(m);
    } else {
      var init, w := sorted[..|sorted| - 1], sorted[|sorted| - 1];
      assert sorted == init + [w];
      assert w in sorted;
      MergeSpansExact(init, m);
      if init != [] {
        assert StartOf(sorted[|sorted| - 2]) <= StartOf(w);
      }
      AbsorbExact(MergeSpans(init), w, m);
      CoversConcat(init, [w], m);
      CoversOne(w, m);
    }
  }

  lemma MergeSpansOfNone(m: int)
    ensures Separated(MergeSpans([])) && !Covers(MergeSpans([]), m) && !Covers([], m)
  {
  }

  function LastStart(spans: seq<Span>): int {
    if spans == [] then -1 else spans[|spans| - 1].start
  }

  lemma {:induction false} SeparatedSnoc(init: seq<Span>, w: Span)
    ensures Separated(init + [w])
            <==> Separated(init) && WellFormed(w) && (init != [] ==> init[|init| - 1].end < w.start)
  {
    var all := init + [w];
    if init != [] {
      assert all[1..] == init[1..] + [w];
      SeparatedSnoc(init[1..], w);
      if |init| > 1 && Separated(init) {
        assert Separated(init[1..]);
      }
    }
  }

  lemma AbsorbExact(merged: seq<Span>, w: Span, m: int)
    requires Separated(merged) && WellFormed(w)
    requires LastStart(merged) <= w.start
    ensures Separated(Absorb(merged, w))
    ensures LastStart(Absorb(merged, w)) <= w.start
    ensures Covers(Absorb(merged, w), m) <==> Covers(merged, m) || Within(w, m)
  {
    if merged != [] && w.start <= merged[|merged| - 1].end {
      var init, last := merged[..|merged| - 1], merged[|merged| - 1];
      assert merged == init + [last];
      var grown := Span(last.start, Max(last.end, w.end));
      SeparatedSnoc(init, last);
      SeparatedSnoc(init, grown);
      CoversConcat(init, [last], m);
      CoversConcat(init, [grown], m);
      CoversOne(last, m);
      CoversOne(grown, m);
    } else {
      SeparatedSnoc(merged, w);
      CoversConcat(merged, [w], m);
      CoversOne(w, m);
    }
  }

  lemma {:induction false} SweepSeparated(left: seq<Span>, right: seq<Span>)
    requires Separated(left) && Separated(right)
    ensures Separated(Sweep(left, right))
    ensures left != [] ==> Beyond(Sweep(left, right), left[0].start - 1)
    ensures right != [] ==> Beyond(Sweep(left, right), right[0].start - 1)
    decreases |left| + |right|
  {
    if left != [] && right != [] {
      var l, r := left[0], right[0];
      var start, end := Max(l.start, r.start), Min(l.end, r.end);
      var closeLeft := l.end < r.end;
      var tail := if closeLeft then Sweep(left[1..], right) else Sweep(left, right[1..]);
      if closeLeft { SweepSeparated(left[1..], right); } else { SweepSeparated(left, right[1..]); }
      // Whatever follows lies beyond the head that was dropped.
      assert Beyond(tail, end);
      if end > start {
        assert Sweep(left, right)[0] == Span(start, end);
        assert Sweep(left, right)[1..] == tail;
      } else {
        assert Sweep(left, right) == tail;
      }
    }
  }

  lemma {:induction false} SweepCovers(left: seq<Span>, right: seq<Span>, m: int)
    requires Separated(left) && Separated(right)
    ensures Covers(Sweep(left, right), m) <==> Covers(left, m) && Covers(right, m)
    decreases |left| + |right|
  {
    if left != [] && right != [] {
      var l, r := left[0], right[0];
      var start, end := Max(l.start, r.start), Min(l.end, r.end);
      var head := if end > start then [Span(start, end)] else [];
      var tail := if l.end < r.end then Sweep(left[1..], right) else Sweep(left, right[1..]);
      if l.end < r.end { SweepCovers(left[1..], right, m); } else { SweepCovers(left, right[1..], m); }
      CoversConcat(head, tail, m);
      CoversOne(Span(start, end), m);
      HeadCovers(left, m);
      HeadCovers(right, m);
    }
  }

  lemma {:induction false} BeyondCovers(spans: seq<Span>, bound: int, m: int)
    requires Separated(spans) && Beyond(spans, bound)
    ensures Covers(spans, m) ==> bound < m
  {
    if spans != [] {
      BeyondCovers(spans[1..], bound, m);
      assert spans == [spans[0]] + spans[1..];
      CoversConcat([spans[0]], spans[1..], m);
    }
  }

  /** A list covers a minute in its head or beyond its head, never both. */
  lemma HeadCovers(spans: seq<Span>, m: int)
    requires Separated(spans) && spans != []
    ensures Covers(spans, m) <==> Within(spans[0], m) || Covers(spans[1..], m)
    ensures Covers(spans[1..], m) ==> m > spans[0].end
  {
    BeyondCovers(spans[1..], spans[0].end, m);
    assert spans == [spans[0]] + spans[1..];
    CoversConcat([spans[0]], spans[1..], m);
    CoversOne(spans[0], m);
  }

  // ----- Uniqueness -----

  /** A minute set has one separated span list: the form is canonical, not merely tidy. */
  lemma {:induction false} SeparatedUnique(a: seq<Span>, b: seq<Span>)
    requires Separated(a) && Separated(b)
    requires forall m :: Covers(a, m) <==> Covers(b, m)
    ensures a == b
  {
    if a == [] {
      if b != [] { CoversBy(b[0], b, b[0].start); }
    } else if b == [] {
      CoversBy(a[0], a, a[0].start);
    } else {
      FirstBounds(a, b);
      FirstBounds(b, a);
      forall m ensures Covers(a[1..], m) <==> Covers(b[1..], m) {
        HeadCovers(a, m);
        HeadCovers(b, m);
        assert Covers(a, m) <==> Covers(b, m);
      }
      SeparatedUnique(a[1..], b[1..]);
      assert a == [a[0]] + a[1..] && b == [b[0]] + b[1..];
    }
  }

  /** The first span of one list begins and ends inside the first span of the other. */
  lemma FirstBounds(a: seq<Span>, b: seq<Span>)
    requires Separated(a) && Separated(b) && a != [] && b != []
    requires forall m :: Covers(a, m) <==> Covers(b, m)
    ensures b[0].start <= a[0].start && a[0].end <= b[0].end
  {
    var s, e := a[0].start, a[0].end;
    CoversBy(a[0], a, s);
    assert Covers(b, s);
    HeadCovers(b, s);
    CoversBy(b[0], b, b[0].start);
    assert Covers(a, b[0].start);
    HeadCovers(a, b[0].start);
    if b[0].end < e {
      // Then b[0].end is a minute of a's first span, and b leaves a gap exactly there.
      CoversBy(a[0], a, b[0].end);
      assert Covers(b, b[0].end);
      HeadCovers(b, b[0].end);
    }
  }

  lemma CanonicalUnique(a: seq<Window>, b: seq<Window>)
    requires Canonical(a) && Canonical(b)
    ensures SameMinutes(a, b) <==> a == b
  {
    if SameMinutes(a, b) {
      var sa :| Separated(sa) && a == FormatAll(sa);
      var sb :| Separated(sb) && b == FormatAll(sb);
      forall m ensures Covers(sa, m) <==> Covers(sb, m) {
        FormatAllOffers(sa, m);
        FormatAllOffers(sb, m);
        assert Offers(a, m) <==> Offers(b, m);
      }
      SeparatedUnique(sa, sb);
    }
  }

  // ----- Main results -----

  lemma NormalizeExact(windows: seq<Window>)
    ensures Canonical(Normalize(windows))
    ensures SameMinutes(Normalize(windows), windows)
  {
    var parsed := ParseAll(windows);
    var sorted := Sorting.Sort(parsed, StartOf);
    var merged := MergeSpans(sorted);
    Sorting.SortMembers(parsed, StartOf);
    Sorting.SortSorted(parsed, StartOf);
    forall m
      ensures Separated(merged) && (Offers(Normalize(windows), m) <==> Offers(windows, m))
    {
      ParseAllCovers(windows, m);
      CoversSame(parsed, sorted, m);
      MergeSpansExact(sorted, m);
      FormatAllOffers(merged, m);
    }
    assert Separated(merged) by { ParseAllCovers(windows, 0); MergeSpansExact(sorted, 0); }
  }

  /** Two lists normalize alike exactly when they offer the same minutes: order, overlap and spelling are erased. */
  lemma NormalizeDecidesSameMinutes(a: seq<Window>, b: seq<Window>)
    ensures Normalize(a) == Normalize(b) <==> SameMinutes(a, b)
  {
    NormalizeExact(a);
    NormalizeExact(b);
    CanonicalUnique(Normalize(a), Normalize(b));
    if SameMinutes(a, b) {
      assert forall m :: Offers(Normalize(a), m) <==> Offers(a, m);
      assert forall m :: Offers(Normalize(b), m) <==> Offers(b, m);
    }
    if Normalize(a) == Normalize(b) {
      forall m ensures Offers(a, m) <==> Offers(b, m) {
        assert Offers(Normalize(a), m) <==> Offers(a, m);
        assert Offers(Normalize(b), m) <==> Offers(b, m);
      }
    }
  }

  lemma NormalizeInputOrder(a: seq<Window>, b: seq<Window>)
    requires multiset(a) == multiset(b)
    ensures Normalize(a) == Normalize(b)
    ensures Normalize(Normalize(a)) == Normalize(a)
  {
    assert forall w :: w in a <==> w in multiset(a);
    assert forall w :: w in b <==> w in multiset(b);
    NormalizeDecidesSameMinutes(a, b);
    NormalizeExact(a);
    NormalizeDecidesSameMinutes(Normalize(a), a);
  }

  lemma IntersectExact(a: seq<Window>, b: seq<Window>)
    ensures Canonical(Intersect(a, b))
    ensures forall m :: Offers(Intersect(a, b), m) <==> Offers(a, m) && Offers(b, m)
  {
    NormalizeExact(a);
    NormalizeExact(b);
    var left :| Separated(left) && Normalize(a) == FormatAll(left);
    var right :| Separated(right) && Normalize(b) == FormatAll(right);
    ParseOfFormatAll(left);
    ParseOfFormatAll(right);
    SweepSeparated(left, right);
    var both := Sweep(left, right);
    forall m ensures Offers(FormatAll(both), m) <==> Offers(a, m) && Offers(b, m) {
      SweepCovers(left, right, m);
      FormatAllOffers(both, m);
      FormatAllOffers(left, m);
      FormatAllOffers(right, m);
      assert Offers(Normalize(a), m) <==> Offers(a, m);
      assert Offers(Normalize(b), m) <==> Offers(b, m);
    }
  }

  /** Canonical lists for the same minutes are equal, stated for lists known only by their minutes. */
  lemma EqualByMinutes(a: seq<Window>, b: seq<Window>)
    requires Canonical(a) && Canonical(b)
    requires forall m :: Offers(a, m) <==> Offers(b, m)
    ensures a == b
  {
    CanonicalUnique(a, b);
  }

  /** Intersection is a meet: its laws hold as list equalities, because the output form is canonical. */
  lemma IntersectCommutes(a: seq<Window>, b: seq<Window>)
    ensures Intersect(a, b) == Intersect(b, a)
  {
    IntersectExact(a, b);
    IntersectExact(b, a);
    EqualByMinutes(Intersect(a, b), Intersect(b, a));
  }

  lemma IntersectAssociates(a: seq<Window>, b: seq<Window>, c: seq<Window>)
    ensures Intersect(Intersect(a, b), c) == Intersect(a, Intersect(b, c))
  {
    IntersectExact(a, b);
    IntersectExact(b, c);
    IntersectExact(Intersect(a, b), c);
    IntersectExact(a, Intersect(b, c));
    EqualByMinutes(Intersect(Intersect(a, b), c), Intersect(a, Intersect(b, c)));
  }

  lemma IntersectIdempotent(a: seq<Window>)
    ensures Intersect(a, a) == Normalize(a)
  {
    IntersectExact(a, a);
    NormalizeExact(a);
    EqualByMinutes(Intersect(a, a), Normalize(a));
  }

  /** Only the minutes of an argument matter, not their order, overlaps or spelling. */
  lemma IntersectRespectsMinutes(a: seq<Window>, b: seq<Window>, c: seq<Window>)
    requires SameMinutes(a, c)
    ensures Intersect(a, b) == Intersect(c, b)
  {
    IntersectExact(a, b);
    IntersectExact(c, b);
    EqualByMinutes(Intersect(a, b), Intersect(c, b));
  }
}
