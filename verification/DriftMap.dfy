/** Served coordinates against current ones: edited intervals, the shift before a line, and the spans they became. */
module DriftMap {

  /** An edited served interval, inclusive; an insertion that edits no line has `to == from - 1`. */
  datatype Interval = Interval(from: int, to: int, delta: int)

  datatype Span = Span(from: int, to: int)

  predicate InIntervals(p: int, ranges: seq<Interval>)
  {
    ranges != [] && (ranges[0].from <= p <= ranges[0].to || InIntervals(p, ranges[1..]))
  }

  predicate InSpans(p: int, spans: seq<Span>)
  {
    spans != [] && (spans[0].from <= p <= spans[0].to || InSpans(p, spans[1..]))
  }

  function DeltaBefore(p: int, ranges: seq<Interval>): int
  {
    if ranges == [] then 0 else (if ranges[0].to < p then ranges[0].delta else 0) + DeltaBefore(p, ranges[1..])
  }

  function Insert(r: Interval, sorted: seq<Interval>): seq<Interval>
  {
    if sorted == [] then [r]
    else if sorted[0].from <= r.from then [sorted[0]] + Insert(r, sorted[1..])
    else [r] + sorted
  }

  /** `sort((a, b) => a.from - b.from)`, which is stable: r goes after its equals when inserted last. */
  function SortFrom(sorted: seq<Interval>, ranges: seq<Interval>): seq<Interval>
    decreases |ranges|
  {
    if ranges == [] then sorted else SortFrom(Insert(ranges[0], sorted), ranges[1..])
  }

  function SpansFrom(acc: seq<Span>, shift: int, sorted: seq<Interval>): seq<Span>
    decreases |sorted|
  {
    if sorted == [] then acc
    else
      var r := sorted[0];
      var here := Span(r.from + shift, r.to + shift + r.delta);
      SpansFrom(if here.to >= here.from then acc + [here] else acc, shift + r.delta, sorted[1..])
  }

  // ----- the program

  method ComputeDeltaBefore(p: int, ranges: seq<Interval>) returns (d: int)
    ensures d == DeltaBefore(p, ranges)
  {
    d := 0;
    for i := 0 to |ranges|
      invariant d + DeltaBefore(p, ranges[i..]) == DeltaBefore(p, ranges)
    {
      assert ranges[i..][1..] == ranges[i + 1..];
      if ranges[i].to < p { d := d + ranges[i].delta; }
    }
  }

  method CurrentEditedSpans(ranges: seq<Interval>) returns (spans: seq<Span>)
    ensures spans == SpansFrom([], 0, SortFrom([], ranges))
  {
    var sorted := SortFrom([], ranges);
    var shift := 0;
    spans := [];
    for i := 0 to |sorted|
      invariant SpansFrom(spans, shift, sorted[i..]) == SpansFrom([], 0, sorted)
    {
      assert sorted[i..][1..] == sorted[i + 1..];
      var r := sorted[i];
      var start, end := r.from + shift, r.to + shift + r.delta;
      if end >= start { spans := spans + [Span(start, end)]; }
      shift := shift + r.delta;
    }
  }

  // ----- sorted, disjoint edits

  /** In order from line `low` on, disjoint, none losing more lines than it covers. */
  ghost predicate Disjoint(low: int, ranges: seq<Interval>)
    decreases |ranges|
  {
    ranges == []
    || (low <= ranges[0].from <= ranges[0].to + 1 && ranges[0].to - ranges[0].from + 1 + ranges[0].delta >= 0
        && Disjoint(ranges[0].to + 1, ranges[1..]))
  }

  /** Before the first edit nothing is shifted and nothing is edited. */
  lemma {:induction false} BeforeAll(low: int, ranges: seq<Interval>, p: int)
    requires Disjoint(low, ranges) && p < low
    ensures DeltaBefore(p, ranges) == 0 && !InIntervals(p, ranges)
    decreases |ranges|
  {
    if ranges != [] { BeforeAll(ranges[0].to + 1, ranges[1..], p); }
  }

  /** The spans without their accumulator: the shift of the edits before each. */
  function Spans(shift: int, ranges: seq<Interval>): seq<Span>
    decreases |ranges|
  {
    if ranges == [] then []
    else
      var r := ranges[0];
      (if r.to + r.delta >= r.from then [Span(r.from + shift, r.to + shift + r.delta)] else [])
          + Spans(shift + r.delta, ranges[1..])
  }

  lemma {:induction false} SpansFromIsSpans(acc: seq<Span>, shift: int, ranges: seq<Interval>)
    ensures SpansFrom(acc, shift, ranges) == acc + Spans(shift, ranges)
    decreases |ranges|
  {
    if ranges != [] {
      var r := ranges[0];
      var here := Span(r.from + shift, r.to + shift + r.delta);
      SpansFromIsSpans(if here.to >= here.from then acc + [here] else acc, shift + r.delta, ranges[1..]);
    }
  }

  lemma HeadSpan(shift: int, ranges: seq<Interval>, q: int)
    requires ranges != []
    ensures InSpans(q, Spans(shift, ranges))
            <==> ranges[0].from + shift <= q <= ranges[0].to + shift + ranges[0].delta
                 || InSpans(q, Spans(shift + ranges[0].delta, ranges[1..]))
  {
    var r := ranges[0];
    var rest := Spans(shift + r.delta, ranges[1..]);
    if r.to + r.delta >= r.from {
      assert ([Span(r.from + shift, r.to + shift + r.delta)] + rest)[1..] == rest;
    } else {
      assert [] + rest == rest;
    }
  }

  /** Spans lie at or beyond where their edits begin. */
  lemma {:induction false} SpansBeyond(low: int, shift: int, ranges: seq<Interval>, q: int)
    requires Disjoint(low, ranges) && q < low + shift
    ensures !InSpans(q, Spans(shift, ranges))
    decreases |ranges|
  {
    if ranges != [] {
      HeadSpan(shift, ranges, q);
      SpansBeyond(ranges[0].to + 1, shift + ranges[0].delta, ranges[1..], q);
    }
  }

  // ----- the map and its inverse

  /** Where an unedited served line stands now. */
  function Current(p: int, ranges: seq<Interval>): int
  {
    p + DeltaBefore(p, ranges)
  }

  /** Where a line outside the edited spans stood when served, read off the edits in order. */
  function ServedAt(q: int, shift: int, ranges: seq<Interval>): int
    decreases |ranges|
  {
    if ranges == [] || q < ranges[0].from + shift then q - shift
    else ServedAt(q, shift + ranges[0].delta, ranges[1..])
  }

  lemma {:induction false} CurrentIsOutside(low: int, shift: int, ranges: seq<Interval>, p: int)
    requires Disjoint(low, ranges) && low <= p && !InIntervals(p, ranges)
    ensures shift + Current(p, ranges) >= low + shift
    ensures !InSpans(shift + Current(p, ranges), Spans(shift, ranges))
    ensures ServedAt(shift + Current(p, ranges), shift, ranges) == p
    decreases |ranges|
  {
    if ranges != [] {
      var r := ranges[0];
      HeadSpan(shift, ranges, shift + Current(p, ranges));
      if p < r.from {
        BeforeAll(r.to + 1, ranges[1..], p);
        SpansBeyond(r.to + 1, shift + r.delta, ranges[1..], shift + p);
      } else {
        CurrentIsOutside(r.to + 1, shift + r.delta, ranges[1..], p);
      }
    }
  }

  lemma {:induction false} ServedIsOutside(low: int, shift: int, ranges: seq<Interval>, q: int)
    requires Disjoint(low, ranges) && low + shift <= q && !InSpans(q, Spans(shift, ranges))
    ensures var p := ServedAt(q, shift, ranges); low <= p && !InIntervals(p, ranges) && shift + Current(p, ranges) == q
    decreases |ranges|
  {
    if ranges != [] {
      var r := ranges[0];
      HeadSpan(shift, ranges, q);
      if q < r.from + shift {
        BeforeAll(r.to + 1, ranges[1..], q - shift);
      } else {
        ServedIsOutside(r.to + 1, shift + r.delta, ranges[1..], q);
      }
    }
  }

  /** The map keeps the order of unedited lines strictly. */
  lemma {:induction false} CurrentIncreases(low: int, ranges: seq<Interval>, p: int, p': int)
    requires Disjoint(low, ranges) && low <= p < p' && !InIntervals(p, ranges) && !InIntervals(p', ranges)
    ensures Current(p, ranges) < Current(p', ranges)
    decreases |ranges|
  {
    if ranges != [] {
      var r := ranges[0];
      if p < r.from {
        BeforeAll(r.to + 1, ranges[1..], p);
        if p' < r.from {
          BeforeAll(r.to + 1, ranges[1..], p');
        } else {
          CurrentIsOutside(r.to + 1, r.delta, ranges[1..], p');
        }
      } else {
        CurrentIncreases(r.to + 1, ranges[1..], p, p');
      }
    }
  }

  function TotalDelta(ranges: seq<Interval>): int
  {
    if ranges == [] then 0 else ranges[0].delta + TotalDelta(ranges[1..])
  }

  ghost predicate Inside(ranges: seq<Interval>, n: int)
  {
    ranges == [] || (ranges[0].from <= n && ranges[0].to < n && Inside(ranges[1..], n))
  }

  lemma {:induction false} PastAll(ranges: seq<Interval>, n: int, p: int)
    requires Inside(ranges, n) && p >= n
    ensures DeltaBefore(p, ranges) == TotalDelta(ranges) && !InIntervals(p, ranges)
    decreases |ranges|
  {
    if ranges != [] { PastAll(ranges[1..], n, p); }
  }

  lemma {:induction false} SortKeepsOrder(sorted: seq<Interval>, low: int, ranges: seq<Interval>)
    requires Disjoint(low, ranges) && (sorted != [] ==> sorted[|sorted| - 1].from <= low) && FromsAscend(sorted)
    ensures SortFrom(sorted, ranges) == sorted + ranges
    decreases |ranges|
  {
    if ranges != [] {
      InsertLast(ranges[0], sorted);
      FromsExtend(sorted, ranges[0]);
      Regroup(sorted, ranges);
      SortKeepsOrder(sorted + [ranges[0]], ranges[0].from, ranges[1..]);
    }
  }

  lemma Regroup(sorted: seq<Interval>, ranges: seq<Interval>)
    requires ranges != []
    ensures sorted + [ranges[0]] + ranges[1..] == sorted + ranges
    ensures (sorted + [ranges[0]])[|sorted + [ranges[0]]| - 1] == ranges[0]
  {
  }

  ghost predicate FromsAscend(s: seq<Interval>)
  {
    |s| < 2 || (s[0].from <= s[1].from && FromsAscend(s[1..]))
  }

  lemma {:induction false} InsertLast(r: Interval, s: seq<Interval>)
    requires FromsAscend(s) && (s != [] ==> s[|s| - 1].from <= r.from)
    ensures Insert(r, s) == s + [r]
  {
    if s != [] {
      HeadIsLeast(s);
      InsertLast(r, s[1..]);
      assert [s[0]] + (s[1..] + [r]) == s + [r];
    }
  }

  lemma {:induction false} HeadIsLeast(s: seq<Interval>)
    requires FromsAscend(s) && s != []
    ensures s[0].from <= s[|s| - 1].from
  {
    if |s| > 1 { HeadIsLeast(s[1..]); }
  }

  lemma {:induction false} FromsExtend(s: seq<Interval>, r: Interval)
    requires FromsAscend(s) && (s != [] ==> s[|s| - 1].from <= r.from)
    ensures FromsAscend(s + [r])
  {
    if |s| > 1 {
      FromsExtend(s[1..], r);
      assert (s + [r])[1..] == s[1..] + [r];
    }
  }

  /** The edited spans of a served file of n lines, as the program computes them. */
  function EditedSpans(ranges: seq<Interval>): seq<Span>
  {
    SpansFrom([], 0, SortFrom([], ranges))
  }

  lemma SpansOfSorted(ranges: seq<Interval>)
    requires Disjoint(0, ranges)
    ensures EditedSpans(ranges) == Spans(0, ranges)
  {
    SortKeepsOrder([], 0, ranges);
    assert [] + ranges == ranges;
    SpansFromIsSpans([], 0, ranges);
    assert [] + Spans(0, ranges) == Spans(0, ranges);
  }

  /** Every unedited served line lands on a line outside the edited spans of the current file, and comes back. */
  lemma UneditedLandsOutside(ranges: seq<Interval>, n: int, p: int)
    requires Disjoint(0, ranges) && Inside(ranges, n) && 0 <= p < n && !InIntervals(p, ranges)
    ensures 0 <= Current(p, ranges) < n + TotalDelta(ranges) && !InSpans(Current(p, ranges), EditedSpans(ranges))
    ensures ServedAt(Current(p, ranges), 0, ranges) == p
  {
    SpansOfSorted(ranges);
    CurrentIsOutside(0, 0, ranges, p);
    PastAll(ranges, n, n);
    CurrentIncreases(0, ranges, p, n);
  }

  /** And every current line outside the spans is where exactly one unedited served line stands. */
  lemma OutsideComesFromUnedited(ranges: seq<Interval>, n: int, q: int)
    requires Disjoint(0, ranges) && Inside(ranges, n)
    requires 0 <= q < n + TotalDelta(ranges) && !InSpans(q, EditedSpans(ranges))
    ensures var p := ServedAt(q, 0, ranges); 0 <= p < n && !InIntervals(p, ranges) && Current(p, ranges) == q
  {
    SpansOfSorted(ranges);
    ServedIsOutside(0, 0, ranges, q);
    var p := ServedAt(q, 0, ranges);
    if p >= n { PastAll(ranges, n, p); }
  }

  lemma UneditedKeepOrder(ranges: seq<Interval>, p: int, p': int)
    requires Disjoint(0, ranges) && 0 <= p < p' && !InIntervals(p, ranges) && !InIntervals(p', ranges)
    ensures Current(p, ranges) < Current(p', ranges)
  {
    CurrentIncreases(0, ranges, p, p');
  }
}
