/** Half-open integer spans: sorting them and merging those that overlap or touch. */
module Spans {

  datatype Span = Span(start: int, end: int)

  predicate Before(a: Span, b: Span)
  {
    a.start < b.start || (a.start == b.start && a.end <= b.end)
  }

  predicate Sorted(s: seq<Span>)
  {
    |s| <= 1 || (Before(s[0], s[1]) && Sorted(s[1..]))
  }

  ghost predicate Covers(s: seq<Span>, p: int)
  {
    exists i :: 0 <= i < |s| && s[i].start <= p < s[i].end
  }

  /** Non-empty spans, ascending, with a gap between neighbours. */
  ghost predicate Separated(s: seq<Span>)
  {
    && (forall i :: 0 <= i < |s| ==> s[i].start < s[i].end)
    && (forall i, j :: 0 <= i < j < |s| ==> s[i].end < s[j].start)
  }

  // ----- the comparator sort

  function Insert(s: seq<Span>, x: Span): seq<Span>
  {
    if s == [] then [x]
    else if Before(x, s[0]) then [x] + s
    else [s[0]] + Insert(s[1..], x)
  }

  function Sort(s: seq<Span>): seq<Span>
  {
    if s == [] then [] else Insert(Sort(s[1..]), s[0])
  }

  lemma {:induction false} InsertSorted(s: seq<Span>, x: Span)
    requires Sorted(s)
    ensures Sorted(Insert(s, x)) && Insert(s, x) != []
    ensures Insert(s, x)[0] == if s == [] || Before(x, s[0]) then x else s[0]
  {
    if s == [] {
    } else if Before(x, s[0]) {
      assert ([x] + s)[1..] == s;
    } else {
      InsertSorted(s[1..], x);
      assert Insert(s, x)[1..] == Insert(s[1..], x);
    }
  }

  lemma {:induction false} InsertKeeps(s: seq<Span>, x: Span)
    ensures multiset(Insert(s, x)) == multiset(s) + multiset{x}
  {
    if s != [] {
      InsertKeeps(s[1..], x);
      HeadAside(s);
    }
  }

  lemma HeadAside(s: seq<Span>)
    requires s != []
    ensures multiset(s) == multiset(s[1..]) + multiset{s[0]}
  {
    assert s == [s[0]] + s[1..];
  }

  /** The sort reorders and nothing else. */
  lemma {:induction false} SortSorts(s: seq<Span>)
    ensures Sorted(Sort(s)) && multiset(Sort(s)) == multiset(s)
  {
    assert Sorted([]);
    hide Sorted, Insert;
    if s != [] {
      SortSorts(s[1..]);
      InsertSorted(Sort(s[1..]), s[0]);
      InsertKeeps(Sort(s[1..]), s[0]);
      HeadAside(s);
    }
  }

  lemma SortCovers(s: seq<Span>, p: int)
    ensures Covers(Sort(s), p) <==> Covers(s, p)
  {
    SortSorts(s);
    if Covers(s, p) {
      var i :| 0 <= i < |s| && s[i].start <= p < s[i].end;
      assert s[i] in multiset(Sort(s));
    }
    if Covers(Sort(s), p) {
      var i :| 0 <= i < |Sort(s)| && Sort(s)[i].start <= p < Sort(s)[i].end;
      assert Sort(s)[i] in multiset(s);
    }
  }

  // ----- the merge loop's accumulator

  function Absorb(merged: seq<Span>, s: Span): seq<Span>
  {
    if merged == [] || s.start > merged[|merged| - 1].end then merged + [s]
    else if s.end > merged[|merged| - 1].end then
      merged[|merged| - 1 := Span(merged[|merged| - 1].start, s.end)]
    else merged
  }

  function MergeFrom(merged: seq<Span>, sorted: seq<Span>): seq<Span>
    decreases |sorted|
  {
    if sorted == [] then merged else MergeFrom(Absorb(merged, sorted[0]), sorted[1..])
  }

  lemma AbsorbCovers(merged: seq<Span>, s: Span, p: int)
    requires merged != [] ==> merged[|merged| - 1].start <= s.start
    ensures Covers(Absorb(merged, s), p) <==> Covers(merged, p) || s.start <= p < s.end
  {
    var out, n := Absorb(merged, s), |merged|;
    if Covers(merged, p) {
      var i :| 0 <= i < n && merged[i].start <= p < merged[i].end;
      assert out[i].start <= p < out[i].end;
    }
    if s.start <= p < s.end {
      assert out[|out| - 1].start <= p < out[|out| - 1].end || Covers(merged, p);
    }
    if Covers(out, p) {
      var i :| 0 <= i < |out| && out[i].start <= p < out[i].end;
      assert i < n ==> out[i].start == merged[i].start;
    }
  }

  /** Merging covers what the accumulator and the pending spans cover, and nothing more. */
  lemma {:induction false} MergeCovers(merged: seq<Span>, sorted: seq<Span>, p: int)
    requires Sorted(sorted)
    requires merged != [] && sorted != [] ==> merged[|merged| - 1].start <= sorted[0].start
    ensures Covers(MergeFrom(merged, sorted), p) <==> Covers(merged, p) || Covers(sorted, p)
    decreases |sorted|
  {
    if sorted != [] {
      var x, rest := sorted[0], sorted[1..];
      AbsorbCovers(merged, x, p);
      MergeCovers(Absorb(merged, x), rest, p);
      assert Covers(sorted, p) <==> x.start <= p < x.end || Covers(rest, p) by {
        if Covers(rest, p) {
          var i :| 0 <= i < |rest| && rest[i].start <= p < rest[i].end;
          assert sorted[i + 1] == rest[i];
        }
        if Covers(sorted, p) {
          var i :| 0 <= i < |sorted| && sorted[i].start <= p < sorted[i].end;
          assert i > 0 ==> rest[i - 1] == sorted[i];
        }
      }
    }
  }

  lemma {:induction false} MergeSeparates(merged: seq<Span>, sorted: seq<Span>)
    requires Sorted(sorted) && Separated(merged)
    requires forall i :: 0 <= i < |sorted| ==> sorted[i].start < sorted[i].end
    requires merged != [] && sorted != [] ==> merged[|merged| - 1].start <= sorted[0].start
    ensures Separated(MergeFrom(merged, sorted))
    decreases |sorted|
  {
    if sorted != [] {
      MergeSeparates(Absorb(merged, sorted[0]), sorted[1..]);
    }
  }

  function Merge(s: seq<Span>): seq<Span>
  {
    MergeFrom([], Sort(s))
  }

  /** Merging keeps the union of the spans, whatever their order, overlap or emptiness. */
  lemma MergeIsUnion(s: seq<Span>, p: int)
    ensures Covers(Merge(s), p) <==> Covers(s, p)
  {
    SortSorts(s);
    SortCovers(s, p);
    MergeCovers([], Sort(s), p);
  }

  lemma MergeOfNonEmptySeparates(s: seq<Span>)
    requires forall i :: 0 <= i < |s| ==> s[i].start < s[i].end
    ensures Separated(Merge(s))
  {
    SortSorts(s);
    forall i | 0 <= i < |Sort(s)|
      ensures Sort(s)[i].start < Sort(s)[i].end
    {
      assert Sort(s)[i] in multiset(s);
    }
    MergeSeparates([], Sort(s));
  }
}
