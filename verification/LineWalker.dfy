/** Walking a file's lines once, keeping only the requested ranges, and merging requests first. */
module LineWalker {

  import opened Spans
  import opened Endings

  /** `text.split("\n")` */
  function Split(s: string): (lines: seq<string>)
    ensures lines != []
  {
    var i := FirstLF(s);
    if i == |s| then [s] else [s[..i]] + Split(s[i + 1..])
  }

  predicate EndsWithLF(s: string)
  {
    s != "" && s[|s| - 1] == '\n'
  }

  function SplitLines(text: string): seq<string>
  {
    if text == "" then [""]
    else if EndsWithLF(text) then Split(text)[..|Split(text)| - 1]
    else Split(text)
  }

  /** The lines still to come from a suffix of a text that does, or does not, end with a newline. */
  function LinesOf(s: string, sentinel: bool): seq<string>
  {
    var i := FirstLF(s);
    if i == |s| then (if sentinel then [] else [s])
    else [s[..i]] + LinesOf(s[i + 1..], sentinel)
  }

  lemma {:induction false} LinesOfIsSplit(s: string, sentinel: bool)
    ensures LinesOf(s, sentinel) == if sentinel then Split(s)[..|Split(s)| - 1] else Split(s)
    decreases |s|
  {
    var i := FirstLF(s);
    if i < |s| { LinesOfIsSplit(s[i + 1..], sentinel); }
  }

  /** The lines of `r` out of `lines`, the first of which has index `base`. */
  function Keep<T>(r: Span, lines: seq<T>, base: int): seq<T>
  {
    if lines == [] then []
    else (if r.start <= base < r.end then [lines[0]] else []) + Keep(r, lines[1..], base + 1)
  }

  function Bound(n: int, length: nat): (r: nat)
    ensures r <= length
  {
    if n <= 0 then 0 else if n <= length then n else length
  }

  /** A range intersects the sequence: a negative start reads like 0, a late end like the end. */
  function Window<T>(r: Span, lines: seq<T>): seq<T>
  {
    if Bound(r.end, |lines|) <= Bound(r.start, |lines|) then []
    else lines[Bound(r.start, |lines|)..Bound(r.end, |lines|)]
  }

  lemma {:induction false} KeepIsWindow<T>(r: Span, lines: seq<T>, base: int)
    ensures Keep(r, lines, base) == Window(Span(r.start - base, r.end - base), lines)
    decreases |lines|
  {
    if lines != [] {
      KeepIsWindow(r, lines[1..], base + 1);
      WindowHead(Span(r.start - base, r.end - base), lines);
      hide Window;
      assert Span(r.start - base - 1, r.end - base - 1) == Span(r.start - (base + 1), r.end - (base + 1));
    }
  }

  lemma WindowHead<T>(r: Span, lines: seq<T>)
    requires lines != []
    ensures Window(r, lines)
         == (if r.start <= 0 < r.end then [lines[0]] else []) + Window(Span(r.start - 1, r.end - 1), lines[1..])
  {
    assert lines == [lines[0]] + lines[1..];
  }

  /** The walk's accumulator for one range. */
  function KeepFrom<T>(acc: seq<T>, r: Span, lines: seq<T>, base: int): seq<T>
    decreases |lines|
  {
    if lines == [] then acc
    else KeepFrom(if r.start <= base < r.end then acc + [lines[0]] else acc, r, lines[1..], base + 1)
  }

  lemma {:induction false} KeepFromIsKeep<T>(acc: seq<T>, r: Span, lines: seq<T>, base: int)
    ensures KeepFrom(acc, r, lines, base) == acc + Keep(r, lines, base)
    decreases |lines|
  {
    if lines != [] {
      var tail := Keep(r, lines[1..], base + 1);
      if r.start <= base < r.end {
        KeepFromIsKeep(acc + [lines[0]], r, lines[1..], base + 1);
        assert (acc + [lines[0]]) + tail == acc + ([lines[0]] + tail);
      } else {
        KeepFromIsKeep(acc, r, lines[1..], base + 1);
        assert [] + tail == tail;
      }
    }
  }

  /** After `total` lines, every range holds what it keeps of them. */
  ghost predicate KeptSoFar(kept: seq<seq<string>>, ranges: seq<Span>, all: seq<string>, total: nat)
  {
    && |kept| == |ranges| && total <= |all|
    && forall k :: 0 <= k < |ranges| ==>
         KeepFrom(kept[k], ranges[k], all[total..], total) == KeepFrom([], ranges[k], all, 0)
  }

  lemma KeptAll(kept: seq<seq<string>>, ranges: seq<Span>, all: seq<string>)
    requires KeptSoFar(kept, ranges, all, |all|)
    ensures forall k :: 0 <= k < |ranges| ==> kept[k] == Window(ranges[k], all)
  {
    forall k | 0 <= k < |ranges|
      ensures kept[k] == Window(ranges[k], all)
    {
      assert all[|all|..] == [];
      KeepFromIsKeep([], ranges[k], all, 0);
      KeepIsWindow(ranges[k], all, 0);
      assert [] + Keep(ranges[k], all, 0) == Keep(ranges[k], all, 0);
    }
  }

  /** One walk: the kept lines of every range, the visited lines, and the total. */
  method WalkLines(text: string, ranges: seq<Span>)
    returns (kept: seq<seq<string>>, visited: seq<string>, total: nat)
    ensures visited == SplitLines(text) && total == |SplitLines(text)|
    ensures |kept| == |ranges|
    ensures forall k :: 0 <= k < |ranges| ==> kept[k] == Window(ranges[k], SplitLines(text))
  {
    var lastWanted := LastWanted(ranges);
    var sentinel := EndsWithLF(text);
    ghost var all := SplitLines(text);
    LinesOfIsSplit(text, sentinel);
    kept := seq(|ranges|, _ => []);
    visited := [];
    total := 0;
    var rest := text; // the text from the current line's start on
    while true
      invariant total <= |all| && visited == all[..total]
      invariant LinesOf(rest, sentinel) == all[total..]
      invariant KeptSoFar(kept, ranges, all, total)
      decreases |rest|
    {
      hide LinesOf, SplitLines, Split, Window, KeptSoFar, EndsWithLF;
      var breakAt := FirstLF(rest);
      if breakAt == |rest| && sentinel {
        NoLineLeft(rest, all, total);
        break;
      }
      var line := rest[..breakAt];
      NextLine(rest, sentinel, all, total);
      kept := PushLine(kept, ranges, line, total, lastWanted, all);
      visited := visited + [line];
      total := total + 1;
      if breakAt == |rest| { break; }
      rest := rest[breakAt + 1..];
    }
    KeptAll(kept, ranges, all);
  }

  lemma NoLineLeft(rest: string, all: seq<string>, total: nat)
    requires total <= |all| && LinesOf(rest, true) == all[total..] && FirstLF(rest) == |rest|
    ensures total == |all| && all[..total] == all
  {
    assert |all[total..]| == |all| - total;
  }

  /** The next line of the suffix is the next line of the file, and the suffix's end is the file's. */
  lemma NextLine(rest: string, sentinel: bool, all: seq<string>, total: nat)
    requires total <= |all| && LinesOf(rest, sentinel) == all[total..]
    requires !(FirstLF(rest) == |rest| && sentinel)
    ensures total < |all| && all[total] == rest[..FirstLF(rest)] && all[..total] + [all[total]] == all[..total + 1]
    ensures if FirstLF(rest) == |rest| then total + 1 == |all|
            else LinesOf(rest[FirstLF(rest) + 1..], sentinel) == all[total + 1..]
  {
    HeadLine(rest, sentinel);
    var after := if FirstLF(rest) == |rest| then [] else LinesOf(rest[FirstLF(rest) + 1..], sentinel);
    OneMore(rest[..FirstLF(rest)], after, all, total);
    hide LinesOf, FirstLF;
  }

  lemma HeadLine(rest: string, sentinel: bool)
    requires !(FirstLF(rest) == |rest| && sentinel)
    ensures LinesOf(rest, sentinel)
         == [rest[..FirstLF(rest)]]
            + (if FirstLF(rest) == |rest| then [] else LinesOf(rest[FirstLF(rest) + 1..], sentinel))
  {
    assert rest[..|rest|] == rest;
  }

  lemma OneMore(line: string, after: seq<string>, all: seq<string>, total: nat)
    requires total <= |all| && all[total..] == [line] + after
    ensures total < |all| && all[total] == line && all[total + 1..] == after
    ensures all[..total] + [line] == all[..total + 1]
  {
    assert all[total..][0] == all[total] && all[total..][1..] == all[total + 1..];
  }

  method LastWanted(ranges: seq<Span>) returns (last: int)
    ensures forall k :: 0 <= k < |ranges| ==> ranges[k].end - 1 <= last
  {
    last := -1;
    for i := 0 to |ranges|
      invariant forall k :: 0 <= k < i ==> ranges[k].end - 1 <= last
    {
      if ranges[i].end - 1 > last { last := ranges[i].end - 1; }
    }
  }

  /** The inner loop: the current line joins every range that asks for its index. */
  method PushLine(before: seq<seq<string>>, ranges: seq<Span>, line: string, total: nat, lastWanted: int,
                  ghost all: seq<string>)
    returns (kept: seq<seq<string>>)
    requires KeptSoFar(before, ranges, all, total) && total < |all| && all[total] == line
    requires forall k :: 0 <= k < |ranges| ==> ranges[k].end - 1 <= lastWanted
    ensures KeptSoFar(kept, ranges, all, total + 1)
  {
    kept := before;
    assert all[total..][0] == line && all[total..][1..] == all[total + 1..];
    if total > lastWanted { return; }
    for k := 0 to |ranges|
      invariant |kept| == |ranges|
      invariant forall j :: k <= j < |ranges| ==> kept[j] == before[j]
      invariant forall j :: 0 <= j < k ==>
                  KeepFrom(kept[j], ranges[j], all[total + 1..], total + 1) == KeepFrom([], ranges[j], all, 0)
    {
      if ranges[k].start <= total < ranges[k].end {
        kept := kept[k := kept[k] + [line]];
      }
    }
  }

  /** The lines a read can address: the empty text has one line and shows none. */
  function VisibleLineTotal(text: string, total: nat): nat
  {
    if text == "" then 0 else total
  }

  // ----- merging requests

  /** Empty requests are dropped, a negative start reads like 0. */
  function Clamped(ranges: seq<Span>): seq<Span>
  {
    if ranges == [] then []
    else (if ranges[0].end > ranges[0].start
          then [Span(if ranges[0].start < 0 then 0 else ranges[0].start, ranges[0].end)] else [])
         + Clamped(ranges[1..])
  }

  function MergedRanges(ranges: seq<Span>): seq<Span>
  {
    Merge(Clamped(ranges))
  }

  method MergeRanges(ranges: seq<Span>) returns (merged: seq<Span>)
    ensures merged == MergedRanges(ranges)
  {
    var sorted := Sort(Clamped(ranges));
    merged := [];
    for i := 0 to |sorted|
      invariant MergeFrom(merged, sorted[i..]) == MergedRanges(ranges)
    {
      var range := sorted[i];
      assert sorted[i..][1..] == sorted[i + 1..];
      if merged != [] && range.start <= merged[|merged| - 1].end {
        if range.end > merged[|merged| - 1].end {
          merged := merged[|merged| - 1 := Span(merged[|merged| - 1].start, range.end)];
        }
      } else {
        merged := merged + [Span(range.start, range.end)];
      }
    }
  }

  predicate IsClamped(r: Span, x: Span)
  {
    r.start < r.end && x == Span(if r.start < 0 then 0 else r.start, r.end)
  }

  lemma {:induction false} ClampedShape(ranges: seq<Span>, x: Span)
    ensures x in Clamped(ranges) <==> exists i :: 0 <= i < |ranges| && IsClamped(ranges[i], x)
  {
    if ranges != [] {
      ClampedShape(ranges[1..], x);
      if i :| 0 <= i < |ranges| && IsClamped(ranges[i], x) {
        assert i > 0 ==> ranges[1..][i - 1] == ranges[i];
      }
      if x in Clamped(ranges[1..]) {
        var i :| 0 <= i < |ranges[1..]| && IsClamped(ranges[1..][i], x);
        assert ranges[i + 1] == ranges[1..][i];
      }
    }
  }

  /** The merge covers exactly the line indexes the requests cover. */
  lemma MergedRangesCover(ranges: seq<Span>, p: int)
    ensures Covers(MergedRanges(ranges), p) <==> p >= 0 && Covers(ranges, p)
  {
    MergeIsUnion(Clamped(ranges), p);
    if p >= 0 && Covers(ranges, p) {
      var i :| 0 <= i < |ranges| && ranges[i].start <= p < ranges[i].end;
      var x := Span(if ranges[i].start < 0 then 0 else ranges[i].start, ranges[i].end);
      ClampedShape(ranges, x);
      assert IsClamped(ranges[i], x) && x in Clamped(ranges);
    }
    if Covers(Clamped(ranges), p) {
      var j :| 0 <= j < |Clamped(ranges)| && Clamped(ranges)[j].start <= p < Clamped(ranges)[j].end;
      ClampedShape(ranges, Clamped(ranges)[j]);
    }
  }

  lemma MergedRangesNonNegative(ranges: seq<Span>)
    requires forall i :: 0 <= i < |ranges| ==> ranges[i].start >= 0
    ensures Separated(MergedRanges(ranges))
    ensures forall i :: 0 <= i < |MergedRanges(ranges)| ==> MergedRanges(ranges)[i].start >= 0
  {
    var c, m := Clamped(ranges), MergedRanges(ranges);
    forall j | 0 <= j < |c|
      ensures c[j].start < c[j].end
    {
      ClampedShape(ranges, c[j]);
    }
    MergeOfNonEmptySeparates(c);
    forall i | 0 <= i < |m|
      ensures m[i].start >= 0
    {
      assert m[i].start <= m[i].start < m[i].end;
      assert Covers(m, m[i].start);
      MergedRangesCover(ranges, m[i].start);
    }
  }

  // ----- when the merge is disjoint and non-empty

  lemma {:induction false} EmptyHeadStays(merged: seq<Span>, sorted: seq<Span>)
    requires merged != [] && merged[0].end < 0
    requires forall i :: 0 <= i < |sorted| ==> sorted[i].start >= 0
    ensures MergeFrom(merged, sorted) != [] && MergeFrom(merged, sorted)[0] == merged[0]
    decreases |sorted|
  {
    if sorted != [] { EmptyHeadStays(Absorb(merged, sorted[0]), sorted[1..]); }
  }

  /** A pending `[0, 0)` is absorbed by the first span that covers line 0, and stays empty without one. */
  lemma {:induction false} ZeroHeadMerges(sorted: seq<Span>)
    requires Sorted(sorted)
    requires forall i :: 0 <= i < |sorted| ==>
               sorted[i].start >= 0 && (sorted[i].start < sorted[i].end || sorted[i] == Span(0, 0))
    ensures Separated(MergeFrom([Span(0, 0)], sorted)) <==> HasLineZero(sorted)
    decreases |sorted|
  {
    if sorted == [] {
      assert MergeFrom([Span(0, 0)], sorted)[0] == Span(0, 0);
    } else if sorted[0] == Span(0, 0) {
      ZeroHeadMerges(sorted[1..]);
      if i :| 0 <= i < |sorted| && sorted[i].start == 0 < sorted[i].end {
        assert sorted[1..][i - 1] == sorted[i];
      }
      if i :| 0 <= i < |sorted[1..]| && sorted[1..][i].start == 0 < sorted[1..][i].end {
        assert sorted[i + 1] == sorted[1..][i];
      }
    } else if sorted[0].start == 0 {
      SortedAfter(sorted, 0);
      assert Absorb([Span(0, 0)], sorted[0]) == [Span(0, sorted[0].end)];
      MergeSeparates([Span(0, sorted[0].end)], sorted[1..]);
    } else {
      SortedAfter(sorted, 0);
      assert Absorb([Span(0, 0)], sorted[0]) == [Span(0, 0), sorted[0]];
      ZeroHeadStays([Span(0, 0), sorted[0]], sorted[1..]);
    }
  }

  lemma {:induction false} ZeroHeadStays(merged: seq<Span>, sorted: seq<Span>)
    requires |merged| >= 2
    ensures MergeFrom(merged, sorted) != [] && MergeFrom(merged, sorted)[0] == merged[0]
    decreases |sorted|
  {
    if sorted != [] { ZeroHeadStays(Absorb(merged, sorted[0]), sorted[1..]); }
  }

  lemma {:induction false} SortedAfter(sorted: seq<Span>, i: nat)
    requires Sorted(sorted) && i < |sorted|
    ensures forall j :: i <= j < |sorted| ==> Before(sorted[i], sorted[j])
    decreases |sorted|
  {
    if i > 0 {
      SortedAfter(sorted[1..], i - 1);
      assert forall j :: 1 <= j < |sorted| ==> sorted[j] == sorted[1..][j - 1];
    } else if |sorted| > 1 {
      SortedAfter(sorted[1..], 0);
      assert forall j :: 1 <= j < |sorted| ==> sorted[j] == sorted[1..][j - 1];
    }
  }

  ghost predicate EndsBelowZero(ranges: seq<Span>)
  {
    exists i :: 0 <= i < |ranges| && ranges[i].start < ranges[i].end < 0
  }

  ghost predicate EndsAtZero(ranges: seq<Span>)
  {
    exists i :: 0 <= i < |ranges| && ranges[i].start < ranges[i].end == 0
  }

  ghost predicate AsksForLineZero(ranges: seq<Span>)
  {
    exists i :: 0 <= i < |ranges| && ranges[i].start <= 0 < ranges[i].end
  }

  /**
   * The merge is a list of disjoint non-empty ranges exactly when no request lies wholly below line
   * 0, except one that ends at 0 beside a request that asks for line 0. A request such as
   * `{ start: -5, end: -2 }` passes the emptiness filter and comes out as the empty range `[0, -2)`.
   */
  lemma MergedSeparatedExactlyWhen(ranges: seq<Span>)
    ensures Separated(MergedRanges(ranges)) <==>
              !EndsBelowZero(ranges) && (EndsAtZero(ranges) ==> AsksForLineZero(ranges))
  {
    var c := Clamped(ranges);
    var sorted := Sort(c);
    SortSorts(c);
    forall x
      ensures x in sorted <==> exists i :: 0 <= i < |ranges| && IsClamped(ranges[i], x)
    {
      ClampedShape(ranges, x);
      assert x in sorted <==> x in multiset(sorted);
      assert x in c <==> x in multiset(c);
    }
    SortedClasses(ranges, sorted);
    if sorted != [] { HeadDecides(sorted); }
  }

  /** Clamped requests: non-empty from line 0 on, or an empty leftover at 0. */
  ghost predicate AllClamped(s: seq<Span>)
  {
    forall i :: 0 <= i < |s| ==> s[i].start >= 0 && (s[i].start < s[i].end || (s[i].start == 0 && s[i].end <= 0))
  }

  ghost predicate HasLineZero(s: seq<Span>)
  {
    exists i :: 0 <= i < |s| && s[i].start == 0 < s[i].end
  }

  lemma TailFacts(sorted: seq<Span>)
    requires sorted != [] && Sorted(sorted) && AllClamped(sorted)
    ensures Sorted(sorted[1..]) && AllClamped(sorted[1..])
    ensures forall i :: 0 <= i < |sorted[1..]| ==> Before(sorted[0], sorted[1..][i])
    ensures MergeFrom([], sorted) == MergeFrom([sorted[0]], sorted[1..])
    ensures sorted[0].end <= 0 ==> (HasLineZero(sorted) <==> HasLineZero(sorted[1..]))
  {
    SortedAfter(sorted, 0);
    assert [] + [sorted[0]] == [sorted[0]];
    assert forall i :: 0 <= i < |sorted[1..]| ==> sorted[1..][i] == sorted[i + 1];
    if i :| 0 < i < |sorted| && sorted[i].start == 0 < sorted[i].end { assert sorted[1..][i - 1] == sorted[i]; }
  }

  lemma HeadDecides(sorted: seq<Span>)
    requires sorted != [] && Sorted(sorted) && AllClamped(sorted)
    ensures Separated(MergeFrom([], sorted)) <==>
              sorted[0].end >= 0 && (sorted[0] == Span(0, 0) ==> HasLineZero(sorted))
  {
    TailFacts(sorted);
    if sorted[0].end < 0 {
      EmptyHeadStays([sorted[0]], sorted[1..]);
    } else if sorted[0] == Span(0, 0) {
      ZeroHeadMerges(sorted[1..]);
    } else {
      MergeSeparates([sorted[0]], sorted[1..]);
    }
  }

  /** What the sorted, clamped requests look like, read off the requests. */
  lemma SortedClasses(ranges: seq<Span>, sorted: seq<Span>)
    requires Sorted(sorted)
    requires forall x :: x in sorted <==> exists i :: 0 <= i < |ranges| && IsClamped(ranges[i], x)
    ensures AllClamped(sorted)
    ensures EndsBelowZero(ranges) <==> sorted != [] && sorted[0].end < 0
    ensures !EndsBelowZero(ranges) ==> (EndsAtZero(ranges) <==> sorted != [] && sorted[0] == Span(0, 0))
    ensures AsksForLineZero(ranges) <==> HasLineZero(sorted)
  {
    if k :| 0 <= k < |sorted| && sorted[k].start == 0 < sorted[k].end { assert sorted[k] in sorted; }
    forall i | 0 <= i < |sorted|
      ensures sorted[i].start >= 0 && (sorted[i].start < sorted[i].end || (sorted[i].start == 0 && sorted[i].end <= 0))
    {
      assert sorted[i] in sorted;
    }
    if sorted != [] {
      SortedAfter(sorted, 0);
      assert sorted[0] in sorted;
    }
    forall i | 0 <= i < |ranges| && ranges[i].start < ranges[i].end
      ensures exists k :: 0 <= k < |sorted| && IsClamped(ranges[i], sorted[k])
    {
      var x := Span(if ranges[i].start < 0 then 0 else ranges[i].start, ranges[i].end);
      assert IsClamped(ranges[i], x);
      assert x in sorted;
    }
  }

  /** `{ start: -5, end: -2 }` is not dropped. */
  lemma NegativeRangeSurvives()
    ensures MergedRanges([Span(-5, -2)]) == [Span(0, -2)]
  {
  }

  // ----- the split is the inverse of joining

  /** `lines.join("\n")` */
  function Join(lines: seq<string>): string
  {
    if lines == [] then "" else if |lines| == 1 then lines[0] else lines[0] + "\n" + Join(lines[1..])
  }

  lemma {:induction false} SplitJoins(s: string)
    ensures Join(Split(s)) == s
    decreases |s|
  {
    var i := FirstLF(s);
    if i < |s| {
      SplitJoins(s[i + 1..]);
      JoinHead(s[..i], Split(s[i + 1..]));
      assert s == s[..i] + "\n" + s[i + 1..];
    } else {
      assert s[..i] == s;
    }
  }

  lemma JoinHead(line: string, rest: seq<string>)
    requires rest != []
    ensures Join([line] + rest) == line + "\n" + Join(rest)
  {
    assert ([line] + rest)[1..] == rest;
  }

  lemma {:induction false} SplitHasNoBreak(s: string)
    ensures forall line :: line in Split(s) ==> '\n' !in line
    ensures EndsWithLF(s) ==> |Split(s)| > 1 && Split(s)[|Split(s)| - 1] == ""
    decreases |s|
  {
    var i := FirstLF(s);
    if i < |s| {
      SplitHasNoBreak(s[i + 1..]);
      hide Split;
      assert i + 1 < |s| ==> s[i + 1..][|s| - i - 2] == s[|s| - 1];
    } else {
      assert s[..i] == s;
    }
  }

  lemma {:induction false} JoinWithoutLast(lines: seq<string>)
    requires |lines| > 1 && lines[|lines| - 1] == ""
    ensures Join(lines) == Join(lines[..|lines| - 1]) + "\n"
  {
    var init := lines[..|lines| - 1];
    if |lines| == 2 {
      assert lines[1..] == [""] && lines[0] + "\n" + "" == lines[0] + "\n";
    } else {
      JoinWithoutLast(lines[1..]);
      assert init[1..] == lines[1..][..|lines[1..]| - 1];
    }
  }

  /** The lines joined again are the text, up to the newline that ends it, and no line contains one. */
  lemma SplitLinesJoin(text: string)
    ensures text == "" ==> SplitLines(text) == [""]
    ensures text != "" ==> Join(SplitLines(text)) + (if EndsWithLF(text) then "\n" else "") == text
    ensures forall line :: line in SplitLines(text) ==> '\n' !in line
  {
    SplitJoins(text);
    SplitHasNoBreak(text);
    if EndsWithLF(text) { JoinWithoutLast(Split(text)); }
  }
}
