/** The print ranges of one `sed -n -e … -e …` stage, merged into slice ops, and what folding them prints. */
module SedRanges {

  import opened SliceOps
  import opened Spans

  /** One `from,to p` program: 1-indexed and inclusive. The parser refuses reversed ranges. */
  datatype Print = Print(from: nat, to: nat)

  function SpanOf(r: Print): Span
  {
    Span(r.from, r.to + 1)
  }

  function SpansOf(ranges: seq<Print>): (s: seq<Span>)
    ensures |s| == |ranges|
    ensures forall k :: 0 <= k < |s| ==> s[k] == SpanOf(ranges[k])
  {
    if ranges == [] then [] else [SpanOf(ranges[0])] + SpansOf(ranges[1..])
  }

  function OpOf(s: Span): SliceOp
  {
    Range(s.start, s.end - 1)
  }

  function OpsOf(merged: seq<Span>): (ops: seq<SliceOp>)
    ensures |ops| == |merged|
    ensures forall k :: 0 <= k < |ops| ==> ops[k] == OpOf(merged[k])
  {
    if merged == [] then [] else OpsOf(merged[..|merged| - 1]) + [OpOf(merged[|merged| - 1])]
  }

  lemma SameOps(ops: seq<SliceOp>, merged: seq<Span>)
    requires |ops| == |merged| && forall k :: 0 <= k < |ops| ==> ops[k] == OpOf(merged[k])
    ensures ops == OpsOf(merged)
  {
  }

  lemma MergeStep(merged: seq<Span>, sorted: seq<Span>, i: nat)
    requires i < |sorted|
    ensures MergeFrom(merged, sorted[i..]) == MergeFrom(Absorb(merged, sorted[i]), sorted[i + 1..])
  {
    assert sorted[i..][1..] == sorted[i + 1..];
  }

  /** Sort, then extend the last op or push a new one. */
  method MergeRangeOps(ranges: seq<Print>) returns (ops: seq<SliceOp>)
    ensures ops == OpsOf(Merge(SpansOf(ranges)))
  {
    var sorted := Sort(SpansOf(ranges));
    ops := [];
    ghost var merged, whole := [], Merge(SpansOf(ranges));
    assert MergeFrom(merged, sorted[0..]) == whole by { assert sorted[0..] == sorted; }
    for i := 0 to |sorted|
      invariant ops == OpsOf(merged)
      invariant MergeFrom(merged, sorted[i..]) == whole
    {
      hide Merge, MergeFrom, Sort, SpansOf;
      var from, to := sorted[i].start, sorted[i].end - 1;
      MergeStep(merged, sorted, i);
      merged := Absorb(merged, sorted[i]);
      if ops != [] && ops[|ops| - 1].Range? && from <= ops[|ops| - 1].to + 1 {
        if to > ops[|ops| - 1].to {
          ops := ops[|ops| - 1 := Range(ops[|ops| - 1].from, to)];
        }
      } else {
        ops := ops + [Range(from, to)];
      }
      SameOps(ops, merged);
    }
  }

  /** The lines of `lo..lineCount` that some range names, in file order: what `sed -n` prints. */
  ghost function PrintedLines(spans: seq<Span>, lo: int, lineCount: int): (s: seq<int>)
    decreases lineCount - lo
  {
    if lo > lineCount then []
    else (if Covers(spans, lo) then [lo] else []) + PrintedLines(spans, lo + 1, lineCount)
  }

  /** Some range names the line. */
  ghost predicate Named(ranges: seq<Print>, p: int)
  {
    exists k :: 0 <= k < |ranges| && ranges[k].from <= p <= ranges[k].to
  }

  lemma SpansCoverNamed(ranges: seq<Print>, p: int)
    ensures Covers(SpansOf(ranges), p) <==> Named(ranges, p)
  {
    var spans := SpansOf(ranges);
    if Covers(spans, p) {
      var k :| 0 <= k < |spans| && spans[k].start <= p < spans[k].end;
      assert ranges[k].from <= p <= ranges[k].to;
    }
    if Named(ranges, p) {
      var k :| 0 <= k < |ranges| && ranges[k].from <= p <= ranges[k].to;
      assert spans[k].start <= p < spans[k].end;
    }
  }

  /** The merged ops name the same lines as the ranges, whatever their order and overlap. */
  lemma MergedOpsNameTheSame(ranges: seq<Print>, p: int)
    ensures var ops := OpsOf(Merge(SpansOf(ranges)));
            Named(ranges, p) <==> exists k :: 0 <= k < |ops| && ops[k].from <= p <= ops[k].to
  {
    var merged := Merge(SpansOf(ranges));
    var ops := OpsOf(merged);
    MergeIsUnion(SpansOf(ranges), p);
    SpansCoverNamed(ranges, p);
    hide Merge, SpansOf;
    if Covers(merged, p) {
      var k :| 0 <= k < |merged| && merged[k].start <= p < merged[k].end;
      assert ops[k].from <= p <= ops[k].to;
    }
    if k :| 0 <= k < |ops| && ops[k].from <= p <= ops[k].to {
      assert merged[k].start <= p < merged[k].end;
    }
  }

  lemma {:induction false} PrintedLinesFrom(spans: seq<Span>, lo: int, lineCount: int)
    ensures var s := PrintedLines(spans, lo, lineCount);
            && (forall p :: p in s <==> lo <= p <= lineCount && Covers(spans, p))
            && (forall j, k :: 0 <= j < k < |s| ==> s[j] < s[k])
    decreases lineCount - lo
  {
    hide Covers;
    if lo <= lineCount {
      PrintedLinesFrom(spans, lo + 1, lineCount);
      var rest := PrintedLines(spans, lo + 1, lineCount);
      forall k | 0 <= k < |rest| ensures rest[k] > lo {
        assert rest[k] in rest;
      }
    }
  }

  /** What `sed -n` prints: the lines of the file that some range names, each once and in file order. */
  lemma PrintedAreNamed(ranges: seq<Print>, lineCount: nat)
    ensures var s := PrintedLines(SpansOf(ranges), 1, lineCount);
            && (forall p :: p in s <==> 1 <= p <= lineCount && Named(ranges, p))
            && (forall j, k :: 0 <= j < k < |s| ==> s[j] < s[k])
  {
    hide Covers, Named, PrintedLines, SpansOf;
    PrintedLinesFrom(SpansOf(ranges), 1, lineCount);
    forall p ensures Covers(SpansOf(ranges), p) <==> Named(ranges, p) {
      SpansCoverNamed(ranges, p);
    }
  }

  lemma {:induction false} PrintedEmpty(spans: seq<Span>, lo: int, lineCount: int)
    ensures PrintedLines(spans, lo, lineCount) == [] <==> forall p :: lo <= p <= lineCount ==> !Covers(spans, p)
    decreases lineCount - lo
  {
    if lo <= lineCount { PrintedEmpty(spans, lo + 1, lineCount); }
  }

  lemma {:induction false} PrintedInterval(spans: seq<Span>, from: int, to: int, lo: int, lineCount: int)
    requires forall p :: Covers(spans, p) <==> from <= p <= to
    ensures PrintedLines(spans, lo, lineCount)
         == Count(if lo >= from then lo else from, if lineCount <= to then lineCount else to)
    decreases lineCount - lo
  {
    if lo <= lineCount {
      PrintedInterval(spans, from, to, lo + 1, lineCount);
      assert Covers(spans, lo) <==> from <= lo <= to;
      var last := if lineCount <= to then lineCount else to;
      assert from <= lo <= to ==> Count(lo, last) == [lo] + Count(lo + 1, last);
    }
  }

  lemma {:induction false} MergedSome(merged: seq<Span>, sorted: seq<Span>)
    requires merged != [] || sorted != []
    ensures MergeFrom(merged, sorted) != []
    decreases |sorted|
  {
    if sorted != [] { MergedSome(Absorb(merged, sorted[0]), sorted[1..]); }
  }

  lemma MergedShape(spans: seq<Span>)
    requires spans != [] && forall k :: 0 <= k < |spans| ==> spans[k].start < spans[k].end
    ensures Merge(spans) != [] && Separated(Merge(spans))
    ensures forall p :: Covers(Merge(spans), p) <==> Covers(spans, p)
  {
    MergedSome([], Sort(spans));
    MergeOfNonEmptySeparates(spans);
    forall p
      ensures Covers(Merge(spans), p) <==> Covers(spans, p)
    {
      MergeIsUnion(spans, p);
    }
  }

  /** Ops past the first see only what the first kept, so a second range never finds a line. */
  lemma SecondRangeFindsNothing(ops: seq<SliceOp>, merged: seq<Span>, lineCount: nat)
    requires Separated(merged) && ops == OpsOf(merged) && merged != []
    requires |merged| >= 2 || merged[0].start < 1 || merged[0].start > lineCount
    ensures FoldSlices(ops, Count(1, lineCount)) == []
  {
    var first := Slice(ops[0], Count(1, lineCount));
    FoldEmpty<int>(ops[1..]);
    if 1 <= merged[0].start <= lineCount {
      assert |first| <= merged[0].end - 1;
      assert ops[1..][0] == OpOf(merged[1]);
      assert Slice(ops[1], first) == [];
      FoldEmpty<int>(ops[1..][1..]);
    } else {
      assert first == [];
    }
  }

  lemma CountCut(from: int, to: int, lineCount: nat)
    requires 1 <= from <= to
    ensures Count(1, lineCount)[Clamp(from - 1, lineCount)..Clamp(to, lineCount)]
         == Count(from, if lineCount <= to then lineCount else to)
  {
    hide Count;
    var cut := Count(1, lineCount)[Clamp(from - 1, lineCount)..Clamp(to, lineCount)];
    var lines := Count(from, if lineCount <= to then lineCount else to);
    assert |cut| == |lines|;
    forall k | 0 <= k < |cut| ensures cut[k] == lines[k] {
      assert cut[k] == Count(1, lineCount)[Clamp(from - 1, lineCount) + k];
    }
  }

  lemma OneRangeFoldsToItsLines(r: Span, lineCount: nat)
    requires 1 <= r.start < r.end
    ensures FoldSlices([OpOf(r)], Count(1, lineCount))
         == Count(r.start, if lineCount <= r.end - 1 then lineCount else r.end - 1)
  {
    FoldOne(OpOf(r), Count(1, lineCount));
    CountCut(r.start, r.end - 1, lineCount);
    hide FoldSlices, Count;
  }

  /**
   * The fold prints the union of the ranges exactly when the merge left one range that starts at
   * line 1 or later, or when no merged range meets the file at all. With two ranges left, or a range
   * from line 0, the stage selects nothing although some requested line exists.
   */
  lemma FoldPrintsUnionExactlyWhen(ranges: seq<Print>, lineCount: nat)
    requires ranges != [] && forall k :: 0 <= k < |ranges| ==> ranges[k].from <= ranges[k].to
    ensures
      var ops := OpsOf(Merge(SpansOf(ranges)));
      FoldSlices(ops, Count(1, lineCount)) == PrintedLines(SpansOf(ranges), 1, lineCount)
      <==>
      || (|ops| == 1 && ops[0].from >= 1)
      || lineCount == 0
      || forall k :: 0 <= k < |ops| ==> ops[k].from > lineCount || ops[k].to < 1
  {
    var spans := SpansOf(ranges);
    MergedShape(spans);
    MergedFolds(spans, Merge(spans), lineCount);
  }

  lemma MergedFolds(spans: seq<Span>, merged: seq<Span>, lineCount: nat)
    requires merged != [] && Separated(merged) && forall p :: Covers(merged, p) <==> Covers(spans, p)
    ensures
      var ops := OpsOf(merged);
      FoldSlices(ops, Count(1, lineCount)) == PrintedLines(spans, 1, lineCount)
      <==>
      || (|ops| == 1 && ops[0].from >= 1)
      || lineCount == 0
      || forall k :: 0 <= k < |ops| ==> ops[k].from > lineCount || ops[k].to < 1
  {
    if |merged| == 1 && merged[0].start >= 1 {
      SingleRangePrints(spans, merged, lineCount);
    } else {
      SecondRangeFindsNothing(OpsOf(merged), merged, lineCount);
      NothingPrintedWhen(spans, merged, lineCount);
    }
  }

  lemma SingleRangePrints(spans: seq<Span>, merged: seq<Span>, lineCount: nat)
    requires |merged| == 1 && Separated(merged) && merged[0].start >= 1
             && forall p :: Covers(merged, p) <==> Covers(spans, p)
    ensures FoldSlices(OpsOf(merged), Count(1, lineCount)) == PrintedLines(spans, 1, lineCount)
  {
    var only := merged[0];
    OneRangeFoldsToItsLines(only, lineCount);
    OneSpanCovers(merged);
    PrintedInterval(spans, only.start, only.end - 1, 1, lineCount);
    assert OpsOf(merged) == [OpOf(only)];
  }

  lemma OneSpanCovers(merged: seq<Span>)
    requires |merged| == 1
    ensures forall p :: Covers(merged, p) <==> merged[0].start <= p < merged[0].end
  {
  }

  lemma NothingPrintedWhen(spans: seq<Span>, merged: seq<Span>, lineCount: nat)
    requires Separated(merged) && forall p :: Covers(merged, p) <==> Covers(spans, p)
    ensures var ops := OpsOf(merged);
            PrintedLines(spans, 1, lineCount) == []
            <==> lineCount == 0 || forall k :: 0 <= k < |ops| ==> ops[k].from > lineCount || ops[k].to < 1
  {
    PrintedEmpty(spans, 1, lineCount);
    var ops := OpsOf(merged);
    if PrintedLines(spans, 1, lineCount) != [] {
      var p :| 1 <= p <= lineCount && Covers(spans, p);
      assert Covers(merged, p);
      var k :| 0 <= k < |merged| && merged[k].start <= p < merged[k].end;
      assert ops[k] == OpOf(merged[k]);
    } else if lineCount > 0 {
      SomethingPrinted(merged, lineCount);
      forall k | 0 <= k < |ops|
        ensures ops[k].from > lineCount || ops[k].to < 1
      {
        assert ops[k] == OpOf(merged[k]);
      }
    }
  }

  lemma SomethingPrinted(merged: seq<Span>, lineCount: nat)
    requires Separated(merged) && lineCount > 0
    ensures (exists p :: 1 <= p <= lineCount && Covers(merged, p))
            <==> exists k :: 0 <= k < |merged| && merged[k].start <= lineCount && merged[k].end > 1
  {
    if k :| 0 <= k < |merged| && merged[k].start <= lineCount && merged[k].end > 1 {
      var p := if merged[k].start >= 1 then merged[k].start else 1;
      assert merged[k].start <= p < merged[k].end;
      assert Covers(merged, p);
    }
  }

  /** `sed -n -e 1,2p -e 5,6p` on a six-line file: four lines are asked for, the fold keeps none. */
  lemma TwoRangesFoldToNothing()
    ensures
      var ranges := [Print(1, 2), Print(5, 6)];
      FoldSlices(OpsOf(Merge(SpansOf(ranges))), Count(1, 6)) != PrintedLines(SpansOf(ranges), 1, 6)
  {
    var ranges := [Print(1, 2), Print(5, 6)];
    var spans := SpansOf(ranges);
    assert spans == [Span(1, 3), Span(5, 7)];
    assert Sort(spans) == spans by {
      assert Sort(spans[1..]) == Insert(Sort(spans[1..][1..]), Span(5, 7)) == [Span(5, 7)];
    }
    assert MergeFrom([], spans) == MergeFrom([Span(1, 3)], spans[1..]) by { assert [] + [Span(1, 3)] == [Span(1, 3)]; }
    assert MergeFrom([Span(1, 3)], spans[1..]) == MergeFrom([Span(1, 3), Span(5, 7)], spans[1..][1..]);
    assert Merge(spans) == [Span(1, 3), Span(5, 7)];
    var ops := OpsOf(Merge(spans));
    assert ops[0] == Range(1, 2);
    FoldPrintsUnionExactlyWhen(ranges, 6);
  }
}
