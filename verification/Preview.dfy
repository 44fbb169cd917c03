/** A multi-window read: one walk over the merged requests, re-sliced per window, with page-aligned anchors. */
module Preview {

  import opened Spans
  import LW = LineWalker

  datatype ReadWindow = ReadWindow(offset: nat, limit: nat)

  /** One committed line as a ranged anchor source returns it. */
  datatype AnchorLine = AnchorLine(anchor: string, canonHash: string)

  datatype Result<T> = Ok(value: T) | Mismatch

  /** `lines.slice(from, to)` for a non-negative `from`. */
  function JsSlice<T>(lines: seq<T>, from: nat, to: int): seq<T>
  {
    var hi := LW.Bound(to, |lines|);
    if hi <= from then [] else lines[from..hi]
  }

  /** The loop's form: pieces left of the window are skipped, the first one right of it ends the scan. */
  function SliceFrom<T>(acc: seq<T>, merged: seq<Span>, pieces: seq<seq<T>>, start: int, end: int): seq<T>
    requires |pieces| == |merged|
    decreases |merged|
  {
    if merged == [] then acc
    else if merged[0].end <= start then SliceFrom(acc, merged[1..], pieces[1..], start, end)
    else if merged[0].start >= end then acc
    else SliceFrom(acc + PieceSlice(merged[0], pieces[0], start, end), merged[1..], pieces[1..], start, end)
  }

  function PieceSlice<T>(piece: Span, lines: seq<T>, start: int, end: int): seq<T>
  {
    var from := (if start >= piece.start then start else piece.start) - piece.start;
    var to := (if end <= piece.end then end else piece.end) - piece.start;
    JsSlice(lines, from, to)
  }

  method SliceMergedRanges<T>(merged: seq<Span>, pieces: seq<seq<T>>, start: int, end: int) returns (lines: seq<T>)
    requires |pieces| == |merged|
    ensures lines == SliceFrom([], merged, pieces, start, end)
  {
    lines := [];
    for i := 0 to |merged|
      invariant SliceFrom(lines, merged[i..], pieces[i..], start, end) == SliceFrom([], merged, pieces, start, end)
    {
      var piece := merged[i];
      assert merged[i..][1..] == merged[i + 1..] && pieces[i..][1..] == pieces[i + 1..];
      if piece.end <= start { continue; }
      if piece.start >= end { break; }
      lines := lines + PieceSlice(piece, pieces[i], start, end);
    }
  }

  /** Disjoint ranges from line 0 on whose union is that of the requests. */
  ghost predicate CoverOf(merged: seq<Span>, requested: seq<Span>)
  {
    && Separated(merged)
    && (forall i :: 0 <= i < |merged| ==> merged[i].start >= 0)
    && (forall p :: Covers(merged, p) <==> Covers(requested, p))
  }

  lemma MergedIsCover(requested: seq<Span>)
    requires forall k :: 0 <= k < |requested| ==> requested[k].start >= 0
    ensures CoverOf(LW.MergedRanges(requested), requested)
  {
    LW.MergedRangesNonNegative(requested);
    forall p
      ensures Covers(LW.MergedRanges(requested), p) <==> Covers(requested, p)
    {
      LW.MergedRangesCover(requested, p);
    }
  }

  /** A non-empty request lies inside a single range of the cover. */
  lemma OnePieceHolds(merged: seq<Span>, requested: seq<Span>, r: Span) returns (i: nat)
    requires CoverOf(merged, requested) && r in requested && r.start < r.end
    ensures i < |merged| && 0 <= merged[i].start <= r.start && r.end <= merged[i].end
  {
    var n :| 0 <= n < |requested| && requested[n] == r;
    assert Covers(requested, r.start);
    assert Covers(merged, r.start);
    i :| 0 <= i < |merged| && merged[i].start <= r.start < merged[i].end;
    if merged[i].end < r.end {
      assert requested[n].start <= merged[i].end < requested[n].end;
      assert Covers(requested, merged[i].end);
      assert false;
    }
  }

  /** The re-slice of such a window is a slice of that one piece. */
  lemma {:induction false} SliceOfOnePiece<T>(acc: seq<T>, merged: seq<Span>, pieces: seq<seq<T>>, start: int, end: int,
                                              i: nat)
    requires |pieces| == |merged| && Separated(merged)
    requires i < |merged| && merged[i].start <= start < end <= merged[i].end
    ensures SliceFrom(acc, merged, pieces, start, end)
            == acc + JsSlice(pieces[i], start - merged[i].start, end - merged[i].start)
    decreases |merged|
  {
    if i > 0 {
      assert merged[0].end < merged[i].start;
      SliceOfOnePiece(acc, merged[1..], pieces[1..], start, end, i - 1);
    } else {
      var next := acc + PieceSlice(merged[0], pieces[0], start, end);
      assert |merged| > 1 ==> end <= merged[1].start;
      SliceEnds(next, merged[1..], pieces[1..], start, end);
    }
  }

  lemma SliceEnds<T>(acc: seq<T>, merged: seq<Span>, pieces: seq<seq<T>>, start: int, end: int)
    requires |pieces| == |merged| && start < end
    requires merged != [] ==> merged[0].start >= end && merged[0].end > start
    ensures SliceFrom(acc, merged, pieces, start, end) == acc
  {
  }

  lemma SliceInOnePiece<T>(merged: seq<Span>, pieces: seq<seq<T>>, start: int, end: int, i: nat)
    requires |pieces| == |merged| && Separated(merged)
    requires i < |merged| && merged[i].start <= start < end <= merged[i].end
    ensures SliceFrom([], merged, pieces, start, end)
            == JsSlice(pieces[i], start - merged[i].start, end - merged[i].start)
  {
    SliceOfOnePiece([], merged, pieces, start, end, i);
    var slice := JsSlice(pieces[i], start - merged[i].start, end - merged[i].start);
    assert [] + slice == slice;
  }

  lemma {:induction false} SliceOfEmptyWindow<T>(acc: seq<T>, merged: seq<Span>, pieces: seq<seq<T>>, start: int,
                                                 end: int)
    requires |pieces| == |merged| && end <= start
    ensures SliceFrom(acc, merged, pieces, start, end) == acc
    decreases |merged|
  {
    if merged != [] && merged[0].end > start && merged[0].start < end {
      assert PieceSlice(merged[0], pieces[0], start, end) == [];
      assert acc + [] == acc;
    }
    if merged != [] { SliceOfEmptyWindow(acc, merged[1..], pieces[1..], start, end); }
  }

  /** Re-slicing the walk of the cover gives a request its own lines, as if walked alone. */
  lemma ResliceIsWindow<T>(merged: seq<Span>, requested: seq<Span>, pieces: seq<seq<T>>, all: seq<T>, r: Span)
    requires CoverOf(merged, requested) && r in requested
    requires |pieces| == |merged|
    requires forall k :: 0 <= k < |pieces| ==> pieces[k] == LW.Window(merged[k], all)
    ensures SliceFrom([], merged, pieces, r.start, r.end) == LW.Window(r, all)
  {
    if r.end <= r.start {
      SliceOfEmptyWindow([], merged, pieces, r.start, r.end);
    } else {
      var i := OnePieceHolds(merged, requested, r);
      PieceIsWindow(merged, pieces, all, r, i);
    }
  }

  lemma PieceIsWindow<T>(merged: seq<Span>, pieces: seq<seq<T>>, all: seq<T>, r: Span, i: nat)
    requires |pieces| == |merged| && Separated(merged)
    requires i < |merged| && 0 <= merged[i].start <= r.start < r.end <= merged[i].end
    requires pieces[i] == LW.Window(merged[i], all)
    ensures SliceFrom([], merged, pieces, r.start, r.end) == LW.Window(r, all)
  {
    hide SliceFrom, JsSlice, LW.Window;
    SliceInOnePiece(merged, pieces, r.start, r.end, i);
    SliceOfWindow(all, merged[i], r);
  }

  lemma SliceOfWindow<T>(all: seq<T>, piece: Span, r: Span)
    requires 0 <= piece.start <= r.start < r.end <= piece.end
    ensures JsSlice(LW.Window(piece, all), r.start - piece.start, r.end - piece.start) == LW.Window(r, all)
  {
    if r.start < |all| {
      var stop := LW.Bound(piece.end, |all|);
      assert LW.Window(piece, all) == all[piece.start..stop];
      NestedSlice(all, piece.start, stop, r.start, r.end);
    } else {
      assert |LW.Window(piece, all)| <= |all| - LW.Bound(piece.start, |all|);
    }
  }

  lemma NestedSlice<T>(all: seq<T>, low: nat, high: nat, from: nat, to: nat)
    requires low <= from < high <= |all| && from < to && (to <= high || high == |all|)
    ensures JsSlice(all[low..high], from - low, to - low) == LW.Window(Span(from, to), all)
  {
    var stop := if to <= high then to else high;
    SliceOfSlice(all, low, high, from - low, stop - low);
  }

  lemma SliceOfSlice<T>(all: seq<T>, low: nat, high: nat, from: nat, to: nat)
    requires low <= high <= |all| && from <= to <= high - low
    ensures all[low..high][from..to] == all[low + from..low + to]
  {
    forall q | 0 <= q < to - from
      ensures all[low..high][from..to][q] == all[low + from..low + to][q]
    {
    }
  }

  function Requested(windows: seq<ReadWindow>, totalLines: nat): (r: seq<Span>)
    ensures |r| == |windows|
    ensures forall k :: 0 <= k < |r| ==> r[k] == RequestOf(windows[k], totalLines)
  {
    if windows == [] then [] else [RequestOf(windows[0], totalLines)] + Requested(windows[1..], totalLines)
  }

  function RequestOf(w: ReadWindow, totalLines: nat): Span
  {
    var end := w.offset - 1 + w.limit;
    Span(w.offset - 1, if end <= totalLines then end else totalLines)
  }

  function SpanOf(w: ReadWindow): Span
  {
    Span(w.offset - 1, w.offset - 1 + w.limit)
  }

  /** Section k is the k-th window's slice of the file's lines, cut off at the file's end. */
  ghost predicate ServesWindows(sections: seq<seq<string>>, windows: seq<ReadWindow>, lines: seq<string>)
  {
    && |sections| == |windows|
    && forall k :: 0 <= k < |windows| ==> sections[k] == LW.Window(SpanOf(windows[k]), lines)
  }

  lemma RequestsServe(sections: seq<seq<string>>, windows: seq<ReadWindow>, lines: seq<string>)
    requires |sections| == |windows|
    requires forall k :: 0 <= k < |windows| ==> windows[k].offset >= 1
    requires forall k :: 0 <= k < |windows| ==> sections[k] == LW.Window(Requested(windows, |lines|)[k], lines)
    ensures ServesWindows(sections, windows, lines)
  {
    forall k | 0 <= k < |windows|
      ensures LW.Window(Requested(windows, |lines|)[k], lines) == LW.Window(SpanOf(windows[k]), lines)
    {
      ClampKeepsWindow(windows[k], lines);
    }
  }

  lemma ClampKeepsWindow(w: ReadWindow, lines: seq<string>)
    requires w.offset >= 1
    ensures LW.Window(RequestOf(w, |lines|), lines) == LW.Window(SpanOf(w), lines)
  {
  }

  /** The windowed page: every window gets exactly its slice of the file's lines. */
  method ReadWindows(text: string, windows: seq<ReadWindow>) returns (sections: seq<seq<string>>, totalLines: nat)
    requires forall k :: 0 <= k < |windows| ==> windows[k].offset >= 1 && windows[k].limit >= 1
    ensures totalLines == if text == "" then 0 else |LW.SplitLines(text)|
    ensures text == "" ==> sections == []
    ensures text != "" ==> ServesWindows(sections, windows, LW.SplitLines(text))
  {
    var kept, visited, total := LW.WalkLines(text, []);
    totalLines := LW.VisibleLineTotal(text, total);
    sections := [];
    if totalLines == 0 { return; }
    var requested := Requested(windows, totalLines);
    var merged, pieces := WalkMerged(text, requested);
    sections := SliceWindows(merged, pieces, requested);
    SectionsAreWindows(sections, merged, requested, pieces, LW.SplitLines(text));
    RequestsServe(sections, windows, LW.SplitLines(text));
  }

  method WalkMerged(text: string, requested: seq<Span>) returns (merged: seq<Span>, pieces: seq<seq<string>>)
    requires forall k :: 0 <= k < |requested| ==> requested[k].start >= 0
    ensures CoverOf(merged, requested) && |pieces| == |merged|
    ensures forall k :: 0 <= k < |merged| ==> pieces[k] == LW.Window(merged[k], LW.SplitLines(text))
  {
    merged := LW.MergeRanges(requested);
    MergedIsCover(requested);
    var visited, total;
    pieces, visited, total := LW.WalkLines(text, merged);
  }

  /** One re-slice per request, in request order. */
  ghost predicate AreSections<T>(sections: seq<seq<T>>, merged: seq<Span>, pieces: seq<seq<T>>, requested: seq<Span>)
    requires |pieces| == |merged|
  {
    && |sections| == |requested|
    && forall k :: 0 <= k < |requested|
        ==> sections[k] == SliceFrom([], merged, pieces, requested[k].start, requested[k].end)
  }

  method SliceWindows<T>(merged: seq<Span>, pieces: seq<seq<T>>, requested: seq<Span>) returns (sections: seq<seq<T>>)
    requires |pieces| == |merged|
    ensures AreSections(sections, merged, pieces, requested)
  {
    sections := [];
    for k := 0 to |requested|
      invariant |sections| == k
      invariant forall j :: 0 <= j < k ==>
                  sections[j] == SliceFrom([], merged, pieces, requested[j].start, requested[j].end)
    {
      var section := SliceMergedRanges(merged, pieces, requested[k].start, requested[k].end);
      sections := sections + [section];
    }
  }

  /** All sections of a walk of the cover: each request gets its own lines, as if walked alone. */
  lemma SectionsAreWindows<T>(sections: seq<seq<T>>, merged: seq<Span>, requested: seq<Span>, pieces: seq<seq<T>>,
                              all: seq<T>)
    requires CoverOf(merged, requested) && |pieces| == |merged|
    requires forall k :: 0 <= k < |merged| ==> pieces[k] == LW.Window(merged[k], all)
    requires AreSections(sections, merged, pieces, requested)
    ensures forall k :: 0 <= k < |requested| ==> sections[k] == LW.Window(requested[k], all)
  {
    forall k | 0 <= k < |requested|
      ensures sections[k] == LW.Window(requested[k], all)
    {
      ResliceIsWindow(merged, requested, pieces, all, requested[k]);
    }
  }

  // ----- page-aligned anchors from a committed snapshot

  function Anchors(page: seq<AnchorLine>): (a: seq<string>)
    ensures |a| == |page| && forall o :: 0 <= o < |a| ==> a[o] == page[o].anchor
  {
    if page == [] then [] else [page[0].anchor] + Anchors(page[1..])
  }

  /** A committed page stands for the kept lines when each line still digests to its row's canon. */
  ghost predicate PageMatches(page: seq<AnchorLine>, lines: seq<string>, digest: string -> string)
  {
    |page| == |lines| && forall o :: 0 <= o < |lines| ==> digest(lines[o]) == page[o].canonHash
  }

  method PageHashes(before: seq<string>, page: seq<AnchorLine>, lines: seq<string>, digest: string -> string)
    returns (r: Result<seq<string>>)
    ensures r == if PageMatches(page, lines, digest) then Ok(before + Anchors(page)) else Mismatch
  {
    if |page| != |lines| { return Mismatch; }
    ghost var anchors := Anchors(page);
    var hashes := before;
    for o := 0 to |lines|
      invariant hashes == before + anchors[..o]
      invariant forall q :: 0 <= q < o ==> digest(lines[q]) == page[q].canonHash
    {
      if digest(lines[o]) != page[o].canonHash { return Mismatch; }
      hashes := hashes + [page[o].anchor];
      assert anchors[..o + 1] == anchors[..o] + [anchors[o]];
    }
    assert anchors[..|lines|] == anchors;
    return Ok(hashes);
  }

  /** The anchors of all pages end to end, or a mismatch at the first page that does not stand. */
  ghost function HashesFrom(acc: seq<string>, source: Span -> Result<seq<AnchorLine>>, ranges: seq<Span>,
                            kept: seq<seq<string>>, digest: string -> string): Result<seq<string>>
    requires |kept| == |ranges|
    decreases |ranges|
  {
    if ranges == [] then Ok(acc)
    else match source(ranges[0])
      case Mismatch => Mismatch
      case Ok(page) =>
        if PageMatches(page, kept[0], digest)
        then HashesFrom(acc + Anchors(page), source, ranges[1..], kept[1..], digest)
        else Mismatch
  }

  /** The committed row of the one line an empty file has. */
  ghost predicate EmptyFileRow(source: Span -> Result<seq<AnchorLine>>, digest: string -> string)
  {
    var page := source(Span(0, 1));
    page.Ok? && |page.value| == 1 && page.value[0].canonHash == digest("")
  }

  /**
   * The anchors of every page. An empty file keeps no line, yet has one to anchor: its page must be
   * the single row that digests the empty line, and that row's anchor is the answer.
   */
  method RangedPageHashes(source: Span -> Result<seq<AnchorLine>>, ranges: seq<Span>, kept: seq<seq<string>>,
                          empty: bool, digest: string -> string)
    returns (r: Result<seq<string>>)
    requires |kept| == |ranges|
    ensures !empty || ranges != [] ==> r == HashesFrom([], source, ranges, kept, digest)
    ensures empty && ranges == [] ==>
              r == if EmptyFileRow(source, digest) then Ok([source(Span(0, 1)).value[0].anchor]) else Mismatch
  {
    var marker := empty && ranges == [];
    r := AllPageHashes(source, if marker then [Span(0, 1)] else ranges, if marker then [[""]] else kept, digest);
    if marker { EmptyFilePage(source, digest); }
  }

  lemma EmptyFilePage(source: Span -> Result<seq<AnchorLine>>, digest: string -> string)
    ensures HashesFrom([], source, [Span(0, 1)], [[""]], digest)
         == if EmptyFileRow(source, digest) then Ok([source(Span(0, 1)).value[0].anchor]) else Mismatch
  {
    assert [Span(0, 1)][1..] == [] && [[""]][1..] == [];
    var page := source(Span(0, 1));
    if page.Ok? && PageMatches(page.value, [""], digest) {
      assert [] + Anchors(page.value) == [page.value[0].anchor];
    }
  }

  /** The loop of `rangedPageHashes`, over the pages wanted. */
  method AllPageHashes(source: Span -> Result<seq<AnchorLine>>, ranges: seq<Span>, kept: seq<seq<string>>,
                       digest: string -> string)
    returns (r: Result<seq<string>>)
    requires |kept| == |ranges|
    ensures r == HashesFrom([], source, ranges, kept, digest)
  {
    var hashes := [];
    for k := 0 to |ranges|
      invariant HashesFrom(hashes, source, ranges[k..], kept[k..], digest)
                == HashesFrom([], source, ranges, kept, digest)
    {
      assert ranges[k..][1..] == ranges[k + 1..] && kept[k..][1..] == kept[k + 1..];
      var resolved := source(ranges[k]);
      if resolved.Mismatch? { return Mismatch; }
      var next := PageHashes(hashes, resolved.value, kept[k], digest);
      if next.Mismatch? { return Mismatch; }
      hashes := next.value;
    }
    return Ok(hashes);
  }

  /** Cutting the anchors back into stretches as long as the kept pieces. */
  function CutFrom(acc: seq<seq<string>>, hashes: seq<string>, cursor: nat, kept: seq<seq<string>>): seq<seq<string>>
    decreases |kept|
  {
    if kept == [] then acc
    else CutFrom(acc + [JsSlice(hashes, cursor, cursor + |kept[0]|)], hashes, cursor + |kept[0]|, kept[1..])
  }

  method CutPieces(kept: seq<seq<string>>, hashes: seq<string>) returns (pieces: seq<seq<string>>)
    ensures pieces == CutFrom([], hashes, 0, kept)
  {
    pieces := [];
    var cursor := 0;
    for k := 0 to |kept|
      invariant cursor >= 0
      invariant CutFrom(pieces, hashes, cursor, kept[k..]) == CutFrom([], hashes, 0, kept)
    {
      assert kept[k..][1..] == kept[k + 1..];
      pieces := pieces + [JsSlice(hashes, cursor, cursor + |kept[k]|)];
      cursor := cursor + |kept[k]|;
    }
  }

  lemma {:induction false} HashesExtend(acc: seq<string>, source: Span -> Result<seq<AnchorLine>>, ranges: seq<Span>,
                                        kept: seq<seq<string>>, digest: string -> string)
    requires |kept| == |ranges| && HashesFrom(acc, source, ranges, kept, digest).Ok?
    ensures acc <= HashesFrom(acc, source, ranges, kept, digest).value
    decreases |ranges|
  {
    if ranges != [] {
      HashesExtend(acc + Anchors(source(ranges[0]).value), source, ranges[1..], kept[1..], digest);
    }
  }

  lemma {:induction false} CutShape(acc: seq<seq<string>>, hashes: seq<string>, cursor: nat, kept: seq<seq<string>>)
    ensures |CutFrom(acc, hashes, cursor, kept)| == |acc| + |kept|
    ensures acc <= CutFrom(acc, hashes, cursor, kept)
    decreases |kept|
  {
    if kept != [] {
      CutShape(acc + [JsSlice(hashes, cursor, cursor + |kept[0]|)], hashes, cursor + |kept[0]|, kept[1..]);
    }
  }

  /** The cut undoes the concatenation: piece k is page k's anchors, and that page stands for kept piece k. */
  lemma {:induction false} CutUndoesConcat(acc: seq<string>, source: Span -> Result<seq<AnchorLine>>, ranges: seq<Span>,
                                           kept: seq<seq<string>>, digest: string -> string,
                                           pieces: seq<seq<string>>, hashes: seq<string>, k: nat)
    requires |kept| == |ranges| && k < |ranges|
    requires HashesFrom(acc, source, ranges, kept, digest) == Ok(hashes)
    ensures source(ranges[k]).Ok? && PageMatches(source(ranges[k]).value, kept[k], digest)
    ensures |CutFrom(pieces, hashes, |acc|, kept)| == |pieces| + |kept|
    ensures CutFrom(pieces, hashes, |acc|, kept)[|pieces| + k] == Anchors(source(ranges[k]).value)
    decreases |ranges|
  {
    var page := source(ranges[0]).value;
    var next := acc + Anchors(page);
    assert |page| == |kept[0]|;
    hide PageMatches, Anchors;
    HashesExtend(next, source, ranges[1..], kept[1..], digest);
    var piece := JsSlice(hashes, |acc|, |acc| + |kept[0]|);
    if k == 0 {
      StretchOfPrefix(acc, Anchors(page), hashes);
      CutShape(pieces + [piece], hashes, |next|, kept[1..]);
      assert (pieces + [piece])[|pieces|] == piece;
    } else {
      CutUndoesConcat(next, source, ranges[1..], kept[1..], digest, pieces + [piece], hashes, k - 1);
    }
  }

  lemma StretchOfPrefix(a: seq<string>, b: seq<string>, hashes: seq<string>)
    requires a + b <= hashes
    ensures JsSlice(hashes, |a|, |a| + |b|) == b
  {
  }

  /** `lines` and `anchors` are the same positions of a page, line by line with the committed digest. */
  ghost predicate OnPage(page: seq<AnchorLine>, at: int, lines: seq<string>, anchors: seq<string>,
                         digest: string -> string)
  {
    && 0 <= at && at + |lines| <= |page| && |anchors| == |lines|
    && forall o :: 0 <= o < |lines| ==>
         page[at + o].anchor == anchors[o] && page[at + o].canonHash == digest(lines[o])
  }

  ghost predicate OnSomePage(source: Span -> Result<seq<AnchorLine>>, digest: string -> string, merged: seq<Span>,
                             r: Span,
                             lines: seq<string>, anchors: seq<string>)
  {
    if lines == [] then anchors == []
    else exists i :: 0 <= i < |merged| && source(merged[i]).Ok?
                     && OnPage(source(merged[i]).value, r.start - merged[i].start, lines, anchors, digest)
  }

  /**
   * The windowed page with ranged anchors: a window's lines and its anchors are the same stretch of
   * one verified page, so each anchor served sits on a line that still has the committed digest.
   */
  method WindowAnchors(merged: seq<Span>, requested: seq<Span>, kept: seq<seq<string>>,
                       source: Span -> Result<seq<AnchorLine>>, digest: string -> string)
    returns (anchors: Result<seq<seq<string>>>)
    requires CoverOf(merged, requested) && |kept| == |merged|
    ensures anchors.Ok? <==> HashesFrom([], source, merged, kept, digest).Ok?
    ensures anchors.Ok? ==> |anchors.value| == |requested|
    ensures anchors.Ok? ==> forall k :: 0 <= k < |requested| ==>
              OnSomePage(source, digest, merged, requested[k],
                         SliceFrom([], merged, kept, requested[k].start, requested[k].end), anchors.value[k])
  {
    var hashes := RangedPageHashes(source, merged, kept, false, digest);
    if hashes.Mismatch? { return Mismatch; }
    var pieces := CutPieces(kept, hashes.value);
    CutShape([], hashes.value, 0, kept);
    var sections := SliceWindows(merged, pieces, requested);
    forall k | 0 <= k < |requested|
      ensures OnSomePage(source, digest, merged, requested[k],
                         SliceFrom([], merged, kept, requested[k].start, requested[k].end), sections[k])
    {
      AnchorsAlign(source, digest, merged, requested, kept, hashes.value, requested[k]);
    }
    return Ok(sections);
  }

  lemma AnchorsAlign(source: Span -> Result<seq<AnchorLine>>, digest: string -> string, merged: seq<Span>,
                     requested: seq<Span>, kept: seq<seq<string>>, hashes: seq<string>, r: Span)
    requires CoverOf(merged, requested) && r in requested
    requires |kept| == |merged| == |CutFrom([], hashes, 0, kept)|
    requires HashesFrom([], source, merged, kept, digest) == Ok(hashes)
    ensures OnSomePage(source, digest, merged, r, SliceFrom([], merged, kept, r.start, r.end),
                       SliceFrom([], merged, CutFrom([], hashes, 0, kept), r.start, r.end))
  {
    hide SliceFrom, CutFrom, HashesFrom;
    if r.end <= r.start {
      SliceOfEmptyWindow([], merged, kept, r.start, r.end);
      SliceOfEmptyWindow([], merged, CutFrom([], hashes, 0, kept), r.start, r.end);
    } else {
      var i := OnePieceHolds(merged, requested, r);
      PieceAligned(source, digest, merged, kept, hashes, r, i);
    }
  }

  lemma PieceAligned(source: Span -> Result<seq<AnchorLine>>, digest: string -> string, merged: seq<Span>,
                     kept: seq<seq<string>>, hashes: seq<string>, r: Span, i: nat)
    requires Separated(merged) && i < |merged| && merged[i].start <= r.start < r.end <= merged[i].end
    requires |kept| == |merged| == |CutFrom([], hashes, 0, kept)|
    requires HashesFrom([], source, merged, kept, digest) == Ok(hashes)
    ensures OnSomePage(source, digest, merged, r, SliceFrom([], merged, kept, r.start, r.end),
                       SliceFrom([], merged, CutFrom([], hashes, 0, kept), r.start, r.end))
  {
    hide SliceFrom, CutFrom, HashesFrom, OnSomePage, PageMatches, JsSlice, Separated;
    SliceInOnePiece(merged, kept, r.start, r.end, i);
    SliceInOnePiece(merged, CutFrom([], hashes, 0, kept), r.start, r.end, i);
    CutUndoesConcat([], source, merged, kept, digest, [], hashes, i);
    StretchAligned(source, digest, merged, r, i, kept[i], SliceFrom([], merged, kept, r.start, r.end),
                   SliceFrom([], merged, CutFrom([], hashes, 0, kept), r.start, r.end));
  }

  lemma StretchAligned(source: Span -> Result<seq<AnchorLine>>, digest: string -> string, merged: seq<Span>, r: Span,
                       i: nat, kept: seq<string>, lines: seq<string>, anchors: seq<string>)
    requires i < |merged| && merged[i].start <= r.start
    requires source(merged[i]).Ok? && PageMatches(source(merged[i]).value, kept, digest)
    requires lines == JsSlice(kept, r.start - merged[i].start, r.end - merged[i].start)
    requires anchors == JsSlice(Anchors(source(merged[i]).value), r.start - merged[i].start, r.end - merged[i].start)
    ensures OnSomePage(source, digest, merged, r, lines, anchors)
  {
    var page, at := source(merged[i]).value, r.start - merged[i].start;
    StretchOnPage(page, kept, digest, at, r.end - merged[i].start);
    hide PageMatches, JsSlice, OnPage;
    if lines != [] { assert OnPage(page, at, lines, anchors, digest); }
  }

  lemma StretchOnPage(page: seq<AnchorLine>, kept: seq<string>, digest: string -> string, from: nat, to: int)
    requires PageMatches(page, kept, digest)
    ensures var lines, anchors := JsSlice(kept, from, to), JsSlice(Anchors(page), from, to);
            && (lines == [] ==> anchors == []) && (lines != [] ==> OnPage(page, from, lines, anchors, digest))
  {
    var lines, anchors := JsSlice(kept, from, to), JsSlice(Anchors(page), from, to);
    assert |lines| == |anchors|;
    forall o | 0 <= o < |lines|
      ensures page[from + o].anchor == anchors[o] && page[from + o].canonHash == digest(lines[o])
    {
      assert lines[o] == kept[from + o] && anchors[o] == Anchors(page)[from + o];
    }
  }
}
