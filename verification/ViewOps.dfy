/** The content-aware fold of a bash view: slices, literal filters, `sort -u` and `uniq` over (line, text) pairs. */
module ViewOps {

  import opened LexOrder
  import S = SliceOps
  import opened Texts

  /** A stream entry: its true 1-indexed file line and its text. */
  datatype ContentLine = ContentLine(line: int, text: string)

  datatype ViewOp =
    | Keep(pattern: string)
    | Drop(pattern: string)
    | SortUnique
    | Uniq
    | Count
    | Cut(op: S.SliceOp)

  function Matching(s: seq<ContentLine>, pattern: string, wanted: bool): seq<ContentLine>
  {
    if s == [] then []
    else (if Includes(s[0].text, pattern) == wanted then [s[0]] else []) + Matching(s[1..], pattern, wanted)
  }

  lemma {:induction false} MatchingIs(s: seq<ContentLine>, pattern: string, wanted: bool, e: ContentLine)
    ensures e in Matching(s, pattern, wanted) <==> e in s && StandsIn(e.text, pattern) == wanted
  {
    hide StandsIn, Includes;
    if s != [] {
      MatchingIs(s[1..], pattern, wanted, e);
      IncludesMeans(s[0].text, pattern);
      assert s == [s[0]] + s[1..];
    }
  }

  lemma {:induction false} MatchingShares(s: seq<ContentLine>, pattern: string)
    ensures multiset(Matching(s, pattern, true)) + multiset(Matching(s, pattern, false)) == multiset(s)
  {
    hide Includes;
    if s != [] {
      MatchingShares(s[1..], pattern);
      assert s == [s[0]] + s[1..];
    }
  }

  /** `grep` keeps exactly what contains the pattern, `grep -v` exactly what does not; the two share out the stream. */
  lemma MatchingAre(s: seq<ContentLine>, pattern: string)
    ensures forall e :: e in ApplyOp(Keep(pattern), s) <==> e in s && StandsIn(e.text, pattern)
    ensures forall e :: e in ApplyOp(Drop(pattern), s) <==> e in s && !StandsIn(e.text, pattern)
    ensures multiset(ApplyOp(Keep(pattern), s)) + multiset(ApplyOp(Drop(pattern), s)) == multiset(s)
  {
    hide StandsIn, Matching;
    MatchingShares(s, pattern);
    forall e
      ensures e in ApplyOp(Keep(pattern), s) <==> e in s && StandsIn(e.text, pattern)
      ensures e in ApplyOp(Drop(pattern), s) <==> e in s && !StandsIn(e.text, pattern)
    {
      MatchingIs(s, pattern, true, e);
      MatchingIs(s, pattern, false, e);
    }
  }

  // ----- uniq: the head of every run

  /** The entries whose text differs from that of the entry right before them; `prev` precedes the first. */
  function RunHeads(prev: seq<ContentLine>, s: seq<ContentLine>): seq<ContentLine>
    requires |prev| <= 1
    decreases |s|
  {
    if s == [] then []
    else (if prev != [] && prev[0].text == s[0].text then [] else [s[0]]) + RunHeads([s[0]], s[1..])
  }

  /** The loop's form: an entry is compared with the last one kept. */
  function Collapse(out: seq<ContentLine>, s: seq<ContentLine>): seq<ContentLine>
    decreases |s|
  {
    if s == [] then out
    else if out == [] || out[|out| - 1].text != s[0].text then Collapse(out + [s[0]], s[1..])
    else Collapse(out, s[1..])
  }

  method CollapseAdjacentRuns(stream: seq<ContentLine>) returns (out: seq<ContentLine>)
    ensures out == RunHeads([], stream)
  {
    out := [];
    for i := 0 to |stream|
      invariant Collapse(out, stream[i..]) == Collapse([], stream)
    {
      var entry := stream[i];
      assert stream[i..][1..] == stream[i + 1..];
      if out == [] || out[|out| - 1].text != entry.text {
        out := out + [entry];
      }
    }
    CollapseIsRunHeads([], [], stream);
    assert [] + RunHeads([], stream) == RunHeads([], stream);
  }

  /** Comparing with the last kept entry or with the previous input entry is the same. */
  lemma {:induction false} CollapseIsRunHeads(out: seq<ContentLine>, prev: seq<ContentLine>, s: seq<ContentLine>)
    requires |prev| <= 1 && (out == [] <==> prev == [])
    requires out != [] ==> out[|out| - 1].text == prev[0].text
    ensures Collapse(out, s) == out + RunHeads(prev, s)
    decreases |s|
  {
    if s == [] {
      assert out + [] == out;
    } else if out == [] || out[|out| - 1].text != s[0].text {
      CollapseIsRunHeads(out + [s[0]], [s[0]], s[1..]);
      assert (out + [s[0]]) + RunHeads([s[0]], s[1..]) == out + ([s[0]] + RunHeads([s[0]], s[1..]));
    } else {
      CollapseIsRunHeads(out, [s[0]], s[1..]);
      assert [] + RunHeads([s[0]], s[1..]) == RunHeads([s[0]], s[1..]);
    }
  }

  lemma {:induction false} RunHeadsDiffer(prev: seq<ContentLine>, s: seq<ContentLine>)
    requires |prev| <= 1
    ensures forall k :: 0 < k < |RunHeads(prev, s)| ==> RunHeads(prev, s)[k - 1].text != RunHeads(prev, s)[k].text
    ensures prev != [] && RunHeads(prev, s) != [] ==> RunHeads(prev, s)[0].text != prev[0].text
    ensures prev == [] && s != [] ==> RunHeads(prev, s) != [] && RunHeads(prev, s)[0] == s[0]
    decreases |s|
  {
    if s != [] {
      RunHeadsDiffer([s[0]], s[1..]);
      var rest := RunHeads([s[0]], s[1..]);
      if prev != [] && prev[0].text == s[0].text {
        assert RunHeads(prev, s) == rest;
      } else {
        assert RunHeads(prev, s) == [s[0]] + rest;
      }
    }
  }

  /** The entry at i starts a run: the first of all, or of another text than the entry right before it. */
  predicate StartsRun(s: seq<ContentLine>, i: nat)
    requires i < |s|
  {
    i > 0 ==> s[i - 1].text != s[i].text
  }

  /** The positions that start a run, from `from` on. */
  function Starts(s: seq<ContentLine>, from: nat): (at: seq<nat>)
    requires from <= |s|
    ensures forall k :: 0 <= k < |at| ==> from <= at[k] < |s| && StartsRun(s, at[k])
    decreases |s| - from
  {
    if from == |s| then []
    else if StartsRun(s, from) then [from] + Starts(s, from + 1)
    else Starts(s, from + 1)
  }

  lemma {:induction false} StartsAre(s: seq<ContentLine>, from: nat)
    requires from <= |s|
    ensures forall i :: from <= i < |s| && StartsRun(s, i) ==> i in Starts(s, from)
    ensures forall j, k :: 0 <= j < k < |Starts(s, from)| ==> Starts(s, from)[j] < Starts(s, from)[k]
    decreases |s| - from
  {
    if from < |s| { StartsAre(s, from + 1); }
  }

  function EntriesAt(s: seq<ContentLine>, at: seq<nat>): (r: seq<ContentLine>)
    requires forall k :: 0 <= k < |at| ==> at[k] < |s|
    ensures |r| == |at| && forall k :: 0 <= k < |r| ==> r[k] == s[at[k]]
  {
    if at == [] then [] else [s[at[0]]] + EntriesAt(s, at[1..])
  }

  lemma EntriesStep(s: seq<ContentLine>, from: nat)
    requires from < |s|
    ensures var rest := EntriesAt(s, Starts(s, from + 1));
            EntriesAt(s, Starts(s, from)) == if StartsRun(s, from) then [s[from]] + rest else rest
  {
    hide StartsRun;
    assert StartsRun(s, from) ==> Starts(s, from)[1..] == Starts(s, from + 1);
  }

  lemma {:induction false} HeadsFrom(s: seq<ContentLine>, from: nat)
    requires from <= |s|
    ensures RunHeads(if from == 0 then [] else [s[from - 1]], s[from..]) == EntriesAt(s, Starts(s, from))
    decreases |s| - from
  {
    if from < |s| {
      HeadsFrom(s, from + 1);
      EntriesStep(s, from);
      HeadStarts(s, from);
      hide *;
      assert s[from..][1..] == s[from + 1..];
    }
  }

  lemma HeadStarts(s: seq<ContentLine>, from: nat)
    requires from < |s|
    ensures var rest := RunHeads([s[from]], s[from..][1..]);
            RunHeads(if from == 0 then [] else [s[from - 1]], s[from..])
            == if StartsRun(s, from) then [s[from]] + rest else rest
  {
  }

  /** `uniq` keeps the entries that start a run, each once and in order. */
  lemma RunHeadsAre(s: seq<ContentLine>)
    ensures var at := Starts(s, 0);
            && RunHeads([], s) == EntriesAt(s, at)
            && (forall i: nat :: i in at <==> i < |s| && StartsRun(s, i))
            && (forall j, k :: 0 <= j < k < |at| ==> at[j] < at[k])
  {
    HeadsFrom(s, 0);
    StartsAre(s, 0);
    assert s[0..] == s;
  }

  // ----- sort -u: the first entry of every text, in byte order

  /** The entries whose text is not in `seen` and occurs nowhere before them. */
  function Firsts(seen: set<string>, s: seq<ContentLine>): seq<ContentLine>
    decreases |s|
  {
    if s == [] then []
    else if s[0].text in seen then Firsts(seen, s[1..])
    else [s[0]] + Firsts(seen + {s[0].text}, s[1..])
  }

  predicate TextLess(a: ContentLine, b: ContentLine)
  {
    Less(Utf8(a.text), Utf8(b.text))
  }

  function InsertByText(s: seq<ContentLine>, x: ContentLine): seq<ContentLine>
  {
    if s == [] then [x]
    else if TextLess(s[0], x) then [s[0]] + InsertByText(s[1..], x)
    else [x] + s
  }

  function SortByText(s: seq<ContentLine>): seq<ContentLine>
  {
    if s == [] then [] else InsertByText(SortByText(s[1..]), s[0])
  }

  function SortUniqueOf(s: seq<ContentLine>): seq<ContentLine>
  {
    SortByText(Firsts({}, s))
  }

  method SortUniqueLines(stream: seq<ContentLine>) returns (out: seq<ContentLine>)
    ensures out == SortUniqueOf(stream)
  {
    var firsts: seq<ContentLine> := [];
    var texts: set<string> := {};
    for i := 0 to |stream|
      invariant firsts + Firsts(texts, stream[i..]) == Firsts({}, stream)
    {
      assert stream[i..][1..] == stream[i + 1..];
      if stream[i].text !in texts {
        firsts := firsts + [stream[i]];
        texts := texts + {stream[i].text};
      }
    }
    assert firsts + [] == firsts;
    out := SortByText(firsts);
  }

  predicate ByteIncreasing(s: seq<ContentLine>)
  {
    |s| <= 1 || (TextLess(s[0], s[1]) && ByteIncreasing(s[1..]))
  }

  lemma {:induction false} FirstsAreFirst(seen: set<string>, s: seq<ContentLine>, e: ContentLine)
    ensures e in Firsts(seen, s) <==>
              e.text !in seen && exists i :: 0 <= i < |s| && s[i] == e && forall j :: 0 <= j < i ==> s[j].text != e.text
    decreases |s|
  {
    if s != [] {
      var seen' := if s[0].text in seen then seen else seen + {s[0].text};
      FirstsAreFirst(seen', s[1..], e);
      if e in Firsts(seen', s[1..]) {
        var i :| 0 <= i < |s[1..]| && s[1..][i] == e && forall j :: 0 <= j < i ==> s[1..][j].text != e.text;
        assert s[i + 1] == e && forall j :: 0 <= j < i + 1 ==> s[j].text != e.text by {
          assert forall j :: 1 <= j < i + 1 ==> s[j] == s[1..][j - 1];
        }
      }
      if e.text !in seen && e != s[0] {
        if i :| 0 <= i < |s| && s[i] == e && forall j :: 0 <= j < i ==> s[j].text != e.text {
          assert s[1..][i - 1] == e;
          assert forall j :: 0 <= j < i - 1 ==> s[1..][j] == s[j + 1];
        }
      }
    }
  }

  lemma {:induction false} FirstsDistinct(seen: set<string>, s: seq<ContentLine>, j: nat, k: nat)
    requires j < k < |Firsts(seen, s)|
    ensures Firsts(seen, s)[j].text != Firsts(seen, s)[k].text
    decreases |s|
  {
    if s[0].text in seen {
      FirstsDistinct(seen, s[1..], j, k);
    } else if j > 0 {
      FirstsDistinct(seen + {s[0].text}, s[1..], j - 1, k - 1);
    } else {
      var rest := Firsts(seen + {s[0].text}, s[1..]);
      FirstsAreFirst(seen + {s[0].text}, s[1..], rest[k - 1]);
    }
  }

  lemma HeadAside(s: seq<ContentLine>)
    requires s != []
    ensures multiset(s) == multiset(s[1..]) + multiset{s[0]}
  {
    assert s == [s[0]] + s[1..];
  }

  lemma {:induction false} InsertByTextSorts(s: seq<ContentLine>, x: ContentLine)
    requires ByteIncreasing(s) && forall k :: 0 <= k < |s| ==> s[k].text != x.text
    ensures ByteIncreasing(InsertByText(s, x)) && InsertByText(s, x) != []
    ensures InsertByText(s, x)[0] == if s == [] || TextLess(x, s[0]) then x else s[0]
    ensures multiset(InsertByText(s, x)) == multiset(s) + multiset{x}
  {
    hide Utf8, Less;
    if s != [] {
      HeadAside(s);
      Trichotomy(Utf8(s[0].text), Utf8(x.text));
      if TextLess(s[0], x) {
        InsertByTextSorts(s[1..], x);
        assert InsertByText(s, x)[1..] == InsertByText(s[1..], x);
      } else {
        if Utf8(s[0].text) == Utf8(x.text) { Utf8Injective(s[0].text, x.text); }
        assert ([x] + s)[1..] == s;
      }
    }
  }

  lemma TextsStayFresh(t: seq<ContentLine>, s: seq<ContentLine>, text: string)
    requires multiset(t) == multiset(s) && forall k :: 0 <= k < |s| ==> s[k].text != text
    ensures forall k :: 0 <= k < |t| ==> t[k].text != text
  {
    forall k | 0 <= k < |t|
      ensures t[k].text != text
    {
      assert t[k] in multiset(s);
    }
  }

  lemma {:induction false} SortByTextSorts(s: seq<ContentLine>)
    requires forall j, k :: 0 <= j < k < |s| ==> s[j].text != s[k].text
    ensures ByteIncreasing(SortByText(s)) && multiset(SortByText(s)) == multiset(s)
  {
    assert ByteIncreasing([]);
    hide ByteIncreasing, InsertByText;
    if s != [] {
      SortByTextSorts(s[1..]);
      var t := SortByText(s[1..]);
      TextsStayFresh(t, s[1..], s[0].text);
      InsertByTextSorts(t, s[0]);
      HeadAside(s);
    }
  }

  /** `sort -u`: strictly byte-increasing texts, the same texts, each on the first line that carries it. */
  lemma SortUniqueKeepsFirsts(s: seq<ContentLine>)
    ensures ByteIncreasing(SortUniqueOf(s))
    ensures forall e :: e in SortUniqueOf(s) <==>
              exists i :: 0 <= i < |s| && s[i] == e && forall j :: 0 <= j < i ==> s[j].text != e.text
    ensures multiset(SortUniqueOf(s)) == multiset(Firsts({}, s))
  {
    forall j, k | 0 <= j < k < |Firsts({}, s)|
      ensures Firsts({}, s)[j].text != Firsts({}, s)[k].text
    {
      FirstsDistinct({}, s, j, k);
    }
    SortByTextSorts(Firsts({}, s));
    forall e
      ensures e in SortUniqueOf(s) <==>
                exists i :: 0 <= i < |s| && s[i] == e && forall j :: 0 <= j < i ==> s[j].text != e.text
    {
      FirstsAreFirst({}, s, e);
      assert e in SortUniqueOf(s) <==> e in multiset(SortUniqueOf(s));
      assert e in Firsts({}, s) <==> e in multiset(Firsts({}, s));
    }
  }

  /** In the sorted output every text comes before every later one, by its code points. */
  lemma SortUniqueAscends(s: seq<ContentLine>, j: nat, k: nat)
    requires j < k < |SortUniqueOf(s)|
    ensures Less(CodePoints(SortUniqueOf(s)[j].text), CodePoints(SortUniqueOf(s)[k].text))
  {
    SortUniqueKeepsFirsts(s);
    IncreasingAt(SortUniqueOf(s), j, k);
    Utf8KeepsOrder(SortUniqueOf(s)[j].text, SortUniqueOf(s)[k].text);
  }

  lemma {:induction false} IncreasingAt(s: seq<ContentLine>, j: nat, k: nat)
    requires ByteIncreasing(s) && j < k < |s|
    ensures TextLess(s[j], s[k])
  {
    hide Less, Utf8;
    if j > 0 {
      IncreasingAt(s[1..], j - 1, k - 1);
    } else if k > 1 {
      IncreasingAt(s[1..], 0, k - 1);
      Transitive(Utf8(s[0].text), Utf8(s[1].text), Utf8(s[k].text));
    }
  }

  // ----- the fold

  function ApplyOp(op: ViewOp, s: seq<ContentLine>): seq<ContentLine>
  {
    match op
    case Keep(pattern) => Matching(s, pattern, true)
    case Drop(pattern) => Matching(s, pattern, false)
    case SortUnique => SortUniqueOf(s)
    case Uniq => RunHeads([], s)
    case Count => s
    case Cut(slice) => S.Slice(slice, s)
  }

  function FoldView(ops: seq<ViewOp>, s: seq<ContentLine>): seq<ContentLine>
  {
    if ops == [] then s else FoldView(ops[1..], ApplyOp(ops[0], s))
  }

  lemma {:induction false} FoldViewEmpty(ops: seq<ViewOp>)
    ensures FoldView(ops, []) == []
  {
    if ops != [] {
      FoldViewEmpty(ops[1..]);
    }
  }

  /** Ops apply in turn: those after a cut in the list see what those before it left. */
  lemma {:induction false} OpsInTurn(sooner: seq<ViewOp>, later: seq<ViewOp>, s: seq<ContentLine>)
    ensures FoldView(sooner + later, s) == FoldView(later, FoldView(sooner, s))
    decreases |sooner|
  {
    hide ApplyOp;
    if sooner == [] {
      assert sooner + later == later;
    } else {
      OpsInTurn(sooner[1..], later, ApplyOp(sooner[0], s));
      assert (sooner + later)[1..] == sooner[1..] + later;
    }
  }

  /** The entries at the lines an interval list stands for. */
  function Gather(out: seq<ContentLine>, list: seq<S.Interval>, lo: int, stream: seq<ContentLine>): seq<ContentLine>
    requires 1 <= lo && S.Within(list, lo, |stream|)
    decreases |list|
  {
    if list == [] then out
    else Gather(out + stream[list[0].lo - 1..list[0].hi], list[1..], list[0].hi + 1, stream)
  }

  lemma {:induction false} GatherPicks(out: seq<ContentLine>, list: seq<S.Interval>, lo: int, stream: seq<ContentLine>,
                                       k: nat)
    requires 1 <= lo && S.Within(list, lo, |stream|)
    ensures 0 <= S.Total(list) && |Gather(out, list, lo, stream)| == |out| + S.Total(list)
    ensures k < |out| ==> Gather(out, list, lo, stream)[k] == out[k]
    ensures |out| <= k < |out| + S.Total(list) ==>
              && lo <= S.At(list, k - |out| + 1) <= |stream|
              && Gather(out, list, lo, stream)[k] == stream[S.At(list, k - |out| + 1) - 1]
    decreases |list|
  {
    if list != [] {
      var iv := list[0];
      GatherPicks(out + stream[iv.lo - 1..iv.hi], list[1..], iv.hi + 1, stream, k);
    }
  }

  /** One slice stage: the interval algebra over stream positions, mapped back to the entries. */
  method CutStream(op: S.SliceOp, stream: seq<ContentLine>, maxSafe: int) returns (next: seq<ContentLine>)
    requires |stream| <= maxSafe
    ensures next == S.Slice(op, stream)
  {
    var intervals := S.ApplySliceOps([op], |stream|, maxSafe);
    next := [];
    ghost var lo := 1;
    for i := 0 to |intervals|
      invariant 1 <= lo && S.Within(intervals[i..], lo, |stream|)
      invariant Gather(next, intervals[i..], lo, stream) == Gather([], intervals, 1, stream)
    {
      var iv := intervals[i];
      assert intervals[i..][1..] == intervals[i + 1..];
      next := next + stream[iv.lo - 1..iv.hi];
      lo := iv.hi + 1;
    }
    GatheredSlice(op, stream, intervals);
  }

  lemma GatheredPick(stream: seq<ContentLine>, intervals: seq<S.Interval>, at: seq<int>)
    requires S.Within(intervals, 1, |stream|) && at == S.Lines(intervals)
    ensures S.Positions(at, |stream|) && Gather([], intervals, 1, stream) == S.Pick(stream, at)
  {
    GatherPicks([], intervals, 1, stream, 0);
    forall k | 0 <= k < |at|
      ensures 1 <= at[k] <= |stream| && Gather([], intervals, 1, stream)[k] == stream[at[k] - 1]
    {
      GatherPicks([], intervals, 1, stream, k);
    }
  }

  lemma GatheredSlice(op: S.SliceOp, stream: seq<ContentLine>, intervals: seq<S.Interval>)
    requires S.Within(intervals, 1, |stream|)
    requires S.Lines(intervals) == S.FoldSlices([op], S.Count(1, |stream|))
    ensures Gather([], intervals, 1, stream) == S.Slice(op, stream)
  {
    var all := S.Count(1, |stream|);
    S.FoldOne(op, all);
    S.PickAll(stream);
    S.SlicePick(op, stream, all);
    GatheredPick(stream, intervals, S.Slice(op, all));
  }

  method ApplyViewOps(ops: seq<ViewOp>, lines: seq<ContentLine>, maxSafe: int) returns (stream: seq<ContentLine>)
    requires |lines| <= maxSafe
    ensures stream == FoldView(ops, lines)
  {
    stream := lines;
    for i := 0 to |ops|
      invariant FoldView(ops[i..], stream) == FoldView(ops, lines)
      invariant |stream| <= |lines|
    {
      assert ops[i..][1..] == ops[i + 1..];
      OpSelects(ops[i], stream);
      SelectionShrinks(ApplyOp(ops[i], stream), stream);
      match ops[i] {
        case Keep(pattern) => stream := Matching(stream, pattern, true);
        case Drop(pattern) => stream := Matching(stream, pattern, false);
        case SortUnique => stream := SortUniqueLines(stream);
        case Uniq => stream := CollapseAdjacentRuns(stream);
        case Count =>
        case Cut(op) => stream := CutStream(op, stream, maxSafe);
      }
      if stream == [] {
        FoldViewEmpty(ops[i + 1..]);
        return [];
      }
    }
  }

  // ----- what every fold keeps

  lemma SelectionShrinks<T>(a: seq<T>, b: seq<T>)
    requires multiset(a) <= multiset(b)
    ensures |a| <= |b|
  {
    assert |multiset(b) - multiset(a)| == |multiset(b)| - |multiset(a)|;
  }

  lemma {:induction false} MatchingSelects(s: seq<ContentLine>, pattern: string, wanted: bool)
    ensures multiset(Matching(s, pattern, wanted)) <= multiset(s)
  {
    if s != [] {
      MatchingSelects(s[1..], pattern, wanted);
      assert s == [s[0]] + s[1..];
    }
  }

  lemma {:induction false} RunHeadsSelect(prev: seq<ContentLine>, s: seq<ContentLine>)
    requires |prev| <= 1
    ensures multiset(RunHeads(prev, s)) <= multiset(s)
    decreases |s|
  {
    if s != [] {
      RunHeadsSelect([s[0]], s[1..]);
      assert s == [s[0]] + s[1..];
    }
  }

  lemma {:induction false} FirstsSelect(seen: set<string>, s: seq<ContentLine>)
    ensures multiset(Firsts(seen, s)) <= multiset(s)
    decreases |s|
  {
    if s != [] {
      FirstsSelect(if s[0].text in seen then seen else seen + {s[0].text}, s[1..]);
      assert s == [s[0]] + s[1..];
    }
  }

  lemma OpSelects(op: ViewOp, s: seq<ContentLine>)
    ensures multiset(ApplyOp(op, s)) <= multiset(s)
  {
    match op
    case Keep(pattern) => MatchingSelects(s, pattern, true);
    case Drop(pattern) => MatchingSelects(s, pattern, false);
    case SortUnique =>
      SortUniqueKeepsFirsts(s);
      FirstsSelect({}, s);
    case Uniq => RunHeadsSelect([], s);
    case Count =>
    case Cut(slice) =>
      var w := S.Window(slice, |s|);
      assert s == s[..w.0] + s[w.0..w.1] + s[w.1..];
  }

  /** No op list invents an entry or repeats one: the output is part of the input, as a multiset. */
  lemma {:induction false} FoldSelects(ops: seq<ViewOp>, s: seq<ContentLine>)
    ensures multiset(FoldView(ops, s)) <= multiset(s)
  {
    if ops != [] {
      OpSelects(ops[0], s);
      FoldSelects(ops[1..], ApplyOp(ops[0], s));
    }
  }

  predicate LinesIncrease(s: seq<ContentLine>)
  {
    forall j, k :: 0 <= j < k < |s| ==> s[j].line < s[k].line
  }

  lemma TailIncreases(s: seq<ContentLine>)
    requires LinesIncrease(s) && s != []
    ensures LinesIncrease(s[1..]) && (|s| > 1 ==> s[0].line < s[1..][0].line)
  {
  }

  lemma HeadIncreases(x: ContentLine, rest: seq<ContentLine>)
    requires LinesIncrease(rest) && (rest != [] ==> x.line < rest[0].line)
    ensures LinesIncrease([x] + rest)
  {
  }

  lemma {:induction false} MatchingIncreases(s: seq<ContentLine>, pattern: string, wanted: bool)
    requires LinesIncrease(s)
    ensures LinesIncrease(Matching(s, pattern, wanted))
    ensures s != [] && Matching(s, pattern, wanted) != [] ==> s[0].line <= Matching(s, pattern, wanted)[0].line
  {
    assert LinesIncrease([]);
    hide LinesIncrease, Includes;
    if s != [] {
      var rest := Matching(s[1..], pattern, wanted);
      TailIncreases(s);
      MatchingIncreases(s[1..], pattern, wanted);
      if Includes(s[0].text, pattern) == wanted {
        HeadIncreases(s[0], rest);
      } else {
        assert [] + rest == rest;
      }
    }
  }

  lemma RunHeadsStep(prev: seq<ContentLine>, s: seq<ContentLine>)
    requires |prev| <= 1 && s != []
    ensures var rest := RunHeads([s[0]], s[1..]);
            RunHeads(prev, s) == if prev != [] && prev[0].text == s[0].text then rest else [s[0]] + rest
  {
  }

  lemma {:induction false} RunHeadsIncrease(prev: seq<ContentLine>, s: seq<ContentLine>)
    requires |prev| <= 1 && LinesIncrease(s)
    ensures LinesIncrease(RunHeads(prev, s))
    ensures s != [] && RunHeads(prev, s) != [] ==> s[0].line <= RunHeads(prev, s)[0].line
    decreases |s|
  {
    assert LinesIncrease([]);
    hide LinesIncrease;
    if s != [] {
      TailIncreases(s);
      RunHeadsIncrease([s[0]], s[1..]);
      HeadIncreases(s[0], RunHeads([s[0]], s[1..]));
      RunHeadsStep(prev, s);
    }
  }

  /** Without `sort -u`, entries stay in file order. */
  lemma {:induction false} FoldKeepsLineOrder(ops: seq<ViewOp>, s: seq<ContentLine>)
    requires LinesIncrease(s) && SortUnique !in ops
    ensures LinesIncrease(FoldView(ops, s))
  {
    if ops != [] {
      match ops[0] {
        case Keep(pattern) => MatchingIncreases(s, pattern, true);
        case Drop(pattern) => MatchingIncreases(s, pattern, false);
        case SortUnique => assert false;
        case Uniq => RunHeadsIncrease([], s);
        case Count =>
        case Cut(slice) =>
      }
      FoldKeepsLineOrder(ops[1..], ApplyOp(ops[0], s));
    }
  }

  // ----- slice-only folds are the interval algebra

  function SlicesOf(ops: seq<ViewOp>): seq<S.SliceOp>
    requires forall k :: 0 <= k < |ops| ==> ops[k].Cut?
  {
    if ops == [] then [] else [ops[0].op] + SlicesOf(ops[1..])
  }

  lemma {:induction false} SliceOnlyFold(ops: seq<ViewOp>, s: seq<ContentLine>)
    requires forall k :: 0 <= k < |ops| ==> ops[k].Cut?
    ensures FoldView(ops, s) == S.FoldSlices(SlicesOf(ops), s)
  {
    if ops != [] {
      SliceOnlyFold(ops[1..], ApplyOp(ops[0], s));
      assert SlicesOf(ops)[1..] == SlicesOf(ops[1..]);
    }
  }

  /** Slice-only ops pick exactly the entries at the stream positions the interval fold keeps. */
  lemma SliceOnlyPicks(ops: seq<ViewOp>, s: seq<ContentLine>)
    requires forall k :: 0 <= k < |ops| ==> ops[k].Cut?
    ensures S.Positions(S.FoldSlices(SlicesOf(ops), S.Count(1, |s|)), |s|)
    ensures FoldView(ops, s) == S.Pick(s, S.FoldSlices(SlicesOf(ops), S.Count(1, |s|)))
  {
    SliceOnlyFold(ops, s);
    S.FoldSelectsLines(SlicesOf(ops), s);
  }
}
