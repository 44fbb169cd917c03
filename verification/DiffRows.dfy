/** The projection's reference form: each part's rows read off the parts before it, and the tight bracket. */
module DiffRows {

  import opened DiffCounts
  import opened DiffProjection
  import opened DiffTruth
  import opened Options

  // ----- rows of a stretch of lines

  function PlusRows(lines: seq<string>, n: nat, anchors: seq<string>): seq<Row>
  {
    seq(|lines|, k requires 0 <= k < |lines| => Plus(lines[k], At(anchors, n + k)))
  }

  function MinusRows(lines: seq<string>, o: nat, anchors: seq<string>): seq<Row>
  {
    seq(|lines|, k requires 0 <= k < |lines| => Minus(lines[k], At(anchors, o + k)))
  }

  function ContextRows(lines: seq<string>, n: nat, anchors: seq<string>): seq<Row>
  {
    seq(|lines|, k requires 0 <= k < |lines| => Context(lines[k], At(anchors, n + k)))
  }

  /** Up to six removed lines stand whole; of more, two at each edge around their count. */
  function RemovedRows(lines: seq<string>, o: nat, anchors: seq<string>): seq<Row>
  {
    if |lines| <= 6 then MinusRows(lines, o, anchors)
    else MinusRows(lines[..2], o, anchors) + [Deleted(|lines| - 4)]
         + MinusRows(lines[|lines| - 2..], o + |lines| - 2, anchors)
  }

  /** The lines within `context` of a change before or after the part, and one marker for what is hidden. */
  function KeptRows(lines: seq<string>, n: nat, after: bool, before: bool, context: nat, anchors: seq<string>): seq<Row>
  {
    var skip := |lines| - context;
    if after && before then
      if |lines| <= context * 2 then ContextRows(lines, n, anchors)
      else ContextRows(lines[..context], n, anchors) + [Untouched(|lines| - context * 2)]
           + ContextRows(lines[skip..], n + skip, anchors)
    else if after then (if skip <= 0 then ContextRows(lines, n, anchors) else ContextRows(lines[..context], n, anchors))
    else if before then
      (if skip <= 0 then ContextRows(lines, n, anchors) else [Ellipsis] + ContextRows(lines[skip..], n + skip, anchors))
    else []
  }

  lemma {:induction false} PlusIs(out: Out, lines: seq<string>, anchors: seq<string>)
    ensures var next := AllPlus(out, lines, anchors);
            next.rows == out.rows + PlusRows(lines, out.n, anchors) && next.o == out.o && next.n == out.n + |lines|
    decreases |lines|
  {
    if lines == [] {
      assert out.rows + [] == out.rows;
    } else {
      var first := PutPlus(out, lines[0], anchors);
      PlusIs(first, lines[1..], anchors);
      assert PlusRows(lines, out.n, anchors)
          == [Plus(lines[0], At(anchors, out.n))] + PlusRows(lines[1..], out.n + 1, anchors);
    }
  }

  lemma {:induction false} MinusIs(out: Out, lines: seq<string>, anchors: seq<string>)
    ensures var next := AllMinus(out, lines, anchors);
            next.rows == out.rows + MinusRows(lines, out.o, anchors) && next.o == out.o + |lines| && next.n == out.n
    decreases |lines|
  {
    if lines == [] {
      assert out.rows + [] == out.rows;
    } else {
      MinusIs(PutMinus(out, lines[0], anchors), lines[1..], anchors);
      assert MinusRows(lines, out.o, anchors)
          == [Minus(lines[0], At(anchors, out.o))] + MinusRows(lines[1..], out.o + 1, anchors);
    }
  }

  lemma RemovedIs(out: Out, lines: seq<string>, anchors: seq<string>)
    ensures var next := RemovedPart(out, lines, anchors);
            next.rows == out.rows + RemovedRows(lines, out.o, anchors) && next.o == out.o + |lines| && next.n == out.n
  {
    MinusIs(out, lines, anchors);
    if |lines| > 6 {
      var head := AllMinus(out, lines[..2], anchors);
      var marked := PutHidden(head, Deleted(|lines| - 4), |lines| - 4, 0);
      MinusIs(out, lines[..2], anchors);
      MinusIs(marked, lines[|lines| - 2..], anchors);
      hide AllMinus, MinusRows;
      assert RemovedPart(out, lines, anchors) == AllMinus(marked, lines[|lines| - 2..], anchors);
    }
  }

  lemma {:induction false} LinesAre(out: Out, lines: seq<string>, skipMiddle: nat, anchors: seq<string>)
    ensures var next := AllShown(out, Lines(lines), skipMiddle, anchors);
            && next.rows == out.rows + ContextRows(lines, out.n, anchors)
            && next.o == out.o + |lines| && next.n == out.n + |lines|
    decreases |lines|
  {
    if lines == [] {
      assert out.rows + [] == out.rows;
    } else {
      ShownLine(out, lines, skipMiddle, anchors);
      LinesAre(PutContext(out, lines[0], anchors), lines[1..], skipMiddle, anchors);
      assert ContextRows(lines, out.n, anchors)
          == [Context(lines[0], At(anchors, out.n))] + ContextRows(lines[1..], out.n + 1, anchors);
    }
  }

  lemma MiddleIs(out: Out, lines: seq<string>, context: nat, anchors: seq<string>)
    requires |lines| > context * 2
    ensures var next := KeptPart(out, lines, true, true, context, anchors);
            && next.rows == out.rows + KeptRows(lines, out.n, true, true, context, anchors)
            && next.o == out.o + |lines| && next.n == out.n + |lines|
  {
    var mid, tail := |lines| - context * 2, lines[|lines| - context..];
    var head := AllShown(out, Lines(lines[..context]), mid, anchors);
    LinesAre(out, lines[..context], mid, anchors);
    ShownInTwo(out, Lines(lines[..context]), [Gap] + Lines(tail), mid, anchors);
    assert Lines(lines[..context]) + [Gap] + Lines(tail) == Lines(lines[..context]) + ([Gap] + Lines(tail));
    assert ([Gap] + Lines(tail))[1..] == Lines(tail);
    var gap := PutHidden(head, Untouched(mid), mid, mid);
    LinesAre(gap, tail, mid, anchors);
    hide ContextRows;
    assert KeptPart(out, lines, true, true, context, anchors) == AllShown(gap, Lines(tail), mid, anchors);
  }

  /** A kept part's rows; before another part both cursors pass all its lines. */
  lemma KeptIs(out: Out, lines: seq<string>, after: bool, before: bool, context: nat, anchors: seq<string>)
    ensures var next := KeptPart(out, lines, after, before, context, anchors);
            && next.rows == out.rows + KeptRows(lines, out.n, after, before, context, anchors)
            && (before ==> next.o == out.o + |lines| && next.n == out.n + |lines|)
  {
    var skip := if |lines| > context then |lines| - context else 0;
    if after && before && |lines| > context * 2 {
      MiddleIs(out, lines, context, anchors);
    } else if after {
      LinesAre(out, lines, 0, anchors);
      if |lines| > context { LinesAre(out, lines[..context], 0, anchors); }
    } else if before {
      LinesAre(if skip > 0 then PutHidden(out, Ellipsis, skip, skip) else out, lines[skip..], 0, anchors);
      assert skip == 0 ==> lines[skip..] == lines;
    }
  }

  // ----- the rows of a diff, part by part

  predicate Before(parts: seq<Part>, k: nat)
    requires k < |parts|
  {
    k + 1 < |parts| && IsChange(parts[k + 1])
  }

  predicate After(parts: seq<Part>, k: nat)
  {
    0 < k <= |parts| && IsChange(parts[k - 1])
  }

  /** Part k's rows, at the lines its predecessors leave off. */
  function PartRows(parts: seq<Part>, k: nat, context: nat, oldAnchors: seq<string>, newAnchors: seq<string>): seq<Row>
    requires k < |parts|
  {
    var o, n := |OldOf(parts[..k])|, |NewOf(parts[..k])|;
    match parts[k].kind
    case Added => PlusRows(parts[k].lines, n, newAnchors)
    case Removed => RemovedRows(parts[k].lines, o, oldAnchors)
    case Kept => KeptRows(parts[k].lines, n, After(parts, k), Before(parts, k), context, newAnchors)
  }

  function RowsTo(parts: seq<Part>, k: nat, context: nat, oldAnchors: seq<string>, newAnchors: seq<string>): seq<Row>
    requires k <= |parts|
  {
    if k == 0 then []
    else RowsTo(parts, k - 1, context, oldAnchors, newAnchors) + PartRows(parts, k - 1, context, oldAnchors, newAnchors)
  }

  /** Old lines of a part, and new ones. */
  function OldLines(p: Part): nat
  {
    if p.kind == Added then 0 else |p.lines|
  }

  function NewLines(p: Part): nat
  {
    if p.kind == Removed then 0 else |p.lines|
  }

  lemma {:induction false} CountsGrow(parts: seq<Part>, last: Part)
    ensures |OldOf(parts + [last])| == |OldOf(parts)| + OldLines(last)
    ensures |NewOf(parts + [last])| == |NewOf(parts)| + NewLines(last)
  {
    if parts == [] {
      assert parts + [last] == [last] && [last][1..] == [];
    } else {
      CountsGrow(parts[1..], last);
      assert (parts + [last])[1..] == parts[1..] + [last] && (parts + [last])[0] == parts[0];
    }
  }

  lemma PrefixCounts(parts: seq<Part>, k: nat)
    requires k < |parts|
    ensures |OldOf(parts[..k + 1])| == |OldOf(parts[..k])| + OldLines(parts[k])
    ensures |NewOf(parts[..k + 1])| == |NewOf(parts[..k])| + NewLines(parts[k])
  {
    assert parts[..k + 1] == parts[..k] + [parts[k]];
    CountsGrow(parts[..k], parts[k]);
  }

  lemma {:induction false} DiffAt(parts: seq<Part>, k: nat)
    requires Diff(parts) && k < |parts|
    ensures parts[k].lines != [] && (k + 1 < |parts| && parts[k].kind == Kept ==> IsChange(parts[k + 1]))
  {
    if k > 0 { DiffAt(parts[1..], k - 1); }
  }

  /** The state after k parts: their rows, and both cursors where they leave off. */
  ghost predicate Stood(st: State, parts: seq<Part>, k: nat, context: nat, oldAnchors: seq<string>,
                        newAnchors: seq<string>)
    requires k <= |parts|
  {
    && st.out.rows == RowsTo(parts, k, context, oldAnchors, newAnchors) && st.lastWasChange == After(parts, k)
    && (k < |parts| ==> st.out.o == |OldOf(parts[..k])| && st.out.n == |NewOf(parts[..k])|)
  }

  /** One part: its rows, and the cursors past its lines when another part follows. */
  lemma PartOut(st: State, part: Part, before: bool, context: nat, oldAnchors: seq<string>, newAnchors: seq<string>)
    ensures var next := Project1(st, part, before, context, oldAnchors, newAnchors);
            && next.lastWasChange == IsChange(part)
            && next.out.rows == st.out.rows + OnePart(part, st, before, context, oldAnchors, newAnchors)
            && (before || IsChange(part) ==>
                  next.out.o == st.out.o + OldLines(part) && next.out.n == st.out.n + NewLines(part))
  {
    match part.kind {
      case Added => PlusIs(st.out, part.lines, newAnchors);
      case Removed => RemovedIs(st.out, part.lines, oldAnchors);
      case Kept => KeptIs(st.out, part.lines, st.lastWasChange, before, context, newAnchors);
    }
    hide AllPlus, RemovedPart, KeptPart, PlusRows, RemovedRows, KeptRows;
  }

  function OnePart(part: Part, st: State, before: bool, context: nat, oldAnchors: seq<string>, newAnchors: seq<string>):
    seq<Row>
  {
    match part.kind
    case Added => PlusRows(part.lines, st.out.n, newAnchors)
    case Removed => RemovedRows(part.lines, st.out.o, oldAnchors)
    case Kept => KeptRows(part.lines, st.out.n, st.lastWasChange, before, context, newAnchors)
  }

  lemma PartStands(st: State, parts: seq<Part>, k: nat, context: nat, oldAnchors: seq<string>, newAnchors: seq<string>)
    requires Diff(parts) && k < |parts| && Stood(st, parts, k, context, oldAnchors, newAnchors)
    ensures var next := Project1(st, parts[k], Before(parts, k), context, oldAnchors, newAnchors);
            Stood(next, parts, k + 1, context, oldAnchors, newAnchors)
  {
    DiffAt(parts, k);
    PrefixCounts(parts, k);
    PartOut(st, parts[k], Before(parts, k), context, oldAnchors, newAnchors);
    hide Project1, PlusRows, RemovedRows, KeptRows, OldOf, NewOf, Diff;
  }

  lemma {:induction false} ProjectStands(st: State, parts: seq<Part>, k: nat, context: nat, oldAnchors: seq<string>,
                                         newAnchors: seq<string>)
    requires Diff(parts) && k <= |parts| && Stood(st, parts, k, context, oldAnchors, newAnchors)
    ensures Stood(Project(st, parts[k..], context, oldAnchors, newAnchors), parts, |parts|, context, oldAnchors,
                  newAnchors)
    decreases |parts| - k
  {
    hide Stood, Project1;
    if k < |parts| {
      PartStands(st, parts, k, context, oldAnchors, newAnchors);
      assert parts[k..][1..] == parts[k + 1..];
      assert Before(parts, k) == (|parts[k..]| > 1 && IsChange(parts[k..][1]));
      ProjectStands(Project1(st, parts[k], Before(parts, k), context, oldAnchors, newAnchors), parts, k + 1, context,
                    oldAnchors, newAnchors);
    }
  }

  /** For every line diff the rows are those of its parts, one after the other, each at its own lines. */
  lemma DiffRowsAre(parts: seq<Part>, context: nat, oldAnchors: seq<string>, newAnchors: seq<string>)
    requires Diff(parts)
    ensures Project(START, parts, context, oldAnchors, newAnchors).out.rows
         == RowsTo(parts, |parts|, context, oldAnchors, newAnchors)
  {
    assert parts[..0] == [] && parts[0..] == parts;
    ProjectStands(START, parts, 0, context, oldAnchors, newAnchors);
  }

  // ----- the tight bracket

  ghost predicate NoneChanges(parts: seq<Part>, from: nat, to: nat)
    requires to <= |parts|
  {
    forall k :: from <= k < to ==> !IsChange(parts[k])
  }

  /** The new line where a change ends: its last added line, or the place a removal sat. */
  function EndOf(parts: seq<Part>, k: nat): nat
    requires k < |parts|
  {
    if parts[k].kind == Added then |NewOf(parts[..k + 1])| else |NewOf(parts[..k])| + 1
  }

  /** Among the first k parts, the new line the first change stands at. */
  function FirstTo(parts: seq<Part>, k: nat): Option<nat>
    requires k <= |parts|
  {
    if k == 0 then None
    else if FirstTo(parts, k - 1).Some? then FirstTo(parts, k - 1)
    else if IsChange(parts[k - 1]) then Some(|NewOf(parts[..k - 1])| + 1) else None
  }

  /** Among the first k parts, the new line the last change ends at, not before the first one. */
  function LastTo(parts: seq<Part>, k: nat): (last: Option<nat>)
    requires k <= |parts|
  {
    if k == 0 then None
    else if IsChange(parts[k - 1]) then
      var first, end := FirstTo(parts, k).value, EndOf(parts, k - 1);
      Some(if end < first then first else end)
    else LastTo(parts, k - 1)
  }

  lemma {:induction false} FirstToIs(parts: seq<Part>, k: nat, i: nat)
    requires i < k <= |parts| && IsChange(parts[i]) && NoneChanges(parts, 0, i)
    ensures FirstTo(parts, k) == Some(|NewOf(parts[..i])| + 1)
  {
    if k == i + 1 { NoneFirst(parts, i); } else { FirstToIs(parts, k - 1, i); }
  }

  lemma {:induction false} NoneFirst(parts: seq<Part>, i: nat)
    requires i <= |parts| && NoneChanges(parts, 0, i)
    ensures FirstTo(parts, i).None?
  {
    if i > 0 { NoneFirst(parts, i - 1); }
  }

  lemma {:induction false} LastToIs(parts: seq<Part>, k: nat, j: nat, first: nat)
    requires j < k <= |parts| && IsChange(parts[j]) && NoneChanges(parts, j + 1, k)
             && FirstTo(parts, j + 1) == Some(first)
    ensures LastTo(parts, k) == Some(if EndOf(parts, j) < first then first else EndOf(parts, j))
  {
    if k > j + 1 { LastToIs(parts, k - 1, j, first); }
  }

  ghost predicate BracketIs(st: State, parts: seq<Part>, k: nat)
    requires k <= |parts|
  {
    st.first == FirstTo(parts, k) && st.last == LastTo(parts, k)
  }

  /** What one part does to the bracket. */
  lemma PartEnds(st: State, part: Part, before: bool, context: nat, oldAnchors: seq<string>, newAnchors: seq<string>)
    ensures var next := Project1(st, part, before, context, oldAnchors, newAnchors);
            if !IsChange(part) then next.first == st.first && next.last == st.last
            else
              var first := if st.first.Some? then st.first.value else st.out.n + 1;
              var end := if part.kind == Added then st.out.n + |part.lines| else st.out.n + 1;
              next.first == Some(first) && next.last == Some(if end < first then first else end)
  {
    PartOut(st, part, before, context, oldAnchors, newAnchors);
  }

  lemma ToStep(parts: seq<Part>, k: nat)
    requires k < |parts|
    ensures FirstTo(parts, k + 1) == if FirstTo(parts, k).Some? then FirstTo(parts, k)
                                     else if IsChange(parts[k]) then Some(|NewOf(parts[..k])| + 1) else None
    ensures LastTo(parts, k + 1) == if !IsChange(parts[k]) then LastTo(parts, k)
                                    else
                                      var first, end := FirstTo(parts, k + 1).value, EndOf(parts, k);
                                      Some(if end < first then first else end)
  {
    hide NewOf;
  }

  lemma PartBrackets(st: State, parts: seq<Part>, k: nat, context: nat, oldAnchors: seq<string>,
                     newAnchors: seq<string>)
    requires k < |parts| && st.out.n == |NewOf(parts[..k])| && BracketIs(st, parts, k)
    ensures BracketIs(Project1(st, parts[k], Before(parts, k), context, oldAnchors, newAnchors), parts, k + 1)
  {
    hide Project1, OldOf, NewOf, FirstTo, LastTo;
    PrefixCounts(parts, k);
    PartEnds(st, parts[k], Before(parts, k), context, oldAnchors, newAnchors);
    ToStep(parts, k);
  }

  lemma {:induction false} ProjectBracketIs(st: State, parts: seq<Part>, k: nat, context: nat, oldAnchors: seq<string>,
                                            newAnchors: seq<string>)
    requires Diff(parts) && k <= |parts| && Stood(st, parts, k, context, oldAnchors, newAnchors)
             && BracketIs(st, parts, k)
    ensures BracketIs(Project(st, parts[k..], context, oldAnchors, newAnchors), parts, |parts|)
    decreases |parts| - k
  {
    hide Project1, BracketIs, RowsTo, OldOf, NewOf, Diff;
    if k < |parts| {
      PartStands(st, parts, k, context, oldAnchors, newAnchors);
      PartBrackets(st, parts, k, context, oldAnchors, newAnchors);
      assert parts[k..][1..] == parts[k + 1..];
      assert Before(parts, k) == (|parts[k..]| > 1 && IsChange(parts[k..][1]));
      ProjectBracketIs(Project1(st, parts[k], Before(parts, k), context, oldAnchors, newAnchors), parts, k + 1, context,
                       oldAnchors, newAnchors);
    }
  }

  /**
   * The bracket is tight: with part i the first change and part j the last, `first` is the new line right after the
   * parts before i, and `last` the new line where j ends, or `first` when that is further on.
   */
  lemma BracketIsTight(parts: seq<Part>, context: nat, oldAnchors: seq<string>, newAnchors: seq<string>, i: nat, j: nat)
    requires Diff(parts) && i < |parts| && j < |parts| && IsChange(parts[i]) && IsChange(parts[j])
    requires NoneChanges(parts, 0, i) && NoneChanges(parts, j + 1, |parts|)
    ensures var st, first := Project(START, parts, context, oldAnchors, newAnchors), |NewOf(parts[..i])| + 1;
            && st.first == Some(first)
            && st.last == Some(if EndOf(parts, j) < first then first else EndOf(parts, j))
  {
    assert parts[..0] == [] && parts[0..] == parts;
    ProjectBracketIs(START, parts, 0, context, oldAnchors, newAnchors);
    assert i <= j;
    FirstToIs(parts, |parts|, i);
    FirstToIs(parts, j + 1, i);
    LastToIs(parts, |parts|, j, |NewOf(parts[..i])| + 1);
  }
}
