/** The diff projection: two cursors over the old and the new file, collapsed context and counted markers. */
module DiffProjection {

  import opened Options

  datatype Kind = Kept | Added | Removed

  datatype Part = Part(kind: Kind, lines: seq<string>)

  datatype Row =
    | Plus(line: string, anchor: Option<string>)
    | Minus(line: string, anchor: Option<string>)
    | Context(line: string, anchor: Option<string>)
    | Ellipsis
    | Untouched(count: nat)
    | Deleted(count: nat)

  datatype Served = Served(position: nat, anchor: string)

  const DIFF_REMOVED_CAP := 6
  const DIFF_REMOVED_EDGE := 2

  function At(anchors: seq<string>, i: nat): Option<string>
  {
    if i < |anchors| then Some(anchors[i]) else None
  }

  // ----- what the loops compute

  /** Rows and served rows so far, and how many old and new lines the cursors have passed. */
  datatype Out = Out(rows: seq<Row>, served: seq<Served>, o: nat, n: nat)

  function Serve(served: seq<Served>, n: nat, anchor: Option<string>): seq<Served>
  {
    if anchor.Some? then served + [Served(n, anchor.value)] else served
  }

  function PutPlus(out: Out, line: string, newAnchors: seq<string>): Out
  {
    var a := At(newAnchors, out.n);
    Out(out.rows + [Plus(line, a)], Serve(out.served, out.n, a), out.o, out.n + 1)
  }

  function PutMinus(out: Out, line: string, oldAnchors: seq<string>): Out
  {
    out.(rows := out.rows + [Minus(line, At(oldAnchors, out.o))], o := out.o + 1)
  }

  function PutContext(out: Out, line: string, newAnchors: seq<string>): Out
  {
    var a := At(newAnchors, out.n);
    Out(out.rows + [Context(line, a)], Serve(out.served, out.n, a), out.o + 1, out.n + 1)
  }

  function PutHidden(out: Out, row: Row, o: nat, n: nat): Out
  {
    out.(rows := out.rows + [row], o := out.o + o, n := out.n + n)
  }

  function AllPlus(out: Out, lines: seq<string>, newAnchors: seq<string>): Out
    decreases |lines|
  {
    if lines == [] then out else AllPlus(PutPlus(out, lines[0], newAnchors), lines[1..], newAnchors)
  }

  function AllMinus(out: Out, lines: seq<string>, oldAnchors: seq<string>): Out
    decreases |lines|
  {
    if lines == [] then out else AllMinus(PutMinus(out, lines[0], oldAnchors), lines[1..], oldAnchors)
  }

  function RemovedPart(out: Out, lines: seq<string>, oldAnchors: seq<string>): Out
  {
    if |lines| <= DIFF_REMOVED_CAP then AllMinus(out, lines, oldAnchors)
    else
      var omitted := |lines| - DIFF_REMOVED_EDGE * 2;
      var head := AllMinus(out, lines[..DIFF_REMOVED_EDGE], oldAnchors);
      AllMinus(PutHidden(head, Deleted(omitted), omitted, 0), lines[|lines| - DIFF_REMOVED_EDGE..], oldAnchors)
  }

  /** An entry of the context to show: a line, or the marker of the collapsed middle. */
  datatype Shown = Line(text: string) | Gap

  datatype Window = Window(show: seq<Shown>, skipStart: nat, skipMiddle: nat)

  function Lines(lines: seq<string>): (s: seq<Shown>)
    ensures |s| == |lines|
  {
    if lines == [] then [] else [Line(lines[0])] + Lines(lines[1..])
  }

  function ContextLinesToShow(lines: seq<string>, lastWasChange: bool, nextIsChange: bool, context: nat): Window
  {
    if !lastWasChange then
      var skip := if |lines| > context then |lines| - context else 0;
      Window(Lines(lines[skip..]), skip, 0)
    else if nextIsChange && |lines| > context * 2 then
      Window(Lines(lines[..context]) + [Gap] + Lines(lines[|lines| - context..]), 0, |lines| - context * 2)
    else if !nextIsChange && |lines| > context then
      Window(Lines(lines[..context]), 0, 0)
    else Window(Lines(lines), 0, 0)
  }

  function AllShown(out: Out, show: seq<Shown>, skipMiddle: nat, newAnchors: seq<string>): Out
    decreases |show|
  {
    if show == [] then out
    else match show[0]
      case Line(text) => AllShown(PutContext(out, text, newAnchors), show[1..], skipMiddle, newAnchors)
      case Gap => AllShown(PutHidden(out, Untouched(skipMiddle), skipMiddle, skipMiddle), show[1..], skipMiddle,
                           newAnchors)
  }

  function KeptPart(out: Out, lines: seq<string>, lastWasChange: bool, nextIsChange: bool, context: nat,
                    newAnchors: seq<string>): Out
  {
    if !lastWasChange && !nextIsChange then out.(o := out.o + |lines|, n := out.n + |lines|)
    else
      var w := ContextLinesToShow(lines, lastWasChange, nextIsChange, context);
      AllShown(if w.skipStart > 0 then PutHidden(out, Ellipsis, w.skipStart, w.skipStart)
               else out, w.show, w.skipMiddle, newAnchors)
  }

  datatype State = State(out: Out, lastWasChange: bool, first: Option<nat>, last: Option<nat>)

  const START := State(Out([], [], 0, 0), false, None, None)

  predicate IsChange(p: Part)
  {
    p.kind != Kept
  }

  /** One part; `first` and `last` are 1-indexed line numbers of the new file. */
  function Project1(st: State, part: Part, nextIsChange: bool, context: nat, oldAnchors: seq<string>,
                    newAnchors: seq<string>): State
  {
    if part.kind == Kept then
      State(KeptPart(st.out, part.lines, st.lastWasChange, nextIsChange, context, newAnchors), false, st.first, st.last)
    else
      var first := if st.first.None? then st.out.n + 1 else st.first.value;
      var out := if part.kind == Added then AllPlus(st.out, part.lines, newAnchors)
          else RemovedPart(st.out, part.lines, oldAnchors);
      var last := if part.kind == Added then out.n else out.n + 1;
      State(out, true, Some(first), Some(if last < first then first else last))
  }

  function Project(st: State, parts: seq<Part>, context: nat, oldAnchors: seq<string>, newAnchors: seq<string>): State
    decreases |parts|
  {
    if parts == [] then st
    else Project(Project1(st, parts[0], |parts| > 1 && IsChange(parts[1]), context, oldAnchors, newAnchors),
                 parts[1..], context, oldAnchors, newAnchors)
  }

  // ----- the program

  method PushAddedLines(before: Out, lines: seq<string>, newAnchors: seq<string>) returns (out: Out)
    ensures out == AllPlus(before, lines, newAnchors)
  {
    out := before;
    for k := 0 to |lines|
      invariant AllPlus(out, lines[k..], newAnchors) == AllPlus(before, lines, newAnchors)
    {
      assert lines[k..][1..] == lines[k + 1..];
      out := PutPlus(out, lines[k], newAnchors);
    }
  }

  method EmitRemoved(before: Out, lines: seq<string>, oldAnchors: seq<string>) returns (out: Out)
    ensures out == AllMinus(before, lines, oldAnchors)
  {
    out := before;
    for k := 0 to |lines|
      invariant AllMinus(out, lines[k..], oldAnchors) == AllMinus(before, lines, oldAnchors)
    {
      assert lines[k..][1..] == lines[k + 1..];
      out := PutMinus(out, lines[k], oldAnchors);
    }
  }

  method PushRemovedLines(before: Out, lines: seq<string>, oldAnchors: seq<string>) returns (out: Out)
    ensures out == RemovedPart(before, lines, oldAnchors)
  {
    if |lines| <= DIFF_REMOVED_CAP {
      out := EmitRemoved(before, lines, oldAnchors);
      return;
    }
    var omitted := |lines| - DIFF_REMOVED_EDGE * 2;
    out := EmitRemoved(before, lines[..DIFF_REMOVED_EDGE], oldAnchors);
    out := PutHidden(out, Deleted(omitted), omitted, 0);
    out := EmitRemoved(out, lines[|lines| - DIFF_REMOVED_EDGE..], oldAnchors);
  }

  method PushContext(before: Out, show: seq<Shown>, skipMiddle: nat, newAnchors: seq<string>) returns (out: Out)
    ensures out == AllShown(before, show, skipMiddle, newAnchors)
  {
    out := before;
    for k := 0 to |show|
      invariant AllShown(out, show[k..], skipMiddle, newAnchors) == AllShown(before, show, skipMiddle, newAnchors)
    {
      assert show[k..][1..] == show[k + 1..];
      if show[k].Gap? {
        out := PutHidden(out, Untouched(skipMiddle), skipMiddle, skipMiddle);
      } else {
        out := PutContext(out, show[k].text, newAnchors);
      }
    }
  }

  method GenDiff(parts: seq<Part>, context: nat, oldAnchors: seq<string>, newAnchors: seq<string>)
    returns (rows: seq<Row>, served: seq<Served>, first: Option<nat>, last: Option<nat>)
    ensures var st := Project(START, parts, context, oldAnchors, newAnchors);
            rows == st.out.rows && served == st.out.served && first == st.first && last == st.last
  {
    var out := Out([], [], 0, 0);
    var lastWasChange := false;
    first, last := None, None;
    for i := 0 to |parts|
      invariant Project(State(out, lastWasChange, first, last), parts[i..], context, oldAnchors, newAnchors)
                == Project(START, parts, context, oldAnchors, newAnchors)
    {
      var part := parts[i];
      assert parts[i..][1..] == parts[i + 1..];
      var nextIsChange := i < |parts| - 1 && IsChange(parts[i + 1]);
      assert nextIsChange == (|parts[i..]| > 1 && IsChange(parts[i..][1]));
      if IsChange(part) {
        if first.None? { first := Some(out.n + 1); }
        var at: nat;
        if part.kind == Added {
          out := PushAddedLines(out, part.lines, newAnchors);
          at := out.n;
        } else {
          out := PushRemovedLines(out, part.lines, oldAnchors);
          at := out.n + 1;
        }
        last := Some(if at < first.value then first.value else at);
        lastWasChange := true;
      } else {
        out := PushKept(out, part.lines, lastWasChange, nextIsChange, context, newAnchors);
        lastWasChange := false;
      }
    }
    rows, served := out.rows, out.served;
  }

  method PushKept(before: Out, lines: seq<string>, lastWasChange: bool, nextIsChange: bool, context: nat,
                  newAnchors: seq<string>)
    returns (out: Out)
    ensures out == KeptPart(before, lines, lastWasChange, nextIsChange, context, newAnchors)
  {
    out := before;
    if !lastWasChange && !nextIsChange {
      return out.(o := out.o + |lines|, n := out.n + |lines|);
    }
    var w := ContextLinesToShow(lines, lastWasChange, nextIsChange, context);
    if w.skipStart > 0 { out := PutHidden(out, Ellipsis, w.skipStart, w.skipStart); }
    out := PushContext(out, w.show, w.skipMiddle, newAnchors);
  }
}
