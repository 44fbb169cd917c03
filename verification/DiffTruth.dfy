/** The projection tells the truth: its rows, read from the top, rebuild both cursors and both files. */
module DiffTruth {

  import opened DiffProjection

  datatype Files = Files(was: seq<string>, now: seq<string>, oldAnchors: seq<string>, newAnchors: seq<string>)

  /** The lines stand in the file from line `at` on. */
  ghost predicate Stands(file: seq<string>, at: nat, lines: seq<string>)
  {
    at + |lines| <= |file| && forall i :: 0 <= i < |lines| ==> file[at + i] == lines[i]
  }

  /** The two files agree on k lines from o and n on. */
  ghost predicate Agree(f: Files, o: int, n: int, k: nat)
  {
    0 <= o <= o + k <= |f.was| && 0 <= n <= n + k <= |f.now| && f.was[o..o + k] == f.now[n..n + k]
  }

  /**
   * Reading the rows from the top, every row stands at its own cursor with that line's text and anchor, every
   * marker hides exactly its count, and the cursors end at old line o and new line n.
   */
  ghost predicate Reaches(rows: seq<Row>, o: int, n: int, f: Files)
    decreases |rows|
  {
    if rows == [] then o == 0 && n == 0
    else
      var before := rows[..|rows| - 1];
      match rows[|rows| - 1]
      case Plus(line, a) => 0 < n <= |f.now| && line == f.now[n - 1] && a == At(f.newAnchors, n - 1)
          && Reaches(before, o, n - 1, f)
      case Minus(line, a) => 0 < o <= |f.was| && line == f.was[o - 1] && a == At(f.oldAnchors, o - 1)
          && Reaches(before, o - 1, n, f)
      case Context(line, a) =>
        && Agree(f, o - 1, n - 1, 1) && line == f.now[n - 1] && a == At(f.newAnchors, n - 1)
        && Reaches(before, o - 1, n - 1, f)
      case Untouched(k) => Agree(f, o - k, n - k, k) && Reaches(before, o - k, n - k, f)
      case Deleted(k) => k <= o <= |f.was| && Reaches(before, o - k, n, f)
      case Ellipsis => before == [] && o == n && n >= 0 && Agree(f, 0, 0, n)
  }

  /** The served rows are the rendered context and addition rows, each at its new-file position. */
  function ServedBy(rows: seq<Row>, n: int): seq<Served>
    decreases |rows|
  {
    if rows == [] then []
    else
      var before := rows[..|rows| - 1];
      match rows[|rows| - 1]
      case Plus(_, a) => if n > 0 then Serve(ServedBy(before, n - 1), n - 1, a) else []
      case Context(_, a) => if n > 0 then Serve(ServedBy(before, n - 1), n - 1, a) else []
      case Untouched(k) => ServedBy(before, n - k)
      case Minus(_, _) => ServedBy(before, n)
      case Deleted(_) => ServedBy(before, n)
      case Ellipsis => []
  }

  ghost predicate Good(out: Out, f: Files)
  {
    && out.o <= |f.was| && out.n <= |f.now|
    && Reaches(out.rows, out.o, out.n, f) && out.served == ServedBy(out.rows, out.n)
  }

  lemma MinusGood(out: Out, line: string, f: Files)
    requires Good(out, f) && out.o < |f.was| && line == f.was[out.o]
    ensures Good(PutMinus(out, line, f.oldAnchors), f)
  {
  }

  lemma ContextGood(out: Out, line: string, f: Files)
    requires Good(out, f) && out.o < |f.was| && out.n < |f.now| && line == f.was[out.o] == f.now[out.n]
    ensures Good(PutContext(out, line, f.newAnchors), f)
  {
  }

  lemma UntouchedGood(out: Out, k: nat, f: Files)
    requires Good(out, f) && Agree(f, out.o, out.n, k)
    ensures Good(PutHidden(out, Untouched(k), k, k), f)
  {
  }

  lemma DeletedGood(out: Out, k: nat, f: Files)
    requires Good(out, f) && out.o + k <= |f.was|
    ensures Good(PutHidden(out, Deleted(k), k, 0), f)
  {
  }

  lemma EllipsisGood(k: nat, f: Files)
    requires Agree(f, 0, 0, k)
    ensures Good(PutHidden(START.out, Ellipsis, k, k), f)
  {
  }

  // ----- runs of rows

  lemma {:induction false} AllPlusGood(out: Out, lines: seq<string>, f: Files)
    requires Good(out, f) && Stands(f.now, out.n, lines)
    ensures var next := AllPlus(out, lines, f.newAnchors);
            Good(next, f) && next.o == out.o && next.n == out.n + |lines|
    decreases |lines|
  {
    if lines != [] {
      AllPlusGood(PutPlus(out, lines[0], f.newAnchors), lines[1..], f);
    }
  }

  lemma {:induction false} AllMinusGood(out: Out, lines: seq<string>, f: Files)
    requires Good(out, f) && Stands(f.was, out.o, lines)
    ensures var next := AllMinus(out, lines, f.oldAnchors);
            Good(next, f) && next.n == out.n && next.o == out.o + |lines|
    decreases |lines|
  {
    if lines != [] {
      MinusGood(out, lines[0], f);
      AllMinusGood(PutMinus(out, lines[0], f.oldAnchors), lines[1..], f);
    }
  }

  lemma RemovedPartGood(out: Out, lines: seq<string>, f: Files)
    requires Good(out, f) && Stands(f.was, out.o, lines)
    ensures var next := RemovedPart(out, lines, f.oldAnchors);
            Good(next, f) && next.n == out.n && next.o == out.o + |lines|
  {
    hide Reaches, ServedBy, AllMinus;
    if |lines| <= DIFF_REMOVED_CAP {
      AllMinusGood(out, lines, f);
    } else {
      var omitted := |lines| - DIFF_REMOVED_EDGE * 2;
      var head := AllMinus(out, lines[..DIFF_REMOVED_EDGE], f.oldAnchors);
      AllMinusGood(out, lines[..DIFF_REMOVED_EDGE], f);
      DeletedGood(head, omitted, f);
      AllMinusGood(PutHidden(head, Deleted(omitted), omitted, 0), lines[|lines| - DIFF_REMOVED_EDGE..], f);
    }
  }

  lemma ShownLine(out: Out, lines: seq<string>, skipMiddle: nat, newAnchors: seq<string>)
    requires lines != []
    ensures AllShown(out, Lines(lines), skipMiddle, newAnchors)
            == AllShown(PutContext(out, lines[0], newAnchors), Lines(lines[1..]), skipMiddle, newAnchors)
  {
  }

  lemma {:induction false} LinesGood(out: Out, lines: seq<string>, skipMiddle: nat, f: Files)
    requires Good(out, f) && Stands(f.now, out.n, lines) && Stands(f.was, out.o, lines)
    ensures var next := AllShown(out, Lines(lines), skipMiddle, f.newAnchors);
            Good(next, f) && next.n == out.n + |lines| && next.o == out.o + |lines|
    decreases |lines|
  {
    hide Reaches, ServedBy;
    if lines != [] {
      ContextGood(out, lines[0], f);
      ShownLine(out, lines, skipMiddle, f.newAnchors);
      LinesGood(PutContext(out, lines[0], f.newAnchors), lines[1..], skipMiddle, f);
    }
  }

  lemma {:induction false} ShownInTwo(out: Out, a: seq<Shown>, b: seq<Shown>, skipMiddle: nat, newAnchors: seq<string>)
    ensures AllShown(out, a + b, skipMiddle, newAnchors)
            == AllShown(AllShown(out, a, skipMiddle, newAnchors), b, skipMiddle, newAnchors)
    decreases |a|
  {
    if a == [] {
      assert a + b == b;
    } else {
      assert (a + b)[1..] == a[1..] + b && (a + b)[0] == a[0];
      match a[0]
      case Line(text) => ShownInTwo(PutContext(out, text, newAnchors), a[1..], b, skipMiddle, newAnchors);
      case Gap => ShownInTwo(PutHidden(out, Untouched(skipMiddle), skipMiddle, skipMiddle), a[1..], b, skipMiddle,
                             newAnchors);
    }
  }

  lemma StandsPart(file: seq<string>, at: nat, lines: seq<string>, from: nat, to: nat)
    requires Stands(file, at, lines) && from <= to <= |lines|
    ensures Stands(file, at + from, lines[from..to])
  {
  }

  lemma StandsSlice(file: seq<string>, at: nat, lines: seq<string>)
    requires Stands(file, at, lines)
    ensures file[at..at + |lines|] == lines
  {
  }

  lemma StandsAgree(f: Files, o: nat, n: nat, lines: seq<string>, from: nat, k: nat)
    requires Stands(f.now, n, lines) && Stands(f.was, o, lines) && from + k <= |lines|
    ensures Agree(f, o + from, n + from, k)
  {
    StandsPart(f.now, n, lines, from, from + k);
    StandsPart(f.was, o, lines, from, from + k);
    StandsSlice(f.now, n + from, lines[from..from + k]);
    StandsSlice(f.was, o + from, lines[from..from + k]);
  }

  /** A collapsed middle: head, counted marker, tail. */
  lemma MiddleSplits(out: Out, lines: seq<string>, context: nat, newAnchors: seq<string>)
    requires |lines| > context * 2
    ensures var mid := |lines| - context * 2;
            var head := AllShown(out, Lines(lines[..context]), mid, newAnchors);
            KeptPart(out, lines, true, true, context, newAnchors)
            == AllShown(PutHidden(head, Untouched(mid), mid, mid), Lines(lines[|lines| - context..]), mid, newAnchors)
  {
    var mid := |lines| - context * 2;
    var a, b := Lines(lines[..context]), Lines(lines[|lines| - context..]);
    ShownInTwo(out, a + [Gap], b, mid, newAnchors);
    ShownInTwo(out, a, [Gap], mid, newAnchors);
    var head := AllShown(out, a, mid, newAnchors);
    assert AllShown(head, [Gap], mid, newAnchors) == PutHidden(head, Untouched(mid), mid, mid);
  }

  lemma MiddleGood(out: Out, lines: seq<string>, context: nat, f: Files)
    requires Good(out, f) && Stands(f.now, out.n, lines) && Stands(f.was, out.o, lines) && |lines| > context * 2
    ensures var next := KeptPart(out, lines, true, true, context, f.newAnchors);
            Good(next, f) && next.n == out.n + |lines| && next.o == out.o + |lines|
  {
    var mid := |lines| - context * 2;
    MiddleSplits(out, lines, context, f.newAnchors);
    var head := HeadGood(out, lines, context, mid, f);
    var gap := GapGood(out, lines, context, mid, head, f);
    TailGood(gap, out.o, out.n, lines, |lines| - context, mid, f);
  }

  lemma GapGood(out: Out, lines: seq<string>, context: nat, mid: nat, head: Out, f: Files) returns (gap: Out)
    requires Stands(f.now, out.n, lines) && Stands(f.was, out.o, lines) && context + mid <= |lines|
    requires Good(head, f) && head.n == out.n + context && head.o == out.o + context
    ensures gap == PutHidden(head, Untouched(mid), mid, mid)
    ensures Good(gap, f) && gap.n == out.n + (context + mid) && gap.o == out.o + (context + mid)
  {
    StandsAgree(f, out.o, out.n, lines, context, mid);
    UntouchedGood(head, mid, f);
    gap := PutHidden(head, Untouched(mid), mid, mid);
  }

  lemma TailGood(gap: Out, o: nat, n: nat, lines: seq<string>, cut: nat, mid: nat, f: Files)
    requires Stands(f.now, n, lines) && Stands(f.was, o, lines) && cut <= |lines|
    requires Good(gap, f) && gap.n == n + cut && gap.o == o + cut
    ensures var next := AllShown(gap, Lines(lines[cut..]), mid, f.newAnchors);
            Good(next, f) && next.n == n + |lines| && next.o == o + |lines|
  {
    StandsDrop(f.now, n, lines, cut);
    StandsDrop(f.was, o, lines, cut);
    LinesGood(gap, lines[cut..], mid, f);
  }

  lemma StandsDrop(file: seq<string>, at: nat, lines: seq<string>, from: nat)
    requires Stands(file, at, lines) && from <= |lines|
    ensures Stands(file, at + from, lines[from..])
  {
  }

  lemma HeadGood(out: Out, lines: seq<string>, context: nat, mid: nat, f: Files) returns (head: Out)
    requires Good(out, f) && Stands(f.now, out.n, lines) && Stands(f.was, out.o, lines) && context <= |lines|
    ensures head == AllShown(out, Lines(lines[..context]), mid, f.newAnchors)
    ensures Good(head, f) && head.n == out.n + context && head.o == out.o + context
  {
    StandsPart(f.now, out.n, lines, 0, context);
    StandsPart(f.was, out.o, lines, 0, context);
    LinesGood(out, lines[..context], mid, f);
    head := AllShown(out, Lines(lines[..context]), mid, f.newAnchors);
  }

  lemma WholeGood(out: Out, lines: seq<string>, nextIsChange: bool, context: nat, f: Files)
    requires Good(out, f) && Stands(f.now, out.n, lines) && Stands(f.was, out.o, lines)
    requires if nextIsChange then |lines| <= context * 2 else |lines| <= context
    ensures var next := KeptPart(out, lines, true, nextIsChange, context, f.newAnchors);
            Good(next, f) && next.n == out.n + |lines| && next.o == out.o + |lines|
  {
    LinesGood(out, lines, 0, f);
  }

  /** A cut trailing context leaves the cursors short of the end, on equal remainders. */
  lemma TrailingGood(out: Out, lines: seq<string>, context: nat, f: Files)
    requires Good(out, f) && Stands(f.now, out.n, lines) && Stands(f.was, out.o, lines) && |lines| > context
    ensures var next := KeptPart(out, lines, true, false, context, f.newAnchors);
            Good(next, f) && next.n == out.n + context && next.o == out.o + context
  {
    StandsPart(f.now, out.n, lines, 0, context);
    StandsPart(f.was, out.o, lines, 0, context);
    LinesGood(out, lines[..context], 0, f);
  }

  lemma LeadingGood(lines: seq<string>, context: nat, f: Files)
    requires Stands(f.now, 0, lines) && Stands(f.was, 0, lines)
    ensures var next := KeptPart(START.out, lines, false, true, context, f.newAnchors);
            Good(next, f) && next.n == |lines| && next.o == |lines|
  {
    var skip := if |lines| > context then |lines| - context else 0;
    StandsDrop(f.now, 0, lines, skip);
    StandsDrop(f.was, 0, lines, skip);
    StandsAgree(f, 0, 0, lines, 0, skip);
    if skip > 0 {
      EllipsisGood(skip, f);
      LinesGood(PutHidden(START.out, Ellipsis, skip, skip), lines[skip..], 0, f);
    } else {
      LinesGood(START.out, lines[skip..], 0, f);
    }
  }

  // ----- the whole projection

  function OldOf(parts: seq<Part>): seq<string>
  {
    if parts == [] then [] else (if parts[0].kind == Added then [] else parts[0].lines) + OldOf(parts[1..])
  }

  function NewOf(parts: seq<Part>): seq<string>
  {
    if parts == [] then [] else (if parts[0].kind == Removed then [] else parts[0].lines) + NewOf(parts[1..])
  }

  /** A line diff: no part is empty and no two kept parts touch. */
  ghost predicate Diff(parts: seq<Part>)
  {
    parts == []
    || (parts[0].lines != [] && (|parts| > 1 && parts[0].kind == Kept ==> IsChange(parts[1])) && Diff(parts[1..]))
  }

  /** The state before the remaining parts: truthful rows, and the rest of both files still to come. */
  ghost predicate Ready(st: State, parts: seq<Part>, f: Files)
  {
    && Good(st.out, f) && f.was[st.out.o..] == OldOf(parts) && f.now[st.out.n..] == NewOf(parts) && Diff(parts)
    && (parts != [] && parts[0].kind == Kept && !st.lastWasChange ==> st == START)
  }

  lemma Peel(file: seq<string>, at: nat, lines: seq<string>, rest: seq<string>)
    requires at <= |file| && file[at..] == lines + rest
    ensures Stands(file, at, lines) && file[at + |lines|..] == rest
  {
  }

  lemma ChangeReady(st: State, parts: seq<Part>, context: nat, f: Files)
    requires parts != [] && Ready(st, parts, f) && IsChange(parts[0])
    ensures Ready(Project1(st, parts[0], |parts| > 1 && IsChange(parts[1]), context, f.oldAnchors, f.newAnchors),
                  parts[1..], f)
  {
    hide Reaches, ServedBy, AllPlus, RemovedPart;
    var lines := parts[0].lines;
    if parts[0].kind == Added {
      assert OldOf(parts) == OldOf(parts[1..]);
      Peel(f.now, st.out.n, lines, NewOf(parts[1..]));
      AllPlusGood(st.out, lines, f);
    } else {
      assert NewOf(parts) == NewOf(parts[1..]);
      Peel(f.was, st.out.o, lines, OldOf(parts[1..]));
      RemovedPartGood(st.out, lines, f);
    }
  }

  lemma KeptReady(st: State, parts: seq<Part>, context: nat, f: Files)
    requires |parts| > 1 && Ready(st, parts, f) && parts[0].kind == Kept
    ensures Ready(Project1(st, parts[0], true, context, f.oldAnchors, f.newAnchors), parts[1..], f)
  {
    hide Reaches, ServedBy, KeptPart;
    var lines := parts[0].lines;
    Peel(f.now, st.out.n, lines, NewOf(parts[1..]));
    Peel(f.was, st.out.o, lines, OldOf(parts[1..]));
    if !st.lastWasChange {
      LeadingGood(lines, context, f);
    } else if |lines| > context * 2 {
      MiddleGood(st.out, lines, context, f);
    } else {
      WholeGood(st.out, lines, true, context, f);
    }
  }

  /** The rows and served rows explain the two files: cursor-exact rows, mirrored serves, equal remainders. */
  ghost predicate Explains(rows: seq<Row>, served: seq<Served>, f: Files)
  {
    exists o: nat, n: nat :: ExplainsFrom(rows, served, f, o, n)
  }

  ghost predicate ExplainsFrom(rows: seq<Row>, served: seq<Served>, f: Files, o: nat, n: nat)
  {
    && o <= |f.was| && n <= |f.now| && Reaches(rows, o, n, f) && served == ServedBy(rows, n)
    && f.was[o..] == f.now[n..]
  }

  lemma LastKeptExplains(st: State, parts: seq<Part>, context: nat, f: Files)
    requires |parts| == 1 && Ready(st, parts, f) && parts[0].kind == Kept
    ensures var out := KeptPart(st.out, parts[0].lines, st.lastWasChange, false, context, f.newAnchors);
            Explains(out.rows, out.served, f)
  {
    var lines := parts[0].lines;
    LastPart(parts);
    Peel(f.now, st.out.n, lines, []);
    Peel(f.was, st.out.o, lines, []);
    if st.lastWasChange {
      TailExplains(st.out, lines, context, f);
    } else {
      StandsSlice(f.now, 0, lines);
      StandsSlice(f.was, 0, lines);
      assert ExplainsFrom([], [], f, 0, 0);
    }
  }

  lemma LastPart(parts: seq<Part>)
    requires |parts| == 1 && parts[0].kind == Kept
    ensures NewOf(parts) == parts[0].lines + [] && OldOf(parts) == parts[0].lines + []
  {
  }

  lemma EqualRemainders(f: Files, o: nat, n: nat, k: nat)
    requires Agree(f, o, n, k) && o + k == |f.was| && n + k == |f.now|
    ensures f.was[o..] == f.now[n..]
  {
  }

  lemma TailExplains(out: Out, lines: seq<string>, context: nat, f: Files)
    requires Good(out, f) && Stands(f.now, out.n, lines) && Stands(f.was, out.o, lines)
    requires out.n + |lines| == |f.now| && out.o + |lines| == |f.was|
    ensures var next := KeptPart(out, lines, true, false, context, f.newAnchors); Explains(next.rows, next.served, f)
  {
    hide Reaches, ServedBy, KeptPart;
    var next := KeptPart(out, lines, true, false, context, f.newAnchors);
    if |lines| <= context {
      WholeGood(out, lines, false, context, f);
    } else {
      TrailingGood(out, lines, context, f);
      StandsAgree(f, out.o, out.n, lines, context, |lines| - context);
      EqualRemainders(f, next.o, next.n, |lines| - context);
    }
    assert ExplainsFrom(next.rows, next.served, f, next.o, next.n);
  }

  lemma {:induction false} ProjectExplains(st: State, parts: seq<Part>, context: nat, f: Files)
    requires Ready(st, parts, f)
    ensures var out := Project(st, parts, context, f.oldAnchors, f.newAnchors).out; Explains(out.rows, out.served, f)
    decreases |parts|
  {
    if parts == [] {
      assert ExplainsFrom(st.out.rows, st.out.served, f, st.out.o, st.out.n);
    } else if |parts| == 1 && parts[0].kind == Kept {
      LastKeptExplains(st, parts, context, f);
    } else {
      var next := Project1(st, parts[0], |parts| > 1 && IsChange(parts[1]), context, f.oldAnchors, f.newAnchors);
      if IsChange(parts[0]) { ChangeReady(st, parts, context, f); } else { KeptReady(st, parts, context, f); }
      ProjectExplains(next, parts[1..], context, f);
    }
  }

  /** For every line diff and every context width, the projection is a truthful account of the two files. */
  lemma DiffIsCursorExact(parts: seq<Part>, context: nat, oldAnchors: seq<string>, newAnchors: seq<string>)
    requires Diff(parts)
    ensures var out := Project(START, parts, context, oldAnchors, newAnchors).out;
            Explains(out.rows, out.served, Files(OldOf(parts), NewOf(parts), oldAnchors, newAnchors))
  {
    var f := Files(OldOf(parts), NewOf(parts), oldAnchors, newAnchors);
    assert f.was[0..] == f.was && f.now[0..] == f.now;
    ProjectExplains(START, parts, context, f);
  }
}
