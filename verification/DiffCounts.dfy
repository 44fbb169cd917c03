/**
 * What the projection conserves: deleted lines are all accounted for, added lines all served, and the change is
 * bracketed.
 */
module DiffCounts {

  import opened DiffProjection
  import opened DiffTruth
  import opened Options

  // ----- removed rows and deleted markers

  function Gone(rows: seq<Row>): nat
  {
    if rows == [] then 0
    else Gone(rows[..|rows| - 1]) + match rows[|rows| - 1] case Minus(_, _) => 1 case Deleted(k) => k case _ => 0
  }

  function RemovedLines(parts: seq<Part>): nat
  {
    if parts == [] then 0 else (if parts[0].kind == Removed then |parts[0].lines| else 0) + RemovedLines(parts[1..])
  }

  lemma GoneOfPut(rows: seq<Row>, r: Row)
    ensures Gone(rows + [r]) == Gone(rows) + match r case Minus(_, _) => 1 case Deleted(k) => k case _ => 0
  {
  }

  lemma {:induction false} GoneOfPlus(out: Out, lines: seq<string>, newAnchors: seq<string>)
    ensures Gone(AllPlus(out, lines, newAnchors).rows) == Gone(out.rows)
    decreases |lines|
  {
    if lines != [] {
      GoneOfPut(out.rows, Plus(lines[0], At(newAnchors, out.n)));
      GoneOfPlus(PutPlus(out, lines[0], newAnchors), lines[1..], newAnchors);
    }
  }

  lemma {:induction false} GoneOfMinus(out: Out, lines: seq<string>, oldAnchors: seq<string>)
    ensures Gone(AllMinus(out, lines, oldAnchors).rows) == Gone(out.rows) + |lines|
    decreases |lines|
  {
    if lines != [] {
      GoneOfPut(out.rows, Minus(lines[0], At(oldAnchors, out.o)));
      GoneOfMinus(PutMinus(out, lines[0], oldAnchors), lines[1..], oldAnchors);
    }
  }

  lemma {:induction false} GoneOfShown(out: Out, show: seq<Shown>, skipMiddle: nat, newAnchors: seq<string>)
    ensures Gone(AllShown(out, show, skipMiddle, newAnchors).rows) == Gone(out.rows)
    decreases |show|
  {
    if show != [] {
      match show[0]
      case Line(text) =>
        GoneOfPut(out.rows, Context(text, At(newAnchors, out.n)));
        GoneOfShown(PutContext(out, text, newAnchors), show[1..], skipMiddle, newAnchors);
      case Gap =>
        GoneOfPut(out.rows, Untouched(skipMiddle));
        GoneOfShown(PutHidden(out, Untouched(skipMiddle), skipMiddle, skipMiddle), show[1..], skipMiddle, newAnchors);
    }
  }

  lemma GoneOfRemoved(out: Out, lines: seq<string>, oldAnchors: seq<string>)
    ensures Gone(RemovedPart(out, lines, oldAnchors).rows) == Gone(out.rows) + |lines|
  {
    GoneOfMinus(out, lines, oldAnchors);
    if |lines| > DIFF_REMOVED_CAP {
      var omitted := |lines| - DIFF_REMOVED_EDGE * 2;
      var head := AllMinus(out, lines[..DIFF_REMOVED_EDGE], oldAnchors);
      GoneOfMinus(out, lines[..DIFF_REMOVED_EDGE], oldAnchors);
      GoneOfPut(head.rows, Deleted(omitted));
      GoneOfMinus(PutHidden(head, Deleted(omitted), omitted, 0), lines[|lines| - DIFF_REMOVED_EDGE..], oldAnchors);
    }
  }

  lemma GoneOfKept(out: Out, lines: seq<string>, lastWasChange: bool, nextIsChange: bool, context: nat,
                   newAnchors: seq<string>)
    ensures Gone(KeptPart(out, lines, lastWasChange, nextIsChange, context, newAnchors).rows) == Gone(out.rows)
  {
    var w := ContextLinesToShow(lines, lastWasChange, nextIsChange, context);
    GoneOfPut(out.rows, Ellipsis);
    GoneOfShown(out, w.show, w.skipMiddle, newAnchors);
    GoneOfShown(PutHidden(out, Ellipsis, w.skipStart, w.skipStart), w.show, w.skipMiddle, newAnchors);
  }

  /** Removed rows and deleted-marker counts together are the removed lines, for every part sequence. */
  lemma {:induction false} RemovedAreAccountedFor(st: State, parts: seq<Part>, context: nat, oldAnchors: seq<string>,
                                                  newAnchors: seq<string>)
    ensures Gone(Project(st, parts, context, oldAnchors, newAnchors).out.rows)
            == Gone(st.out.rows) + RemovedLines(parts)
    decreases |parts|
  {
    if parts != [] {
      var nextIsChange := |parts| > 1 && IsChange(parts[1]);
      match parts[0].kind {
        case Added => GoneOfPlus(st.out, parts[0].lines, newAnchors);
        case Removed => GoneOfRemoved(st.out, parts[0].lines, oldAnchors);
        case Kept => GoneOfKept(st.out, parts[0].lines, st.lastWasChange, nextIsChange, context, newAnchors);
      }
      RemovedAreAccountedFor(Project1(st, parts[0], nextIsChange, context, oldAnchors, newAnchors), parts[1..], context,
                             oldAnchors, newAnchors);
    }
  }

  // ----- served rows

  ghost predicate Ascending(served: seq<Served>, below: int)
  {
    served == []
        || (served[|served| - 1].position < below && Ascending(served[..|served| - 1], served[|served| - 1].position))
  }

  lemma {:induction false} AscendingWider(served: seq<Served>, below: int, wider: int)
    requires Ascending(served, below) && below <= wider
    ensures Ascending(served, wider)
  {
  }

  lemma ServeAscends(served: seq<Served>, n: nat, anchor: Option<string>)
    requires Ascending(served, n)
    ensures Ascending(Serve(served, n, anchor), n + 1)
  {
    if anchor.Some? {
      assert (served + [Served(n, anchor.value)])[..|served|] == served;
    } else {
      AscendingWider(served, n, n + 1);
    }
  }

  /** The rows a truthful account serves stand at strictly increasing positions, below the cursor. */
  lemma {:induction false} ServedStrictlyIncrease(rows: seq<Row>, o: int, n: int, f: Files)
    requires Reaches(rows, o, n, f)
    ensures Ascending(ServedBy(rows, n), n)
    decreases |rows|
  {
    hide Serve, At;
    if rows != [] {
      var before := rows[..|rows| - 1];
      match rows[|rows| - 1]
      case Plus(_, a) =>
        ServedStrictlyIncrease(before, o, n - 1, f);
        ServeAscends(ServedBy(before, n - 1), n - 1, a);
      case Context(_, a) =>
        ServedStrictlyIncrease(before, o - 1, n - 1, f);
        ServeAscends(ServedBy(before, n - 1), n - 1, a);
      case Minus(_, _) => ServedStrictlyIncrease(before, o - 1, n, f);
      case Deleted(k) => ServedStrictlyIncrease(before, o - k, n, f);
      case Untouched(k) =>
        ServedStrictlyIncrease(before, o - k, n - k, f);
        AscendingWider(ServedBy(before, n - k), n - k, n);
      case Ellipsis =>
    }
  }

  ghost predicate AnchorsMatch(served: seq<Served>, newAnchors: seq<string>)
  {
    forall s :: s in served ==> At(newAnchors, s.position) == Some(s.anchor)
  }

  lemma ServeMatches(served: seq<Served>, n: nat, newAnchors: seq<string>)
    requires AnchorsMatch(served, newAnchors)
    ensures AnchorsMatch(Serve(served, n, At(newAnchors, n)), newAnchors)
  {
  }

  lemma {:induction false} ServedMatch(rows: seq<Row>, o: int, n: int, f: Files)
    requires Reaches(rows, o, n, f)
    ensures AnchorsMatch(ServedBy(rows, n), f.newAnchors)
    decreases |rows|
  {
    assert AnchorsMatch([], f.newAnchors);
    hide AnchorsMatch, Serve, Agree;
    if rows != [] {
      var before := rows[..|rows| - 1];
      match rows[|rows| - 1]
      case Plus(_, _) =>
        ServedMatch(before, o, n - 1, f);
        ServeMatches(ServedBy(before, n - 1), n - 1, f.newAnchors);
      case Context(_, _) =>
        ServedMatch(before, o - 1, n - 1, f);
        ServeMatches(ServedBy(before, n - 1), n - 1, f.newAnchors);
      case Minus(_, _) => ServedMatch(before, o - 1, n, f);
      case Deleted(k) => ServedMatch(before, o - k, n, f);
      case Untouched(k) => ServedMatch(before, o - k, n - k, f);
      case Ellipsis =>
    }
  }

  /**
   * The served rows of any diff: strictly increasing positions inside the new file, each with its own line's anchor.
   */
  lemma ServedRowsOfDiff(parts: seq<Part>, context: nat, oldAnchors: seq<string>, newAnchors: seq<string>)
    requires Diff(parts)
    ensures var served := Project(START, parts, context, oldAnchors, newAnchors).out.served;
            Ascending(served, |NewOf(parts)|) && AnchorsMatch(served, newAnchors)
  {
    var out, f := Project(START, parts, context, oldAnchors, newAnchors).out,
      Files(OldOf(parts), NewOf(parts), oldAnchors, newAnchors);
    DiffIsCursorExact(parts, context, oldAnchors, newAnchors);
    var o: nat, n: nat :| ExplainsFrom(out.rows, out.served, f, o, n);
    ServedStrictlyIncrease(out.rows, o, n, f);
    ServedMatch(out.rows, o, n, f);
    AscendingWider(out.served, n, |NewOf(parts)|);
  }

  /** Line p of the new file comes from an added part, when the parts start at line `at`. */
  predicate AddedAt(parts: seq<Part>, at: nat, p: nat)
  {
    parts != []
    && match parts[0].kind
       case Added => at <= p < at + |parts[0].lines| || AddedAt(parts[1..], at + |parts[0].lines|, p)
       case Removed => AddedAt(parts[1..], at, p)
       case Kept => AddedAt(parts[1..], at + |parts[0].lines|, p)
  }

  /** Serves are only ever appended. */
  lemma {:induction false} PlusServes(out: Out, lines: seq<string>, newAnchors: seq<string>, p: nat)
    ensures out.served <= AllPlus(out, lines, newAnchors).served && AllPlus(out, lines, newAnchors).n == out.n + |lines|
    ensures out.n <= p < out.n + |lines| && p < |newAnchors|
            ==> Served(p, newAnchors[p]) in AllPlus(out, lines, newAnchors).served
    decreases |lines|
  {
    if lines != [] {
      var next := PutPlus(out, lines[0], newAnchors);
      PlusServes(next, lines[1..], newAnchors, p);
      assert At(newAnchors, out.n).Some? ==> Served(out.n, newAnchors[out.n]) in next.served;
    }
  }

  lemma {:induction false} MinusServes(out: Out, lines: seq<string>, oldAnchors: seq<string>)
    ensures AllMinus(out, lines, oldAnchors).served == out.served && AllMinus(out, lines, oldAnchors).n == out.n
    decreases |lines|
  {
    if lines != [] { MinusServes(PutMinus(out, lines[0], oldAnchors), lines[1..], oldAnchors); }
  }

  lemma RemovedServes(out: Out, lines: seq<string>, oldAnchors: seq<string>)
    ensures RemovedPart(out, lines, oldAnchors).served == out.served && RemovedPart(out, lines, oldAnchors).n == out.n
  {
    MinusServes(out, lines, oldAnchors);
    if |lines| > DIFF_REMOVED_CAP {
      var omitted := |lines| - DIFF_REMOVED_EDGE * 2;
      MinusServes(out, lines[..DIFF_REMOVED_EDGE], oldAnchors);
      var head := AllMinus(out, lines[..DIFF_REMOVED_EDGE], oldAnchors);
      MinusServes(PutHidden(head, Deleted(omitted), omitted, 0), lines[|lines| - DIFF_REMOVED_EDGE..], oldAnchors);
    }
  }

  function Span(show: seq<Shown>, skipMiddle: nat): nat
  {
    if show == [] then 0 else (if show[0].Gap? then skipMiddle else 1) + Span(show[1..], skipMiddle)
  }

  lemma {:induction false} ShownServes(out: Out, show: seq<Shown>, skipMiddle: nat, newAnchors: seq<string>)
    ensures out.served <= AllShown(out, show, skipMiddle, newAnchors).served
    ensures AllShown(out, show, skipMiddle, newAnchors).n == out.n + Span(show, skipMiddle)
    decreases |show|
  {
    if show != [] {
      match show[0]
      case Line(text) => ShownServes(PutContext(out, text, newAnchors), show[1..], skipMiddle, newAnchors);
      case Gap => ShownServes(PutHidden(out, Untouched(skipMiddle), skipMiddle, skipMiddle), show[1..], skipMiddle,
                              newAnchors);
    }
  }

  lemma ConsTail<T>(x: T, a: seq<T>, rest: seq<T>)
    ensures ([x] + a + rest)[0] == x && ([x] + a + rest)[1..] == a + rest
  {
    assert [x] + a + rest == [x] + (a + rest);
  }

  lemma {:induction false} SpanOfLines(lines: seq<string>, rest: seq<Shown>, skipMiddle: nat)
    ensures Span(Lines(lines) + rest, skipMiddle) == |lines| + Span(rest, skipMiddle)
    decreases |lines|
  {
    if lines == [] {
      assert [] + rest == rest;
    } else {
      SpanOfLines(lines[1..], rest, skipMiddle);
      ConsTail(Line(lines[0]), Lines(lines[1..]), rest);
    }
  }

  /** A kept part before another part moves the new cursor past all its lines, shown or hidden. */
  lemma KeptServes(out: Out, lines: seq<string>, lastWasChange: bool, nextIsChange: bool, context: nat,
                   newAnchors: seq<string>)
    ensures var next := KeptPart(out, lines, lastWasChange, nextIsChange, context, newAnchors);
            out.served <= next.served && (nextIsChange ==> next.n == out.n + |lines|)
  {
    var w := ContextLinesToShow(lines, lastWasChange, nextIsChange, context);
    ShownServes(out, w.show, w.skipMiddle, newAnchors);
    ShownServes(PutHidden(out, Ellipsis, w.skipStart, w.skipStart), w.show, w.skipMiddle, newAnchors);
    if nextIsChange { WindowSpans(lines, lastWasChange, context); }
  }

  lemma WindowSpans(lines: seq<string>, lastWasChange: bool, context: nat)
    ensures var w := ContextLinesToShow(lines, lastWasChange, true, context);
            w.skipStart + Span(w.show, w.skipMiddle) == |lines|
  {
    var skip := if |lines| > context then |lines| - context else 0;
    SpanOfLines(lines[skip..], [], 0);
    SpanOfLines(lines, [], 0);
    assert Lines(lines[skip..]) + [] == Lines(lines[skip..]) && Lines(lines) + [] == Lines(lines);
    if lastWasChange && |lines| > context * 2 { MiddleSpans(lines, context); }
  }

  lemma MiddleSpans(lines: seq<string>, context: nat)
    requires |lines| > context * 2
    ensures Span(Lines(lines[..context]) + [Gap] + Lines(lines[|lines| - context..]), |lines| - context * 2) == |lines|
  {
    var mid, a, b := |lines| - context * 2, Lines(lines[..context]), Lines(lines[|lines| - context..]);
    SpanOfLines(lines[..context], [Gap] + b, mid);
    assert a + [Gap] + b == a + ([Gap] + b) && ([Gap] + b)[1..] == b;
    SpanOfLines(lines[|lines| - context..], [], mid);
    assert b + [] == b;
  }

  lemma InPrefix(s: Served, a: seq<Served>, b: seq<Served>)
    requires a <= b
    ensures s in a ==> s in b
  {
    if s in a {
      var i :| 0 <= i < |a| && a[i] == s;
      assert b[i] == s;
    }
  }

  /** Every added line that has an anchor is served at its own position with that anchor. */
  lemma {:induction false} AddedAreServed(st: State, parts: seq<Part>, context: nat, oldAnchors: seq<string>,
                                          newAnchors: seq<string>, p: nat)
    requires Diff(parts)
    ensures st.out.served <= Project(st, parts, context, oldAnchors, newAnchors).out.served
    ensures AddedAt(parts, st.out.n, p) && p < |newAnchors|
            ==> Served(p, newAnchors[p]) in Project(st, parts, context, oldAnchors, newAnchors).out.served
    decreases |parts|
  {
    hide KeptPart, RemovedPart, AllPlus;
    if parts != [] {
      var nextIsChange := |parts| > 1 && IsChange(parts[1]);
      var next := Project1(st, parts[0], nextIsChange, context, oldAnchors, newAnchors);
      match parts[0].kind {
        case Added => PlusServes(st.out, parts[0].lines, newAnchors, p);
        case Removed => RemovedServes(st.out, parts[0].lines, oldAnchors);
        case Kept => KeptServes(st.out, parts[0].lines, st.lastWasChange, nextIsChange, context, newAnchors);
      }
      AddedAreServed(next, parts[1..], context, oldAnchors, newAnchors, p);
      if |parts| == 1 { assert !AddedAt(parts[1..], st.out.n + |parts[0].lines|, p); }
      if p < |newAnchors| {
        InPrefix(Served(p, newAnchors[p]), next.out.served,
                 Project(next, parts[1..], context, oldAnchors, newAnchors).out.served);
      }
    }
  }

  // ----- the bracket around the change

  predicate AnyChange(parts: seq<Part>)
  {
    parts != [] && (IsChange(parts[0]) || AnyChange(parts[1..]))
  }

  /** The bracket so far: equal prefixes before the first change, nothing of the change past the last. */
  ghost predicate Bracket(st: State, f: Files)
  {
    && (st.first.Some? <==> st.last.Some?) && (st.lastWasChange ==> st.last.Some? && st.last.value >= st.out.n)
    && (st.first.None? ==> !st.lastWasChange && st.out.o == st.out.n && SamePrefix(f, st.out.n))
    && (st.first.Some?
        ==> 1 <= st.first.value <= st.last.value && st.first.value <= st.out.n + 1 && SamePrefix(f, st.first.value - 1))
  }

  ghost predicate SamePrefix(f: Files, k: nat)
  {
    k <= |f.was| && k <= |f.now| && f.was[..k] == f.now[..k]
  }

  /** New lines after `last` are the tail of the old file. */
  ghost predicate SameSuffix(f: Files, last: nat)
  {
    last < |f.now| ==> |f.now| - last <= |f.was| && f.now[last..] == f.was[|f.was| - (|f.now| - last)..]
  }

  /** What `first` and `last` promise when all parts are projected. */
  ghost predicate Bracketed(st: State, f: Files)
  {
    && (st.first.Some? <==> st.last.Some?)
    && (st.first.Some?
        ==> 1 <= st.first.value <= st.last.value && SamePrefix(f, st.first.value - 1) && SameSuffix(f, st.last.value))
    && (st.first.None? ==> f.was == f.now)
  }

  lemma ChangeBrackets(st: State, parts: seq<Part>, context: nat, f: Files)
    requires parts != [] && Ready(st, parts, f) && IsChange(parts[0]) && Bracket(st, f)
    ensures Bracket(Project1(st, parts[0], |parts| > 1 && IsChange(parts[1]), context, f.oldAnchors, f.newAnchors), f)
  {
    if parts[0].kind == Added {
      PlusServes(st.out, parts[0].lines, f.newAnchors, 0);
    } else {
      RemovedServes(st.out, parts[0].lines, f.oldAnchors);
    }
  }

  lemma KeptBrackets(st: State, parts: seq<Part>, context: nat, f: Files)
    requires |parts| > 1 && Ready(st, parts, f) && parts[0].kind == Kept && Bracket(st, f)
    ensures Bracket(Project1(st, parts[0], true, context, f.oldAnchors, f.newAnchors), f)
  {
    var lines := parts[0].lines;
    KeptServes(st.out, lines, st.lastWasChange, true, context, f.newAnchors);
    KeptReady(st, parts, context, f);
    if !st.lastWasChange {
      Peel(f.now, 0, lines, NewOf(parts[1..]));
      Peel(f.was, 0, lines, OldOf(parts[1..]));
      LeadingGood(lines, context, f);
      StandsSlice(f.now, 0, lines);
      StandsSlice(f.was, 0, lines);
    }
  }

  lemma EqualTails(f: Files, o: nat, n: nat, last: nat)
    requires o <= |f.was| && n <= |f.now| && f.was[o..] == f.now[n..] && n <= last
    ensures SameSuffix(f, last)
  {
    if last < |f.now| {
      assert |f.was| - o == |f.was[o..]| == |f.now| - n;
      assert f.now[last..] == f.now[n..][last - n..];
      assert f.was[o + (last - n)..] == f.was[o..][last - n..];
    }
  }

  lemma NothingLeft(st: State, f: Files)
    requires Ready(st, [], f)
    ensures st.out.o == |f.was| && st.out.n == |f.now| && f.was[st.out.o..] == f.now[st.out.n..]
  {
    assert |f.was[st.out.o..]| == 0 && |f.now[st.out.n..]| == 0;
  }

  lemma EndBrackets(st: State, parts: seq<Part>, f: Files)
    requires Ready(st, parts, f) && Bracket(st, f)
    requires if parts == [] then st.first.Some? ==> st.lastWasChange else |parts| == 1 && parts[0].kind == Kept
    ensures (st.first.None? ==> f.was == f.now) && (st.first.Some? ==> SameSuffix(f, st.last.value))
  {
    if parts == [] {
      NothingLeft(st, f);
      assert f.was[..|f.was|] == f.was && f.now[..|f.now|] == f.now;
    } else {
      LastPart(parts);
      assert parts[0].lines + [] == parts[0].lines;
      if st.first.None? { assert f.was[0..] == f.was && f.now[0..] == f.now; }
    }
    if st.first.Some? { EqualTails(f, st.out.o, st.out.n, st.last.value); }
  }

  lemma {:induction false} ProjectBrackets(st: State, parts: seq<Part>, context: nat, f: Files)
    requires Ready(st, parts, f) && Bracket(st, f) && (parts == [] && st.first.Some? ==> st.lastWasChange)
    ensures Bracketed(Project(st, parts, context, f.oldAnchors, f.newAnchors), f)
    decreases |parts|
  {
    hide Reaches, ServedBy, KeptPart, RemovedPart, AllPlus;
    if parts == [] || (|parts| == 1 && parts[0].kind == Kept) {
      EndBrackets(st, parts, f);
      if parts != [] { assert parts[1..] == []; }
    } else {
      var next := Project1(st, parts[0], |parts| > 1 && IsChange(parts[1]), context, f.oldAnchors, f.newAnchors);
      if IsChange(parts[0]) {
        ChangeReady(st, parts, context, f);
        ChangeBrackets(st, parts, context, f);
      } else {
        KeptReady(st, parts, context, f);
        KeptBrackets(st, parts, context, f);
      }
      ProjectBrackets(next, parts[1..], context, f);
    }
  }

  /**
   * New lines before `first` are a prefix of the old file and those after `last` a suffix of it; both are
   * absent exactly when no part is a change, and then the files are equal.
   */
  lemma ChangeIsBracketed(parts: seq<Part>, context: nat, oldAnchors: seq<string>, newAnchors: seq<string>)
    requires Diff(parts)
    ensures Bracketed(Project(START, parts, context, oldAnchors, newAnchors),
                      Files(OldOf(parts), NewOf(parts), oldAnchors, newAnchors))
    ensures Project(START, parts, context, oldAnchors, newAnchors).first.Some? <==> AnyChange(parts)
  {
    var f := Files(OldOf(parts), NewOf(parts), oldAnchors, newAnchors);
    assert f.was[0..] == f.was && f.now[0..] == f.now;
    ProjectBrackets(START, parts, context, f);
    FirstWhenChanged(START, parts, context, oldAnchors, newAnchors);
  }

  lemma {:induction false} FirstWhenChanged(st: State, parts: seq<Part>, context: nat, oldAnchors: seq<string>,
                                            newAnchors: seq<string>)
    ensures Project(st, parts, context, oldAnchors, newAnchors).first.Some? <==> st.first.Some? || AnyChange(parts)
    decreases |parts|
  {
    if parts != [] {
      FirstWhenChanged(Project1(st, parts[0], |parts| > 1 && IsChange(parts[1]), context, oldAnchors, newAnchors),
                       parts[1..], context, oldAnchors, newAnchors);
    }
  }

  // ----- which context lines are shown

  /** Line i of the part is among the shown ones, when they start at line `at`. */
  predicate ShowsLine(show: seq<Shown>, at: nat, skipMiddle: nat, i: nat)
    decreases |show|
  {
    show != []
    && match show[0]
       case Line(_) => i == at || ShowsLine(show[1..], at + 1, skipMiddle, i)
       case Gap => ShowsLine(show[1..], at + skipMiddle, skipMiddle, i)
  }

  lemma {:induction false} ShowsLines(lines: seq<string>, rest: seq<Shown>, at: nat, skipMiddle: nat, i: nat)
    ensures ShowsLine(Lines(lines) + rest, at, skipMiddle, i)
            <==> at <= i < at + |lines| || ShowsLine(rest, at + |lines|, skipMiddle, i)
    decreases |lines|
  {
    if lines == [] {
      assert [] + rest == rest;
    } else {
      ShowsLines(lines[1..], rest, at + 1, skipMiddle, i);
      ConsTail(Line(lines[0]), Lines(lines[1..]), rest);
    }
  }

  lemma ShowsOnly(lines: seq<string>, at: nat, skipMiddle: nat, i: nat)
    ensures ShowsLine(Lines(lines), at, skipMiddle, i) <==> at <= i < at + |lines|
  {
    ShowsLines(lines, [], at, skipMiddle, i);
    assert Lines(lines) + [] == Lines(lines);
  }

  lemma ShowsAroundGap(lines: seq<string>, context: nat, i: nat)
    requires |lines| > context * 2
    ensures ShowsLine(Lines(lines[..context]) + [Gap] + Lines(lines[|lines| - context..]), 0, |lines| - context * 2, i)
            <==> i < context || |lines| - context <= i < |lines|
  {
    var mid, a, b := |lines| - context * 2, Lines(lines[..context]), Lines(lines[|lines| - context..]);
    ShowsLines(lines[..context], [Gap] + b, 0, mid, i);
    ShowsOnly(lines[|lines| - context..], context + mid, mid, i);
    assert a + [Gap] + b == a + ([Gap] + b) && ([Gap] + b)[1..] == b;
  }

  /** A line of a kept part is shown exactly when it lies within `context` lines of a change next to the part. */
  lemma ShownExactlyNearChanges(lines: seq<string>, lastWasChange: bool, nextIsChange: bool, context: nat, i: nat)
    requires (lastWasChange || nextIsChange) && i < |lines|
    ensures var w := ContextLinesToShow(lines, lastWasChange, nextIsChange, context);
            ShowsLine(w.show, w.skipStart, w.skipMiddle, i)
            <==> (lastWasChange && i < context) || (nextIsChange && i >= |lines| - context)
  {
    var skip := if |lines| > context then |lines| - context else 0;
    if !lastWasChange {
      ShowsOnly(lines[skip..], skip, 0, i);
    } else if nextIsChange && |lines| > context * 2 {
      ShowsAroundGap(lines, context, i);
    } else if !nextIsChange && |lines| > context {
      ShowsOnly(lines[..context], 0, 0, i);
    } else {
      ShowsOnly(lines, 0, 0, i);
    }
  }
}
