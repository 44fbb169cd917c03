/**
 * The interval algebra of a bash view: line-window filters folded over 1-indexed line intervals.
 * Each in-place loop is proved against plain list slicing over the lines the intervals stand for.
 */
module SliceOps {

  datatype Interval = Interval(lo: int, hi: int)

  datatype SliceOp =
    | First(n: int)
    | Last(n: int)
    | DropLast(n: int)
    | From(n: int)
    | Range(from: int, to: int)

  // ----- plain list slicing

  function Clamp(n: int, total: nat): (r: nat)
    ensures r <= total
  {
    if n <= 0 then 0 else if n <= total then n else total
  }

  /** The half-open window of a stream of `total` entries that one filter keeps. */
  function Window(op: SliceOp, total: nat): (w: (nat, nat))
    ensures w.0 <= w.1 <= total
  {
    match op
    case First(n) => (0, Clamp(n, total))
    case Last(n) => (total - Clamp(n, total), total)
    case DropLast(n) => (0, total - Clamp(n, total))
    case From(n) => if n < 1 then (0, 0) else (Clamp(n - 1, total), total)
    case Range(from, to) =>
      if from < 1 || to < from then (0, 0) else (Clamp(from - 1, total), Clamp(to, total))
  }

  function Slice<T>(op: SliceOp, s: seq<T>): seq<T>
  {
    s[Window(op, |s|).0..Window(op, |s|).1]
  }

  function FoldSlices<T>(ops: seq<SliceOp>, s: seq<T>): seq<T>
  {
    if ops == [] then s else FoldSlices(ops[1..], Slice(ops[0], s))
  }

  // ----- what an interval list stands for

  /** The number of lines in the list. */
  function Total(list: seq<Interval>): int
  {
    if list == [] then 0 else list[0].hi - list[0].lo + 1 + Total(list[1..])
  }

  /** The line at 1-indexed stream position `k`: the intervals laid end to end. */
  function At(list: seq<Interval>, k: int): int
  {
    if list == [] then 0
    else if k <= list[0].hi - list[0].lo + 1 then list[0].lo + k - 1
    else At(list[1..], k - (list[0].hi - list[0].lo + 1))
  }

  /** Non-empty intervals within `lo..hi`, ascending and disjoint. */
  predicate Within(list: seq<Interval>, lo: int, hi: int)
  {
    list == [] || (lo <= list[0].lo <= list[0].hi <= hi && Within(list[1..], list[0].hi + 1, hi))
  }

  lemma {:induction false} WithinBounds(list: seq<Interval>, lo: int, hi: int)
    requires Within(list, lo, hi)
    ensures Total(list) >= |list|
    ensures list != [] ==> lo + Total(list) <= hi + 1
  {
    if list != [] { WithinBounds(list[1..], list[0].hi + 1, hi); }
  }

  /** The stream as a plain list of line numbers. */
  function Lines(list: seq<Interval>): (s: seq<int>)
    ensures |s| == if Total(list) < 0 then 0 else Total(list)
    ensures forall k :: 0 <= k < |s| ==> s[k] == At(list, k + 1)
  {
    LinesUpTo(list, if Total(list) < 0 then 0 else Total(list))
  }

  function LinesUpTo(list: seq<Interval>, size: nat): (s: seq<int>)
    ensures |s| == size
    ensures forall k :: 0 <= k < |s| ==> s[k] == At(list, k + 1)
  {
    if size == 0 then [] else LinesUpTo(list, size - 1) + [At(list, size)]
  }

  lemma {:induction false} LinesAscend(list: seq<Interval>, lo: int, hi: int, j: int, k: int)
    requires Within(list, lo, hi) && 1 <= j < k <= Total(list)
    ensures lo <= At(list, j) < At(list, k) <= hi
  {
    var length := list[0].hi - list[0].lo + 1;
    WithinBounds(list[1..], list[0].hi + 1, hi);
    if k > length {
      if j > length {
        LinesAscend(list[1..], list[0].hi + 1, hi, j - length, k - length);
      } else if k - length < Total(list[1..]) {
        LinesAscend(list[1..], list[0].hi + 1, hi, k - length, Total(list[1..]));
      } else if k - length > 1 {
        LinesAscend(list[1..], list[0].hi + 1, hi, 1, k - length);
      }
    }
  }

  // ----- the loops' recursive forms, and the lines they select

  function FirstOf(list: seq<Interval>, n: int): seq<Interval>
  {
    if list == [] || n <= 0 then []
    else
      var length := list[0].hi - list[0].lo + 1;
      var take := if length <= n then length else n;
      [Interval(list[0].lo, list[0].lo + take - 1)] + FirstOf(list[1..], n - take)
  }

  function SkipOf(list: seq<Interval>, skip: int): seq<Interval>
  {
    if list == [] then []
    else
      var length := list[0].hi - list[0].lo + 1;
      if skip >= length then SkipOf(list[1..], skip - length)
      else [Interval(list[0].lo + skip, list[0].hi)] + SkipOf(list[1..], 0)
  }

  function RangeOf(list: seq<Interval>, pos: int, from: int, to: int): seq<Interval>
  {
    if list == [] then []
    else
      var end := pos + (list[0].hi - list[0].lo + 1);
      RangePiece(list[0], pos, from, to) + if end >= to then [] else RangeOf(list[1..], end, from, to)
  }

  /** The same selection, accumulated the way the loop does. */
  function RangeLoop(out: seq<Interval>, list: seq<Interval>, pos: int, from: int, to: int): seq<Interval>
    decreases |list|
  {
    if list == [] then out
    else
      var start, end := pos + 1, pos + (list[0].hi - list[0].lo + 1);
      var keepLo := if start >= from then start else from;
      var keepHi := if end <= to then end else to;
      var next := if keepLo > keepHi then out
                  else out + [Interval(list[0].lo + (keepLo - start), list[0].lo + (keepHi - start))];
      if end >= to then next else RangeLoop(next, list[1..], end, from, to)
  }

  lemma {:induction false} RangeLoopAppends(out: seq<Interval>, list: seq<Interval>, pos: int, from: int, to: int)
    ensures RangeLoop(out, list, pos, from, to) == out + RangeOf(list, pos, from, to)
    decreases |list|
  {
    if list != [] {
      var end := pos + (list[0].hi - list[0].lo + 1);
      var piece := RangePiece(list[0], pos, from, to);
      var tail := if end >= to then [] else RangeOf(list[1..], end, from, to);
      Regroup(out, piece, tail);
      if end < to {
        RangeLoopAppends(out + piece, list[1..], end, from, to);
      }
      assert RangeOf(list, pos, from, to) == piece + tail;
    } else {
      Regroup<Interval>(out, [], []);
    }
  }

  lemma Regroup<T>(a: seq<T>, b: seq<T>, c: seq<T>)
    ensures a + (b + c) == (a + b) + c
    ensures b == [] ==> a + b == a
    ensures c == [] ==> (a + b) + c == a + b
  {
  }

  function RangePiece(iv: Interval, pos: int, from: int, to: int): seq<Interval>
  {
    var start, end := pos + 1, pos + (iv.hi - iv.lo + 1);
    var keepLo := if start >= from then start else from;
    var keepHi := if end <= to then end else to;
    if keepLo <= keepHi then [Interval(iv.lo + (keepLo - start), iv.lo + (keepHi - start))] else []
  }

  lemma Cons(iv: Interval, rest: seq<Interval>, lo: int, hi: int)
    requires lo <= iv.lo <= iv.hi <= hi && Within(rest, iv.hi + 1, hi)
    ensures Within([iv] + rest, lo, hi)
    ensures Total([iv] + rest) == iv.hi - iv.lo + 1 + Total(rest)
    ensures forall k :: At([iv] + rest, k)
                     == if k <= iv.hi - iv.lo + 1 then iv.lo + k - 1 else At(rest, k - (iv.hi - iv.lo + 1))
  {
    assert ([iv] + rest)[1..] == rest;
  }

  lemma Widen(list: seq<Interval>, lo: int, at: int, hi: int)
    requires lo <= at && Within(list, at, hi)
    ensures Within(list, lo, hi)
  {
  }

  /** `out` is `list` from stream position `skip + 1` on, `size` positions long. */
  ghost predicate IsWindow(out: seq<Interval>, list: seq<Interval>, skip: int, size: int)
  {
    && Total(out) == size
    && forall k :: 1 <= k <= size ==> At(out, k) == At(list, skip + k)
  }

  lemma SkipHead(tail: seq<Interval>, list: seq<Interval>, skip: nat, size: nat)
    requires list != [] && list[0].lo <= list[0].hi && IsWindow(tail, list[1..], skip, size)
    ensures IsWindow(tail, list, skip + (list[0].hi - list[0].lo + 1), size)
  {
  }

  lemma KeepHead(tail: seq<Interval>, list: seq<Interval>, skip: nat, size: nat)
    requires list != [] && skip <= list[0].hi - list[0].lo && IsWindow(tail, list[1..], 0, size)
    ensures IsWindow([Interval(list[0].lo + skip, list[0].hi)] + tail, list, skip,
                     list[0].hi - list[0].lo + 1 - skip + size)
  {
    var out := [Interval(list[0].lo + skip, list[0].hi)] + tail;
    assert out[1..] == tail;
    var kept := list[0].hi - list[0].lo + 1 - skip;
    forall k | 1 <= k <= kept + size
      ensures At(out, k) == At(list, skip + k)
    {
      if k > kept { assert At(out, k) == At(tail, k - kept); }
    }
  }

  lemma CutHead(list: seq<Interval>, skip: nat, size: nat)
    requires list != [] && 0 < size && skip + size <= list[0].hi - list[0].lo + 1
    ensures IsWindow([Interval(list[0].lo + skip, list[0].lo + skip + size - 1)], list, skip, size)
  {
    var out := [Interval(list[0].lo + skip, list[0].lo + skip + size - 1)];
    forall k | 1 <= k <= size
      ensures At(out, k) == At(list, skip + k)
    {
    }
    assert Total(out[1..]) == 0;
  }

  lemma FirstOfHead(list: seq<Interval>, n: int)
    requires list != [] && n > 0
    ensures var iv, length := list[0], list[0].hi - list[0].lo + 1;
            FirstOf(list, n) ==
            if n <= length then [Interval(iv.lo, iv.lo + n - 1)] else [iv] + FirstOf(list[1..], n - length)
  {
  }

  lemma {:induction false} FirstOfIsWindow(list: seq<Interval>, n: int, lo: int, hi: int)
    requires Within(list, lo, hi)
    ensures Within(FirstOf(list, n), lo, hi)
    ensures IsWindow(FirstOf(list, n), list, 0, if n <= 0 then 0 else if n <= Total(list) then n else Total(list))
  {
    WithinBounds(list, lo, hi);
    if list == [] || n <= 0 {
      assert FirstOf(list, n) == [];
    } else {
      hide FirstOf, At, IsWindow;
      var iv := list[0];
      var length := iv.hi - iv.lo + 1;
      WithinBounds(list[1..], iv.hi + 1, hi);
      FirstOfHead(list, n);
      if n <= length {
        CutHead(list, 0, n);
      } else {
        FirstOfIsWindow(list[1..], n - length, iv.hi + 1, hi);
        Cons(iv, FirstOf(list[1..], n - length), lo, hi);
        KeepHead(FirstOf(list[1..], n - length), list, 0, Clamp(n - length, Total(list[1..])));
      }
    }
  }

  lemma {:induction false} SkipOfIsWindow(list: seq<Interval>, skip: nat, lo: int, hi: int)
    requires Within(list, lo, hi)
    ensures Within(SkipOf(list, skip), lo, hi)
    ensures IsWindow(SkipOf(list, skip), list, skip, if skip <= Total(list) then Total(list) - skip else 0)
  {
    WithinBounds(list, lo, hi);
    if list != [] {
      var iv := list[0];
      var length := iv.hi - iv.lo + 1;
      WithinBounds(list[1..], iv.hi + 1, hi);
      if skip >= length {
        SkipOfIsWindow(list[1..], skip - length, iv.hi + 1, hi);
        Widen(SkipOf(list[1..], skip - length), lo, iv.hi + 1, hi);
        SkipHead(SkipOf(list[1..], skip - length), list, skip - length, Total(SkipOf(list[1..], skip - length)));
      } else {
        SkipOfIsWindow(list[1..], 0, iv.hi + 1, hi);
        Cons(Interval(iv.lo + skip, iv.hi), SkipOf(list[1..], 0), lo, hi);
        KeepHead(SkipOf(list[1..], 0), list, skip, Total(SkipOf(list[1..], 0)));
      }
    }
  }

  /** The part of a stream that starts after `pos` which lies between positions `from` and `to`. */
  function WindowSkip(pos: int, from: int): nat
  {
    if from - pos - 1 <= 0 then 0 else from - pos - 1
  }

  function WindowSize(total: int, pos: int, from: int, to: int): nat
  {
    var upTo := if total <= to - pos then total else to - pos;
    if upTo <= WindowSkip(pos, from) then 0 else upTo - WindowSkip(pos, from)
  }

  lemma {:induction false} RangeOfWithin(list: seq<Interval>, pos: int, from: int, to: int, lo: int, hi: int)
    requires Within(list, lo, hi)
    ensures Within(RangeOf(list, pos, from, to), lo, hi)
  {
    if list != [] {
      var iv := list[0];
      var end := pos + (iv.hi - iv.lo + 1);
      var piece, tail := RangePiece(iv, pos, from, to), if end >= to then [] else RangeOf(list[1..], end, from, to);
      if end < to { RangeOfWithin(list[1..], end, from, to, iv.hi + 1, hi); }
      if piece == [] {
        assert piece + tail == tail;
      } else {
        Cons(piece[0], tail, lo, hi);
      }
    }
  }

  lemma {:induction false} RangeOfIsWindow(list: seq<Interval>, pos: int, from: int, to: int, lo: int, hi: int)
    requires Within(list, lo, hi) && 1 <= from <= to && 0 <= pos < to
    ensures IsWindow(RangeOf(list, pos, from, to), list, WindowSkip(pos, from), WindowSize(Total(list), pos, from, to))
  {
    WithinBounds(list, lo, hi);
    if list != [] {
      var iv, rest := list[0], list[1..];
      var end := pos + (iv.hi - iv.lo + 1);
      var skip := WindowSkip(pos, from);
      WithinBounds(rest, iv.hi + 1, hi);
      RangeOfCases(list, pos, from, to);
      if end < to {
        RangeOfIsWindow(rest, end, from, to, iv.hi + 1, hi);
        HeadThenWindow(list, RangeOf(rest, end, from, to), pos, from, to, lo, hi);
      } else {
        CutHead(list, skip, to - pos - skip);
      }
    }
  }

  lemma HeadThenWindow(list: seq<Interval>, tail: seq<Interval>, pos: int, from: int, to: int, lo: int, hi: int)
    requires list != [] && Within(list, lo, hi) && 1 <= from <= to && 0 <= pos
    requires var end := pos + (list[0].hi - list[0].lo + 1);
             end < to && IsWindow(tail, list[1..], WindowSkip(end, from), WindowSize(Total(list[1..]), end, from, to))
    ensures
      var iv, end, skip := list[0], pos + (list[0].hi - list[0].lo + 1), WindowSkip(pos, from);
      IsWindow(if end < from then tail
               else [Interval(iv.lo + skip, iv.hi)] + tail, list, skip, WindowSize(Total(list), pos, from, to))
  {
    hide IsWindow, WindowSize, At;
    var iv, rest := list[0], list[1..];
    var end := pos + (iv.hi - iv.lo + 1);
    WithinBounds(rest, iv.hi + 1, hi);
    WindowStep(iv.hi - iv.lo + 1, Total(rest), pos, from, to);
    if end < from {
      SkipHead(tail, list, WindowSkip(end, from), WindowSize(Total(rest), end, from, to));
    } else {
      KeepHead(tail, list, WindowSkip(pos, from), WindowSize(Total(rest), end, from, to));
    }
  }

  lemma WindowStep(length: int, total: int, pos: int, from: int, to: int)
    requires 1 <= from <= to && 0 <= pos && 0 < length && 0 <= total && pos + length < to
    ensures pos + length < from ==> WindowSkip(pos, from) == WindowSkip(pos + length, from) + length
    ensures pos + length < from
            ==> WindowSize(length + total, pos, from, to) == WindowSize(total, pos + length, from, to)
    ensures from <= pos + length ==> WindowSkip(pos + length, from) == 0
    ensures from <= pos + length ==>
              WindowSize(length + total, pos, from, to)
              == length - WindowSkip(pos, from) + WindowSize(total, pos + length, from, to)
  {
  }

  lemma RangeOfCases(list: seq<Interval>, pos: int, from: int, to: int)
    requires list != [] && list[0].lo <= list[0].hi && 1 <= from <= to && 0 <= pos < to
    ensures
      var iv, end, skip := list[0], pos + (list[0].hi - list[0].lo + 1), WindowSkip(pos, from);
      RangeOf(list, pos, from, to) ==
      if end < from then (if end < to then RangeOf(list[1..], end, from, to) else [])
      else if end < to then [Interval(iv.lo + skip, iv.hi)] + RangeOf(list[1..], end, from, to)
      else if skip < to - pos then [Interval(iv.lo + skip, iv.lo + (to - pos) - 1)]
      else []
  {
    var end := pos + (list[0].hi - list[0].lo + 1);
    var tail := if end >= to then [] else RangeOf(list[1..], end, from, to);
    PieceCases(list[0], pos, from, to);
    var piece := RangePiece(list[0], pos, from, to);
    hide RangePiece, WindowSkip, RangeOf;
    PieceAndTail(list, pos, from, to);
    if end < from { assert [] + tail == tail; }
    if end >= to { assert piece + [] == piece; }
  }

  lemma PieceAndTail(list: seq<Interval>, pos: int, from: int, to: int)
    requires list != []
    ensures var end := pos + (list[0].hi - list[0].lo + 1);
            RangeOf(list, pos, from, to)
            == RangePiece(list[0], pos, from, to) + if end >= to then [] else RangeOf(list[1..], end, from, to)
  {
  }

  lemma PieceCases(iv: Interval, pos: int, from: int, to: int)
    requires iv.lo <= iv.hi && 1 <= from <= to && 0 <= pos < to
    ensures
      var end, skip := pos + (iv.hi - iv.lo + 1), WindowSkip(pos, from);
      RangePiece(iv, pos, from, to) ==
      if end < from then []
      else if end < to then [Interval(iv.lo + skip, iv.hi)]
      else if skip < to - pos then [Interval(iv.lo + skip, iv.lo + (to - pos) - 1)]
      else []
  {
  }

  // ----- the source's loops

  /** The first n lines of the stream. */
  method TakeFirst(list: seq<Interval>, n: int, ghost lineCount: int) returns (out: seq<Interval>)
    requires Within(list, 1, lineCount)
    ensures Within(out, 1, lineCount) && Lines(out) == Slice(First(n), Lines(list))
  {
    out := FirstLines(list, n);
    FirstOfServes(list, n, lineCount);
  }

  /** The loop of `takeFirst`: whole intervals while they fit, then the part that does. */
  method FirstLines(list: seq<Interval>, n: int) returns (out: seq<Interval>)
    ensures out == FirstOf(list, n)
  {
    out := [];
    var remaining := n;
    for i := 0 to |list|
      invariant out + FirstOf(list[i..], remaining) == FirstOf(list, n)
    {
      if remaining <= 0 { break; }
      var iv := list[i];
      var take := if iv.hi - iv.lo + 1 <= remaining then iv.hi - iv.lo + 1 else remaining;
      assert list[i..][1..] == list[i + 1..];
      out := out + [Interval(iv.lo, iv.lo + take - 1)];
      remaining := remaining - take;
    }
    assert out + [] == out;
  }

  lemma FirstOfServes(list: seq<Interval>, n: int, lineCount: int)
    requires Within(list, 1, lineCount)
    ensures Within(FirstOf(list, n), 1, lineCount) && Lines(FirstOf(list, n)) == Slice(First(n), Lines(list))
  {
    hide Within, FirstOf, Lines, At, Total;
    FirstOfIsSlice(list, n, 1, lineCount);
  }

  /** The last n lines of the stream. */
  method TakeLast(list: seq<Interval>, n: int, ghost lineCount: int) returns (out: seq<Interval>)
    requires Within(list, 1, lineCount)
    ensures Within(out, 1, lineCount) && Lines(out) == Slice(Last(n), Lines(list))
  {
    var total := TotalLength(list);
    var skip := if total - n >= 0 then total - n else 0;
    out := DropLines(list, skip);
    SkipOfServes(list, n, skip, lineCount);
  }

  /** The loop of `takeLast`: what is left once `drop` lines are passed over. */
  method DropLines(list: seq<Interval>, drop: int) returns (out: seq<Interval>)
    ensures out == SkipOf(list, drop)
  {
    var skip := drop;
    out := [];
    for i := 0 to |list|
      invariant out + SkipOf(list[i..], skip) == SkipOf(list, drop)
    {
      var iv := list[i];
      SkipStep(list, i, skip);
      if skip >= iv.hi - iv.lo + 1 {
        skip := skip - (iv.hi - iv.lo + 1);
      } else {
        out := out + [Interval(iv.lo + skip, iv.hi)];
        skip := 0;
      }
    }
    assert out + [] == out;
  }

  lemma SkipStep(list: seq<Interval>, i: nat, skip: int)
    requires i < |list|
    ensures var iv := list[i];
            SkipOf(list[i..], skip) ==
            if skip >= iv.hi - iv.lo + 1 then SkipOf(list[i + 1..], skip - (iv.hi - iv.lo + 1))
            else [Interval(iv.lo + skip, iv.hi)] + SkipOf(list[i + 1..], 0)
  {
    assert list[i..][1..] == list[i + 1..];
  }

  lemma SkipOfServes(list: seq<Interval>, n: int, drop: int, lineCount: int)
    requires Within(list, 1, lineCount) && drop == if Total(list) >= n then Total(list) - n else 0
    ensures Within(SkipOf(list, drop), 1, lineCount) && Lines(SkipOf(list, drop)) == Slice(Last(n), Lines(list))
  {
    hide Within, SkipOf, Lines, At, Total;
    SkipOfIsSlice(list, n, 1, lineCount);
  }

  method TotalLength(list: seq<Interval>) returns (total: int)
    ensures total == Total(list)
  {
    total := 0;
    for i := 0 to |list|
      invariant total + Total(list[i..]) == Total(list)
    {
      assert list[i..][1..] == list[i + 1..];
      total := total + (list[i].hi - list[i].lo + 1);
    }
  }

  /** The lines at positions from..to of the stream. */
  method SelectRange(list: seq<Interval>, from: int, to: int, ghost lineCount: int) returns (out: seq<Interval>)
    requires Within(list, 1, lineCount)
    ensures Within(out, 1, lineCount) && Lines(out) == Slice(Range(from, to), Lines(list))
  {
    if to < 1 || from < 1 || to < from { return []; }
    out := RangeLines(list, from, to);
    RangeIsSlice(list, from, to, lineCount);
  }

  /** The loop of `selectRange`: the part of each interval within the positions, until the last is passed. */
  method RangeLines(list: seq<Interval>, from: int, to: int) returns (out: seq<Interval>)
    ensures out == RangeLoop([], list, 0, from, to)
  {
    out := [];
    var pos := 0;
    for i := 0 to |list|
      invariant RangeLoop(out, list[i..], pos, from, to) == RangeLoop([], list, 0, from, to)
    {
      var iv := list[i];
      assert list[i..][1..] == list[i + 1..];
      var start, end := pos + 1, pos + (iv.hi - iv.lo + 1);
      var keepLo := if start >= from then start else from;
      var keepHi := if end <= to then end else to;
      if keepLo <= keepHi {
        out := out + [Interval(iv.lo + (keepLo - start), iv.lo + (keepHi - start))];
      }
      pos := end;
      if pos >= to { break; }
    }
  }

  /** The lines `lo..hi`, in order. */
  function Count(lo: int, hi: int): (s: seq<int>)
    ensures |s| == if hi < lo then 0 else hi - lo + 1
    ensures forall k :: 0 <= k < |s| ==> s[k] == lo + k
    decreases hi - lo
  {
    if hi < lo then [] else Count(lo, hi - 1) + [hi]
  }

  /** One stage over the current stream, whose total the source re-counts for `dropLast`. */
  method ApplyOne(op: SliceOp, list: seq<Interval>, maxSafe: int, ghost lineCount: int) returns (out: seq<Interval>)
    requires Within(list, 1, lineCount) && Total(list) <= maxSafe
    ensures Within(out, 1, lineCount)
    ensures Lines(out) == Slice(op, Lines(list))
  {
    match op
    case First(n) =>
      out := TakeFirst(list, n, lineCount);
    case Last(n) =>
      out := TakeLast(list, n, lineCount);
    case DropLast(n) =>
      var total := TotalLength(list);
      out := TakeFirst(list, total - n, lineCount);
      DropLastIsFirst(Lines(list), n);
      WithinBounds(list, 1, lineCount);
    case From(n) =>
      out := SelectRange(list, n, maxSafe, lineCount);
      WithinBounds(list, 1, lineCount);
      FromIsRange(Lines(list), n, maxSafe);
    case Range(from, to) =>
      out := SelectRange(list, from, to, lineCount);
  }

  lemma DropLastIsFirst<T>(s: seq<T>, n: int)
    ensures Slice(DropLast(n), s) == Slice(First(|s| - n), s)
  {
  }

  lemma FromIsRange<T>(s: seq<T>, n: int, end: int)
    requires |s| <= end
    ensures Slice(From(n), s) == Slice(Range(n, end), s)
  {
  }

  lemma WindowIsSlice(out: seq<Interval>, list: seq<Interval>, lo: nat, hi: nat)
    requires lo <= hi <= Total(list) && Total(out) == hi - lo
    requires IsWindow(out, list, lo, hi - lo) || hi == lo
    ensures Lines(out) == Lines(list)[lo..hi]
  {
  }

  lemma FirstOfIsSlice(list: seq<Interval>, n: int, lo: int, hi: int)
    requires Within(list, lo, hi)
    ensures Within(FirstOf(list, n), lo, hi) && 0 <= Total(list)
    ensures Lines(FirstOf(list, n)) == Lines(list)[0..Clamp(n, Total(list))]
  {
    WithinBounds(list, lo, hi);
    FirstOfIsWindow(list, n, lo, hi);
    WindowIsSlice(FirstOf(list, n), list, 0, Clamp(n, Total(list)));
  }

  lemma SkipOfIsSlice(list: seq<Interval>, n: int, lo: int, hi: int)
    requires Within(list, lo, hi)
    ensures 0 <= Total(list)
    ensures
      var skip := if Total(list) >= n then Total(list) - n else 0;
      && Within(SkipOf(list, skip), lo, hi)
      && Lines(SkipOf(list, skip)) == Lines(list)[Total(list) - Clamp(n, Total(list))..Total(list)]
  {
    WithinBounds(list, lo, hi);
    var skip: nat := if Total(list) >= n then Total(list) - n else 0;
    SkipOfIsWindow(list, skip, lo, hi);
    WindowIsSlice(SkipOf(list, skip), list, Total(list) - Clamp(n, Total(list)), Total(list));
  }

  lemma RangeIsSlice(list: seq<Interval>, from: int, to: int, lineCount: int)
    requires Within(list, 1, lineCount) && 1 <= from <= to
    ensures Within(RangeLoop([], list, 0, from, to), 1, lineCount) && 0 <= Total(list)
    ensures Clamp(from - 1, Total(list)) <= Clamp(to, Total(list))
    ensures Lines(RangeLoop([], list, 0, from, to))
         == Lines(list)[Clamp(from - 1, Total(list))..Clamp(to, Total(list))]
  {
    WithinBounds(list, 1, lineCount);
    RangeOfWithin(list, 0, from, to, 1, lineCount);
    RangeOfIsWindow(list, 0, from, to, 1, lineCount);
    RangeLoopAppends([], list, 0, from, to);
    assert [] + RangeOf(list, 0, from, to) == RangeOf(list, 0, from, to);
    WindowIsSlice(RangeOf(list, 0, from, to), list, Clamp(from - 1, Total(list)), Clamp(to, Total(list)));
  }

  /**
   * The fold over `1..lineCount`; a stage that empties the stream ends it. `maxSafe` is the open end
   * the source gives to `from` (`Number.MAX_SAFE_INTEGER`), at or above every line number it can hold.
   */
  method ApplySliceOps(ops: seq<SliceOp>, lineCount: int, maxSafe: int) returns (intervals: seq<Interval>)
    requires lineCount <= maxSafe
    ensures Within(intervals, 1, lineCount)
    ensures Lines(intervals) == FoldSlices(ops, Count(1, lineCount))
  {
    FoldEmpty<int>(ops);
    if lineCount <= 0 { return []; }
    intervals := [Interval(1, lineCount)];
    assert Lines(intervals) == Count(1, lineCount) && ops[0..] == ops;
    for i := 0 to |ops|
      invariant Within(intervals, 1, lineCount)
      invariant 0 <= Total(intervals) <= lineCount
      invariant FoldSlices(ops[i..], Lines(intervals)) == FoldSlices(ops, Count(1, lineCount))
    {
      assert ops[i..][1..] == ops[i + 1..];
      intervals := ApplyOne(ops[i], intervals, maxSafe, lineCount);
      WithinBounds(intervals, 1, lineCount);
      if intervals == [] {
        assert Lines(intervals) == [];
        FoldEmpty<int>(ops[i + 1..]);
        return;
      }
    }
  }

  lemma FoldOne<T>(op: SliceOp, s: seq<T>)
    ensures FoldSlices([op], s) == Slice(op, s)
  {
    assert [op][1..] == [];
  }

  lemma {:induction false} FoldEmpty<T>(ops: seq<SliceOp>)
    ensures FoldSlices<T>(ops, []) == []
  {
    if ops != [] { FoldEmpty<T>(ops[1..]); }
  }

  // ----- slicing commutes with reading a stream at line numbers

  ghost predicate Positions(at: seq<int>, total: nat)
  {
    forall k :: 0 <= k < |at| ==> 1 <= at[k] <= total
  }

  ghost function Pick<T>(s: seq<T>, at: seq<int>): (r: seq<T>)
    requires Positions(at, |s|)
    ensures |r| == |at|
    ensures forall k :: 0 <= k < |at| ==> r[k] == s[at[k] - 1]
  {
    seq(|at|, k requires 0 <= k < |at| => s[at[k] - 1])
  }

  lemma PickCut<T>(s: seq<T>, at: seq<int>, lo: nat, hi: nat)
    requires Positions(at, |s|) && lo <= hi <= |at|
    ensures Positions(at[lo..hi], |s|) && Pick(s, at)[lo..hi] == Pick(s, at[lo..hi])
  {
  }

  lemma SlicePick<T>(op: SliceOp, s: seq<T>, at: seq<int>)
    requires Positions(at, |s|)
    ensures Positions(Slice(op, at), |s|) && Slice(op, Pick(s, at)) == Pick(s, Slice(op, at))
  {
    PickCut(s, at, Window(op, |at|).0, Window(op, |at|).1);
  }

  lemma {:induction false} FoldPick<T>(ops: seq<SliceOp>, s: seq<T>, at: seq<int>)
    requires Positions(at, |s|)
    ensures Positions(FoldSlices(ops, at), |s|)
    ensures FoldSlices(ops, Pick(s, at)) == Pick(s, FoldSlices(ops, at))
  {
    if ops != [] {
      SlicePick(ops[0], s, at);
      FoldPick(ops[1..], s, Slice(ops[0], at));
    }
  }

  lemma PickAll<T>(s: seq<T>)
    ensures Positions(Count(1, |s|), |s|) && Pick(s, Count(1, |s|)) == s
  {
  }

  /** The fold over any stream is the stream read at the line numbers the interval fold selects. */
  lemma FoldSelectsLines<T>(ops: seq<SliceOp>, s: seq<T>)
    ensures Positions(FoldSlices(ops, Count(1, |s|)), |s|)
    ensures FoldSlices(ops, s) == Pick(s, FoldSlices(ops, Count(1, |s|)))
  {
    PickAll(s);
    FoldPick(ops, s, Count(1, |s|));
  }

  // ----- each filter in plain words

  /** What a filter asks of the line at position p of a stream of `total`. */
  predicate Asks(op: SliceOp, p: int, total: int)
  {
    match op
    case First(n) => p <= n
    case Last(n) => total - p < n
    case DropLast(n) => n <= total - p
    case From(n) => 1 <= n <= p
    case Range(from, to) => 1 <= from <= p <= to
  }

  lemma AsksIsWindow(op: SliceOp, p: int, total: nat)
    ensures 1 <= p <= total && Asks(op, p, total) <==> Window(op, total).0 < p <= Window(op, total).1
  {
  }

  lemma RisingAre(s: seq<int>, from: int)
    requires forall k :: 0 <= k < |s| ==> s[k] == from + k + 1
    ensures forall p :: p in s <==> from < p <= from + |s|
    ensures forall j, k :: 0 <= j < k < |s| ==> s[j] < s[k]
  {
    forall p | from < p <= from + |s| ensures p in s {
      assert s[p - 1 - from] == p;
    }
  }

  lemma CountWindow(total: nat, from: nat, to: nat)
    requires from <= to <= total
    ensures forall k :: 0 <= k < to - from ==> Count(1, total)[from..to][k] == from + k + 1
  {
    var all := Count(1, total);
    forall k | 0 <= k < to - from ensures all[from..to][k] == from + k + 1 {
      assert all[from..to][k] == all[from + k];
    }
  }

  lemma SliceRises(op: SliceOp, total: nat)
    ensures var w, s := Window(op, total), Slice(op, Count(1, total));
            |s| == w.1 - w.0 && forall k :: 0 <= k < |s| ==> s[k] == w.0 + k + 1
  {
    var w := Window(op, total);
    CountWindow(total, w.0, w.1);
    assert |Count(1, total)| == total;
    hide Window, Count;
  }

  /** A filter over the whole stream keeps exactly the positions it asks for, in ascending order. */
  lemma SliceKeepsAsked(op: SliceOp, total: nat)
    ensures var s := Slice(op, Count(1, total));
            && (forall p :: p in s <==> 1 <= p <= total && Asks(op, p, total))
            && (forall j, k :: 0 <= j < k < |s| ==> s[j] < s[k])
  {
    hide Slice, Asks, Count;
    SliceRises(op, total);
    RisingAre(Slice(op, Count(1, total)), Window(op, total).0);
    forall p ensures Window(op, total).0 < p <= Window(op, total).1 <==> 1 <= p <= total && Asks(op, p, total) {
      AsksIsWindow(op, p, total);
    }
    hide Window;
  }

  /** Filters apply in turn: those after a cut in the list see what those before it kept. */
  lemma {:induction false} SlicesInTurn<T>(sooner: seq<SliceOp>, later: seq<SliceOp>, s: seq<T>)
    ensures FoldSlices(sooner + later, s) == FoldSlices(later, FoldSlices(sooner, s))
    decreases |sooner|
  {
    if sooner == [] {
      assert sooner + later == later;
    } else {
      SlicesInTurn(sooner[1..], later, Slice(sooner[0], s));
      assert (sooner + later)[1..] == sooner[1..] + later;
    }
  }
}
