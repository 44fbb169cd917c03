/** Several paths locked in one sorted nesting over per-path FIFO queues: exclusion, no deadlock, and progress. */
module MutationQueue {

  import opened LexOrder

  type Path = seq<int>

  // ----- the sorted, deduplicated copy

  function Insert(p: Path, sorted: seq<Path>): seq<Path>
  {
    if sorted == [] then [p]
    else if p == sorted[0] then sorted
    else if Less(p, sorted[0]) then [p] + sorted
    else [sorted[0]] + Insert(p, sorted[1..])
  }

  /** `[...new Set(paths)].sort()` */
  function SortedUnique(paths: seq<Path>): seq<Path>
  {
    if paths == [] then [] else Insert(paths[0], SortedUnique(paths[1..]))
  }

  ghost predicate Ascending(ps: seq<Path>)
  {
    |ps| < 2 || (Less(ps[0], ps[1]) && Ascending(ps[1..]))
  }

  lemma {:induction false} InsertKeeps(p: Path, sorted: seq<Path>)
    requires Ascending(sorted)
    ensures Ascending(Insert(p, sorted))
    ensures sorted != [] && Less(sorted[0], p) ==> Insert(p, sorted)[0] == sorted[0]
    ensures forall x :: x in Insert(p, sorted) <==> x == p || x in sorted
  {
    if sorted != [] {
      Trichotomy(p, sorted[0]);
      if p == sorted[0] {
      } else if Less(p, sorted[0]) {
        assert ([p] + sorted)[1..] == sorted;
      } else {
        InsertKeeps(p, sorted[1..]);
        assert ([sorted[0]] + Insert(p, sorted[1..]))[1..] == Insert(p, sorted[1..]);
        assert sorted == [sorted[0]] + sorted[1..];
      }
    }
  }

  /** Strictly ascending, and the same paths. */
  lemma {:induction false} SortedUniqueSorts(paths: seq<Path>)
    ensures Ascending(SortedUnique(paths))
    ensures forall x :: x in SortedUnique(paths) <==> x in paths
  {
    if paths != [] {
      SortedUniqueSorts(paths[1..]);
      InsertKeeps(paths[0], SortedUnique(paths[1..]));
      assert paths == [paths[0]] + paths[1..];
    }
  }

  lemma {:induction false} AscendingAt(ps: seq<Path>, i: nat, j: nat)
    requires Ascending(ps) && i < j < |ps|
    ensures Less(ps[i], ps[j]) && ps[i] != ps[j]
  {
    Trichotomy(ps[i], ps[i]);
    if i > 0 {
      AscendingAt(ps[1..], i - 1, j - 1);
    } else if j > 1 {
      AscendingAt(ps[1..], 0, j - 1);
      Transitive(ps[0], ps[1], ps[j]);
    }
  }

  // ----- holders and queues

  /**
   * A call in flight: its sorted paths, how many queues it is inside of, whether it stands in the next
   * one's line, and whether its body has finished and the nesting is unwinding.
   */
  datatype Holder = Holder(need: seq<Path>, held: nat, asked: bool, leaving: bool)

  datatype World = World(holders: seq<Holder>, queues: map<Path, seq<nat>>)

  function Queue(w: World, p: Path): seq<nat>
  {
    if p in w.queues then w.queues[p] else []
  }

  predicate Running(h: Holder)
  {
    !h.leaving && h.held == |h.need|
  }

  predicate Done(h: Holder)
  {
    h.leaving && h.held == 0
  }

  ghost predicate Shaped(h: Holder)
  {
    Ascending(h.need) && h.held <= |h.need| && (h.asked ==> h.held < |h.need| && !h.leaving)
  }

  ghost predicate Holds(h: Holder, p: Path)
  {
    exists i :: 0 <= i < h.held && i < |h.need| && h.need[i] == p
  }

  ghost predicate Waits(h: Holder, p: Path)
  {
    h.asked && h.held < |h.need| && h.need[h.held] == p
  }

  datatype Step = Arrive(paths: seq<Path>) | Ask(id: nat) | Enter(id: nat) | Finish(id: nat) | Release(id: nat)

  predicate Enabled(w: World, s: Step)
  {
    match s
    case Arrive(_) => true
    case Ask(id) => id < |w.holders| && !w.holders[id].leaving && w.holders[id].held < |w.holders[id].need|
        && !w.holders[id].asked
    case Enter(id) =>
      && id < |w.holders| && w.holders[id].asked && w.holders[id].held < |w.holders[id].need|
      && Queue(w, w.holders[id].need[w.holders[id].held]) != []
          && Queue(w, w.holders[id].need[w.holders[id].held])[0] == id
    case Finish(id) => id < |w.holders| && Running(w.holders[id])
    case Release(id) =>
      && id < |w.holders| && w.holders[id].leaving && 0 < w.holders[id].held <= |w.holders[id].need|
      && Queue(w, w.holders[id].need[w.holders[id].held - 1]) != []
  }

  function Next(w: World, s: Step): World
    requires Enabled(w, s)
  {
    match s
    case Arrive(paths) => w.(holders := w.holders + [Holder(SortedUnique(paths), 0, false, false)])
    case Ask(id) =>
      var h := w.holders[id];
      var p := h.need[h.held];
      World(w.holders[id := h.(asked := true)], w.queues[p := Queue(w, p) + [id]])
    case Enter(id) =>
      var h := w.holders[id];
      w.(holders := w.holders[id := h.(held := h.held + 1, asked := false)])
    case Finish(id) => w.(holders := w.holders[id := w.holders[id].(leaving := true)])
    case Release(id) =>
      var h := w.holders[id];
      var p := h.need[h.held - 1];
      World(w.holders[id := h.(held := h.held - 1)], w.queues[p := Queue(w, p)[1..]])
  }

  // ----- the invariant

  ghost predicate Claims(w: World, id: nat, p: Path)
  {
    id < |w.holders| && (Holds(w.holders[id], p) || Waits(w.holders[id], p))
  }

  ghost predicate Inside(w: World, id: nat, p: Path)
  {
    id < |w.holders| && Holds(w.holders[id], p)
  }

  predicate NoTwice(q: seq<nat>)
  {
    forall i, j :: 0 <= i < j < |q| ==> q[i] != q[j]
  }

  /** A queue's line is exactly the holders inside it and those waiting for it, each once, the one inside first. */
  ghost predicate Line(w: World, p: Path)
  {
    && (forall id: nat :: id in Queue(w, p) <==> Claims(w, id, p))
    && NoTwice(Queue(w, p))
    && (forall id: nat :: Inside(w, id, p) ==> Queue(w, p) != [] && Queue(w, p)[0] == id)
  }

  ghost predicate Inv(w: World)
  {
    (forall id :: 0 <= id < |w.holders| ==> Shaped(w.holders[id])) && forall p :: Line(w, p)
  }

  lemma NotYet(h: Holder)
    requires Shaped(h) && h.held < |h.need| && !h.asked
    ensures !Holds(h, h.need[h.held]) && !Waits(h, h.need[h.held])
  {
    if Holds(h, h.need[h.held]) {
      var i :| 0 <= i < h.held && h.need[i] == h.need[h.held];
      AscendingAt(h.need, i, h.held);
      assert false;
    }
  }

  lemma AskKeepsLine(w: World, id: nat, p: Path)
    requires Inv(w) && Enabled(w, Ask(id))
    ensures Line(Next(w, Ask(id)), p)
  {
    var h := w.holders[id];
    var next := Next(w, Ask(id));
    NotYet(h);
    assert Line(w, p);
    assert Claims(w, id, h.need[h.held]) <==> false;
    forall k: nat
      ensures (Claims(next, k, p) <==> Claims(w, k, p) || (k == id && p == h.need[h.held]))
              && (Inside(next, k, p) <==> Inside(w, k, p))
    {
    }
  }

  lemma EnterKeepsLine(w: World, id: nat, p: Path)
    requires Inv(w) && Enabled(w, Enter(id))
    ensures Line(Next(w, Enter(id)), p)
  {
    var next := Next(w, Enter(id));
    assert Line(w, p);
    forall k: nat
      ensures (Claims(next, k, p) <==> Claims(w, k, p))
              && (Inside(next, k, p) ==> Inside(w, k, p) || (k == id && Waits(w.holders[id], p)))
    {
    }
  }

  lemma FinishKeepsLine(w: World, id: nat, p: Path)
    requires Inv(w) && Enabled(w, Finish(id))
    ensures Line(Next(w, Finish(id)), p)
  {
    var next := Next(w, Finish(id));
    assert Line(w, p);
    assert Holds(w.holders[id].(leaving := true), p) <==> Holds(w.holders[id], p);
    forall k: nat ensures (Claims(next, k, p) <==> Claims(w, k, p)) && (Inside(next, k, p) <==> Inside(w, k, p)) {
    }
  }

  lemma ReleaseShifts(h: Holder, p: Path)
    requires Shaped(h) && h.leaving && h.held > 0
    ensures Holds(h.(held := h.held - 1), p) <==> Holds(h, p) && p != h.need[h.held - 1]
    ensures Holds(h, h.need[h.held - 1])
  {
    if p == h.need[h.held - 1] && Holds(h.(held := h.held - 1), p) {
      var i :| 0 <= i < h.held - 1 && h.need[i] == p;
      AscendingAt(h.need, i, h.held - 1);
      assert false;
    }
  }

  ghost predicate Gone(id: nat, released: Path, k: nat, p: Path)
  {
    k == id && p == released
  }

  lemma ReleaseClaims(w: World, id: nat, p: Path, k: nat)
    requires Inv(w) && Enabled(w, Release(id))
    ensures var released, next := w.holders[id].need[w.holders[id].held - 1], Next(w, Release(id));
            && (Claims(next, k, p) <==> Claims(w, k, p) && !Gone(id, released, k, p))
            && (Inside(next, k, p) <==> Inside(w, k, p) && !Gone(id, released, k, p))
  {
    ReleaseShifts(w.holders[id], p);
  }

  lemma ReleaseKeepsLine(w: World, id: nat, p: Path)
    requires Inv(w) && Enabled(w, Release(id))
    ensures Line(Next(w, Release(id)), p)
  {
    var released, next := w.holders[id].need[w.holders[id].held - 1], Next(w, Release(id));
    forall k: nat
      ensures (Claims(next, k, p) <==> Claims(w, k, p) && !Gone(id, released, k, p))
              && (Inside(next, k, p) <==> Inside(w, k, p) && !Gone(id, released, k, p))
    {
      ReleaseClaims(w, id, p, k);
    }
    assert Line(w, p);
    if p == released {
      ReleaseShifts(w.holders[id], p);
      assert Inside(w, id, p);
    }
  }

  lemma ArriveKeepsLine(w: World, paths: seq<Path>, p: Path)
    requires Inv(w)
    ensures Line(Next(w, Arrive(paths)), p)
  {
    var next := Next(w, Arrive(paths));
    assert Line(w, p);
    forall k: nat ensures (Claims(next, k, p) <==> Claims(w, k, p)) && (Inside(next, k, p) <==> Inside(w, k, p)) {
    }
  }

  /** Every step keeps the invariant. */
  lemma StepKeeps(w: World, s: Step)
    requires Inv(w) && Enabled(w, s)
    ensures Inv(Next(w, s))
  {
    if s.Arrive? { SortedUniqueSorts(s.paths); }
    forall p ensures Line(Next(w, s), p) {
      match s
      case Arrive(paths) => ArriveKeepsLine(w, paths, p);
      case Ask(id) => AskKeepsLine(w, id, p);
      case Enter(id) => EnterKeepsLine(w, id, p);
      case Finish(id) => FinishKeepsLine(w, id, p);
      case Release(id) => ReleaseKeepsLine(w, id, p);
    }
  }

  // ----- runs

  ghost predicate Run(w: World, steps: seq<Step>, end: World)
    decreases |steps|
  {
    if steps == [] then w == end else Enabled(w, steps[0]) && Run(Next(w, steps[0]), steps[1..], end)
  }

  const EMPTY := World([], map[])

  lemma {:induction false} RunKeeps(w: World, steps: seq<Step>, end: World)
    requires Inv(w) && Run(w, steps, end)
    ensures Inv(end)
    decreases |steps|
  {
    if steps != [] {
      StepKeeps(w, steps[0]);
      RunKeeps(Next(w, steps[0]), steps[1..], end);
    }
  }

  /** In every reachable state two different bodies running together share no path. */
  lemma BodiesNeverOverlap(steps: seq<Step>, w: World, a: nat, b: nat, p: Path)
    requires Run(EMPTY, steps, w) && a < b < |w.holders|
    requires Running(w.holders[a]) && Running(w.holders[b])
    ensures !(p in w.holders[a].need && p in w.holders[b].need)
  {
    RunKeeps(EMPTY, steps, w);
    assert Line(w, p);
    if p in w.holders[a].need && p in w.holders[b].need {
      assert Inside(w, a, p) && Inside(w, b, p);
    }
  }

  // ----- no deadlock

  /** Stuck in line: everything else can step by itself. */
  predicate Waiting(h: Holder)
  {
    h.asked && h.held < |h.need|
  }

  function WaitsOn(h: Holder): Path
    requires Waiting(h)
  {
    h.need[h.held]
  }

  lemma {:induction false} GreatestWaiter(holders: seq<Holder>) returns (m: nat)
    requires exists id :: 0 <= id < |holders| && Waiting(holders[id])
    ensures m < |holders| && Waiting(holders[m])
    ensures forall id :: 0 <= id < |holders| && Waiting(holders[id]) ==>
              !Less(WaitsOn(holders[m]), WaitsOn(holders[id]))
    decreases |holders|
  {
    var last := |holders| - 1;
    var rest := holders[..last];
    if exists id :: 0 <= id < |rest| && Waiting(rest[id]) {
      m := GreatestWaiter(rest);
      if Waiting(holders[last]) {
        Trichotomy(WaitsOn(holders[last]), WaitsOn(holders[last]));
        if Less(WaitsOn(holders[m]), WaitsOn(holders[last])) { m := Greater(holders, m); }
      }
      assert forall id :: 0 <= id < last ==> holders[id] == rest[id];
    } else {
      m := last;
      assert forall id :: 0 <= id < last ==> holders[id] == rest[id];
      Trichotomy(WaitsOn(holders[last]), WaitsOn(holders[last]));
    }
  }

  lemma Greater(holders: seq<Holder>, m: nat) returns (last: nat)
    requires 0 < |holders| && m < |holders| - 1 && Waiting(holders[m]) && Waiting(holders[|holders| - 1])
    requires Less(WaitsOn(holders[m]), WaitsOn(holders[|holders| - 1]))
    requires forall id :: 0 <= id < |holders| - 1 && Waiting(holders[id]) ==>
               !Less(WaitsOn(holders[m]), WaitsOn(holders[id]))
    ensures last == |holders| - 1
    ensures forall id :: 0 <= id < |holders| && Waiting(holders[id]) ==>
              !Less(WaitsOn(holders[last]), WaitsOn(holders[id]))
  {
    last := |holders| - 1;
    forall id | 0 <= id < |holders| && Waiting(holders[id])
      ensures !Less(WaitsOn(holders[last]), WaitsOn(holders[id]))
    {
      Trichotomy(WaitsOn(holders[last]), WaitsOn(holders[last]));
      if id < last && Less(WaitsOn(holders[last]), WaitsOn(holders[id])) {
        Transitive(WaitsOn(holders[m]), WaitsOn(holders[last]), WaitsOn(holders[id]));
        assert false;
      }
    }
  }

  /** A holder not waiting in line and not done has a step of its own. */
  lemma OwnStep(w: World, id: nat) returns (s: Step)
    requires Inv(w) && id < |w.holders| && !Done(w.holders[id]) && !Waiting(w.holders[id])
    ensures Enabled(w, s) && !s.Arrive?
  {
    var h := w.holders[id];
    assert Shaped(h);
    if h.leaving {
      s := Release(id);
      var p := h.need[h.held - 1];
      ReleaseShifts(h, p);
      assert Line(w, p) && Inside(w, id, p);
    } else if h.held == |h.need| {
      s := Finish(id);
    } else {
      s := Ask(id);
    }
  }

  /** No reachable state with an unfinished call is deadlocked: the waiter for the greatest path can be served. */
  lemma SomeStepIsEnabled(steps: seq<Step>, w: World, id: nat) returns (s: Step)
    requires Run(EMPTY, steps, w) && id < |w.holders| && !Done(w.holders[id])
    ensures Enabled(w, s) && !s.Arrive?
  {
    RunKeeps(EMPTY, steps, w);
    if free: nat :| 0 <= free < |w.holders| && !Done(w.holders[free]) && !Waiting(w.holders[free]) {
      s := OwnStep(w, free);
    } else {
      assert Waiting(w.holders[id]);
      var m := GreatestWaiter(w.holders);
      s := HeadMoves(w, m);
    }
  }

  lemma HeadMoves(w: World, m: nat) returns (s: Step)
    requires Inv(w) && m < |w.holders| && Waiting(w.holders[m])
    requires forall id :: 0 <= id < |w.holders| ==> Done(w.holders[id]) || Waiting(w.holders[id])
    requires forall id :: 0 <= id < |w.holders| && Waiting(w.holders[id]) ==>
               !Less(WaitsOn(w.holders[m]), WaitsOn(w.holders[id]))
    ensures Enabled(w, s) && !s.Arrive?
  {
    var p := WaitsOn(w.holders[m]);
    assert Line(w, p) && Claims(w, m, p);
    assert m in Queue(w, p);
    var head := Queue(w, p)[0];
    assert head in Queue(w, p);
    var g := w.holders[head];
    if Holds(g, p) {
      var i :| 0 <= i < g.held && i < |g.need| && g.need[i] == p;
      assert Waiting(g) && Shaped(g);
      AscendingAt(g.need, i, g.held);
      assert false;
    }
    s := Enter(head);
  }

  /** Two calls that would take two paths in opposite orders, as they arrived. */
  function Opposed(a: Path, b: Path): World
  {
    World([Holder([a, b], 0, false, false), Holder([b, a], 0, false, false)], map[])
  }

  /** Each holds its first path and waits in the other's line. */
  function Entangled(a: Path, b: Path): World
  {
    World([Holder([a, b], 1, true, false), Holder([b, a], 1, true, false)], map[a := [0, 1], b := [1, 0]])
  }

  lemma TakesFirst(a: Path, b: Path) returns (mid: World)
    requires a != b
    ensures mid == World([Holder([a, b], 1, false, false), Holder([b, a], 1, false, false)], map[a := [0], b := [1]])
    ensures Run(Opposed(a, b), [Ask(0), Enter(0), Ask(1), Enter(1)], mid)
  {
    var w := Opposed(a, b);
    var half := World([Holder([a, b], 1, false, false), w.holders[1]], map[a := [0]]);
    mid := World([half.holders[0], Holder([b, a], 1, false, false)], map[a := [0], b := [1]]);
    FirstIn(a, b, w, half);
    SecondIn(a, b, half, mid);
    assert [Ask(0), Enter(0)] + [Ask(1), Enter(1)] == [Ask(0), Enter(0), Ask(1), Enter(1)];
    RunThen(w, [Ask(0), Enter(0)], half, [Ask(1), Enter(1)], mid);
  }

  lemma FirstIn(a: Path, b: Path, w: World, half: World)
    requires a != b && w == Opposed(a, b)
    requires half == World([Holder([a, b], 1, false, false), w.holders[1]], map[a := [0]])
    ensures Run(w, [Ask(0), Enter(0)], half)
  {
    var asked := World([Holder([a, b], 0, true, false), w.holders[1]], map[a := [0]]);
    assert Queue(w, a) == [] && [] + [0] == [0];
    assert Next(w, Ask(0)) == asked && Next(asked, Enter(0)) == half;
    OneStep(asked, Enter(0), [], half);
    OneStep(w, Ask(0), [Enter(0)], half);
  }

  lemma SecondIn(a: Path, b: Path, half: World, mid: World)
    requires a != b && half == World([Holder([a, b], 1, false, false), Holder([b, a], 0, false, false)], map[a := [0]])
    requires mid == World([half.holders[0], Holder([b, a], 1, false, false)], map[a := [0], b := [1]])
    ensures Run(half, [Ask(1), Enter(1)], mid)
  {
    var asked := World([half.holders[0], Holder([b, a], 0, true, false)], map[a := [0], b := [1]]);
    assert Queue(half, b) == [] && [] + [1] == [1];
    assert Next(half, Ask(1)) == asked && Next(asked, Enter(1)) == mid;
    OneStep(asked, Enter(1), [], mid);
    OneStep(half, Ask(1), [Enter(1)], mid);
  }

  lemma OneStep(w: World, s: Step, rest: seq<Step>, end: World)
    requires Enabled(w, s) && Run(Next(w, s), rest, end)
    ensures Run(w, [s] + rest, end)
  {
    assert ([s] + rest)[1..] == rest;
  }

  lemma {:induction false} RunThen(w: World, steps: seq<Step>, mid: World, more: seq<Step>, end: World)
    requires Run(w, steps, mid) && Run(mid, more, end)
    ensures Run(w, steps + more, end)
    decreases |steps|
  {
    if steps == [] {
      assert steps + more == more;
    } else {
      RunThen(Next(w, steps[0]), steps[1..], mid, more, end);
      assert (steps + more)[1..] == steps[1..] + more;
    }
  }

  lemma WaitsForOther(a: Path, b: Path, mid: World)
    requires a != b
    requires mid == World([Holder([a, b], 1, false, false), Holder([b, a], 1, false, false)], map[a := [0], b := [1]])
    ensures Run(mid, [Ask(0), Ask(1)], Entangled(a, b))
  {
    var w := World([Holder([a, b], 1, true, false), mid.holders[1]], map[a := [0], b := [1, 0]]);
    assert [1] + [0] == [1, 0] && [0] + [1] == [0, 1];
    assert Next(mid, Ask(0)) == w && Next(w, Ask(1)) == Entangled(a, b);
    OneStep(w, Ask(1), [], Entangled(a, b));
    OneStep(mid, Ask(0), [Ask(1)], Entangled(a, b));
  }

  /** The entangled queues are in order: each line is who holds the path, then who waits. */
  lemma EntangledLine(a: Path, b: Path, p: Path)
    requires a != b
    ensures Line(Entangled(a, b), p)
  {
    var w := Entangled(a, b);
    var first, second := w.holders[0], w.holders[1];
    assert first.need[0] == a && second.need[0] == b;
    assert (Holds(first, p) <==> p == a) && (Waits(first, p) <==> p == b);
    assert (Holds(second, p) <==> p == b) && (Waits(second, p) <==> p == a);
    forall id: nat
      ensures Claims(w, id, p) <==> id < 2 && (p == a || p == b)
      ensures Inside(w, id, p) <==> (id == 0 && p == a) || (id == 1 && p == b)
    {
    }
  }

  lemma EntangledStands(a: Path, b: Path, s: Step)
    requires a != b && Enabled(Entangled(a, b), s)
    ensures s.Arrive?
  {
  }

  /** Without the sort, two calls over the same two paths can reach a state where neither can step. */
  lemma UnsortedNestingDeadlocks(a: Path, b: Path)
    requires a != b
    ensures Run(Opposed(a, b), [Ask(0), Enter(0), Ask(1), Enter(1)] + [Ask(0), Ask(1)], Entangled(a, b))
    ensures forall p :: Line(Entangled(a, b), p)
    ensures forall s :: Enabled(Entangled(a, b), s) ==> s.Arrive?
  {
    var mid := TakesFirst(a, b);
    WaitsForOther(a, b, mid);
    RunThen(Opposed(a, b), [Ask(0), Enter(0), Ask(1), Enter(1)], mid, [Ask(0), Ask(1)], Entangled(a, b));
    forall p ensures Line(Entangled(a, b), p) { EntangledLine(a, b, p); }
    forall s | Enabled(Entangled(a, b), s) ensures s.Arrive? { EntangledStands(a, b, s); }
  }

  // ----- progress

  /** Steps a call still has to take. */
  function Work(h: Holder): nat
    requires h.held <= |h.need|
  {
    if h.leaving then h.held
    else 2 * (|h.need| - h.held) + (if h.asked then 0 else 1) + |h.need|
  }

  function TotalWork(holders: seq<Holder>): nat
    requires forall id :: 0 <= id < |holders| ==> holders[id].held <= |holders[id].need|
  {
    if holders == [] then 0 else TotalWork(holders[..|holders| - 1]) + Work(holders[|holders| - 1])
  }

  lemma {:induction false} OneWorksLess(holders: seq<Holder>, id: nat, h: Holder)
    requires forall k :: 0 <= k < |holders| ==> holders[k].held <= |holders[k].need|
    requires id < |holders| && h.held <= |h.need| && Work(h) < Work(holders[id])
    ensures TotalWork(holders[id := h]) < TotalWork(holders)
    decreases |holders|
  {
    var last := |holders| - 1;
    if id == last {
      assert holders[id := h][..last] == holders[..last];
    } else {
      assert holders[id := h][..last] == holders[..last][id := h];
      OneWorksLess(holders[..last], id, h);
    }
  }

  /** Every step but a new arrival brings the calls in flight nearer their end. */
  lemma StepMakesProgress(w: World, s: Step)
    requires Inv(w) && Enabled(w, s) && !s.Arrive?
    ensures Inv(Next(w, s)) && TotalWork(Next(w, s).holders) < TotalWork(w.holders)
  {
    StepKeeps(w, s);
    var id := s.id;
    assert Shaped(w.holders[id]);
    OneWorksLess(w.holders, id, Next(w, s).holders[id]);
  }

  // ----- first come, first served

  /** Two callers stand in a path's line in this order. */
  ghost predicate Ahead(w: World, p: Path, a: nat, b: nat)
  {
    exists i, j :: 0 <= i < j < |Queue(w, p)| && Queue(w, p)[i] == a && Queue(w, p)[j] == b
  }

  /** A step leaves a path's line alone, appends its own caller, or takes the head out. */
  lemma LineMoves(w: World, s: Step, p: Path)
    requires Inv(w) && Enabled(w, s)
    ensures var before, after := Queue(w, p), Queue(Next(w, s), p);
            || after == before
            || (s.Ask? && s.id !in before && after == before + [s.id])
            || (s.Release? && before != [] && before[0] == s.id && after == before[1..])
  {
    assert Line(w, p);
    if s.Ask? {
      NotYet(w.holders[s.id]);
    } else if s.Release? {
      ReleaseShifts(w.holders[s.id], p);
      if p == w.holders[s.id].need[w.holders[s.id].held - 1] { assert Inside(w, s.id, p); }
    }
  }

  /** Two callers that stay in a path's line keep their order, and a newcomer stands behind everyone. */
  lemma StepKeepsOrder(w: World, s: Step, p: Path, a: nat, b: nat)
    requires Inv(w) && Enabled(w, s) && a != b && a in Queue(w, p) && a in Queue(Next(w, s), p)
    ensures b in Queue(w, p) && b in Queue(Next(w, s), p) ==> (Ahead(w, p, a, b) <==> Ahead(Next(w, s), p, a, b))
    ensures b !in Queue(w, p) && b in Queue(Next(w, s), p) ==> Ahead(Next(w, s), p, a, b)
  {
    var before, after := Queue(w, p), Queue(Next(w, s), p);
    LineMoves(w, s, p);
    if after != before {
      if s.Ask? {
        AppendKeepsOrder(w, Next(w, s), p, s.id, a, b);
      } else if b in after {
        assert Line(w, p);
        BeheadKeepsOrder(w, Next(w, s), p, a, b);
      }
    }
  }

  lemma AppendKeepsOrder(w: World, v: World, p: Path, id: nat, a: nat, b: nat)
    requires Queue(v, p) == Queue(w, p) + [id] && id !in Queue(w, p) && a in Queue(w, p) && a != b
    ensures b in Queue(w, p) ==> (Ahead(w, p, a, b) <==> Ahead(v, p, a, b))
    ensures b == id ==> Ahead(v, p, a, b)
  {
    var q, r := Queue(w, p), Queue(v, p);
    var i :| 0 <= i < |q| && q[i] == a;
    assert r[i] == a && r[|q|] == id;
    if Ahead(w, p, a, b) {
      var i', j :| 0 <= i' < j < |q| && q[i'] == a && q[j] == b;
      assert r[i'] == a && r[j] == b;
    }
  }

  lemma BeheadKeepsOrder(w: World, v: World, p: Path, a: nat, b: nat)
    requires Queue(w, p) != [] && Queue(v, p) == Queue(w, p)[1..] && NoTwice(Queue(w, p))
    requires a in Queue(v, p) && b in Queue(v, p)
    ensures Ahead(w, p, a, b) <==> Ahead(v, p, a, b)
  {
    var q, r := Queue(w, p), Queue(v, p);
    if Ahead(v, p, a, b) {
      var i, j :| 0 <= i < j < |r| && r[i] == a && r[j] == b;
      assert q[i + 1] == a && q[j + 1] == b;
    }
    if Ahead(w, p, a, b) {
      var i, j :| 0 <= i < j < |q| && q[i] == a && q[j] == b;
      var k :| 0 <= k < |r| && r[k] == a;
      assert q[k + 1] == a && r[j - 1] == b && (i > 0 ==> r[i - 1] == a);
    }
  }
}
