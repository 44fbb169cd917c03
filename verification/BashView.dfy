/** Exactly which chains become a pure view. */
module BashView {

  import opened BashChoice
  import opened BashContext
  import opened BashRules
  import opened Options

  /** Glue and inert tails always classify as unsafe. */
  ghost predicate Coherent(chain: seq<SegmentNode>)
  {
    forall n :: n in chain && (IsGlue(n.node) || IsInertTail(n.node)) ==> Classify(n).Unsafe?
  }

  ghost predicate SimpleNodes(chain: seq<SegmentNode>)
  {
    forall n :: n in chain ==> !n.node.kind.OtherNode?
  }

  /** The outcome of reading a chain as one view among silent segments. */
  datatype Scan = NotOneView | OneView(view: ViewSeg, dir: Option<string>)

  /** A two-variable reading of the chain: the view met so far, and the one directory moved to. */
  function ViewScan(rest: seq<SegmentNode>, view: Option<ViewSeg>, dir: Option<string>): Scan
    decreases |rest|
  {
    if rest == [] then (if view.Some? then OneView(view.value, dir) else NotOneView)
    else match Classify(rest[0])
      case Silent(None) => ViewScan(rest[1..], view, dir)
      case Silent(Some(d)) =>
        if DotForm(d) || (dir == Some(d) && Absolute(d)) then ViewScan(rest[1..], view, dir)
        else if view.None? && dir.None? then ViewScan(rest[1..], view, Some(d))
        else NotOneView
      case View(v) => if rest[0].prefixPosition || view.Some? then NotOneView else ViewScan(rest[1..], Some(v), dir)
      case _ => NotOneView
  }

  /** The marks of a walk that has met only silent segments and perhaps one view. */
  function Quiet(view: Option<ViewSeg>, dir: Option<string>): Marks
  {
    Marks(view, None, None, dir, if dir.Some? && Absolute(dir.value) then dir else None, false,
          if view.Some? then [ViewBlock(view.value)] else [], false)
  }

  /** A search, a multi-file view or a tail was recorded: no pure view any more. */
  predicate Spoiled(m: Marks)
  {
    m.search.Some? || m.multi.Some? || (m.tailMode && m.blocks != []) || m.sawGlue
  }

  predicate IsPureView(f: Fired)
  {
    f.Stopped? && f.decision.PureView?
  }

  /** `step` is what the table does at k: the walk goes on from it, or ends with it. */
  ghost predicate StepAt(script: Script, chain: seq<SegmentNode>, k: nat, m: Marks, step: Fired)
    requires k < |chain|
  {
    match step
    case Advanced(next) => Walk(script, chain, k, m) == Walk(script, chain, k + 1, next)
    case _ => Walk(script, chain, k, m) == step || Walk(script, chain, k, m) == Broken
  }

  lemma TakeStep(script: Script, chain: seq<SegmentNode>, k: nat, m: Marks)
    requires k < |chain|
    ensures var s := Site(script, chain, HasGlue(chain), k); StepAt(script, chain, k, m, RunSegment(Choose(s, m), s, m))
  {
    WalkUnfolds(script, chain, k, m);
  }

  /** No rule unspoils. */
  lemma SpoiledRun(r: Rule, s: Site, m: Marks)
    requires s.at < |s.chain| && Spoiled(m)
    ensures RunSegment(r, s, m).Advanced? ==> Spoiled(RunSegment(r, s, m).marks)
  {
  }

  lemma SpoiledTail(m: Marks)
    requires Spoiled(m)
    ensures !IsPureView(RunPost(ChoosePost(m), m))
  {
  }

  lemma SpoiledStepAt(script: Script, chain: seq<SegmentNode>, k: nat, m: Marks) returns (step: Fired)
    requires k < |chain| && Spoiled(m)
    ensures StepAt(script, chain, k, m, step) && !IsPureView(step) && (step.Advanced? ==> Spoiled(step.marks))
  {
    var s := Site(script, chain, HasGlue(chain), k);
    TakeStep(script, chain, k, m);
    step := RunSegment(Choose(s, m), s, m);
    RunPasses(Choose(s, m), s, m);
    SpoiledRun(Choose(s, m), s, m);
  }

  lemma {:induction false} SpoiledWalk(script: Script, chain: seq<SegmentNode>, k: nat, m: Marks)
    requires k <= |chain| && Spoiled(m)
    ensures !IsPureView(Walk(script, chain, k, m))
    decreases |chain| - k
  {
    hide Walk, RunPost, ChoosePost;
    if k == |chain| {
      WalkEnds(script, chain, m);
      SpoiledTail(m);
    } else {
      var step := SpoiledStepAt(script, chain, k, m);
      if step.Advanced? { SpoiledWalk(script, chain, k + 1, step.marks); }
    }
  }

  /** One step of the table against one step of the scan. */
  datatype Step = Goes(view: Option<ViewSeg>, dir: Option<string>) | Fails

  function ScanStep(n: SegmentNode, view: Option<ViewSeg>, dir: Option<string>): Step
  {
    match Classify(n)
    case Silent(None) => Goes(view, dir)
    case Silent(Some(d)) =>
      if DotForm(d) || (dir == Some(d) && Absolute(d)) then Goes(view, dir)
      else if view.None? && dir.None? then Goes(view, Some(d)) else Fails
    case View(v) => if n.prefixPosition || view.Some? then Fails else Goes(Some(v), dir)
    case _ => Fails
  }

  ghost predicate Follows(step: Fired, scan: Step)
  {
    match scan
    case Goes(v, d) => step == Advanced(Quiet(v, d))
    case Fails => (step.Advanced? ==> Spoiled(step.marks)) && !IsPureView(step)
  }

  /** The table follows the scan, except that a leading view may open a tail the scan does not know. */
  lemma TableFollowsScan(s: Site, view: Option<ViewSeg>, dir: Option<string>)
    requires s.at < |s.chain| && !s.hasGlue && !s.chain[s.at].node.kind.OtherNode? && !IsGlue(s.chain[s.at].node)
    requires IsInertTail(s.chain[s.at].node) ==> Current(s).Unsafe?
    ensures var m := Quiet(view, dir); var step := RunSegment(Choose(s, m), s, m);
            if Current(s).View? && LeadsTail(s, m) then step.Advanced? && Spoiled(step.marks)
            else Follows(step, ScanStep(s.chain[s.at], view, dir))
  {
  }

  lemma QuietStepAt(script: Script, chain: seq<SegmentNode>, k: nat, view: Option<ViewSeg>, dir: Option<string>)
    returns (step: Fired, opens: bool)
    requires k < |chain| && !HasGlue(chain) && Coherent(chain) && SimpleNodes(chain)
    ensures StepAt(script, chain, k, Quiet(view, dir), step)
    ensures opens ==> step.Advanced? && Spoiled(step.marks) && ViewScan(chain[k..], view, dir) == NotOneView
    ensures !opens ==> Follows(step, ScanStep(chain[k], view, dir))
  {
    var s, m := Site(script, chain, HasGlue(chain), k), Quiet(view, dir);
    assert chain[k] in chain;
    TakeStep(script, chain, k, m);
    TableFollowsScan(s, view, dir);
    step := RunSegment(Choose(s, m), s, m);
    opens := Current(s).View? && LeadsTail(s, m);
    if opens { TailFailsScan(chain, k, view, dir); }
  }

  /** Over a glue-free chain the table is the two-variable scan. */
  lemma {:induction false} WalkIsScan(script: Script, chain: seq<SegmentNode>, k: nat, view: Option<ViewSeg>,
                                      dir: Option<string>)
    requires k <= |chain| && !HasGlue(chain) && Coherent(chain) && SimpleNodes(chain)
    ensures Agrees(Walk(script, chain, k, Quiet(view, dir)), ViewScan(chain[k..], view, dir))
    decreases |chain| - k
  {
    hide Walk, RunPost, ChoosePost, Quiet;
    if k == |chain| {
      WalkEnds(script, chain, Quiet(view, dir));
      QuietTail(view, dir);
    } else {
      var step, opens := QuietStepAt(script, chain, k, view, dir);
      var scan := ScanStep(chain[k], view, dir);
      assert chain[k..][0] == chain[k] && chain[k..][1..] == chain[k + 1..];
      if !opens && scan.Goes? {
        WalkIsScan(script, chain, k + 1, scan.view, scan.dir);
      } else if step.Advanced? {
        SpoiledWalk(script, chain, k + 1, step.marks);
      }
    }
  }

  ghost predicate Agrees(walked: Fired, scan: Scan)
  {
    match scan
    case OneView(v, d) => walked == Stopped(PureView(v, d))
    case NotOneView => !IsPureView(walked)
  }

  lemma QuietTail(view: Option<ViewSeg>, dir: Option<string>)
    ensures Agrees(RunPost(ChoosePost(Quiet(view, dir)), Quiet(view, dir)), ViewScan([], view, dir))
  {
  }

  lemma TailFailsScan(chain: seq<SegmentNode>, k: nat, view: Option<ViewSeg>, dir: Option<string>)
    requires k == 0 < |chain| && Coherent(chain) && |chain| > 1 && forall n :: n in chain[1..] ==> IsInertTail(n.node)
    requires Classify(chain[0]).View?
    ensures ViewScan(chain[k..], view, dir) == NotOneView
  {
  }

  // ----- the scan in plain words

  /** A `cd` that is not a dot form. */
  predicate Moves(n: SegmentNode)
  {
    Classify(n).Silent? && Classify(n).cd.Some? && !DotForm(Classify(n).cd.value)
  }

  predicate AllSilent(rest: seq<SegmentNode>)
  {
    forall n :: n in rest ==> Classify(n).Silent?
  }

  predicate NoMove(rest: seq<SegmentNode>)
  {
    forall n :: n in rest ==> !Moves(n)
  }

  /** Every move goes again to the same absolute directory. */
  predicate OnlyRepeats(rest: seq<SegmentNode>, d: string)
  {
    forall n :: n in rest && Moves(n) ==> Classify(n).cd == Some(d) && Absolute(d)
  }

  /** The first segment that is not silent, or the length when all are. */
  function FirstLoud(rest: seq<SegmentNode>): (i: nat)
    ensures i <= |rest| && AllSilent(rest[..i])
    ensures i < |rest| ==> !Classify(rest[i]).Silent?
  {
    if rest == [] || !Classify(rest[0]).Silent? then 0
    else
      var i := FirstLoud(rest[1..]);
      assert rest[..i + 1] == [rest[0]] + rest[1..][..i];
      i + 1
  }

  /** The first `cd` that moves, or the length when none does. */
  function FirstMover(rest: seq<SegmentNode>): (f: nat)
    ensures f <= |rest| && NoMove(rest[..f])
    ensures f < |rest| ==> Moves(rest[f])
  {
    if rest == [] || Moves(rest[0]) then 0
    else
      var f := FirstMover(rest[1..]);
      assert rest[..f + 1] == [rest[0]] + rest[1..][..f];
      f + 1
  }

  /** One view, in the terminal statement, is the only segment that is not silent. */
  predicate ViewAlone(rest: seq<SegmentNode>, v: ViewSeg)
  {
    var i := FirstLoud(rest);
    i < |rest| && Classify(rest[i]) == View(v) && !rest[i].prefixPosition && AllSilent(rest[i + 1..])
  }

  /** The first move comes before the view; every later one goes to the same absolute directory again. */
  predicate MovesTo(rest: seq<SegmentNode>, d: string)
  {
    var f := FirstMover(rest);
    f < FirstLoud(rest) && Classify(rest[f]).cd == Some(d) && OnlyRepeats(rest[f + 1..], d)
  }

  lemma HeadAndTail(rest: seq<SegmentNode>, d: string)
    requires rest != []
    ensures AllSilent(rest) <==> Classify(rest[0]).Silent? && AllSilent(rest[1..])
    ensures NoMove(rest) <==> !Moves(rest[0]) && NoMove(rest[1..])
    ensures OnlyRepeats(rest, d)
            <==> (Moves(rest[0]) ==> Classify(rest[0]).cd == Some(d) && Absolute(d)) && OnlyRepeats(rest[1..], d)
  {
  }

  lemma {:induction false} ScanAfterView(rest: seq<SegmentNode>, v: ViewSeg, dir: Option<string>)
    ensures ViewScan(rest, Some(v), dir) ==
            if AllSilent(rest)
              && (if dir.Some? then OnlyRepeats(rest, dir.value) else NoMove(rest)) then OneView(v, dir) else NotOneView
    decreases |rest|
  {
    if rest != [] {
      ScanAfterView(rest[1..], v, dir);
      HeadAndTail(rest, if dir.Some? then dir.value else "");
    }
  }

  lemma {:induction false} ScanAfterMove(rest: seq<SegmentNode>, d: string, v: ViewSeg, b: Option<string>)
    ensures ViewScan(rest, None, Some(d)) == OneView(v, b)
            <==> ViewAlone(rest, v) && OnlyRepeats(rest, d) && b == Some(d)
    decreases |rest|
  {
    if rest != [] {
      HeadAndTail(rest, d);
      if Classify(rest[0]).Silent? {
        ScanAfterMove(rest[1..], d, v, b);
        ViewAloneTail(rest, v);
      } else {
        assert FirstLoud(rest) == 0;
        if Classify(rest[0]).View? { ScanAfterView(rest[1..], Classify(rest[0]).view, Some(d)); }
      }
    }
  }

  lemma ViewAloneTail(rest: seq<SegmentNode>, v: ViewSeg)
    requires rest != [] && Classify(rest[0]).Silent?
    ensures FirstLoud(rest) == 1 + FirstLoud(rest[1..])
    ensures ViewAlone(rest, v) <==> ViewAlone(rest[1..], v)
  {
  }

  lemma MovesToTail(rest: seq<SegmentNode>, d: string)
    requires rest != [] && Classify(rest[0]).Silent? && !Moves(rest[0])
    ensures FirstMover(rest) == 1 + FirstMover(rest[1..])
    ensures MovesTo(rest, d) <==> MovesTo(rest[1..], d)
  {
  }

  /** The scan in plain words: one view alone, and at most one place moved to, before it. */
  lemma {:induction false} ScanMeans(rest: seq<SegmentNode>, v: ViewSeg, b: Option<string>)
    ensures ViewScan(rest, None, None) == OneView(v, b)
            <==> ViewAlone(rest, v) && if b.Some? then MovesTo(rest, b.value) else NoMove(rest)
    decreases |rest|
  {
    if rest != [] {
      HeadAndTail(rest, "");
      if !Classify(rest[0]).Silent? {
        assert FirstLoud(rest) == 0;
        if Classify(rest[0]).View? { ScanAfterView(rest[1..], Classify(rest[0]).view, None); }
      } else if Moves(rest[0]) {
        assert FirstMover(rest) == 0;
        ScanAfterMove(rest[1..], Classify(rest[0]).cd.value, v, b);
        ViewAloneTail(rest, v);
      } else {
        ScanMeans(rest[1..], v, b);
        ViewAloneTail(rest, v);
        if b.Some? { MovesToTail(rest, b.value); }
      }
    }
  }

  // ----- glued chains never end as a pure view

  lemma GluedStepAt(script: Script, chain: seq<SegmentNode>, k: nat, m: Marks) returns (step: Fired)
    requires k < |chain| && Coherent(chain) && (|chain| == 1 ==> m == UNMARKED)
    ensures StepAt(script, chain, k, m, step) && !IsPureView(step)
    ensures IsGlue(chain[k].node) && step.Advanced? ==> Spoiled(step.marks)
  {
    var s := Site(script, chain, HasGlue(chain), k);
    assert chain[k] in chain;
    TakeStep(script, chain, k, m);
    RunPasses(Choose(s, m), s, m);
    step := RunSegment(Choose(s, m), s, m);
  }

  lemma {:induction false} GluedWalk(script: Script, chain: seq<SegmentNode>, k: nat, m: Marks, g: nat)
    requires k <= g < |chain| && IsGlue(chain[g].node) && Coherent(chain) && (|chain| == 1 ==> m == UNMARKED)
    ensures !IsPureView(Walk(script, chain, k, m))
    decreases |chain| - k
  {
    hide Walk, IsGlue;
    var step := GluedStepAt(script, chain, k, m);
    if step.Advanced? {
      if k < g {
        GluedWalk(script, chain, k + 1, step.marks, g);
      } else {
        SpoiledWalk(script, chain, k + 1, step.marks);
      }
    }
  }

  /** A chain walks to a pure view exactly when it is glue-free, one view stands alone, and the moves fit. */
  lemma PureViewExactlyWhen(script: Script, chain: seq<SegmentNode>, v: ViewSeg, b: Option<string>)
    requires Coherent(chain) && SimpleNodes(chain)
    ensures Walk(script, chain, 0, UNMARKED) == Stopped(PureView(v, b))
            <==> !HasGlue(chain) && ViewAlone(chain, v) && if b.Some? then MovesTo(chain, b.value) else NoMove(chain)
  {
    if HasGlue(chain) {
      var g :| 0 <= g < |chain| && IsGlue(chain[g].node);
      GluedWalk(script, chain, 0, UNMARKED, g);
    } else {
      WalkIsScan(script, chain, 0, None, None);
      assert chain[0..] == chain;
      ScanMeans(chain, v, b);
    }
  }
}
