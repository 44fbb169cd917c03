/** The conversion as it runs: one mutable context, the table fired in order, no rule left unfired and no throw. */
module BashContext {

  import opened BashRules
  import opened Options

  // ----- the table: each rule once, at its own altitude

  function RankOf(r: Rule): nat
  {
    match r
    case REmpty => 0 case RParseError => 1 case RMultiStatement => 2 case RBackground => 3
    case RNonAndChain => 4 case RCompoundTop => 5 case RCompoundOperand => 6 case RChainTooLong => 7
    case RCompoundSegment => 8 case RAdmitGlue => 9 case RInertTail => 10 case RInertCountTail => 11
    case RUnsafe => 12 case RSkipRedundantCd => 13 case RPostBlockCd => 14 case RPostViewCd => 15
    case RMultiCd => 16 case RRecordCd => 17 case RSilentSkip => 18 case RInertTailHead => 19
    case RSearchPrefix => 20 case RSearchSecond => 21 case RRecordSearch => 22 case RViewPrefix => 23
    case RViewSecond => 24 case RRecordView => 25 case RMultiViewChain => 26 case RMultiView => 27
    case RDisplayCompound => 28 case RCompound => 29 case RInertCompound => 30 case RSearch => 31
    case RNoView => 32 case RView => 33
  }

  lemma RankIsPosition(k: nat)
    requires k < RULE_COUNT
    ensures RankOf(RuleAt(k)) == k
  {
  }

  /** No rule of the phase before the k-th fires. */
  ghost predicate Passed(k: nat, p: Phase, s: Site, m: Marks)
    requires k <= RULE_COUNT && InSite(p, s)
  {
    forall j :: 0 <= j < k && PhaseOf(RuleAt(j)) == p ==> !When(RuleAt(j), s, m)
  }

  /** A rule that fires has what its run takes, but for the catch-all that records a view. */
  lemma FiredRuns(r: Rule, s: Site, m: Marks)
    requires PhaseOf(r) == PerSegment && s.at < |s.chain| && WhenSegment(r, s, m) && r != RRecordView
    ensures RunSegment(r, s, m).Advanced? || RunSegment(r, s, m).Stopped?
  {
  }

  lemma RecordViewRuns(s: Site, m: Marks)
    requires s.at < |s.chain| && WhenSegment(RRecordView, s, m)
    requires !WhenSegment(RUnsafe, s, m) && !WhenSegment(RSilentSkip, s, m) && !WhenSegment(RRecordSearch, s, m)
    ensures RunSegment(RRecordView, s, m).Advanced?
  {
  }

  lemma SegmentRunHolds(k: nat, s: Site, m: Marks)
    requires k < RULE_COUNT && s.at < |s.chain| && Passed(k, PerSegment, s, m)
    requires PhaseOf(RuleAt(k)) == PerSegment && When(RuleAt(k), s, m)
    ensures Run(RuleAt(k), s, m).Advanced? || Run(RuleAt(k), s, m).Stopped?
  {
    hide WhenSegment, RunSegment;
    if RuleAt(k) == RRecordView {
      RankIsPosition(k);
      assert !When(RuleAt(12), s, m) && !When(RuleAt(18), s, m) && !When(RuleAt(22), s, m);
      RecordViewRuns(s, m);
    } else {
      FiredRuns(RuleAt(k), s, m);
    }
  }

  lemma PostRunHolds(k: nat, s: Site, m: Marks)
    requires k < RULE_COUNT && Passed(k, Post, s, m)
    requires PhaseOf(RuleAt(k)) == Post && When(RuleAt(k), s, m)
    ensures Run(RuleAt(k), s, m).Stopped?
  {
    if RuleAt(k) == RView {
      RankIsPosition(k);
      assert !When(RuleAt(32), s, m);
    }
  }

  lemma {:induction false} SegmentFires(k: nat, s: Site, m: Marks)
    requires k <= 25 && s.at < |s.chain| && Passed(k, PerSegment, s, m)
    ensures Fire(k, PerSegment, s, m).Advanced? || Fire(k, PerSegment, s, m).Stopped?
    decreases RULE_COUNT - k
  {
    assert k == 25 ==> PhaseOf(RuleAt(k)) == PerSegment && When(RuleAt(k), s, m);
    hide When, Run;
    if k < 25 && !(PhaseOf(RuleAt(k)) == PerSegment && When(RuleAt(k), s, m)) {
      SegmentFires(k + 1, s, m);
    } else {
      SegmentRunHolds(k, s, m);
    }
  }

  lemma {:induction false} PostFires(k: nat, s: Site, m: Marks)
    requires k <= 33 && Passed(k, Post, s, m)
    ensures Fire(k, Post, s, m).Stopped?
    decreases RULE_COUNT - k
  {
    assert k == 33 ==> PhaseOf(RuleAt(k)) == Post && When(RuleAt(k), s, m);
    hide When, Run;
    if k < 33 && !(PhaseOf(RuleAt(k)) == Post && When(RuleAt(k), s, m)) {
      PostFires(k + 1, s, m);
    } else {
      PostRunHolds(k, s, m);
    }
  }

  lemma {:induction false} GuardFires(k: nat, p: Phase, s: Site, m: Marks)
    requires k <= RULE_COUNT && InSite(p, s) && (p.Pre? || p.PerStatement? || p.PreSegment?)
    ensures Fire(k, p, s, m).Skipped? || (Fire(k, p, s, m).Stopped? && Fire(k, p, s, m).decision.PassThrough?)
    decreases RULE_COUNT - k
  {
    if k < RULE_COUNT { GuardFires(k + 1, p, s, m); }
  }

  lemma {:induction false} GatherDecides(script: Script, i: nat, chain: seq<SegmentNode>)
    requires i <= |script.statements|
    ensures Gather(script, i, chain).Chain?
            || (Gather(script, i, chain).Declined? && Gather(script, i, chain).decision.PassThrough?)
    decreases |script.statements| - i
  {
    hide Fire, Grown;
    if i < |script.statements| {
      GuardFires(0, PerStatement, Site(script, chain, false, i), UNMARKED);
      GatherDecides(script, i + 1, Grown(script, i, chain));
    }
  }

  lemma {:induction false} WalkDecides(script: Script, chain: seq<SegmentNode>, k: nat, m: Marks)
    requires k <= |chain|
    ensures Walk(script, chain, k, m).Stopped?
    decreases |chain| - k
  {
    hide Fire, HasGlue;
    var s := Site(script, chain, HasGlue(chain), k);
    if k == |chain| {
      PostFires(0, s, m);
    } else {
      SegmentFires(0, s, m);
      var fired := Fire(0, PerSegment, s, m);
      if fired.Advanced? { WalkDecides(script, chain, k + 1, fired.marks); }
    }
  }

  /** Every script is decided: some rule fires for every segment and at the tail, and no `run` throws. */
  lemma EveryScriptIsDecided(script: Script)
    ensures Decide(script).Stopped?
  {
    GuardFires(0, Pre, Site(script, [], false, 0), UNMARKED);
    GatherDecides(script, 0, []);
    var gathered := Gather(script, 0, []);
    if gathered.Chain? {
      GuardFires(0, PreSegment, Site(script, gathered.chain, false, 0), UNMARKED);
      WalkDecides(script, gathered.chain, 0, UNMARKED);
    }
  }

  // ----- the program

  datatype Verdict = NotFired | Advance | Decided(decision: Decision)

  class RuleContext {
    const script: Script
    var segments: seq<SegmentNode>
    var hasGlue: bool
    var at: nat
    var view: Option<ViewSeg>
    var multiView: Option<MultiView>
    var searchSeg: Option<Search>
    var baseDir: Option<string>
    var effCwd: Option<string>
    var sawGlue: bool
    var compoundSegs: seq<Block>
    var tailMode: bool

    constructor (script: Script)
      ensures this.script == script && segments == [] && !hasGlue && at == 0 && Taken() == UNMARKED
    {
      this.script := script;
      segments, hasGlue, at := [], false, 0;
      view, multiView, searchSeg, baseDir, effCwd := None, None, None, None, None;
      sawGlue, compoundSegs, tailMode := false, [], false;
    }

    function Where(): Site
      reads this
    {
      Site(script, segments, hasGlue, at)
    }

    function Taken(): Marks
      reads this
    {
      Marks(view, multiView, searchSeg, baseDir, effCwd, sawGlue, compoundSegs, tailMode)
    }

    method RecordSearchBlock(search: Search)
      modifies this`searchSeg, this`compoundSegs
      ensures Advanced(Taken()) == RecordBlock(Find(search), old(Taken()))
    {
      searchSeg := Some(search);
      compoundSegs := compoundSegs + [SearchBlock(search)];
    }

    method RecordViewBlock(v: ViewSeg)
      modifies this`view, this`compoundSegs
      ensures Advanced(Taken()) == RecordBlock(View(v), old(Taken()))
    {
      view := Some(v);
      compoundSegs := compoundSegs + [ViewBlock(v)];
    }

    /** The `run` of a rule of the segment walk; an arm the earlier rules rule out is `assert false`. */
    method RunOnSegment(r: Rule) returns (out: Verdict)
      requires at < |segments|
      requires RunSegment(r, Where(), Taken()).Advanced? || RunSegment(r, Where(), Taken()).Stopped?
      modifies this`view, this`multiView, this`searchSeg, this`baseDir, this`effCwd
      modifies this`sawGlue, this`compoundSegs, this`tailMode
      ensures match RunSegment(r, old(Where()), old(Taken()))
              case Advanced(next) => out == Advance && Taken() == next
              case Stopped(d) => out == Decided(d)
              case _ => false
    {
      var node := segments[at].node;
      var current := Current(Where());
      match r
      case RAdmitGlue =>
        sawGlue := true;
        compoundSegs := compoundSegs + [Glue(node.glue.value)];
        return Advance;
      case RInertTail =>
        compoundSegs := compoundSegs + [Raw(node.text)];
        return Advance;
      case RInertCountTail =>
        compoundSegs := compoundSegs + [Raw(node.text)];
        return Advance;
      case RSkipRedundantCd => return Advance;
      case RSilentSkip => return Advance;
      case RRecordCd =>
        baseDir := current.cd;
        if Absolute(current.cd.value) { effCwd := current.cd; }
        return Advance;
      case RInertTailHead =>
        if current.Find? { RecordSearchBlock(current.search); } else { RecordViewBlock(current.view); }
        tailMode := true;
        return Advance;
      case RRecordSearch =>
        RecordSearchBlock(current.search);
        return Advance;
      case RRecordView =>
        if current.Multi? { multiView := Some(current.files); } else { RecordViewBlock(current.view); }
        return Advance;
      case RUnsafe => return Decided(PassThrough(Classified(current.reason)));
      case RCompoundSegment => return Decided(PassThrough(CompoundSegment));
      case RPostBlockCd => return Decided(PassThrough(PostBlockCd));
      case RPostViewCd => return Decided(PassThrough(PostViewCd));
      case RMultiCd => return Decided(PassThrough(MultiCd));
      case RSearchPrefix => return Decided(PassThrough(MultiStatement));
      case RViewPrefix => return Decided(PassThrough(MultiStatement));
      case RSearchSecond => return Decided(PassThrough(MultiViewChain));
      case RViewSecond => return Decided(PassThrough(MultiViewChain));
      case _ => assert false;
    }

    /** One walked segment: the first rule of the segment phase that fires. Some rule does. */
    method StepSegment() returns (out: Verdict)
      requires at < |segments|
      modifies this`view, this`multiView, this`searchSeg, this`baseDir, this`effCwd
      modifies this`sawGlue, this`compoundSegs, this`tailMode
      ensures match Fire(0, PerSegment, old(Where()), old(Taken()))
              case Advanced(next) => out == Advance && Taken() == next
              case Stopped(d) => out == Decided(d)
              case _ => false
    {
      SegmentFires(0, Where(), Taken());
      for k := 0 to RULE_COUNT
        invariant unchanged(this)
        invariant Fire(k, PerSegment, Where(), Taken()) == Fire(0, PerSegment, Where(), Taken())
      {
        if PhaseOf(RuleAt(k)).PerSegment? && When(RuleAt(k), Where(), Taken()) {
          out := RunOnSegment(RuleAt(k));
          return;
        }
      }
      assert false;
    }

    /** A guard or tail phase, where a rule can only stop: the first that fires, if any. */
    method StopPhase(p: Phase) returns (out: Verdict)
      requires !p.PerSegment? && InSite(p, Where())
      ensures match Fire(0, p, Where(), Taken())
              case Stopped(d) => out == Decided(d)
              case Skipped => out == NotFired
              case _ => false
    {
      if p.Post? { PostFires(0, Where(), Taken()); } else { GuardFires(0, p, Where(), Taken()); }
      for k := 0 to RULE_COUNT
        invariant Fire(k, p, Where(), Taken()) == Fire(0, p, Where(), Taken())
      {
        if PhaseOf(RuleAt(k)) == p && When(RuleAt(k), Where(), Taken()) {
          var run := Run(RuleAt(k), Where(), Taken());
          assert Fire(k, p, Where(), Taken()) == run;
          return Decided(run.decision);
        }
      }
      return NotFired;
    }
  }

  method DecideScript(script: Script) returns (d: Decision)
    ensures Decide(script) == Stopped(d)
  {
    hide Fire, Grown, Walk;
    var ctx := new RuleContext(script);
    EveryScriptIsDecided(script);
    var out := ctx.StopPhase(Pre);
    if out.Decided? { return out.decision; }
    for i := 0 to |script.statements|
      invariant ctx.script == script && !ctx.hasGlue && ctx.Taken() == UNMARKED
      invariant Gather(script, i, ctx.segments) == Gather(script, 0, [])
    {
      ctx.at := i;
      out := ctx.StopPhase(PerStatement);
      if out.Decided? { return out.decision; }
      ctx.segments := Grown(script, i, ctx.segments);
    }
    ctx.at := 0;
    out := ctx.StopPhase(PreSegment);
    if out.Decided? { return out.decision; }
    d := WalkChain(ctx);
  }

  method WalkChain(ctx: RuleContext) returns (d: Decision)
    requires ctx.Taken() == UNMARKED
    modifies ctx
    ensures Walk(ctx.script, old(ctx.segments), 0, UNMARKED) == Stopped(d)
  {
    hide Fire;
    ghost var chain := ctx.segments;
    ctx.hasGlue := HasGlue(ctx.segments);
    WalkDecides(ctx.script, chain, 0, UNMARKED);
    for k := 0 to |ctx.segments|
      invariant ctx.segments == chain && ctx.hasGlue == HasGlue(chain)
      invariant Walk(ctx.script, chain, k, ctx.Taken()) == Walk(ctx.script, chain, 0, UNMARKED)
    {
      ctx.at := k;
      var out := ctx.StepSegment();
      if out.Decided? { return out.decision; }
    }
    ctx.at := |ctx.segments|;
    var last := ctx.StopPhase(Post);
    d := last.decision;
  }
}
