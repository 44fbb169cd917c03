/** The whole decision read off the chain: which segments fit, why one does not, and what the chain becomes. */
module BashVerdict {

  import opened BashBlocks
  import opened BashChoice
  import opened BashContext
  import opened BashCwd
  import opened BashRules
  import opened BashScript
  import opened BashView
  import opened Options

  // ----- the reference reading

  /** One leading view or search and nothing but inert tails after it, in a chain without glue. */
  ghost predicate TailChain(chain: seq<SegmentNode>)
  {
    && |chain| > 1 && !HasGlue(chain) && (Classify(chain[0]).View? || Classify(chain[0]).Find?)
    && forall n :: n in chain[1..] ==> IsInertTail(n.node)
  }

  /** A view or a search stands before segment k. */
  predicate BlockBefore(chain: seq<SegmentNode>, k: nat)
    requires k <= |chain|
  {
    LastView(chain[..k]).Some? || LastSearch(chain[..k]).Some?
  }

  /** From k on there are only `wc`-like tails that count, after two blocks at least, in a glued chain. */
  ghost predicate CountTails(chain: seq<SegmentNode>, k: nat)
    requires k <= |chain|
  {
    HasGlue(chain) && Admitted(BlocksOf(chain[..k])) >= 2 && forall n :: n in chain[k..] ==> IsCountTail(n.node)
  }

  /** The directory moved to so far. */
  function MovedTo(chain: seq<SegmentNode>, k: nat): Option<string>
  {
    if FirstMover(chain) < k then FirstMove(chain) else None
  }

  /** A `cd` goes nowhere new, or is the first move and comes before every block it could misplace. */
  ghost predicate CdFits(chain: seq<SegmentNode>, k: nat, dir: string)
    requires k <= |chain|
  {
    || DotForm(dir)
    || (Absolute(dir) && MovedTo(chain, k) == Some(dir))
    || (MovedTo(chain, k).None? && LastView(chain[..k]).None? && LastMulti(chain[..k]).None?
        && (HasGlue(chain) ==> LastSearch(chain[..k]).None?))
  }

  ghost predicate Fits(chain: seq<SegmentNode>, k: nat)
    requires k < |chain|
  {
    match Classify(chain[k])
    case Silent(None) => true
    case Silent(Some(dir)) => CdFits(chain, k, dir)
    case Unsafe(_) => (|chain| > 1 && IsGlue(chain[k].node)) || (TailChain(chain) && k > 0) || CountTails(chain, k)
    case _ =>
      HasGlue(chain) || (k == 0 && TailChain(chain)) || (!chain[k].prefixPosition && !BlockBefore(chain, k))
  }

  /** Why segment k does not fit. */
  function ReasonAt(chain: seq<SegmentNode>, k: nat): Reason
    requires k < |chain|
  {
    match Classify(chain[k])
    case Unsafe(reason) => Classified(reason)
    case Silent(_) =>
      if HasGlue(chain) && BlockBefore(chain, k) then PostBlockCd
      else if LastView(chain[..k]).Some? || LastMulti(chain[..k]).Some? then PostViewCd else MultiCd
    case _ => if chain[k].prefixPosition then MultiStatement else MultiViewChain
  }

  /** Why a chain whose segments all fit still passes through. */
  ghost function TailReason(chain: seq<SegmentNode>): Option<Reason>
  {
    if LastMulti(chain).Some? then (if HasGlue(chain) || BlocksOf(chain) != [] then Some(MultiViewChain) else None)
    else if LastView(chain).Some? && LastView(chain).value.display && (HasGlue(chain) || TailChain(chain))
      then Some(UnsupportedPipeline)
    else if BlockBefore(chain, |chain|) then None else Some(NoView)
  }

  /** The first reason not to convert, from segment k on. */
  ghost function Refusal(chain: seq<SegmentNode>, k: nat): Option<Reason>
    requires k <= |chain|
    decreases |chain| - k
  {
    if k == |chain| then TailReason(chain)
    else if Fits(chain, k) then Refusal(chain, k + 1)
    else Some(ReasonAt(chain, k))
  }

  /** What a chain without a refusal becomes. */
  ghost function Conversion(chain: seq<SegmentNode>): Decision
    requires LastMulti(chain).Some? || BlockBefore(chain, |chain|)
  {
    if LastMulti(chain).Some? then PureMultiView(LastMulti(chain).value.(base := FirstMove(chain)))
    else if HasGlue(chain) || TailChain(chain) then PureCompound(BlocksOf(chain), FirstMove(chain))
    else if LastSearch(chain).Some? then PureSearch(LastSearch(chain).value.(base := FirstMove(chain)))
    else assert chain[..|chain|] == chain; PureView(LastView(chain).value, FirstMove(chain))
  }

  lemma {:induction false} UnrefusedHasBlock(chain: seq<SegmentNode>, k: nat)
    requires k <= |chain| && Refusal(chain, k).None?
    ensures LastMulti(chain).Some? || BlockBefore(chain, |chain|)
    decreases |chain| - k
  {
    if k < |chain| { UnrefusedHasBlock(chain, k + 1); }
  }

  ghost function Verdict(chain: seq<SegmentNode>): Decision
  {
    if Refusal(chain, 0).Some? then PassThrough(Refusal(chain, 0).value)
    else
      UnrefusedHasBlock(chain, 0);
      Conversion(chain)
  }

  // ----- the walk is that reading

  /** The marks and what else the reading needs of them. */
  ghost predicate Reads(chain: seq<SegmentNode>, k: nat, m: Marks)
    requires k <= |chain|
  {
    && MarksAre(chain, k, m) && m.baseDir == MovedTo(chain, k)
    && m.effCwd == (if m.baseDir.Some? && Absolute(m.baseDir.value) then m.baseDir else None)
    && (m.tailMode <==> k > 0 && TailChain(chain))
  }

  lemma CdFitsAt(chain: seq<SegmentNode>, s: Site, m: Marks, dir: string)
    requires s.at < |chain| && s.chain == chain && s.hasGlue == HasGlue(chain) && Reads(chain, s.at, m)
    ensures var rule := ChooseCd(dir, s.hasGlue, m);
            && (CdFits(chain, s.at, dir) <==> rule == RSkipRedundantCd || rule == RRecordCd)
            && (!CdFits(chain, s.at, dir) && Classify(chain[s.at]).Silent? ==>
                  RunSegment(rule, s, m) == Stopped(PassThrough(ReasonAt(chain, s.at))))
  {
    hide LastView, LastSearch, LastMulti, BlocksOf, FirstMover, FirstMove;
  }

  /** What the table does at segment k: it goes on if the segment fits, and refuses with the segment's reason if not. */
  ghost predicate FitsHere(chain: seq<SegmentNode>, s: Site, m: Marks)
    requires s.at < |chain| && s.chain == chain
  {
    var step := RunSegment(Choose(s, m), s, m);
    if Fits(chain, s.at) then step.Advanced? else step == Stopped(PassThrough(ReasonAt(chain, s.at)))
  }

  ghost predicate Met(chain: seq<SegmentNode>, s: Site, m: Marks)
  {
    && s.at < |chain| && s.chain == chain && s.hasGlue == HasGlue(chain) && Reads(chain, s.at, m)
    && Coherent(chain) && SimpleNodes(chain) && chain[s.at] in chain && (s.at > 0 ==> chain[s.at] in chain[1..])
  }

  lemma UnsafeFits(chain: seq<SegmentNode>, s: Site, m: Marks)
    requires Met(chain, s, m) && Current(s).Unsafe?
    ensures FitsHere(chain, s, m)
  {
    assert chain[s.at..][0] == chain[s.at];
    hide LastView, LastSearch, LastMulti, BlocksOf, FirstMover, FirstMove;
  }

  lemma PlainSilentFits(chain: seq<SegmentNode>, s: Site, m: Marks)
    requires Met(chain, s, m) && Current(s) == Silent(None)
    ensures FitsHere(chain, s, m)
  {
    assert chain[s.at..][0] == chain[s.at];
    hide LastView, LastSearch, LastMulti, BlocksOf, FirstMover, FirstMove, CdFits, ChooseCd, Reads, MarksAre;
  }

  lemma CdSilentFits(chain: seq<SegmentNode>, s: Site, m: Marks, dir: string)
    requires Met(chain, s, m) && Current(s) == Silent(Some(dir))
    ensures FitsHere(chain, s, m)
  {
    assert chain[s.at..][0] == chain[s.at];
    CdFitsAt(chain, s, m, dir);
    hide LastView, LastSearch, LastMulti, BlocksOf, FirstMover, FirstMove, CdFits, ChooseCd, Reads, MarksAre;
  }

  lemma SilentFits(chain: seq<SegmentNode>, s: Site, m: Marks)
    requires Met(chain, s, m) && Current(s).Silent?
    ensures FitsHere(chain, s, m)
  {
    if Current(s).cd.Some? { CdSilentFits(chain, s, m, Current(s).cd.value); } else { PlainSilentFits(chain, s, m); }
    hide Met, FitsHere;
  }

  lemma TailLeads(chain: seq<SegmentNode>, s: Site, m: Marks)
    requires Met(chain, s, m) && (Current(s).View? || Current(s).Find?)
    ensures LeadsTail(s, m) <==> s.at == 0 && TailChain(chain)
  {
    if s.at == 0 { assert chain[..0] == []; }
  }

  lemma NoCountTailHere(chain: seq<SegmentNode>, s: Site, m: Marks)
    requires Met(chain, s, m) && !Current(s).Unsafe?
    ensures !CountTailsFrom(s, m) && !IsInertTail(s.chain[s.at].node) && !IsGlue(s.chain[s.at].node)
  {
    assert chain[s.at..][0] == chain[s.at] && chain[s.at] in chain[s.at..];
  }

  lemma BlockFits(chain: seq<SegmentNode>, s: Site, m: Marks)
    requires Met(chain, s, m) && (Current(s).View? || Current(s).Find? || Current(s).Multi?)
    ensures FitsHere(chain, s, m)
  {
    NoCountTailHere(chain, s, m);
    BlockRun(s, m);
    if !Current(s).Multi? { TailLeads(chain, s, m); } else { MultiLeadsNoTail(chain, s); }
    assert m.view == LastView(chain[..s.at]) && m.search == LastSearch(chain[..s.at]) && s.hasGlue == HasGlue(chain);
    hide Met, Reads, MarksAre, LeadsTail, TailChain, CountTailsFrom, LastView, LastSearch, LastMulti, BlocksOf;
    hide FirstMover, FirstMove, Coherent;
    hide Choose, RunSegment, HasGlue, Alone;
  }

  /** What the table does with a view, a search or a multi-file view. */
  lemma BlockRun(s: Site, m: Marks)
    requires s.at < |s.chain| && (Current(s).View? || Current(s).Find? || Current(s).Multi?)
    requires !s.chain[s.at].node.kind.OtherNode? && !IsInertTail(s.chain[s.at].node) && !CountTailsFrom(s, m)
    ensures var step := RunSegment(Choose(s, m), s, m);
            var alone := !s.chain[s.at].prefixPosition && m.view.None? && m.search.None?;
            if s.hasGlue || (!Current(s).Multi? && LeadsTail(s, m)) || alone then step.Advanced?
            else step == Stopped(PassThrough(if s.chain[s.at].prefixPosition then MultiStatement else MultiViewChain))
  {
    hide LeadsTail, CountTailsFrom;
  }

  lemma MultiLeadsNoTail(chain: seq<SegmentNode>, s: Site)
    requires s.at < |chain| && s.chain == chain && Current(s).Multi?
    ensures s.at == 0 ==> !TailChain(chain)
  {
  }

  lemma StepFits(chain: seq<SegmentNode>, s: Site, m: Marks)
    requires Met(chain, s, m)
    ensures FitsHere(chain, s, m)
  {
    hide FitsHere;
    match Current(s)
    case Unsafe(_) => UnsafeFits(chain, s, m);
    case Silent(_) => SilentFits(chain, s, m);
    case _ => BlockFits(chain, s, m);
  }

  /** The directory and the tail mode after a step that goes on. */
  lemma StepMoves(chain: seq<SegmentNode>, s: Site, m: Marks)
    requires Met(chain, s, m) && (s.at == 0 ==> m == UNMARKED)
    ensures var step := RunSegment(Choose(s, m), s, m);
            step.Advanced? ==>
              && step.marks.baseDir == MovedTo(chain, s.at + 1)
              && step.marks.effCwd == (if step.marks.baseDir.Some? && Absolute(step.marks.baseDir.value)
                                       then step.marks.baseDir else None)
              && (step.marks.tailMode <==> TailChain(chain))
  {
    NoMoveBefore(chain, s.at + 1);
    NoMoveBefore(chain, s.at);
    assert chain[s.at] in chain[..s.at + 1];
    ChoiceMeans(s, m);
    RuleMoves(Choose(s, m), chain, s, m);
  }

  lemma RuleMoves(r: Rule, chain: seq<SegmentNode>, s: Site, m: Marks)
    requires Met(chain, s, m) && (s.at == 0 ==> m == UNMARKED) && ChosenFor(r, s, m) && r == Choose(s, m)
    requires s.at + 1 <= FirstMover(chain) ==> !Moves(chain[s.at])
    requires s.at == FirstMover(chain) ==> Moves(chain[s.at])
    requires s.at > FirstMover(chain) || !Moves(chain[s.at]) || s.at == FirstMover(chain)
    ensures var step := RunSegment(r, s, m);
            step.Advanced? ==>
              && step.marks.baseDir == MovedTo(chain, s.at + 1)
              && step.marks.effCwd == (if step.marks.baseDir.Some? && Absolute(step.marks.baseDir.value)
                                       then step.marks.baseDir else None)
              && (step.marks.tailMode <==> TailChain(chain))
  {
    hide LastView, LastSearch, LastMulti, BlocksOf, FirstMover;
  }

  lemma StepKeepsReading(script: Script, chain: seq<SegmentNode>, k: nat, m: Marks)
    requires k < |chain| && Coherent(chain) && SimpleNodes(chain) && Reads(chain, k, m) && (k == 0 ==> m == UNMARKED)
    ensures var s := Site(script, chain, HasGlue(chain), k);
            var step := RunSegment(Choose(s, m), s, m);
            if Fits(chain, k) then step.Advanced? && Reads(chain, k + 1, step.marks)
            else step == Stopped(PassThrough(ReasonAt(chain, k)))
  {
    var s := Site(script, chain, HasGlue(chain), k);
    assert k > 0 ==> chain[1..][k - 1] == chain[k];
    StepFits(chain, s, m);
    StepMoves(chain, s, m);
    StepReads(script, chain, k, m);
    hide RunSegment, Choose, Fits, ReasonAt, MarksAre, MovedTo;
  }

  /** The conversion tail, from the marks. */
  lemma PostIs(m: Marks)
    requires (m.tailMode ==> m.blocks != []) && (m.multi.Some? ==> m.multi.value.base.None?)
    requires m.search.Some? ==> m.search.value.base.None?
    ensures RunPost(ChoosePost(m), m) == Stopped(
              if m.multi.Some? then
                (if m.sawGlue || m.blocks != [] then PassThrough(MultiViewChain)
                 else PureMultiView(m.multi.value.(base := m.baseDir)))
              else if m.view.Some? && m.view.value.display && (m.sawGlue || m.tailMode) then
                PassThrough(UnsupportedPipeline)
              else if m.sawGlue && (m.view.Some? || m.search.Some?) then PureCompound(m.blocks, m.baseDir)
              else if m.tailMode then PureCompound(m.blocks, None)
              else if m.search.Some? then PureSearch(m.search.value.(base := m.baseDir))
              else if m.view.Some? then PureView(m.view.value, m.baseDir) else PassThrough(NoView))
  {
  }

  lemma TailIsConversion(chain: seq<SegmentNode>, m: Marks)
    requires Reads(chain, |chain|, m) && forall n :: n in chain ==> Baseless(n)
    requires Coherent(chain) && (chain == [] ==> m == UNMARKED)
    ensures var end := RunPost(ChoosePost(m), m);
            if TailReason(chain).Some? then end == Stopped(PassThrough(TailReason(chain).value))
            else (LastMulti(chain).Some? || BlockBefore(chain, |chain|)) && end == Stopped(Conversion(chain))
  {
    assert chain[..|chain|] == chain;
    LastsAreBaseless(chain);
    if TailChain(chain) { TailNeverMoves(chain); }
    assert MovedTo(chain, |chain|) == FirstMove(chain);
    hide LastView, LastSearch, LastMulti, BlocksOf, FirstMover, FirstMove, HasGlue, TailChain, MovedTo;
    hide RunPost, ChoosePost, Coherent;
    PostIs(m);
  }

  /** Behind a leading block there are only inert tails: something is listed, and nothing moves. */
  lemma TailNeverMoves(chain: seq<SegmentNode>)
    requires TailChain(chain) && Coherent(chain)
    ensures BlocksOf(chain) != [] && FirstMove(chain).None?
    ensures LastView(chain).Some? || LastSearch(chain).Some?
  {
    assert chain[..|chain|] == chain;
    TailHasBlock(chain, |chain|);
    forall n | n in chain
      ensures !Moves(n)
    {
      assert n == chain[0] || n in chain[1..];
    }
    NoMoveBefore(chain, |chain|);
  }

  lemma {:induction false} LastsAreBaseless(chain: seq<SegmentNode>)
    requires forall n :: n in chain ==> Baseless(n)
    ensures LastMulti(chain).Some? ==> LastMulti(chain).value.base.None?
    ensures LastSearch(chain).Some? ==> LastSearch(chain).value.base.None?
  {
    if chain != [] {
      assert chain[|chain| - 1] in chain && forall n :: n in chain[..|chain| - 1] ==> n in chain;
      LastsAreBaseless(chain[..|chain| - 1]);
    }
  }

  lemma {:induction false} TailHasBlock(chain: seq<SegmentNode>, k: nat)
    requires TailChain(chain) && 0 < k <= |chain|
    ensures BlocksOf(chain[..k]) != [] && BlockBefore(chain, k)
  {
    PrefixReads(chain, k - 1);
    if k > 1 { TailHasBlock(chain, k - 1); }
  }

  lemma {:induction false} WalkIsVerdict(script: Script, chain: seq<SegmentNode>, k: nat, m: Marks)
    requires k <= |chain| && Coherent(chain) && SimpleNodes(chain) && Reads(chain, k, m) && (k == 0 ==> m == UNMARKED)
    requires forall n :: n in chain ==> Baseless(n)
    ensures if Refusal(chain, k).Some? then Walk(script, chain, k, m) == Stopped(PassThrough(Refusal(chain, k).value))
            else (LastMulti(chain).Some? || BlockBefore(chain, |chain|))
                 && Walk(script, chain, k, m) == Stopped(Conversion(chain))
    decreases |chain| - k
  {
    hide Walk, RunSegment, Choose, RunPost, ChoosePost, Reads, Fits, ReasonAt, TailReason, Conversion, BlockBefore;
    if k == |chain| {
      WalkEnds(script, chain, m);
      TailIsConversion(chain, m);
    } else {
      TakeStep(script, chain, k, m);
      StepKeepsReading(script, chain, k, m);
      EveryWalkStops(script, chain, k, m);
      if Fits(chain, k) {
        var s := Site(script, chain, HasGlue(chain), k);
        WalkIsVerdict(script, chain, k + 1, RunSegment(Choose(s, m), s, m).marks);
      }
    }
  }

  lemma EveryWalkStops(script: Script, chain: seq<SegmentNode>, k: nat, m: Marks)
    requires k <= |chain|
    ensures Walk(script, chain, k, m).Stopped?
  {
    WalkDecides(script, chain, k, m);
  }

  // ----- the guards before the walk

  /** Why a statement is no foreground chain of commands. */
  function StatementReason(st: Statement): Reason
  {
    if !st.plain || st.background then Background
    else match st.top
      case AndOr(operators, _) => if exists op :: op in operators && op != "&&" then NonAndChain else CompoundOperand
      case _ => CompoundTop
  }

  /** The first statement, from the i-th on, that is not one. */
  function FirstOdd(statements: seq<Statement>, i: nat): (f: nat)
    requires i <= |statements|
    ensures i <= f <= |statements| && (f < |statements| ==> !Foreground(statements[f]))
    ensures forall j :: i <= j < f ==> Foreground(statements[j])
    decreases |statements| - i
  {
    if i == |statements| || !Foreground(statements[i]) then i else FirstOdd(statements, i + 1)
  }

  function GuardReason(script: Script): Reason
  {
    if script.blank then Empty
    else if script.failed then ParseError
    else if |script.statements| != 1 && !SemicolonChain(script.statements) then MultiStatement
    else
      var odd := FirstOdd(script.statements, 0);
      if odd < |script.statements| then StatementReason(script.statements[odd]) else ChainTooLong
  }

  /** A guard rule fires when it holds and no earlier one of its phase does. */
  lemma GuardFiresAs(r: Rule, p: Phase, s: Site)
    requires PhaseOf(r) == p && InSite(p, s) && When(r, s, UNMARKED)
    requires forall other :: PhaseOf(other) == p && RankOf(other) < RankOf(r) ==> !When(other, s, UNMARKED)
    ensures Fire(0, p, s, UNMARKED) == Run(r, s, UNMARKED)
  {
    hide Fire, RuleAt, RankOf;
    RuleAtRank(r);
    forall j | 0 <= j < RankOf(r) && PhaseOf(RuleAt(j)) == p
      ensures !When(RuleAt(j), s, UNMARKED)
    {
      RankIsPosition(j);
    }
    FireReaches(0, RankOf(r), p, s, UNMARKED);
  }

  lemma ScriptGuardSays(s: Site)
    requires s.script.blank || s.script.failed || (|s.script.statements| != 1 && !SemicolonChain(s.script.statements))
    ensures Fire(0, Pre, s, UNMARKED) == Stopped(PassThrough(GuardReason(s.script)))
  {
    hide Fire;
    GuardFiresAs(if s.script.blank then REmpty else if s.script.failed then RParseError else RMultiStatement, Pre, s);
  }

  lemma StatementGuardSays(s: Site)
    requires s.at < |s.script.statements| && !Foreground(s.script.statements[s.at])
    ensures Fire(0, PerStatement, s, UNMARKED) == Stopped(PassThrough(StatementReason(s.script.statements[s.at])))
  {
    hide Fire;
    var st := s.script.statements[s.at];
    var r := match StatementReason(st)
             case Background => RBackground
             case NonAndChain => RNonAndChain
             case CompoundOperand => RCompoundOperand
             case _ => RCompoundTop;
    GuardFiresAs(r, PerStatement, s);
  }

  lemma LengthGuardSays(s: Site)
    requires |s.chain| > MAX_SEGMENTS
    ensures Fire(0, PreSegment, s, UNMARKED) == Stopped(PassThrough(ChainTooLong))
  {
    hide Fire;
    GuardFiresAs(RChainTooLong, PreSegment, s);
  }

  lemma {:induction false} GatherSays(script: Script, i: nat, chain: seq<SegmentNode>)
    requires i <= |script.statements|
    ensures var odd := FirstOdd(script.statements, i);
            Gather(script, i, chain) ==
            if odd < |script.statements| then Declined(PassThrough(StatementReason(script.statements[odd])))
            else Chain(Flatten(script, i, chain))
    decreases |script.statements| - i
  {
    hide Fire, Grown, Foreground, StatementReason;
    if i < |script.statements| {
      if Foreground(script.statements[i]) {
        GatherStep(script, i, chain);
        GatherSays(script, i + 1, Grown(script, i, chain));
      } else {
        StatementGuardSays(Site(script, chain, false, i));
      }
    }
  }

  /** A script that a guard stops is passed through with the first guard's reason. */
  lemma GuardedScript(script: Script)
    requires !ReachesWalk(script)
    ensures Decide(script) == Stopped(PassThrough(GuardReason(script)))
  {
    hide Fire, Foreground, Flatten, Walk, StatementReason;
    var start := Site(script, [], false, 0);
    ScriptGuards(start);
    if script.blank || script.failed || (|script.statements| != 1 && !SemicolonChain(script.statements)) {
      ScriptGuardSays(start);
    } else {
      GatherSays(script, 0, []);
      if FirstOdd(script.statements, 0) == |script.statements| {
        assert forall st :: st in script.statements ==> Foreground(st);
        LengthGuardSays(Site(script, ChainOf(script), false, 0));
      }
    }
  }

  /**
   * Every script is decided by its statements and its chain alone: stopped by the first guard with that guard's reason,
   * refused with the reason of the first segment that does not fit, and otherwise the conversion of its chain.
   */
  lemma ScriptIsItsVerdict(script: Script)
    requires Coherent(ChainOf(script)) && forall n :: n in ChainOf(script) ==> Baseless(n)
    ensures Decide(script)
         == Stopped(if ReachesWalk(script) then Verdict(ChainOf(script)) else PassThrough(GuardReason(script)))
  {
    var chain := ChainOf(script);
    if ReachesWalk(script) {
      DecideReaches(script);
      FlattenSimple(script, 0, []);
      assert chain[..0] == [];
      WalkIsVerdict(script, chain, 0, UNMARKED);
    } else {
      GuardedScript(script);
    }
  }
}
