/** Which rule of the segment phase fires, read off the segment's kind instead of the table. */
module BashChoice {

  import opened BashContext
  import opened BashRules
  import opened Options

  function ChooseCd(dir: string, hasGlue: bool, m: Marks): Rule
  {
    if IsRedundantCd(dir, m.effCwd) then RSkipRedundantCd
    else if hasGlue && (m.view.Some? || m.search.Some?) then RPostBlockCd
    else if m.view.Some? || m.multi.Some? then RPostViewCd
    else if m.baseDir.Some? then RMultiCd
    else RRecordCd
  }

  predicate LeadsTail(s: Site, m: Marks)
    requires s.at < |s.chain|
  {
    && s.at == 0 && !s.hasGlue && m.view.None? && m.search.None? && |s.chain| > 1
    && forall n :: n in s.chain[1..] ==> IsInertTail(n.node)
  }

  function ChooseBlock(s: Site, m: Marks): Rule
    requires s.at < |s.chain|
  {
    var current := Current(s);
    if !current.Multi? && LeadsTail(s, m) then RInertTailHead
    else if s.hasGlue then (if current.Find? then RRecordSearch else RRecordView)
    else if s.chain[s.at].prefixPosition then (if current.Find? then RSearchPrefix else RViewPrefix)
    else if m.view.Some? || m.search.Some? then (if current.Find? then RSearchSecond else RViewSecond)
    else if current.Find? then RRecordSearch else RRecordView
  }

  predicate CountTailsFrom(s: Site, m: Marks)
    requires s.at < |s.chain|
  {
    s.hasGlue && Admitted(m.blocks) >= 2 && forall n :: n in s.chain[s.at..] ==> IsCountTail(n.node)
  }

  function Choose(s: Site, m: Marks): Rule
    requires s.at < |s.chain|
  {
    var node, current := s.chain[s.at].node, Current(s);
    if node.kind.OtherNode? then RCompoundSegment
    else if current.Unsafe? && |s.chain| > 1 && IsGlue(node) then RAdmitGlue
    else if m.tailMode && IsInertTail(node) then RInertTail
    else if CountTailsFrom(s, m) then RInertCountTail
    else match current
      case Unsafe(_) => RUnsafe
      case Silent(cd) => (match cd case None => RSilentSkip case Some(dir) => ChooseCd(dir, s.hasGlue, m))
      case _ => ChooseBlock(s, m)
  }

  /** A rule of lower rank than the chosen one never fires. */
  lemma NothingShadows(s: Site, m: Marks, r: Rule)
    requires s.at < |s.chain| && PhaseOf(r) == PerSegment && RankOf(r) < RankOf(Choose(s, m))
    ensures !WhenSegment(r, s, m)
  {
  }

  /** What the choice of a rule says of the site and the marks. */
  predicate ChosenFor(r: Rule, s: Site, m: Marks)
    requires s.at < |s.chain|
  {
    match r
    case RAdmitGlue => Current(s).Unsafe? && IsGlue(s.chain[s.at].node)
    case RInertTail => IsInertTail(s.chain[s.at].node)
    case RInertCountTail => s.hasGlue && IsInertTail(s.chain[s.at].node)
    case RSkipRedundantCd => Current(s).Silent? && Current(s).cd.Some? && IsRedundantCd(Current(s).cd.value, m.effCwd)
    case RSilentSkip => Current(s) == Silent(None)
    case RRecordCd =>
      && Current(s).Silent? && Current(s).cd.Some? && !IsRedundantCd(Current(s).cd.value, m.effCwd)
      && m.baseDir.None? && m.view.None? && m.multi.None? && (s.hasGlue ==> m.search.None?)
    case RInertTailHead => (Current(s).View? || Current(s).Find?) && LeadsTail(s, m)
    case RRecordSearch => Current(s).Find?
    case RRecordView => Current(s).View? || Current(s).Multi?
    case _ => !RunSegment(r, s, m).Advanced?
  }

  lemma ChoiceMeans(s: Site, m: Marks)
    requires s.at < |s.chain|
    ensures ChosenFor(Choose(s, m), s, m)
  {
    assert s.chain[s.at] in s.chain[s.at..];
  }

  /** A rule of the segment walk never stops with anything but a pass-through. */
  lemma RunPasses(r: Rule, s: Site, m: Marks)
    requires s.at < |s.chain|
    ensures RunSegment(r, s, m).Stopped? ==> RunSegment(r, s, m).decision.PassThrough?
  {
  }

  lemma FireSkips(k: nat, p: Phase, s: Site, m: Marks)
    requires k < RULE_COUNT && InSite(p, s) && !(PhaseOf(RuleAt(k)) == p && When(RuleAt(k), s, m))
    ensures Fire(k, p, s, m) == Fire(k + 1, p, s, m)
  {
  }

  lemma {:induction false} FireReaches(k: nat, j: nat, p: Phase, s: Site, m: Marks)
    requires k <= j < RULE_COUNT && InSite(p, s) && Passed(j, p, s, m)
    requires PhaseOf(RuleAt(j)) == p && When(RuleAt(j), s, m)
    ensures Fire(k, p, s, m) == Run(RuleAt(j), s, m)
    decreases j - k
  {
    if k < j {
      FireSkips(k, p, s, m);
      FireReaches(k + 1, j, p, s, m);
    }
  }

  lemma RuleAtRank(r: Rule)
    ensures RankOf(r) < RULE_COUNT && RuleAt(RankOf(r)) == r
  {
  }

  lemma ChosenFires(s: Site, m: Marks)
    requires s.at < |s.chain|
    ensures PhaseOf(Choose(s, m)) == PerSegment && WhenSegment(Choose(s, m), s, m)
  {
    assert s.chain[s.at] in s.chain[s.at..];
  }

  /** The table fires the chosen rule: no rule above it shadows it. */
  lemma TableFiresChosen(s: Site, m: Marks)
    requires s.at < |s.chain|
    ensures Fire(0, PerSegment, s, m) == RunSegment(Choose(s, m), s, m)
  {
    hide Choose, WhenSegment, RunSegment, RankOf, RuleAt, Fire;
    var r := Choose(s, m);
    ChosenFires(s, m);
    RuleAtRank(r);
    forall j | 0 <= j < RankOf(r) && PhaseOf(RuleAt(j)) == PerSegment
      ensures !When(RuleAt(j), s, m)
    {
      RankIsPosition(j);
      NothingShadows(s, m, RuleAt(j));
    }
    FireReaches(0, RankOf(r), PerSegment, s, m);
  }

  // ----- the conversion tail

  function ChoosePost(m: Marks): Rule
  {
    if m.multi.Some? then (if m.sawGlue || m.blocks != [] then RMultiViewChain else RMultiView)
    else if m.view.Some? && m.view.value.display && (m.sawGlue || m.tailMode) then RDisplayCompound
    else if m.sawGlue && (m.view.Some? || m.search.Some?) then RCompound
    else if m.tailMode && m.blocks != [] then RInertCompound
    else if m.search.Some? then RSearch
    else if m.view.None? then RNoView
    else RView
  }

  lemma ChosenPostFires(m: Marks)
    ensures PhaseOf(ChoosePost(m)) == Post && WhenPost(ChoosePost(m), m)
  {
  }

  lemma NothingShadowsPost(m: Marks, r: Rule)
    requires PhaseOf(r) == Post && RankOf(r) < RankOf(ChoosePost(m))
    ensures !WhenPost(r, m)
  {
  }

  lemma TableFiresPost(s: Site, m: Marks)
    ensures Fire(0, Post, s, m) == RunPost(ChoosePost(m), m)
  {
    hide ChoosePost, WhenPost, RunPost, RankOf, RuleAt, Fire;
    var r := ChoosePost(m);
    ChosenPostFires(m);
    RuleAtRank(r);
    forall j | 0 <= j < RankOf(r) && PhaseOf(RuleAt(j)) == Post
      ensures !When(RuleAt(j), s, m)
    {
      RankIsPosition(j);
      NothingShadowsPost(m, RuleAt(j));
    }
    FireReaches(0, RankOf(r), Post, s, m);
  }

  /** The walk, step by step. */
  lemma WalkUnfolds(script: Script, chain: seq<SegmentNode>, k: nat, m: Marks)
    requires k <= |chain|
    ensures var s := Site(script, chain, HasGlue(chain), k);
            Walk(script, chain, k, m) ==
              if k == |chain| then RunPost(ChoosePost(m), m)
              else match RunSegment(Choose(s, m), s, m)
                case Advanced(next) => Walk(script, chain, k + 1, next)
                case Stopped(d) => Stopped(d)
                case _ => Broken
  {
    var s := Site(script, chain, HasGlue(chain), k);
    if k == |chain| { TableFiresPost(s, m); } else { TableFiresChosen(s, m); }
  }

  lemma WalkEnds(script: Script, chain: seq<SegmentNode>, m: Marks)
    ensures Walk(script, chain, |chain|, m) == RunPost(ChoosePost(m), m)
  {
    TableFiresPost(Site(script, chain, HasGlue(chain), |chain|), m);
  }
}
