/** The guards before the segment walk in plain words, and the pure-view theorem for whole scripts. */
module BashScript {

  import opened BashChoice
  import opened BashContext
  import opened BashRules
  import opened BashView
  import opened Options

  /** A foreground statement that is a simple command, a pipeline, or an `&&` chain of those. */
  predicate Foreground(st: Statement)
  {
    && st.plain && !st.background
    && match st.top
       case AndOr(operators, commands) =>
         (forall op :: op in operators ==> op == "&&") && (forall n :: n in commands ==> !n.kind.OtherNode?)
       case Single(node) => !node.kind.OtherNode?
       case OtherTop => false
  }

  function Flatten(script: Script, i: nat, chain: seq<SegmentNode>): seq<SegmentNode>
    requires i <= |script.statements|
    decreases |script.statements| - i
  {
    if i == |script.statements| then chain else Flatten(script, i + 1, Grown(script, i, chain))
  }

  function ChainOf(script: Script): seq<SegmentNode>
  {
    Flatten(script, 0, [])
  }

  predicate ReachesWalk(script: Script)
  {
    && !script.blank && !script.failed
    && (|script.statements| == 1 || SemicolonChain(script.statements))
    && (forall st :: st in script.statements ==> Foreground(st))
    && |ChainOf(script)| <= MAX_SEGMENTS
  }

  ghost predicate NoneFires(k: nat, p: Phase, s: Site)
    requires k <= RULE_COUNT && InSite(p, s)
  {
    forall j :: k <= j < RULE_COUNT && PhaseOf(RuleAt(j)) == p ==> !When(RuleAt(j), s, UNMARKED)
  }

  lemma NoneFiresFrom(k: nat, p: Phase, s: Site)
    requires k < RULE_COUNT && InSite(p, s)
    ensures NoneFires(k, p, s) <==> !(PhaseOf(RuleAt(k)) == p && When(RuleAt(k), s, UNMARKED)) && NoneFires(k + 1, p, s)
  {
  }

  lemma {:induction false} GuardSkips(k: nat, p: Phase, s: Site)
    requires k <= RULE_COUNT && InSite(p, s) && (p.Pre? || p.PerStatement? || p.PreSegment?)
    ensures Fire(k, p, s, UNMARKED).Skipped? <==> NoneFires(k, p, s)
    decreases RULE_COUNT - k
  {
    if k < RULE_COUNT {
      NoneFiresFrom(k, p, s);
      if PhaseOf(RuleAt(k)) == p && When(RuleAt(k), s, UNMARKED) {
        GuardStops(k, p, s);
      } else {
        FireSkips(k, p, s, UNMARKED);
        GuardSkips(k + 1, p, s);
      }
    }
  }

  lemma GuardStops(k: nat, p: Phase, s: Site)
    requires k < RULE_COUNT && InSite(p, s) && (p.Pre? || p.PerStatement? || p.PreSegment?)
    requires PhaseOf(RuleAt(k)) == p && When(RuleAt(k), s, UNMARKED)
    ensures Fire(k, p, s, UNMARKED).Stopped?
  {
  }

  lemma ScriptGuards(s: Site)
    ensures Fire(0, Pre, s, UNMARKED).Skipped?
            <==> !s.script.blank && !s.script.failed
                 && (|s.script.statements| == 1 || SemicolonChain(s.script.statements))
  {
    GuardSkips(0, Pre, s);
    RuleAtRank(REmpty);
    RuleAtRank(RParseError);
    RuleAtRank(RMultiStatement);
  }

  lemma StatementGuards(s: Site)
    requires s.at < |s.script.statements|
    ensures Fire(0, PerStatement, s, UNMARKED).Skipped? <==> Foreground(s.script.statements[s.at])
  {
    hide Fire, RankOf;
    GuardSkips(0, PerStatement, s);
    RuleAtRank(RBackground);
    RuleAtRank(RNonAndChain);
    RuleAtRank(RCompoundTop);
    RuleAtRank(RCompoundOperand);
  }

  lemma LengthGuard(s: Site)
    ensures Fire(0, PreSegment, s, UNMARKED).Skipped? <==> |s.chain| <= MAX_SEGMENTS
  {
    GuardSkips(0, PreSegment, s);
    RuleAtRank(RChainTooLong);
  }

  lemma GatherStep(script: Script, i: nat, chain: seq<SegmentNode>)
    requires i < |script.statements|
    ensures if Foreground(script.statements[i])
            then Gather(script, i, chain) == Gather(script, i + 1, Grown(script, i, chain))
            else Gather(script, i, chain).Declined? && Gather(script, i, chain).decision.PassThrough?
  {
    hide Fire, Grown, Foreground;
    var s := Site(script, chain, false, i);
    StatementGuards(s);
    GuardFires(0, PerStatement, s, UNMARKED);
  }

  lemma {:induction false} GatherFlattens(script: Script, i: nat, chain: seq<SegmentNode>)
    requires i <= |script.statements|
    ensures Gather(script, i, chain) == Chain(Flatten(script, i, chain))
            || (Gather(script, i, chain).Declined? && Gather(script, i, chain).decision.PassThrough?)
    ensures Gather(script, i, chain).Chain?
            <==> forall j :: i <= j < |script.statements| ==> Foreground(script.statements[j])
    decreases |script.statements| - i
  {
    hide Fire, Grown, Foreground;
    if i < |script.statements| {
      GatherStep(script, i, chain);
      GatherFlattens(script, i + 1, Grown(script, i, chain));
    }
  }

  /** A script is walked exactly when the guards let it; otherwise it passes through. */
  lemma DecideReaches(script: Script)
    ensures if ReachesWalk(script) then Decide(script) == Walk(script, ChainOf(script), 0, UNMARKED)
            else Decide(script).Stopped? && Decide(script).decision.PassThrough?
  {
    hide Fire, Foreground, Flatten, Walk;
    var chain := ChainOf(script);
    ScriptGuards(Site(script, [], false, 0));
    GuardFires(0, Pre, Site(script, [], false, 0), UNMARKED);
    GatherFlattens(script, 0, []);
    LengthGuard(Site(script, chain, false, 0));
    GuardFires(0, PreSegment, Site(script, chain, false, 0), UNMARKED);
    assert forall st :: st in script.statements
             <==> exists j :: 0 <= j < |script.statements| && script.statements[j] == st;
  }

  lemma SegmentsSimple(st: Statement, prefix: bool)
    requires Foreground(st)
    ensures SimpleNodes(SegmentsOf(st, prefix))
  {
  }

  lemma {:induction false} FlattenSimple(script: Script, i: nat, chain: seq<SegmentNode>)
    requires i <= |script.statements| && SimpleNodes(chain)
    requires forall st :: st in script.statements ==> Foreground(st)
    ensures SimpleNodes(Flatten(script, i, chain))
    decreases |script.statements| - i
  {
    if i < |script.statements| {
      SegmentsSimple(script.statements[i], i < |script.statements| - 1);
      FlattenSimple(script, i + 1, Grown(script, i, chain));
    }
  }

  /**
   * A script becomes a pure view exactly when it passes the guards, carries no glue, has one single-file view,
   * in its terminal statement and beside silent segments only, and moves at most to one directory, before the view.
   */
  lemma ScriptIsPureViewExactlyWhen(script: Script, v: ViewSeg, b: Option<string>)
    requires Coherent(ChainOf(script))
    ensures Decide(script) == Stopped(PureView(v, b))
            <==> && ReachesWalk(script) && !HasGlue(ChainOf(script)) && ViewAlone(ChainOf(script), v)
                 && if b.Some? then MovesTo(ChainOf(script), b.value) else NoMove(ChainOf(script))
  {
    DecideReaches(script);
    if ReachesWalk(script) {
      FlattenSimple(script, 0, []);
      PureViewExactlyWhen(script, ChainOf(script), v, b);
    }
  }
}
