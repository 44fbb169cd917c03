/** What a decision lists: the chain's own segments, in chain order, each by its own class. */
module BashBlocks {

  import opened BashRules
  import opened BashContext
  import opened BashChoice
  import opened BashView
  import opened BashScript
  import opened BashCwd
  import opened Options

  // ----- the chain read segment by segment

  /** What one admitted segment contributes: a block, its glue, its raw text, or nothing when it is silent. */
  function BlockOf(n: SegmentNode): seq<Block>
  {
    match Classify(n)
    case View(v) => [ViewBlock(v)]
    case Find(search) => [SearchBlock(search)]
    case Unsafe(_) => if IsGlue(n.node) then [Block.Glue(n.node.glue.value)] else [Raw(n.node.text)]
    case _ => []
  }

  function BlocksOf(chain: seq<SegmentNode>): seq<Block>
  {
    if chain == [] then [] else BlocksOf(chain[..|chain| - 1]) + BlockOf(chain[|chain| - 1])
  }

  /** The last view, search and multi-file view of the chain. */
  function LastView(chain: seq<SegmentNode>): Option<ViewSeg>
  {
    if chain == [] then None
    else match Classify(chain[|chain| - 1])
      case View(v) => Some(v)
      case _ => LastView(chain[..|chain| - 1])
  }

  function LastSearch(chain: seq<SegmentNode>): Option<Search>
  {
    if chain == [] then None
    else match Classify(chain[|chain| - 1])
      case Find(search) => Some(search)
      case _ => LastSearch(chain[..|chain| - 1])
  }

  function LastMulti(chain: seq<SegmentNode>): Option<MultiView>
  {
    if chain == [] then None
    else match Classify(chain[|chain| - 1])
      case Multi(files) => Some(files)
      case _ => LastMulti(chain[..|chain| - 1])
  }

  // ----- the marks are the chain so far

  ghost predicate MarksAre(chain: seq<SegmentNode>, k: nat, m: Marks)
    requires k <= |chain|
  {
    && m.blocks == BlocksOf(chain[..k]) && m.view == LastView(chain[..k]) && m.search == LastSearch(chain[..k])
    && m.multi == LastMulti(chain[..k]) && (m.sawGlue <==> HasGlue(chain[..k]))
    && (!HasGlue(chain) && !m.tailMode ==> Alone(m)) && (m.view.Some? ==> m.blocks != [])
  }

  /** Outside glued chains and tails at most one view or search is recorded. */
  predicate Alone(m: Marks)
  {
    && (m.view.None? || m.search.None?)
    && m.blocks == if m.search.Some? then [SearchBlock(m.search.value)]
                   else if m.view.Some? then [ViewBlock(m.view.value)] else []
  }

  /** What a step that goes on records of its segment. */
  ghost predicate Records(n: SegmentNode, m: Marks, next: Marks)
  {
    && next.blocks == m.blocks + BlockOf(n)
    && next.view == (if Classify(n).View? then Some(Classify(n).view) else m.view)
    && next.search == (if Classify(n).Find? then Some(Classify(n).search) else m.search)
    && next.multi == (if Classify(n).Multi? then Some(Classify(n).files) else m.multi)
    && (next.sawGlue <==> m.sawGlue || IsGlue(n.node))
  }

  lemma RuleRecords(s: Site, m: Marks)
    requires s.at < |s.chain| && (|s.chain| == 1 ==> m == UNMARKED)
    requires IsGlue(s.chain[s.at].node) || IsInertTail(s.chain[s.at].node) ==> Current(s).Unsafe?
    ensures var step := RunSegment(Choose(s, m), s, m); step.Advanced? ==> Records(s.chain[s.at], m, step.marks)
  {
    ChoiceMeans(s, m);
  }

  lemma RuleStaysAlone(s: Site, m: Marks)
    requires s.at < |s.chain| && !s.hasGlue && Alone(m) && !m.tailMode && !IsGlue(s.chain[s.at].node)
    ensures var step := RunSegment(Choose(s, m), s, m);
            step.Advanced? && !step.marks.tailMode ==> Alone(step.marks)
  {
  }

  lemma TailModeStays(s: Site, m: Marks)
    requires s.at < |s.chain| && m.tailMode
    ensures var step := RunSegment(Choose(s, m), s, m); step.Advanced? ==> step.marks.tailMode
  {
  }

  lemma PrefixReads(chain: seq<SegmentNode>, k: nat)
    requires k < |chain|
    ensures var before, now, n := chain[..k], chain[..k + 1], chain[k];
            && BlocksOf(now) == BlocksOf(before) + BlockOf(n)
            && LastView(now) == (if Classify(n).View? then Some(Classify(n).view) else LastView(before))
            && LastSearch(now) == (if Classify(n).Find? then Some(Classify(n).search) else LastSearch(before))
            && LastMulti(now) == (if Classify(n).Multi? then Some(Classify(n).files) else LastMulti(before))
            && (HasGlue(now) <==> HasGlue(before) || IsGlue(n.node))
  {
    assert chain[..k + 1] == chain[..k] + [chain[k]] && chain[..k + 1][..k] == chain[..k];
    assert forall n :: n in chain[..k + 1] <==> n in chain[..k] || n == chain[k];
  }

  lemma StepReads(script: Script, chain: seq<SegmentNode>, k: nat, m: Marks)
    requires k < |chain| && Coherent(chain) && MarksAre(chain, k, m) && (k == 0 ==> m == UNMARKED)
    ensures var s := Site(script, chain, HasGlue(chain), k);
            var step := RunSegment(Choose(s, m), s, m);
            step.Advanced? ==> MarksAre(chain, k + 1, step.marks)
  {
    var s := Site(script, chain, HasGlue(chain), k);
    assert chain[k] in chain;
    RuleRecords(s, m);
    PrefixReads(chain, k);
    if !HasGlue(chain) {
      if m.tailMode { TailModeStays(s, m); } else { RuleStaysAlone(s, m); }
    }
    hide RunSegment, Choose, BlocksOf, LastView, LastSearch, LastMulti, BlockOf, HasGlue, Alone;
  }

  // ----- the decision lists them

  /** A decision carries these blocks, or this multi-file view or search with its base filled in, and the base. */
  predicate Lists(blocks: seq<Block>, multi: Option<MultiView>, search: Option<Search>, base: Option<string>,
                  d: Decision)
  {
    match d
    case PassThrough(_) => true
    case PureView(v, b) => blocks == [ViewBlock(v)] && multi.None? && b == base
    case PureSearch(found) =>
      && multi.None? && search.Some? && blocks == [SearchBlock(search.value)]
      && found == search.value.(base := base)
    case PureMultiView(files) => blocks == [] && multi.Some? && files == multi.value.(base := base)
    case PureCompound(segments, b) => segments == blocks && multi.None? && b == base
  }

  /** The decision carries the chain's own blocks, in order, and the directory of its first moving `cd`. */
  ghost predicate ListsChain(chain: seq<SegmentNode>, d: Decision)
  {
    Lists(BlocksOf(chain), LastMulti(chain), LastSearch(chain), FirstMove(chain), d)
  }

  lemma PostLists(hasGlue: bool, m: Marks)
    requires SoundMarks(hasGlue, m) && (m.view.Some? ==> m.blocks != []) && (!m.sawGlue && !m.tailMode ==> Alone(m))
    ensures var end := RunPost(ChoosePost(m), m);
            end.Stopped? ==> Lists(m.blocks, m.multi, m.search, m.baseDir, end.decision)
  {
  }

  lemma TailLists(chain: seq<SegmentNode>, m: Marks)
    requires MarksAre(chain, |chain|, m) && SoundMarks(HasGlue(chain), m) && BaseIsFirstMove(chain, |chain|, m)
    ensures var end := RunPost(ChoosePost(m), m); end.Stopped? ==> ListsChain(chain, end.decision)
  {
    assert chain[..|chain|] == chain;
    PostLists(HasGlue(chain), m);
    hide BlocksOf, LastView, LastSearch, LastMulti, HasGlue, FirstMover, RunPost, ChoosePost, Lists;
  }

  lemma {:induction false} WalkLists(script: Script, chain: seq<SegmentNode>, k: nat, m: Marks)
    requires k <= |chain| && Coherent(chain) && TracksSearch([], chain, k, m) && MarksAre(chain, k, m)
    requires forall n :: n in chain ==> Baseless(n)
    ensures var w := Walk(script, chain, k, m); w.Stopped? ==> ListsChain(chain, w.decision)
    decreases |chain| - k
  {
    hide Walk, RunPost, ChoosePost, RunSegment, Choose, ListsChain, MarksAre, SearchesAt;
    if k == |chain| {
      WalkEnds(script, chain, m);
      TailLists(chain, m);
    } else {
      var step := TrackedStepAt([], script, chain, k, m);
      StepReads(script, chain, k, m);
      if step.Advanced? {
        WalkLists(script, chain, k + 1, step.marks);
      } else if step.Stopped? {
        PassingLists(chain, step.decision);
      }
    }
  }

  lemma PassingLists(chain: seq<SegmentNode>, d: Decision)
    requires d.PassThrough?
    ensures ListsChain(chain, d)
  {
  }

  /**
   * Every decision lists the chain's own segments: a compound each non-silent one in chain order, by its own class;
   * a view, a search or a multi-file view the only one there is. Only the base is filled in, from the first move.
   */
  lemma DecisionListsChain(script: Script)
    requires Coherent(ChainOf(script)) && forall n :: n in ChainOf(script) ==> Baseless(n)
    ensures Decide(script).Stopped? && ListsChain(ChainOf(script), Decide(script).decision)
  {
    EveryScriptIsDecided(script);
    DecideReaches(script);
    var chain := ChainOf(script);
    if ReachesWalk(script) {
      assert chain[..0] == [] && chain[0..] == chain;
      WalkLists(script, chain, 0, UNMARKED);
    }
  }
}
