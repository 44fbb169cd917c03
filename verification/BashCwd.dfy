/** Where each admitted block really ran, by a lexical reading of every `cd`, against the base the decision reports. */
module BashCwd {

  import opened BashChoice
  import opened BashContext
  import opened BashRules
  import opened BashScript
  import opened BashView
  import opened Options

  // ----- lexical directories

  function Enter(cwd: seq<string>, parts: seq<string>): seq<string>
    decreases |parts|
  {
    if parts == [] then cwd
    else if parts[0] == "" || parts[0] == "." then Enter(cwd, parts[1..])
    else if parts[0] == ".." then Enter(if cwd == [] then [] else cwd[..|cwd| - 1], parts[1..])
    else Enter(cwd + [parts[0]], parts[1..])
  }

  function Resolve(cwd: seq<string>, dir: string): seq<string>
  {
    Enter(if Absolute(dir) then [] else cwd, SplitSlash(dir))
  }

  /** The directory a reported base stands for. */
  function BaseDir(start: seq<string>, base: Option<string>): seq<string>
  {
    if base.None? then start else Resolve(start, base.value)
  }

  /** The directory in effect when segment k runs. */
  function CwdAt(start: seq<string>, chain: seq<SegmentNode>, k: nat): seq<string>
    requires k <= |chain|
  {
    if k == 0 then start
    else
      var before := CwdAt(start, chain, k - 1);
      var ran := Classify(chain[k - 1]);
      if ran.Silent? && ran.cd.Some? then Resolve(before, ran.cd.value) else before
  }

  lemma {:induction false} DotsStay(cwd: seq<string>, parts: seq<string>)
    requires forall part :: part in parts ==> part == "" || part == "."
    ensures Enter(cwd, parts) == cwd
    decreases |parts|
  {
    if parts != [] {
      assert parts[0] in parts && forall part :: part in parts[1..] ==> part in parts;
      DotsStay(cwd, parts[1..]);
    }
  }

  lemma DotFormStays(cwd: seq<string>, dir: string)
    requires DotForm(dir)
    ensures Resolve(cwd, dir) == cwd
  {
    DotsStay(cwd, SplitSlash(dir));
  }

  lemma {:induction false} UnmovedStays(start: seq<string>, chain: seq<SegmentNode>, k: nat)
    requires k <= |chain| && NoMove(chain[..k])
    ensures CwdAt(start, chain, k) == start
  {
    if k > 0 {
      assert chain[..k][k - 1] == chain[k - 1] && chain[k - 1] in chain[..k];
      assert forall n :: n in chain[..k - 1] ==> n in chain[..k];
      UnmovedStays(start, chain, k - 1);
      var ran := Classify(chain[k - 1]);
      if ran.Silent? && ran.cd.Some? { DotFormStays(start, ran.cd.value); }
    }
  }

  // ----- the walk keeps the base in step with the directory

  predicate IsBlock(n: SegmentNode)
  {
    Classify(n).View? || Classify(n).Multi? || Classify(n).Find?
  }

  ghost predicate BlocksAt(start: seq<string>, chain: seq<SegmentNode>, k: nat, base: Option<string>)
    requires k <= |chain|
  {
    forall j :: 0 <= j < k && IsBlock(chain[j]) ==> CwdAt(start, chain, j) == BaseDir(start, base)
  }

  ghost predicate NoBlock(chain: seq<SegmentNode>, k: nat)
    requires k <= |chain|
  {
    forall j :: 0 <= j < k ==> !IsBlock(chain[j])
  }

  /** Plain facts about the marks alone. */
  predicate SoundMarks(hasGlue: bool, m: Marks)
  {
    && (m.effCwd.Some? ==> m.baseDir == m.effCwd && Absolute(m.effCwd.value))
    && (m.search.Some? ==> m.blocks != [])
    && (m.sawGlue ==> hasGlue)
    && (m.tailMode ==> m.baseDir.None? && !hasGlue)
    && (m.multi.Some? ==> m.multi.value.base.None?) && (m.search.Some? ==> m.search.value.base.None?)
  }

  /** A classified segment carries no base of its own yet. */
  predicate Baseless(n: SegmentNode)
  {
    match Classify(n)
    case Multi(files) => files.base.None?
    case Find(search) => search.base.None?
    case _ => true
  }

  ghost predicate TailIsInert(chain: seq<SegmentNode>)
  {
    chain != [] && forall n :: n in chain[1..] ==> IsInertTail(n.node)
  }

  ghost predicate Tracks(start: seq<string>, chain: seq<SegmentNode>, k: nat, m: Marks)
    requires k <= |chain|
  {
    && SoundMarks(HasGlue(chain), m) && (k == 0 ==> m == UNMARKED)
    && (m.tailMode ==> TailIsInert(chain))
    && CwdAt(start, chain, k) == BaseDir(start, m.baseDir)
    && (m.view.None? && m.multi.None? && m.search.None? ==> NoBlock(chain, k))
    && (HasGlue(chain) || m.search.None? || m.tailMode ==> BlocksAt(start, chain, k, m.baseDir))
  }

  /** What a step does to the marks, by the segment's kind. */
  ghost predicate StepKind(s: Site, m: Marks, next: Marks)
    requires s.at < |s.chain|
  {
    var here := Current(s);
    match here
    case Unsafe(_) => next.baseDir == m.baseDir && next.view == m.view && next.multi == m.multi
        && next.search == m.search && next.tailMode == m.tailMode
    case Silent(None) => next == m
    case Silent(Some(d)) =>
      || (next == m && IsRedundantCd(d, m.effCwd))
      || (next.baseDir == Some(d) && !DotForm(d) && m.baseDir.None? && m.view.None? && m.multi.None?
          && (s.hasGlue ==> m.search.None?)
          && next.view == m.view && next.multi == m.multi && next.search == m.search && next.tailMode == m.tailMode)
    case _ =>
      && next.baseDir == m.baseDir && (next.view.Some? || next.multi.Some? || next.search.Some?)
      && (m.search.Some? ==> next.search.Some?)
      && (next.tailMode && !m.tailMode ==> s.at == 0 && TailIsInert(s.chain))
      && (m.tailMode ==> next.tailMode)
  }

  lemma StepHasKind(s: Site, m: Marks)
    requires s.at < |s.chain| && (s.hasGlue ==> !m.tailMode)
    requires IsGlue(s.chain[s.at].node) || IsInertTail(s.chain[s.at].node) ==> Current(s).Unsafe?
    requires m.tailMode ==> IsInertTail(s.chain[s.at].node)
    ensures var step := RunSegment(Choose(s, m), s, m); step.Advanced? ==> StepKind(s, m, step.marks)
  {
  }

  ghost predicate MarksStay(s: Site, m: Marks)
    requires s.at < |s.chain|
  {
    var step := RunSegment(Choose(s, m), s, m);
    step.Advanced? ==> SoundMarks(s.hasGlue, step.marks)
  }

  ghost predicate MarksReady(s: Site, m: Marks)
    requires s.at < |s.chain|
  {
    && SoundMarks(s.hasGlue, m) && (s.at == 0 ==> m == UNMARKED)
    && (IsGlue(s.chain[s.at].node) ==> s.hasGlue)
    && (IsInertTail(s.chain[s.at].node) ==> Current(s).Unsafe?)
    && (m.tailMode ==> IsInertTail(s.chain[s.at].node))
    && Baseless(s.chain[s.at])
  }

  lemma RuleKeepsMarks(r: Rule, s: Site, m: Marks)
    requires s.at < |s.chain| && MarksReady(s, m) && ChosenFor(r, s, m)
    ensures RunSegment(r, s, m).Advanced? ==> SoundMarks(s.hasGlue, RunSegment(r, s, m).marks)
  {
  }

  lemma StepKeepsMarks(s: Site, m: Marks)
    requires s.at < |s.chain| && MarksReady(s, m)
    ensures MarksStay(s, m)
  {
    ChoiceMeans(s, m);
    RuleKeepsMarks(Choose(s, m), s, m);
  }

  lemma CwdStep(start: seq<string>, chain: seq<SegmentNode>, k: nat, base: Option<string>, effCwd: Option<string>,
                d: string)
    requires k < |chain| && Classify(chain[k]) == Silent(Some(d))
    requires CwdAt(start, chain, k) == BaseDir(start, base)
    requires effCwd.Some? ==> base == effCwd && Absolute(effCwd.value)
    ensures IsRedundantCd(d, effCwd) ==> CwdAt(start, chain, k + 1) == BaseDir(start, base)
    ensures base.None? ==> CwdAt(start, chain, k + 1) == BaseDir(start, Some(d))
  {
    if DotForm(d) { DotFormStays(CwdAt(start, chain, k), d); }
  }

  lemma BlocksStay(start: seq<string>, chain: seq<SegmentNode>, k: nat, base: Option<string>)
    requires k < |chain| && CwdAt(start, chain, k) == BaseDir(start, base)
    ensures BlocksAt(start, chain, k, base) ==> BlocksAt(start, chain, k + 1, base)
    ensures NoBlock(chain, k) && !IsBlock(chain[k]) ==> NoBlock(chain, k + 1)
    ensures NoBlock(chain, k) ==> BlocksAt(start, chain, k, base)
  {
  }

  lemma TrackStep(start: seq<string>, s: Site, m: Marks, next: Marks)
    requires s.at < |s.chain| && s.hasGlue == HasGlue(s.chain) && Tracks(start, s.chain, s.at, m)
    requires StepKind(s, m, next) && SoundMarks(s.hasGlue, next)
    ensures Tracks(start, s.chain, s.at + 1, next)
  {
    BlocksStay(start, s.chain, s.at, m.baseDir);
    match Current(s)
    case Silent(Some(d)) =>
      CwdStep(start, s.chain, s.at, m.baseDir, m.effCwd, d);
      if next.baseDir != m.baseDir { MoveKeepsBlocks(start, s, m, next); }
    case _ =>
  }

  lemma MoveKeepsBlocks(start: seq<string>, s: Site, m: Marks, next: Marks)
    requires s.at < |s.chain| && Tracks(start, s.chain, s.at, m) && !IsBlock(s.chain[s.at])
    requires m.view.None? && m.multi.None? && next.search == m.search
    ensures next.search.None? ==> BlocksAt(start, s.chain, s.at + 1, next.baseDir) && NoBlock(s.chain, s.at + 1)
  {
  }

  /** Every block of the chain ran in the directory the decision's base stands for. */
  ghost predicate TellsWhere(start: seq<string>, chain: seq<SegmentNode>, d: Decision)
  {
    match d
    case PureView(_, b) => BlocksAt(start, chain, |chain|, b)
    case PureCompound(_, b) => BlocksAt(start, chain, |chain|, b)
    case PureMultiView(files) => BlocksAt(start, chain, |chain|, files.base)
    case _ => true
  }

  ghost predicate Told(start: seq<string>, chain: seq<SegmentNode>, w: Fired)
  {
    w.Stopped? ==> TellsWhere(start, chain, w.decision)
  }

  lemma TailTells(start: seq<string>, chain: seq<SegmentNode>, m: Marks)
    requires Tracks(start, chain, |chain|, m)
    ensures Told(start, chain, RunPost(ChoosePost(m), m))
  {
  }

  // ----- searches: the one shape whose base can miss

  /** Each search ran where the base says, unless no `cd` had moved yet when it ran. */
  ghost predicate SearchesAt(start: seq<string>, chain: seq<SegmentNode>, k: nat, base: Option<string>)
    requires k <= |chain|
  {
    forall j :: 0 <= j < k && Classify(chain[j]).Find?
        ==> NoMove(chain[..j]) || CwdAt(start, chain, j) == BaseDir(start, base)
  }

  /** The base the chain dictates: the directory of the first `cd` that moves, none when none does. */
  function FirstMove(chain: seq<SegmentNode>): Option<string>
  {
    if FirstMover(chain) == |chain| then None else Classify(chain[FirstMover(chain)]).cd
  }

  /** After k segments the recorded base is the first move's directory, if that move has been met. */
  ghost predicate BaseIsFirstMove(chain: seq<SegmentNode>, k: nat, m: Marks)
    requires k <= |chain|
  {
    m.baseDir == if FirstMover(chain) < k then FirstMove(chain) else None
  }

  ghost predicate TracksSearch(start: seq<string>, chain: seq<SegmentNode>, k: nat, m: Marks)
    requires k <= |chain|
  {
    Tracks(start, chain, k, m) && BaseIsFirstMove(chain, k, m) && SearchesAt(start, chain, k, m.baseDir)
  }

  lemma NoMoveBefore(chain: seq<SegmentNode>, k: nat)
    requires k <= |chain|
    ensures NoMove(chain[..k]) <==> k <= FirstMover(chain)
  {
    var f := FirstMover(chain);
    if k <= f {
      assert forall n :: n in chain[..k] ==> n in chain[..f];
    } else {
      assert chain[f] in chain[..k];
    }
  }

  lemma BaseStep(s: Site, m: Marks, next: Marks)
    requires s.at < |s.chain| && BaseIsFirstMove(s.chain, s.at, m) && StepKind(s, m, next)
    requires m.effCwd.Some? ==> m.baseDir == m.effCwd
    ensures BaseIsFirstMove(s.chain, s.at + 1, next)
  {
    NoMoveBefore(s.chain, s.at + 1);
    assert s.chain[s.at] in s.chain[..s.at + 1];
  }

  lemma SearchTrackStep(start: seq<string>, s: Site, m: Marks, next: Marks)
    requires s.at < |s.chain| && TracksSearch(start, s.chain, s.at, m) && Tracks(start, s.chain, s.at + 1, next)
    requires StepKind(s, m, next)
    ensures TracksSearch(start, s.chain, s.at + 1, next)
  {
    BaseStep(s, m, next);
    if next.baseDir != m.baseDir {
      forall j | 0 <= j < s.at + 1
        ensures NoMove(s.chain[..j])
      {
        NoMoveBefore(s.chain, j);
      }
    }
  }

  ghost predicate TellsSearch(start: seq<string>, chain: seq<SegmentNode>, w: Fired)
  {
    w.Stopped? && w.decision.PureSearch?
    ==> w.decision.search.base == FirstMove(chain) && SearchesAt(start, chain, |chain|, FirstMove(chain))
  }

  lemma TrackedStepAt(start: seq<string>, script: Script, chain: seq<SegmentNode>, k: nat, m: Marks)
    returns (step: Fired)
    requires k < |chain| && Coherent(chain) && TracksSearch(start, chain, k, m)
    requires forall n :: n in chain ==> Baseless(n)
    ensures StepAt(script, chain, k, m, step)
    ensures var s := Site(script, chain, HasGlue(chain), k); step == RunSegment(Choose(s, m), s, m)
    ensures step.Stopped? ==> step.decision.PassThrough?
    ensures step.Advanced? ==> TracksSearch(start, chain, k + 1, step.marks)
  {
    hide Walk, Choose, RunSegment;
    var s := Site(script, chain, HasGlue(chain), k);
    assert chain[k] in chain;
    if m.tailMode { assert chain[k] == chain[1..][k - 1]; }
    TakeStep(script, chain, k, m);
    StepHasKind(s, m);
    StepKeepsMarks(s, m);
    RunPasses(Choose(s, m), s, m);
    step := RunSegment(Choose(s, m), s, m);
    if step.Advanced? {
      TrackStep(start, s, m, step.marks);
      SearchTrackStep(start, s, m, step.marks);
    }
  }

  lemma TrackedTail(start: seq<string>, chain: seq<SegmentNode>, m: Marks)
    requires TracksSearch(start, chain, |chain|, m)
    ensures TellsSearch(start, chain, RunPost(ChoosePost(m), m)) && Told(start, chain, RunPost(ChoosePost(m), m))
  {
    TailTells(start, chain, m);
  }

  lemma {:induction false} TrackedWalk(start: seq<string>, script: Script, chain: seq<SegmentNode>, k: nat, m: Marks)
    requires k <= |chain| && Coherent(chain) && TracksSearch(start, chain, k, m)
    requires forall n :: n in chain ==> Baseless(n)
    ensures TellsSearch(start, chain, Walk(script, chain, k, m)) && Told(start, chain, Walk(script, chain, k, m))
    decreases |chain| - k
  {
    hide Walk, RunPost, ChoosePost, Tracks, SearchesAt, BaseIsFirstMove;
    if k == |chain| {
      WalkEnds(script, chain, m);
      TrackedTail(start, chain, m);
    } else {
      var step := TrackedStepAt(start, script, chain, k, m);
      if step.Advanced? { TrackedWalk(start, script, chain, k + 1, step.marks); }
    }
  }

  /**
   * For a pure view, a pure multi-file view and a pure compound, the directory a lexical `cd` gives at every
   * block is the reported base, resolved from the start directory.
   */
  lemma ReportedBaseIsWhereBlocksRan(start: seq<string>, script: Script)
    requires Coherent(ChainOf(script)) && forall n :: n in ChainOf(script) ==> Baseless(n)
    ensures Decide(script).Stopped? && TellsWhere(start, ChainOf(script), Decide(script).decision)
  {
    EveryScriptIsDecided(script);
    DecideReaches(script);
    if ReachesWalk(script) { TrackedWalk(start, script, ChainOf(script), 0, UNMARKED); }
  }

  /**
   * A pure search reports the first directory any `cd` of the chain moves to, wherever that `cd` stands. So the
   * base of the search at j is right exactly when that move came before it, or there is none, or it leads nowhere.
   */
  lemma SearchBaseIsRightExactlyWhen(start: seq<string>, script: Script, search: Search, j: nat)
    requires Coherent(ChainOf(script)) && forall n :: n in ChainOf(script) ==> Baseless(n)
    requires Decide(script) == Stopped(PureSearch(search))
    requires j < |ChainOf(script)| && Classify(ChainOf(script)[j]).Find?
    ensures search.base == FirstMove(ChainOf(script))
    ensures var chain := ChainOf(script);
            var f := FirstMover(chain);
            CwdAt(start, chain, j) == BaseDir(start, search.base)
            <==> f < j || f == |chain| || Resolve(start, Classify(chain[f]).cd.value) == start
  {
    var chain := ChainOf(script);
    DecideReaches(script);
    assert chain[0..] == chain;
    TrackedWalk(start, script, chain, 0, UNMARKED);
    NoMoveBefore(chain, j);
    if NoMove(chain[..j]) { UnmovedStays(start, chain, j); }
  }

  /** Steps of a search followed by a move, in one statement. */
  lemma SearchStepsFirst(s: Site, search: Search)
    requires s.at == 0 < |s.chain| && !s.hasGlue && s.chain[0].node.kind.Command? && !s.chain[0].prefixPosition
    requires Current(s) == Find(search) && !LeadsTail(s, UNMARKED)
    ensures RunSegment(Choose(s, UNMARKED), s, UNMARKED)
            == Advanced(UNMARKED.(search := Some(search), blocks := [SearchBlock(search)]))
  {
    assert UNMARKED.blocks + [SearchBlock(search)] == [SearchBlock(search)];
  }

  lemma MoveStepsSecond(s: Site, search: Search, dir: string)
    requires s.at < |s.chain| && !s.hasGlue && s.chain[s.at].node.kind.Command?
    requires Current(s) == Silent(Some(dir)) && !DotForm(dir)
    ensures var m := UNMARKED.(search := Some(search), blocks := [SearchBlock(search)]);
            var step := RunSegment(Choose(s, m), s, m);
            step.Advanced? && step.marks.baseDir == Some(dir) && step.marks.(baseDir := None, effCwd := None) == m
  {
  }

  lemma SearchTailBase(m: Marks, search: Search, dir: string)
    requires m.(baseDir := None, effCwd := None) == UNMARKED.(search := Some(search), blocks := [SearchBlock(search)])
    requires m.baseDir == Some(dir)
    ensures RunPost(ChoosePost(m), m) == Stopped(PureSearch(search.(base := Some(dir))))
  {
  }

  /** One foreground statement `find && cd`. */
  function SearchThenCd(find: Node, cd: Node): Script
  {
    Script(false, false, [Statement(true, false, false, AndOr(["&&"], [find, cd]))])
  }

  lemma SearchThenCdChain(find: Node, cd: Node)
    requires find.kind.Command? && cd.kind.Command?
    ensures ChainOf(SearchThenCd(find, cd)) == [SegmentNode(find, false), SegmentNode(cd, false)]
    ensures ReachesWalk(SearchThenCd(find, cd))
  {
    var script := SearchThenCd(find, cd);
    var segments := [SegmentNode(find, false), SegmentNode(cd, false)];
    assert SegmentsOf(script.statements[0], false) == segments && [] + segments == segments;
    assert Flatten(script, 0, []) == Flatten(script, 1, Grown(script, 0, [])) == segments;
  }

  /**
   * A search and then a move: the decision reports the move's directory for a search that ran in the start directory.
   */
  lemma LateCdMovesSearch(start: seq<string>, find: Node, cd: Node, search: Search, dir: string)
    requires find.kind.Command? && find.asTerminal == Find(search) && !IsGlue(find)
    requires cd.kind.Command? && cd.asTerminal == Silent(Some(dir)) && !DotForm(dir) && !IsGlue(cd) && !IsInertTail(cd)
    ensures Decide(SearchThenCd(find, cd)) == Stopped(PureSearch(search.(base := Some(dir))))
    ensures |ChainOf(SearchThenCd(find, cd))| == 2 && Classify(ChainOf(SearchThenCd(find, cd))[0]) == Find(search)
    ensures CwdAt(start, ChainOf(SearchThenCd(find, cd)), 0) == start
  {
    var script, chain := SearchThenCd(find, cd), [SegmentNode(find, false), SegmentNode(cd, false)];
    SearchThenCdChain(find, cd);
    DecideReaches(script);
    assert chain[1..] == [chain[1]] && chain[1] in chain[1..];
    TakeStep(script, chain, 0, UNMARKED);
    SearchStepsFirst(Site(script, chain, false, 0), search);
    var found := UNMARKED.(search := Some(search), blocks := [SearchBlock(search)]);
    LateCdFinish(script, chain, found, search, dir);
  }

  lemma LateCdFinish(script: Script, chain: seq<SegmentNode>, found: Marks, search: Search, dir: string)
    requires |chain| == 2 && !HasGlue(chain) && chain[1].node.kind.Command?
    requires Classify(chain[1]) == Silent(Some(dir)) && !DotForm(dir)
    requires found == UNMARKED.(search := Some(search), blocks := [SearchBlock(search)])
    ensures Walk(script, chain, 1, found) == Stopped(PureSearch(search.(base := Some(dir))))
  {
    var s := Site(script, chain, false, 1);
    TakeStep(script, chain, 1, found);
    MoveStepsSecond(s, search, dir);
    var moved := RunSegment(Choose(s, found), s, found).marks;
    SearchTailBase(moved, search, dir);
    WalkEnds(script, chain, moved);
  }

  lemma OneNameResolves()
    ensures SplitSlash("s") == ["s"] && Resolve([], "s") == ["s"] && !DotForm("s")
  {
    assert SplitSlash("") == [""];
    assert ['s'] + "" == "s" && "s"[1..] == "";
    assert SplitSlash("s") == ["s"] && "s" in SplitSlash("s");
    assert ["s"][1..] == [] && [] + ["s"] == ["s"];
  }

  /** `rg pat notes && cd s` from the root: the search ran in the root, and the decision says it ran in `/s`. */
  lemma LateCdReportsWrongBase()
    ensures
      var search := Search(OneFile, "pat", ["notes"], None);
      var find := Node(Command, Find(search), Find(search), None, None, "rg pat notes");
      var cd := Node(Command, Silent(Some("s")), Silent(Some("s")), None, None, "cd s");
      var script := SearchThenCd(find, cd);
      && Decide(script) == Stopped(PureSearch(search.(base := Some("s"))))
      && |ChainOf(script)| == 2 && Classify(ChainOf(script)[0]) == Find(search)
      && CwdAt([], ChainOf(script), 0) == [] && BaseDir([], Some("s")) == ["s"]
  {
    var search := Search(OneFile, "pat", ["notes"], None);
    var find := Node(Command, Find(search), Find(search), None, None, "rg pat notes");
    var cd := Node(Command, Silent(Some("s")), Silent(Some("s")), None, None, "cd s");
    OneNameResolves();
    LateCdMovesSearch([], find, cd, search, "s");
  }
}
