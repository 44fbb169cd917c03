/**
 * The bash conversion table: rules in order of precedence, and the walk that fires them over statements and segments.
 */
module BashRules {

  import opened Options
  import V = ViewOps

  // ----- a parsed command

  datatype ViewSeg = ViewSeg(filePath: string, ops: seq<V.ViewOp>, lineNumbered: bool, display: bool)

  datatype MultiView = MultiView(filePaths: seq<string>, ops: seq<V.ViewOp>, lineNumbered: bool, base: Option<string>)

  datatype SearchKind = OneFile | ManyFiles | Recursive | FilesList

  datatype Search = Search(kind: SearchKind, pattern: string, operands: seq<string>, base: Option<string>)

  datatype Segment =
    | Unsafe(reason: string)
    | Silent(cd: Option<string>)
    | View(view: ViewSeg)
    | Multi(files: MultiView)
    | Find(search: Search)

  datatype NodeKind = Command | Pipeline | OtherNode

  /** A node and what the classifiers make of it: in prefix and in terminal position, as glue, as an inert tail. */
  datatype Node = Node(kind: NodeKind, asPrefix: Segment, asTerminal: Segment, glue: Option<string>,
                       tailArgs: Option<seq<string>>, text: string)

  datatype Top = AndOr(operators: seq<string>, commands: seq<Node>) | Single(node: Node) | OtherTop

  datatype Statement = Statement(plain: bool, background: bool, afterSemicolon: bool, top: Top)

  datatype Script = Script(blank: bool, failed: bool, statements: seq<Statement>)

  datatype SegmentNode = SegmentNode(node: Node, prefixPosition: bool)

  // ----- verdicts

  datatype Reason =
    | Empty | ParseError | MultiStatement | Background | NonAndChain | CompoundTop | CompoundOperand | ChainTooLong
    | CompoundSegment | Classified(text: string) | UnsupportedPipeline | PostBlockCd | PostViewCd | MultiCd
    | MultiViewChain | NoView

  datatype Block = ViewBlock(view: ViewSeg) | SearchBlock(search: Search) | Glue(glue: string) | Raw(text: string)

  datatype Decision =
    | PassThrough(reason: Reason)
    | PureView(view: ViewSeg, base: Option<string>)
    | PureMultiView(files: MultiView)
    | PureSearch(search: Search)
    | PureCompound(segments: seq<Block>, base: Option<string>)

  // ----- the table

  datatype Phase = Pre | PerStatement | PreSegment | PerSegment | Post

  datatype Rule =
    | REmpty | RParseError | RMultiStatement
    | RBackground | RNonAndChain | RCompoundTop | RCompoundOperand
    | RChainTooLong
    | RCompoundSegment | RAdmitGlue | RInertTail | RInertCountTail | RUnsafe
    | RSkipRedundantCd | RPostBlockCd | RPostViewCd | RMultiCd | RRecordCd | RSilentSkip
    | RInertTailHead | RSearchPrefix | RSearchSecond | RRecordSearch | RViewPrefix | RViewSecond | RRecordView
    | RMultiViewChain | RMultiView | RDisplayCompound | RCompound | RInertCompound | RSearch | RNoView | RView

  const RULE_COUNT := 34

  /** The table in order of precedence: guards, the segment walk, the conversion tail. */
  function RuleAt(k: nat): Rule
    requires k < RULE_COUNT
  {
    if k < 8 then GuardAt(k) else if k < 19 then EarlyAt(k) else if k < 26 then BlockAt(k) else TailAt(k)
  }

  /** Positions 0 to 7: once per script, once per statement, once per chain. */
  function GuardAt(k: nat): Rule
  {
    match k
    case 0 => REmpty case 1 => RParseError case 2 => RMultiStatement
    case 3 => RBackground case 4 => RNonAndChain case 5 => RCompoundTop case 6 => RCompoundOperand
    case _ => RChainTooLong
  }

  /** Positions 8 to 18: unsafe segments, then silent ones. */
  function EarlyAt(k: nat): Rule
  {
    match k
    case 8 => RCompoundSegment case 9 => RAdmitGlue case 10 => RInertTail case 11 => RInertCountTail case 12 => RUnsafe
    case 13 => RSkipRedundantCd case 14 => RPostBlockCd case 15 => RPostViewCd case 16 => RMultiCd case 17 => RRecordCd
    case _ => RSilentSkip
  }

  /** Positions 19 to 25: searches and views. */
  function BlockAt(k: nat): Rule
  {
    match k
    case 19 => RInertTailHead case 20 => RSearchPrefix case 21 => RSearchSecond case 22 => RRecordSearch
    case 23 => RViewPrefix case 24 => RViewSecond
    case _ => RRecordView
  }

  /** Positions 26 to 33: what the recorded marks become. */
  function TailAt(k: nat): Rule
  {
    match k
    case 26 => RMultiViewChain case 27 => RMultiView case 28 => RDisplayCompound case 29 => RCompound
    case 30 => RInertCompound case 31 => RSearch case 32 => RNoView
    case _ => RView
  }

  function PhaseOf(r: Rule): Phase
  {
    match r
    case REmpty | RParseError | RMultiStatement => Pre
    case RBackground | RNonAndChain | RCompoundTop | RCompoundOperand => PerStatement
    case RChainTooLong => PreSegment
    case RMultiViewChain | RMultiView | RDisplayCompound | RCompound => Post
    case RInertCompound | RSearch | RNoView | RView => Post
    case _ => PerSegment
  }

  const MAX_SEGMENTS := 8

  // ----- the context

  /** What a walk step cannot change: the script, its segments and the position. */
  datatype Site = Site(script: Script, chain: seq<SegmentNode>, hasGlue: bool, at: nat)

  datatype Marks = Marks(view: Option<ViewSeg>, multi: Option<MultiView>, search: Option<Search>,
                         baseDir: Option<string>,
                         effCwd: Option<string>, sawGlue: bool, blocks: seq<Block>, tailMode: bool)

  const UNMARKED := Marks(None, None, None, None, None, false, [], false)

  datatype Fired = Skipped | Advanced(marks: Marks) | Stopped(decision: Decision) | Broken

  function Current(s: Site): Segment
    requires s.at < |s.chain|
  {
    Classify(s.chain[s.at])
  }

  function Classify(n: SegmentNode): Segment
  {
    if n.prefixPosition then n.node.asPrefix else n.node.asTerminal
  }

  predicate IsGlue(n: Node)
  {
    n.kind.Command? && n.glue.Some?
  }

  predicate IsInertTail(n: Node)
  {
    n.kind.Command? && n.tailArgs.Some?
  }

  /** `/^-[lc]+$/` */
  predicate IsCountFlag(arg: string)
  {
    |arg| >= 2 && arg[0] == '-' && forall i :: 1 <= i < |arg| ==> arg[i] == 'l' || arg[i] == 'c'
  }

  predicate IsFlag(arg: string)
  {
    arg != "" && arg[0] == '-'
  }

  predicate IsCountTail(n: Node)
  {
    && IsInertTail(n)
    && (exists arg :: arg in n.tailArgs.value && IsFlag(arg))
    && (forall arg :: arg in n.tailArgs.value && IsFlag(arg) ==> IsCountFlag(arg))
  }

  function Admitted(blocks: seq<Block>): nat
  {
    if blocks == [] then 0
      else (if blocks[0].ViewBlock? || blocks[0].SearchBlock? then 1 else 0) + Admitted(blocks[1..])
  }

  function SplitSlash(s: string): (parts: seq<string>)
    ensures parts != []
  {
    if s == "" then [""]
    else
      var rest := SplitSlash(s[1..]);
      if s[0] == '/' then [""] + rest else [[s[0]] + rest[0]] + rest[1..]
  }

  predicate Absolute(dir: string)
  {
    dir != "" && dir[0] == '/'
  }

  predicate DotForm(dir: string)
  {
    !Absolute(dir) && forall part :: part in SplitSlash(dir) ==> part == "" || part == "."
  }

  predicate IsRedundantCd(target: string, effCwd: Option<string>)
  {
    DotForm(target) || (effCwd.Some? && Absolute(effCwd.value) && target == effCwd.value)
  }

  predicate SemicolonChain(statements: seq<Statement>)
  {
    |statements| >= 2 && forall i :: 1 <= i < |statements| ==> statements[i].afterSemicolon
  }

  // ----- rules

  predicate WhenScript(r: Rule, script: Script)
  {
    match r
    case REmpty => script.blank
    case RParseError => script.failed
    case RMultiStatement => |script.statements| != 1 && !SemicolonChain(script.statements)
    case _ => false
  }

  predicate WhenStatement(r: Rule, st: Statement)
  {
    match r
    case RBackground => !st.plain || st.background
    case RNonAndChain => st.top.AndOr? && exists op :: op in st.top.operators && op != "&&"
    case RCompoundTop => st.top.OtherTop? || (st.top.Single? && st.top.node.kind.OtherNode?)
    case RCompoundOperand => st.top.AndOr? && exists n :: n in st.top.commands && n.kind.OtherNode?
    case _ => false
  }

  predicate WhenCd(r: Rule, dir: string, hasGlue: bool, m: Marks)
  {
    match r
    case RSkipRedundantCd => IsRedundantCd(dir, m.effCwd)
    case RPostBlockCd => hasGlue && (m.view.Some? || m.search.Some?)
    case RPostViewCd => m.view.Some? || m.multi.Some?
    case RMultiCd => m.baseDir.Some?
    case _ => true
  }

  predicate WhenSegment(r: Rule, s: Site, m: Marks)
    requires s.at < |s.chain|
  {
    var here := s.chain[s.at];
    var current := Current(s);
    match r
    case RCompoundSegment => here.node.kind.OtherNode?
    case RAdmitGlue => current.Unsafe? && |s.chain| > 1 && IsGlue(here.node)
    case RInertTail => m.tailMode && IsInertTail(here.node)
    case RInertCountTail => s.hasGlue && Admitted(m.blocks) >= 2
        && forall n :: n in s.chain[s.at..] ==> IsCountTail(n.node)
    case RUnsafe => current.Unsafe?
    case RSkipRedundantCd | RPostBlockCd | RPostViewCd | RMultiCd | RRecordCd =>
      current.Silent? && current.cd.Some? && WhenCd(r, current.cd.value, s.hasGlue, m)
    case RSilentSkip => current.Silent?
    case RInertTailHead =>
      && s.at == 0 && !s.hasGlue && m.view.None? && m.search.None? && (current.Find? || current.View?)
      && |s.chain| > 1 && forall n :: n in s.chain[1..] ==> IsInertTail(n.node)
    case RSearchPrefix => current.Find? && here.prefixPosition && !s.hasGlue
    case RSearchSecond => current.Find? && (m.view.Some? || m.search.Some?) && !s.hasGlue
    case RRecordSearch => current.Find?
    case RViewPrefix => (current.View? || current.Multi?) && here.prefixPosition && !s.hasGlue
    case RViewSecond => (current.View? || current.Multi?) && (m.view.Some? || m.search.Some?) && !s.hasGlue
    case RRecordView => true
    case _ => false
  }

  predicate WhenPost(r: Rule, m: Marks)
  {
    match r
    case RMultiViewChain => m.multi.Some? && (m.sawGlue || m.blocks != [])
    case RMultiView => m.multi.Some?
    case RDisplayCompound => m.view.Some? && m.view.value.display && (m.sawGlue || m.tailMode)
    case RCompound => m.sawGlue && (m.view.Some? || m.search.Some?)
    case RInertCompound => m.tailMode && m.blocks != []
    case RSearch => m.search.Some?
    case RNoView => m.view.None?
    case RView => true
    case _ => false
  }

  /** Whether a rule fires at a site; a site without the statement or segment the phase needs is never asked. */
  predicate When(r: Rule, s: Site, m: Marks)
    requires PhaseOf(r).PerStatement? ==> s.at < |s.script.statements|
    requires PhaseOf(r).PerSegment? ==> s.at < |s.chain|
  {
    match PhaseOf(r)
    case Pre => WhenScript(r, s.script)
    case PerStatement => WhenStatement(r, s.script.statements[s.at])
    case PreSegment => |s.chain| > MAX_SEGMENTS
    case PerSegment => WhenSegment(r, s, m)
    case Post => WhenPost(r, m)
  }

  function RecordBlock(current: Segment, m: Marks): Fired
  {
    match current
    case Find(search) => Advanced(m.(search := Some(search), blocks := m.blocks + [SearchBlock(search)]))
    case View(view) => Advanced(m.(view := Some(view), blocks := m.blocks + [ViewBlock(view)]))
    case _ => Broken
  }

  function PushTail(n: Node, m: Marks): Fired
  {
    Advanced(m.(blocks := m.blocks + [Raw(n.text)]))
  }

  function RunSegment(r: Rule, s: Site, m: Marks): Fired
    requires s.at < |s.chain|
  {
    var here := s.chain[s.at];
    var current := Current(s);
    match r
    case RCompoundSegment => Stopped(PassThrough(CompoundSegment))
    case RAdmitGlue =>
      if IsGlue(here.node) then Advanced(m.(sawGlue := true, blocks := m.blocks + [Glue(here.node.glue.value)]))
        else Broken
    case RInertTail | RInertCountTail => PushTail(here.node, m)
    case RUnsafe => if current.Unsafe? then Stopped(PassThrough(Classified(current.reason))) else Broken
    case RSkipRedundantCd | RSilentSkip => Advanced(m)
    case RPostBlockCd => Stopped(PassThrough(PostBlockCd))
    case RPostViewCd => Stopped(PassThrough(PostViewCd))
    case RMultiCd => Stopped(PassThrough(MultiCd))
    case RRecordCd =>
      if current.Silent? && current.cd.Some? then
        Advanced(m.(baseDir := current.cd, effCwd := if Absolute(current.cd.value) then current.cd else m.effCwd))
      else Broken
    case RInertTailHead =>
      var recorded := RecordBlock(current, m);
      if recorded.Advanced? then Advanced(recorded.marks.(tailMode := true)) else Broken
    case RSearchPrefix | RViewPrefix => Stopped(PassThrough(MultiStatement))
    case RSearchSecond | RViewSecond => Stopped(PassThrough(MultiViewChain))
    case RRecordSearch => if current.Find? then RecordBlock(current, m) else Broken
    case RRecordView => if current.Multi? then Advanced(m.(multi := Some(current.files)))
        else if current.View? then RecordBlock(current, m) else Broken
    case _ => Broken
  }

  function RunPost(r: Rule, m: Marks): Fired
  {
    match r
    case RMultiViewChain => Stopped(PassThrough(MultiViewChain))
    case RMultiView =>
      if m.multi.Some?
        then Stopped(PureMultiView(if m.baseDir.None? then m.multi.value else m.multi.value.(base := m.baseDir)))
      else Broken
    case RDisplayCompound => Stopped(PassThrough(UnsupportedPipeline))
    case RCompound => Stopped(PureCompound(m.blocks, m.baseDir))
    case RInertCompound => Stopped(PureCompound(m.blocks, None))
    case RSearch =>
      if m.search.Some?
        then Stopped(PureSearch(if m.baseDir.None? then m.search.value else m.search.value.(base := m.baseDir)))
      else Broken
    case RNoView => Stopped(PassThrough(NoView))
    case RView => if m.view.Some? then Stopped(PureView(m.view.value, m.baseDir)) else Broken
    case _ => Broken
  }

  function Run(r: Rule, s: Site, m: Marks): Fired
    requires PhaseOf(r).PerSegment? ==> s.at < |s.chain|
  {
    match PhaseOf(r)
    case PerSegment => RunSegment(r, s, m)
    case Post => RunPost(r, m)
    case _ =>
      match r
      case REmpty => Stopped(PassThrough(Empty))
      case RParseError => Stopped(PassThrough(ParseError))
      case RMultiStatement => Stopped(PassThrough(MultiStatement))
      case RBackground => Stopped(PassThrough(Background))
      case RNonAndChain => Stopped(PassThrough(NonAndChain))
      case RCompoundTop => Stopped(PassThrough(CompoundTop))
      case RCompoundOperand => Stopped(PassThrough(CompoundOperand))
      case _ => Stopped(PassThrough(ChainTooLong))
  }

  predicate InSite(p: Phase, s: Site)
  {
    (p.PerStatement? ==> s.at < |s.script.statements|) && (p.PerSegment? ==> s.at < |s.chain|)
  }

  /** The first rule of the phase, from the k-th of the table on, that fires. */
  function Fire(k: nat, p: Phase, s: Site, m: Marks): Fired
    requires k <= RULE_COUNT && InSite(p, s)
    decreases RULE_COUNT - k
  {
    if k == RULE_COUNT then Skipped
    else if PhaseOf(RuleAt(k)) == p && When(RuleAt(k), s, m) then Run(RuleAt(k), s, m)
    else Fire(k + 1, p, s, m)
  }

  // ----- the walk

  function SegmentsOf(st: Statement, prefix: bool): seq<SegmentNode>
  {
    match st.top
    case AndOr(_, commands) => seq(|commands|, i requires 0 <= i < |commands| => SegmentNode(commands[i], prefix))
    case Single(node) => if node.kind.OtherNode? then [] else [SegmentNode(node, prefix)]
    case OtherTop => []
  }

  /** The chain with the segments of statement i. */
  function Grown(script: Script, i: nat, chain: seq<SegmentNode>): seq<SegmentNode>
    requires i < |script.statements|
  {
    chain + SegmentsOf(script.statements[i], i < |script.statements| - 1)
  }

  datatype Gathered = Chain(chain: seq<SegmentNode>) | Declined(decision: Decision) | Undecided

  function Gather(script: Script, i: nat, chain: seq<SegmentNode>): Gathered
    requires i <= |script.statements|
    decreases |script.statements| - i
  {
    if i == |script.statements| then Chain(chain)
    else match Fire(0, PerStatement, Site(script, chain, false, i), UNMARKED)
      case Stopped(d) => Declined(d)
      case Skipped => Gather(script, i + 1, Grown(script, i, chain))
      case _ => Undecided
  }

  predicate HasGlue(chain: seq<SegmentNode>)
  {
    exists n :: n in chain && IsGlue(n.node)
  }

  function Walk(script: Script, chain: seq<SegmentNode>, k: nat, m: Marks): Fired
    requires k <= |chain|
    decreases |chain| - k
  {
    if k == |chain| then Fire(0, Post, Site(script, chain, HasGlue(chain), k), m)
    else match Fire(0, PerSegment, Site(script, chain, HasGlue(chain), k), m)
      case Advanced(next) => Walk(script, chain, k + 1, next)
      case Stopped(d) => Stopped(d)
      case _ => Broken
  }

  /** The decision, or `Broken` where the source would throw. */
  function Decide(script: Script): Fired
  {
    match Fire(0, Pre, Site(script, [], false, 0), UNMARKED)
    case Stopped(d) => Stopped(d)
    case Skipped =>
      (match Gather(script, 0, [])
       case Declined(d) => Stopped(d)
       case Undecided => Broken
       case Chain(chain) =>
         match Fire(0, PreSegment, Site(script, chain, false, 0), UNMARKED)
         case Stopped(d) => Stopped(d)
         case Skipped => Walk(script, chain, 0, UNMARKED)
         case _ => Broken)
    case _ => Broken
  }
}
