/** The use-time heal as a state machine over failing statements, loads and every await point of the heal. */
module UseTimeHeal {

  import opened Options

  type Gen = nat

  /** `opening`: nothing; an open running; or an open that has published and not yet cleared its slot. */
  datatype Opening = Idle | Running | Settled(gen: Gen)

  /** Where a heal stands: yielded before its guard, quarantining after the shutdown, reopening, or reopened. */
  datatype Stage = Yielded | Quarantining | Reopening | Reopened

  datatype Heal = Heal(gen: Gen, stage: Stage)

  /** A load in flight, with the generations whose heal had been armed before it was issued. */
  datatype LoadState = JoinedHeal | JoinedOpening | Resolved(gen: Gen) | Rejected

  datatype Load = Load(state: LoadState, armedBefore: set<Gen>)

  /**
   * `heals` are the heal functions that have not returned; `flag` is the one the module remembers. `file` is the
   * generation whose file stands at the store path, `next` the first generation not opened yet.
   */
  datatype World = World(cached: Option<Gen>, opening: Opening, flag: Option<Gen>, heals: seq<Heal>, loads: seq<Load>,
                         file: Option<Gen>, next: Gen, armed: set<Gen>)

  datatype Event =
    | Issue
    | Rejoin(id: nat)
    | Publish
    | OpenFails
    | ClearOpening
    | Fails(gen: Gen)
    | Shutdown
    | Guard(h: nat)
    | Quarantined(h: nat)
    | Reopens(h: nat)
    | HealThrows(h: nat)
    | HealReturns(h: nat)

  // ----- loads

  /** `loadHashStore`: join a heal, else the cache, else an open in flight, else start one. */
  function Route(w: World): LoadState
  {
    if w.flag.Some? then JoinedHeal
    else if w.cached.Some? then Resolved(w.cached.value)
    else if w.opening.Settled? then Resolved(w.opening.gen)
    else JoinedOpening
  }

  function Started(w: World): Opening
  {
    if w.flag.None? && w.cached.None? && w.opening.Idle? then Running else w.opening
  }

  function Settle(loads: seq<Load>, state: LoadState): (r: seq<Load>)
    ensures |r| == |loads|
    ensures forall i :: 0 <= i < |r| ==>
              r[i] == if loads[i].state.JoinedOpening? then loads[i].(state := state) else loads[i]
  {
    if loads == [] then []
    else [if loads[0].state.JoinedOpening? then loads[0].(state := state) else loads[0]] + Settle(loads[1..], state)
  }

  // ----- events

  predicate AtStage(w: World, h: nat, s: Stage)
  {
    h < |w.heals| && w.heals[h].stage == s
  }

  /**
   * A statement may fail on any handle ever published, at any point. A heal's guard runs one turn after its trigger,
   * and the reaction that clears the slot of a published open was queued before that turn.
   */
  predicate Enabled(w: World, e: Event)
  {
    match e
    case Issue => true
    case Rejoin(id) => id < |w.loads| && w.loads[id].state.JoinedHeal? && w.flag.None?
    case Publish => w.opening.Running?
    case OpenFails => w.opening.Running?
    case ClearOpening => w.opening.Settled?
    case Fails(gen) => gen < w.next
    case Shutdown => true
    case Guard(h) => AtStage(w, h, Yielded) && !w.opening.Settled?
    case Quarantined(h) => AtStage(w, h, Quarantining)
    case Reopens(h) => AtStage(w, h, Reopening)
    case HealThrows(h) => AtStage(w, h, Quarantining) || AtStage(w, h, Reopening)
    case HealReturns(h) => AtStage(w, h, Reopened)
  }

  function Drop(heals: seq<Heal>, h: nat): seq<Heal>
    requires h < |heals|
  {
    heals[..h] + heals[h + 1..]
  }

  /** The `finally` of a heal clears the flag only when it is still its own. */
  function Returned(w: World, h: nat): World
    requires h < |w.heals|
  {
    w.(heals := Drop(w.heals, h), flag := if w.flag == Some(w.heals[h].gen) then None else w.flag)
  }

  function AtNext(w: World, h: nat, s: Stage): World
    requires h < |w.heals|
  {
    w.(heals := w.heals[h := w.heals[h].(stage := s)])
  }

  function Next(w: World, e: Event): World
    requires Enabled(w, e)
  {
    match e
    case Issue => w.(loads := w.loads + [Load(Route(w), w.armed)], opening := Started(w))
    case Rejoin(id) => w.(loads := w.loads[id := w.loads[id].(state := Route(w))], opening := Started(w))
    case Publish =>
      w.(cached := Some(w.next), opening := Settled(w.next), loads := Settle(w.loads, Resolved(w.next)),
         file := Some(w.next), next := w.next + 1)
    case OpenFails => w.(opening := Idle, loads := Settle(w.loads, Rejected))
    case ClearOpening => w.(opening := Idle)
    case Fails(gen) =>
      if w.flag.None? && w.cached == Some(gen) then
        w.(flag := Some(gen), heals := w.heals + [Heal(gen, Yielded)], armed := w.armed + {gen})
      else w
    case Shutdown => w.(cached := None)
    case Guard(h) =>
      if w.cached == Some(w.heals[h].gen) then AtNext(w, h, Quarantining).(cached := None) else Returned(w, h)
    case Quarantined(h) => AtNext(w, h, Reopening).(cached := None, file := None)
    case Reopens(h) => AtNext(w, h, Reopened).(cached := Some(w.next), file := Some(w.next), next := w.next + 1)
    case HealThrows(h) => Returned(w, h)
    case HealReturns(h) => Returned(w, h)
  }

  // ----- the invariant

  ghost predicate OneHeal(w: World)
  {
    match w.flag
    case None => w.heals == []
    case Some(g) => |w.heals| == 1 && w.heals[0].gen == g && g in w.armed
  }

  /** While a heal is past its guard nothing else opens, so the file at the path is still the failed one, or none. */
  ghost predicate HealOwnsStore(w: World)
  {
    w.heals != [] ==>
      && (w.opening.Idle? || (w.opening.Settled? && w.heals[0].stage == Yielded))
      && match w.heals[0].stage
         case Yielded => w.cached.Some? ==> w.file == w.cached
         case Quarantining => w.cached.None? && w.file == Some(w.heals[0].gen)
         case Reopening => w.cached.None? && w.file.None?
         case Reopened => w.cached.Some? ==> w.cached.value !in w.armed && w.file == w.cached
  }

  ghost predicate Fresh(w: World)
  {
    && (forall g :: g in w.armed ==> g < w.next)
    && (w.cached.Some? ==> w.cached.value < w.next && w.file == w.cached && !w.opening.Running?)
    && (w.cached.Some? && w.cached.value in w.armed ==> w.flag == w.cached)
    && (w.opening.Settled? ==> w.opening.gen < w.next && (w.opening.gen in w.armed ==> w.flag.Some?))
  }

  ghost predicate LoadsOk(w: World)
  {
    forall i :: 0 <= i < |w.loads| ==>
      && w.loads[i].armedBefore <= w.armed
      && (w.loads[i].state.Resolved? ==> w.loads[i].state.gen !in w.loads[i].armedBefore)
  }

  ghost predicate Inv(w: World)
  {
    OneHeal(w) && HealOwnsStore(w) && Fresh(w) && LoadsOk(w)
  }

  /** Every event keeps the invariant. */
  lemma StepKeeps(w: World, e: Event)
    requires Inv(w) && Enabled(w, e)
    ensures Inv(Next(w, e))
  {
  }

  // ----- every interleaving

  ghost predicate Run(w: World, events: seq<Event>, end: World)
    decreases |events|
  {
    if events == [] then w == end else Enabled(w, events[0]) && Run(Next(w, events[0]), events[1..], end)
  }

  const START := World(None, Idle, None, [], [], None, 0, {})

  lemma {:induction false} RunKeeps(w: World, events: seq<Event>, end: World)
    requires Inv(w) && Run(w, events, end)
    ensures Inv(end)
    decreases |events|
  {
    if events != [] {
      StepKeeps(w, events[0]);
      RunKeeps(Next(w, events[0]), events[1..], end);
    }
  }

  /** Over every interleaving at most one heal is in flight, and it is the one the module remembers. */
  lemma AtMostOneHeal(events: seq<Event>, w: World)
    requires Run(START, events, w)
    ensures |w.heals| <= 1 && (w.heals != [] ==> w.flag == Some(w.heals[0].gen)) && (w.heals == [] ==> w.flag.None?)
  {
    RunKeeps(START, events, w);
  }

  /**
   * A quarantine moves aside the file of the generation that failed, never a fresh one, with nothing open or opening.
   */
  lemma QuarantineTakesTheFailedFile(events: seq<Event>, w: World, h: nat)
    requires Run(START, events, w) && Enabled(w, Quarantined(h))
    ensures w.file == Some(w.heals[h].gen) && w.cached.None? && w.opening.Idle?
  {
    RunKeeps(START, events, w);
  }

  /** The guard lets a heal through only while the cache still holds its generation; otherwise nothing is touched. */
  lemma GuardDecides(events: seq<Event>, w: World, h: nat)
    requires Run(START, events, w) && Enabled(w, Guard(h))
    ensures var next := Next(w, Guard(h));
            if w.cached == Some(w.heals[h].gen) then next.heals == [Heal(w.heals[h].gen, Quarantining)]
              && next.cached.None?
            else next == w.(heals := [], flag := None)
  {
    RunKeeps(START, events, w);
  }

  /** A load issued after a generation's heal was armed never resolves to that generation. */
  lemma LaterLoadsAvoidHealed(before: seq<Event>, w: World, after: seq<Event>, end: World, g: Gen)
    requires Run(START, before, w) && g in w.armed && Run(Next(w, Issue), after, end)
    ensures |end.loads| > |w.loads| && end.loads[|w.loads|].state != Resolved(g)
  {
    RunKeeps(START, before, w);
    StepKeeps(w, Issue);
    LoadRemembers(Next(w, Issue), after, end, |w.loads|);
    RunKeeps(Next(w, Issue), after, end);
  }

  lemma {:induction false} LoadRemembers(w: World, events: seq<Event>, end: World, id: nat)
    requires Run(w, events, end) && id < |w.loads|
    ensures id < |end.loads| && end.loads[id].armedBefore == w.loads[id].armedBefore
    decreases |events|
  {
    if events != [] { LoadRemembers(Next(w, events[0]), events[1..], end, id); }
  }

  // ----- from the failing statement on

  lemma {:induction false} ArmedStay(w: World, events: seq<Event>, end: World)
    requires Run(w, events, end)
    ensures w.armed <= end.armed
    decreases |events|
  {
    if events != [] { ArmedStay(Next(w, events[0]), events[1..], end); }
  }

  lemma {:induction false} RunThen(w: World, events: seq<Event>, mid: World, more: seq<Event>, end: World)
    requires Run(w, events, mid) && Run(mid, more, end)
    ensures Run(w, events + more, end)
    decreases |events|
  {
    if events == [] {
      assert events + more == more;
    } else {
      RunThen(Next(w, events[0]), events[1..], mid, more, end);
      assert (events + more)[1..] == events[1..] + more;
    }
  }

  /**
   * A corrupt statement on the handle the cache holds, with no heal in flight, arms exactly that handle's heal and
   * touches nothing else. On any other handle, or beside a heal, it changes nothing at all.
   */
  lemma FailureArmsItsHeal(events: seq<Event>, w: World, g: Gen)
    requires Run(START, events, w) && Enabled(w, Fails(g))
    ensures var next := Next(w, Fails(g));
            if w.cached == Some(g) && w.heals == [] then
              next == w.(heals := [Heal(g, Yielded)], flag := Some(g), armed := w.armed + {g})
            else next == w
  {
    RunKeeps(START, events, w);
    assert w.heals == [] ==> w.heals + [Heal(g, Yielded)] == [Heal(g, Yielded)];
  }

  /** After that statement no load, issued at once or ever later, resolves to the handle that failed. */
  lemma FailedHandleIsNeverServedAgain(before: seq<Event>, w: World, g: Gen, mid: seq<Event>, m: World,
                                       after: seq<Event>, end: World)
    requires Run(START, before, w) && Enabled(w, Fails(g)) && w.cached == Some(g) && w.heals == []
    requires Run(Next(w, Fails(g)), mid, m) && Run(Next(m, Issue), after, end)
    ensures |end.loads| > |m.loads| && end.loads[|m.loads|].state != Resolved(g)
  {
    FailureArmsItsHeal(before, w, g);
    assert Run(w, [Fails(g)], Next(w, Fails(g)));
    RunThen(START, before, w, [Fails(g)], Next(w, Fails(g)));
    RunThen(START, before + [Fails(g)], Next(w, Fails(g)), mid, m);
    ArmedStay(Next(w, Fails(g)), mid, m);
    LaterLoadsAvoidHealed(before + [Fails(g)] + mid, m, after, end, g);
  }

  /** The heal left to itself: it replaces the file and the cache by a generation never opened before, and is gone. */
  lemma HealBringsFreshStore(events: seq<Event>, w: World, g: Gen)
    requires Run(START, events, w) && w.heals == [Heal(g, Yielded)] && w.cached == Some(g) && !w.opening.Settled?
    ensures var end := w.(cached := Some(w.next), file := Some(w.next), next := w.next + 1, heals := [], flag := None);
            && Run(w, [Guard(0), Quarantined(0), Reopens(0), HealReturns(0)], end)
            && w.next !in w.armed
  {
    RunKeeps(START, events, w);
    var h := Heal(g, Quarantining);
    var a := w.(heals := [h], cached := None);
    var b := w.(heals := [h.(stage := Reopening)], cached := None, file := None);
    var c := w.(heals := [h.(stage := Reopened)], cached := Some(w.next), file := Some(w.next), next := w.next + 1);
    var end := w.(cached := Some(w.next), file := Some(w.next), next := w.next + 1, heals := [], flag := None);
    HealSteps(w, g, a, b, c, end);
    OneStep(c, HealReturns(0), [], end);
    OneStep(b, Reopens(0), [HealReturns(0)], end);
    OneStep(a, Quarantined(0), [Reopens(0), HealReturns(0)], end);
    OneStep(w, Guard(0), [Quarantined(0), Reopens(0), HealReturns(0)], end);
  }

  lemma OneStep(w: World, e: Event, rest: seq<Event>, end: World)
    requires Enabled(w, e) && Run(Next(w, e), rest, end)
    ensures Run(w, [e] + rest, end)
  {
    assert ([e] + rest)[1..] == rest;
  }

  lemma HealSteps(w: World, g: Gen, a: World, b: World, c: World, end: World)
    requires w.heals == [Heal(g, Yielded)] && w.cached == Some(g) && w.flag == Some(g) && !w.opening.Settled?
    requires a == w.(heals := [Heal(g, Quarantining)], cached := None)
    requires b == a.(heals := [Heal(g, Reopening)], file := None)
    requires c == b.(heals := [Heal(g, Reopened)], cached := Some(w.next), file := Some(w.next), next := w.next + 1)
    requires end == c.(heals := [], flag := None)
    ensures Enabled(w, Guard(0)) && Next(w, Guard(0)) == a && Enabled(a, Quarantined(0)) && Next(a, Quarantined(0)) == b
    ensures Enabled(b, Reopens(0)) && Next(b, Reopens(0)) == c && Enabled(c, HealReturns(0))
            && Next(c, HealReturns(0)) == end
  {
    assert c.heals[..0] + c.heals[1..] == [];
  }

  /** A load that joined a heal goes by the store the heal left: the fresh one, or a new open when the heal threw. */
  lemma JoinedLoadGoesOn(events: seq<Event>, w: World, id: nat)
    requires Run(START, events, w) && Enabled(w, Rejoin(id))
    ensures var next := Next(w, Rejoin(id));
            && next.loads == w.loads[id := w.loads[id].(state := next.loads[id].state)]
            && (w.cached.Some? ==> next.loads[id].state == Resolved(w.cached.value) && next.opening == w.opening)
            && (w.cached.None? && w.opening.Idle? ==> next.loads[id].state == JoinedOpening && next.opening == Running)
            && (w.cached.None? && w.opening.Running?
                ==> next.loads[id].state == JoinedOpening && next.opening == Running)
            && next.cached == w.cached && next.heals == w.heals && next.file == w.file
  {
  }

  /** A load beside a heal joins it; otherwise the cache answers, else the open in flight, else it starts one. */
  lemma LoadIsRouted(w: World)
    ensures var next := Next(w, Issue);
            && |next.loads| == |w.loads| + 1 && next.loads[..|w.loads|] == w.loads
            && var mine := next.loads[|w.loads|];
               && mine.armedBefore == w.armed
               && (mine.state.JoinedHeal? <==> w.flag.Some?)
               && (w.flag.None? && w.cached.Some? ==> mine.state == Resolved(w.cached.value))
               && (mine.state.JoinedOpening? <==> w.flag.None? && w.cached.None? && !w.opening.Settled?)
               && (mine.state.JoinedOpening? ==> next.opening.Running?)
               && (!mine.state.JoinedOpening? ==> next.opening == w.opening)
  {
  }

  /** A publication serves every load waiting for it the generation it published, and nobody else anything new. */
  lemma PublishServesWaiting(w: World, id: nat)
    requires Enabled(w, Publish) && id < |w.loads|
    ensures var next := Next(w, Publish);
            && next.cached == Some(w.next) && next.file == Some(w.next) && next.opening == Settled(w.next)
            && |next.loads| == |w.loads|
            && next.loads[id] == if w.loads[id].state.JoinedOpening? then w.loads[id].(state := Resolved(w.next))
                else w.loads[id]
  {
  }

  /** An open that fails rejects the loads waiting for it and clears the way for the next. */
  lemma FailedOpenRejectsWaiting(w: World, id: nat)
    requires Enabled(w, OpenFails) && id < |w.loads|
    ensures var next := Next(w, OpenFails);
            && next.opening.Idle? && next.cached == w.cached && |next.loads| == |w.loads|
            && next.loads[id] == if w.loads[id].state.JoinedOpening? then w.loads[id].(state := Rejected)
                else w.loads[id]
  {
  }

  /** A heal that throws is forgotten, and the next load opens the store anew. */
  lemma ThrownHealRetries(events: seq<Event>, w: World, h: nat)
    requires Run(START, events, w) && Enabled(w, HealThrows(h))
    ensures var next := Next(w, HealThrows(h));
            && next.heals == [] && next.flag.None? && next.cached.None? && next.opening.Idle?
            && Next(next, Issue).opening.Running? && Next(next, Issue).loads[|w.loads|].state.JoinedOpening?
  {
    RunKeeps(START, events, w);
  }

  /**
   * A damaged store, end to end: a load opens it, a statement on it fails, a second load joins the heal, and once the
   * heal is through that load holds the next generation.
   */
  lemma DamagedStoreIsReplaced() returns (end: World)
    ensures Run(START, [Issue, Publish, ClearOpening, Fails(0), Issue]
                       + [Guard(0), Quarantined(0), Reopens(0), HealReturns(0)] + [Rejoin(1)], end)
    ensures |end.loads| == 2 && end.loads[0].state == Resolved(0) && end.loads[1].state == Resolved(1)
    ensures end.cached == Some(1) && end.file == Some(1) && end.heals == []
  {
    var started := World(Some(0), Idle, None, [], [Load(Resolved(0), {})], Some(0), 1, {});
    var joined := started.(flag := Some(0), heals := [Heal(0, Yielded)], armed := {0},
                          loads := started.loads + [Load(JoinedHeal, {0})]);
    var first := [Issue, Publish, ClearOpening, Fails(0), Issue];
    OpensAndJoins(started, joined);
    HealBringsFreshStore(first, joined, 0);
    var healed := joined.(cached := Some(1), file := Some(1), next := 2, heals := [], flag := None);
    var heal := [Guard(0), Quarantined(0), Reopens(0), HealReturns(0)];
    RunThen(START, first, joined, heal, healed);
    end := Next(healed, Rejoin(1));
    OneStep(healed, Rejoin(1), [], end);
    RunThen(START, first + heal, healed, [Rejoin(1)], end);
  }

  lemma OpensAndJoins(started: World, joined: World)
    requires started == World(Some(0), Idle, None, [], [Load(Resolved(0), {})], Some(0), 1, {})
    requires joined == started.(flag := Some(0), heals := [Heal(0, Yielded)], armed := {0},
                               loads := started.loads + [Load(JoinedHeal, {0})])
    ensures Run(START, [Issue, Publish, ClearOpening, Fails(0), Issue], joined)
  {
    var a := START.(loads := [Load(JoinedOpening, {})], opening := Running);
    var b := started.(opening := Settled(0));
    var c := started.(flag := Some(0), heals := [Heal(0, Yielded)], armed := {0});
    assert [] + [Load(JoinedOpening, {})] == [Load(JoinedOpening, {})] && [] + [Heal(0, Yielded)] == [Heal(0, Yielded)];
    assert Next(START, Issue) == a;
    assert Settle([Load(JoinedOpening, {})], Resolved(0)) == [Load(Resolved(0), {})];
    assert Next(a, Publish) == b && Next(b, ClearOpening) == started;
    assert {} + {0} == {0} && Next(started, Fails(0)) == c && Next(c, Issue) == joined;
    OneStep(c, Issue, [], joined);
    OneStep(started, Fails(0), [Issue], joined);
    OneStep(b, ClearOpening, [Fails(0), Issue], joined);
    OneStep(a, Publish, [ClearOpening, Fails(0), Issue], joined);
    OneStep(START, Issue, [Publish, ClearOpening, Fails(0), Issue], joined);
  }
}
