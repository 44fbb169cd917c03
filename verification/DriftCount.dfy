/** Drift suppression: missing served lines are reported beyond what survives, rotated, outside the edited spans. */
module DriftCount {

  import opened DriftMap
  import opened Options

  // ----- surviving lines, counted per canon digest

  function Left(remaining: map<string, nat>, c: string): nat
  {
    if c in remaining then remaining[c] else 0
  }

  /** Current lines with digest c, outside the edited spans, among the first i. */
  function Available(canons: seq<string>, spans: seq<Span>, i: nat, c: string): nat
    requires i <= |canons|
  {
    if i == 0 then 0
    else Available(canons, spans, i - 1, c) + if canons[i - 1] == c && !InSpans(i - 1, spans) then 1 else 0
  }

  /** What is left before any line is used up: current lines outside the spans, counted by digest. */
  function Surviving(canons: seq<string>, spans: seq<Span>, i: nat): (remaining: map<string, nat>)
    requires i <= |canons|
    ensures forall c :: Left(remaining, c) == Available(canons, spans, i, c)
  {
    if i == 0 then map[]
    else
      var before := Surviving(canons, spans, i - 1);
      if InSpans(i - 1, spans) then before else before[canons[i - 1] := Left(before, canons[i - 1]) + 1]
  }

  function DigestAt(digests: seq<Option<string>>, p: nat): Option<string>
  {
    if p < |digests| then digests[p] else None
  }

  /** A missing line survives when a line with its digest is left; that line is then used up. */
  predicate Survives(remaining: map<string, nat>, d: Option<string>)
  {
    d.Some? && Left(remaining, d.value) > 0
  }

  function Use(remaining: map<string, nat>, d: Option<string>): map<string, nat>
  {
    if Survives(remaining, d) then remaining[d.value := Left(remaining, d.value) - 1] else remaining
  }

  class SurvivorCheck {
    const digests: seq<Option<string>>
    const active: bool
    var remaining: map<string, nat>

    constructor (digests: seq<Option<string>>, canons: seq<string>, spans: seq<Span>)
      ensures this.digests == digests && active == exists d :: d in digests && d.Some?
      ensures active ==> remaining == Surviving(canons, spans, |canons|)
    {
      this.digests := digests;
      active := exists d :: d in digests && d.Some?;
      remaining := map[];
      new;
      if active { Count(canons, spans); }
    }

    method Count(canons: seq<string>, spans: seq<Span>)
      requires remaining == map[]
      modifies this`remaining
      ensures remaining == Surviving(canons, spans, |canons|)
    {
      for i := 0 to |canons|
        invariant remaining == Surviving(canons, spans, i)
      {
        if !InSpans(i, spans) { remaining := remaining[canons[i] := Left(remaining, canons[i]) + 1]; }
      }
    }

    predicate Idle()
      reads this
    {
      !active ==> forall d :: d in digests ==> d.None?
    }

    method Check(p: nat) returns (survives: bool)
      requires Idle()
      modifies this`remaining
      ensures survives == Survives(old(remaining), DigestAt(digests, p))
      ensures remaining == Use(old(remaining), DigestAt(digests, p))
    {
      if !active {
        assert p < |digests| ==> digests[p] in digests;
        return false;
      }
      var d := DigestAt(digests, p);
      if d.None? || Left(remaining, d.value) == 0 { return false; }
      remaining := remaining[d.value := Left(remaining, d.value) - 1];
      return true;
    }
  }

  // ----- the scan

  datatype Tally = Tally(total: nat, unshown: nat, anyNotReported: bool, positions: seq<int>)

  /** A served line that is missing from the result, outside the edited intervals. */
  predicate Missing(served: seq<Option<string>>, result: set<string>, ranges: seq<Interval>, p: nat)
    requires p < |served|
  {
    served[p].Some? && !InIntervals(p, ranges) && served[p].value !in result
  }

  function Noted(t: Tally, pos: int, limit: nat, reported: set<string>, key: int -> string): Tally
  {
    var shown := 0 <= pos < limit;
    Tally(t.total + 1, if shown then t.unshown else t.unshown + 1, t.anyNotReported || key(pos) !in reported,
          if shown then t.positions + [pos] else t.positions)
  }

  /** The missing lines from p on, in file order. */
  function MissingFrom(served: seq<Option<string>>, result: set<string>, ranges: seq<Interval>, p: nat): seq<nat>
    requires p <= |served|
    decreases |served| - p
  {
    if p == |served| then []
    else (if Missing(served, result, ranges, p) then [p] else []) + MissingFrom(served, result, ranges, p + 1)
  }

  /** The missing lines reported: each in turn uses up a survivor or is reported. */
  function Reported(missing: seq<nat>, digests: seq<Option<string>>, remaining: map<string, nat>): seq<nat>
    decreases |missing|
  {
    if missing == [] then []
    else
      var d := DigestAt(digests, missing[0]);
      (if Survives(remaining, d) then [] else [missing[0]]) + Reported(missing[1..], digests, Use(remaining, d))
  }

  function NotedAll(t: Tally, drifted: seq<nat>, locate: (nat, int) -> int, ranges: seq<Interval>, limit: nat,
                    reported: set<string>, key: int -> string): Tally
    decreases |drifted|
  {
    if drifted == [] then t
    else NotedAll(Noted(t, locate(drifted[0], DeltaBefore(drifted[0], ranges)), limit, reported, key),
                  drifted[1..], locate, ranges, limit, reported, key)
  }

  method CollectDriftedIntervals(served: seq<Option<string>>, result: set<string>, ranges: seq<Interval>,
                                 check: SurvivorCheck,
                                 locate: (nat, int) -> int, limit: nat, reported: set<string>, key: int -> string)
    returns (t: Tally)
    requires check.Idle()
    modifies check`remaining
    ensures t == NotedAll(Tally(0, 0, false, []),
                          Reported(MissingFrom(served, result, ranges, 0), check.digests, old(check.remaining)),
                          locate, ranges, limit, reported, key)
  {
    t := Tally(0, 0, false, []);
    for p := 0 to |served|
      invariant NotedAll(t, Reported(MissingFrom(served, result, ranges, p), check.digests, check.remaining),
                         locate, ranges, limit, reported, key)
                == NotedAll(Tally(0, 0, false, []),
                            Reported(MissingFrom(served, result, ranges, 0), check.digests, old(check.remaining)),
                            locate, ranges, limit, reported, key)
    {
      MissingStep(served, result, ranges, p);
      if served[p].None? { continue; }
      if InIntervals(p, ranges) { continue; }
      if served[p].value in result { continue; }
      ReportedStep(p, MissingFrom(served, result, ranges, p + 1), check.digests, check.remaining);
      var survives := check.Check(p);
      if survives { continue; }
      var delta := ComputeDeltaBefore(p, ranges);
      t := Noted(t, locate(p, delta), limit, reported, key);
    }
  }

  /** The served lines reported for an edit, by the current lines and the edited spans alone. */
  function ReportedFor(served: seq<Option<string>>, result: set<string>, digests: seq<Option<string>>,
                       canons: seq<string>, ranges: seq<Interval>): seq<nat>
  {
    Reported(MissingFrom(served, result, ranges, 0), digests, Surviving(canons, EditedSpans(ranges), |canons|))
  }

  /** The interval form of the notice's count: the spans, the survivor check over the current lines, one scan. */
  method CountDrift(served: seq<Option<string>>, result: set<string>, digests: seq<Option<string>>, canons: seq<string>,
                    ranges: seq<Interval>, locate: (nat, int) -> int, limit: nat, reported: set<string>,
                    key: int -> string)
    returns (t: Tally)
    ensures t == NotedAll(Tally(0, 0, false, []), ReportedFor(served, result, digests, canons, ranges),
                          locate, ranges, limit, reported, key)
  {
    var spans := CurrentEditedSpans(ranges);
    var check := new SurvivorCheck(digests, canons, spans);
    if !check.active {
      assert forall d :: d in digests ==> d.None?;
      WithoutDigests(MissingFrom(served, result, ranges, 0), digests, check.remaining,
                     Surviving(canons, EditedSpans(ranges), |canons|));
    }
    t := CollectDriftedIntervals(served, result, ranges, check, locate, limit, reported, key);
  }

  /** Without any digest nothing survives, whatever is left. */
  lemma {:induction false} WithoutDigests(missing: seq<nat>, digests: seq<Option<string>>, a: map<string, nat>,
                                          b: map<string, nat>)
    requires forall d :: d in digests ==> d.None?
    ensures Reported(missing, digests, a) == Reported(missing, digests, b) == missing
  {
    if missing != [] {
      assert missing[0] < |digests| ==> digests[missing[0]] in digests;
      WithoutDigests(missing[1..], digests, a, b);
      assert missing == [missing[0]] + missing[1..];
    }
  }

  lemma MissingStep(served: seq<Option<string>>, result: set<string>, ranges: seq<Interval>, p: nat)
    requires p < |served|
    ensures MissingFrom(served, result, ranges, p) ==
            if Missing(served, result, ranges, p) then [p] + MissingFrom(served, result, ranges, p + 1)
            else MissingFrom(served, result, ranges, p + 1)
  {
  }

  lemma ReportedStep(p: nat, rest: seq<nat>, digests: seq<Option<string>>, remaining: map<string, nat>)
    ensures var d := DigestAt(digests, p);
            Reported([p] + rest, digests, remaining) ==
            if Survives(remaining, d) then Reported(rest, digests, Use(remaining, d))
              else [p] + Reported(rest, digests, Use(remaining, d))
  {
  }

  // ----- exactly the canon deficit

  function CountDigest(ps: seq<nat>, digests: seq<Option<string>>, d: Option<string>): nat
  {
    if ps == [] then 0 else (if DigestAt(digests, ps[0]) == d then 1 else 0) + CountDigest(ps[1..], digests, d)
  }

  function Deficit(missing: nat, available: nat): nat
  {
    if missing > available then missing - available else 0
  }

  lemma LeftAfterUse(remaining: map<string, nat>, here: Option<string>, c: string)
    ensures Left(Use(remaining, here), c) ==
            if Survives(remaining, here) && here.value == c then Left(remaining, c) - 1 else Left(remaining, c)
  {
  }

  lemma CountHead(p: nat, rest: seq<nat>, digests: seq<Option<string>>, d: Option<string>)
    ensures CountDigest([p] + rest, digests, d)
         == (if DigestAt(digests, p) == d then 1 else 0) + CountDigest(rest, digests, d)
  {
  }

  /** For each digest, as many lines are reported as are missing beyond the lines available; without a digest, all. */
  lemma {:induction false} ReportedIsDeficit(missing: seq<nat>, digests: seq<Option<string>>,
                                             remaining: map<string, nat>, d: Option<string>)
    ensures CountDigest(Reported(missing, digests, remaining), digests, d) ==
            if d.Some? then Deficit(CountDigest(missing, digests, d), Left(remaining, d.value))
              else CountDigest(missing, digests, d)
    decreases |missing|
  {
    if missing != [] {
      var p, rest, here := missing[0], missing[1..], DigestAt(digests, missing[0]);
      var next := Use(remaining, here);
      var reported := Reported(rest, digests, next);
      ReportedIsDeficit(rest, digests, next, d);
      assert missing == [p] + rest;
      ReportedStep(p, rest, digests, remaining);
      CountHead(p, rest, digests, d);
      CountHead(p, reported, digests, d);
      if d.Some? { LeftAfterUse(remaining, here, d.value); }
      hide Reported, Use, CountDigest, Left, DigestAt;
    }
  }

  /**
   * Drift suppression end to end: for each digest the served lines reported are those missing beyond the current
   * lines with that digest outside the edited spans; a missing line without a digest is always reported.
   */
  lemma DriftIsCanonDeficit(served: seq<Option<string>>, result: set<string>, digests: seq<Option<string>>,
                            canons: seq<string>, ranges: seq<Interval>, d: Option<string>)
    ensures var missing := CountDigest(MissingFrom(served, result, ranges, 0), digests, d);
            CountDigest(ReportedFor(served, result, digests, canons, ranges), digests, d) ==
            if d.None? then missing
            else Deficit(missing, Available(canons, EditedSpans(ranges), |canons|, d.value))
  {
    ReportedIsDeficit(MissingFrom(served, result, ranges, 0), digests,
                      Surviving(canons, EditedSpans(ranges), |canons|), d);
  }

  lemma {:induction false} CountOfBoth(a: seq<nat>, b: seq<nat>, digests: seq<Option<string>>, d: Option<string>)
    ensures CountDigest(a + b, digests, d) == CountDigest(a, digests, d) + CountDigest(b, digests, d)
  {
    if a == [] {
      assert a + b == b;
    } else {
      CountOfBoth(a[1..], b, digests, d);
      assert a + b == [a[0]] + (a[1..] + b);
    }
  }

  /** The count does not depend on the order of the lines. */
  lemma {:induction false} CountAnyOrder(ps: seq<nat>, qs: seq<nat>, digests: seq<Option<string>>, d: Option<string>)
    requires multiset(ps) == multiset(qs)
    ensures CountDigest(ps, digests, d) == CountDigest(qs, digests, d)
  {
    if ps == [] {
      assert |qs| == |multiset(qs)| == |multiset(ps)| == 0;
    } else {
      var i := TakeOut(ps, qs);
      CountAnyOrder(ps[1..], qs[..i] + qs[i + 1..], digests, d);
      CountOfBoth(qs[..i], qs[i + 1..], digests, d);
      CountOfBoth(qs[..i], [qs[i]] + qs[i + 1..], digests, d);
      assert qs == qs[..i] + ([qs[i]] + qs[i + 1..]);
    }
  }

  lemma TakeOut(ps: seq<nat>, qs: seq<nat>) returns (i: nat)
    requires ps != [] && multiset(ps) == multiset(qs)
    ensures i < |qs| && qs[i] == ps[0] && multiset(ps[1..]) == multiset(qs[..i] + qs[i + 1..])
  {
    assert ps[0] in multiset(qs);
    i :| 0 <= i < |qs| && qs[i] == ps[0];
    assert multiset(ps[1..]) == multiset(ps) - multiset{ps[0]} by { assert ps == [ps[0]] + ps[1..]; }
    assert multiset(qs[..i] + qs[i + 1..])
           == multiset(qs) - multiset{qs[i]} by { assert qs == qs[..i] + [qs[i]] + qs[i + 1..]; }
  }

  /** Scanned in any order, the same number of lines is reported for every digest. */
  lemma ReportedInAnyOrder(missing: seq<nat>, other: seq<nat>, digests: seq<Option<string>>,
                           remaining: map<string, nat>, d: Option<string>)
    requires multiset(missing) == multiset(other)
    ensures CountDigest(Reported(missing, digests, remaining), digests, d)
            == CountDigest(Reported(other, digests, remaining), digests, d)
  {
    ReportedIsDeficit(missing, digests, remaining, d);
    ReportedIsDeficit(other, digests, remaining, d);
    CountAnyOrder(missing, other, digests, d);
  }

  ghost predicate AnyNew(drifted: seq<nat>, locate: (nat, int) -> int, ranges: seq<Interval>, reported: set<string>,
                         key: int -> string)
  {
    exists p :: p in drifted && key(locate(p, DeltaBefore(p, ranges))) !in reported
  }

  /** What is noted: one count per reported line, the shown positions apart from the unshown. */
  lemma {:induction false} NotedCounts(t: Tally, drifted: seq<nat>, locate: (nat, int) -> int, ranges: seq<Interval>,
                                       limit: nat,
                                       reported: set<string>, key: int -> string)
    ensures var r := NotedAll(t, drifted, locate, ranges, limit, reported, key);
            && r.total == t.total + |drifted| && r.unshown + |r.positions| == t.unshown + |t.positions| + |drifted|
            && r.anyNotReported == (t.anyNotReported || AnyNew(drifted, locate, ranges, reported, key))
    decreases |drifted|
  {
    if drifted != [] {
      NotedCounts(Noted(t, locate(drifted[0], DeltaBefore(drifted[0], ranges)), limit, reported, key), drifted[1..],
                  locate, ranges, limit, reported, key);
      assert forall p :: p in drifted <==> p == drifted[0] || p in drifted[1..];
    }
  }

  // ----- which lines, and which positions

  /** Served, gone from the result, and inside no edited interval. */
  ghost predicate Gone(served: seq<Option<string>>, result: set<string>, ranges: seq<Interval>, p: nat)
  {
    && p < |served| && served[p].Some? && served[p].value !in result
    && forall k :: 0 <= k < |ranges| ==> p < ranges[k].from || ranges[k].to < p
  }

  lemma {:induction false} InIntervalsMeans(p: int, ranges: seq<Interval>)
    ensures InIntervals(p, ranges) <==> exists k :: 0 <= k < |ranges| && ranges[k].from <= p <= ranges[k].to
  {
    if ranges != [] {
      InIntervalsMeans(p, ranges[1..]);
      if k :| 0 <= k < |ranges| && ranges[k].from <= p <= ranges[k].to {
        assert k > 0 ==> ranges[1..][k - 1] == ranges[k];
      }
      if k :| 0 <= k < |ranges[1..]| && ranges[1..][k].from <= p <= ranges[1..][k].to {
        assert ranges[k + 1] == ranges[1..][k];
      }
    }
  }

  lemma {:induction false} MissingIs(served: seq<Option<string>>, result: set<string>, ranges: seq<Interval>, p: nat,
                                     q: nat)
    requires p <= |served|
    ensures q in MissingFrom(served, result, ranges, p) <==> p <= q && Gone(served, result, ranges, q)
    decreases |served| - p
  {
    if p < |served| {
      MissingIs(served, result, ranges, p + 1, q);
      InIntervalsMeans(p, ranges);
      assert Missing(served, result, ranges, p) <==> Gone(served, result, ranges, p);
      hide Missing, InIntervals, Gone;
    }
  }

  ghost predicate Ascend(ps: seq<nat>)
  {
    forall j, k :: 0 <= j < k < |ps| ==> ps[j] < ps[k]
  }

  lemma HeadAscends(p: nat, rest: seq<nat>)
    requires Ascend(rest) && forall q :: q in rest ==> p < q
    ensures Ascend([p] + rest)
  {
    assert forall k :: 0 <= k < |rest| ==> rest[k] in rest;
  }

  /** The scan meets every missing line once, in file order. */
  lemma {:induction false} MissingAre(served: seq<Option<string>>, result: set<string>, ranges: seq<Interval>, p: nat)
    requires p <= |served|
    ensures var missing := MissingFrom(served, result, ranges, p);
            (forall q: nat :: q in missing <==> p <= q && Gone(served, result, ranges, q)) && Ascend(missing)
    decreases |served| - p
  {
    forall q: nat ensures q in MissingFrom(served, result, ranges, p) <==> p <= q && Gone(served, result, ranges, q) {
      MissingIs(served, result, ranges, p, q);
    }
    if p < |served| {
      MissingAre(served, result, ranges, p + 1);
      MissingStep(served, result, ranges, p);
      hide Missing, Gone, Ascend, MissingFrom;
      HeadAscends(p, MissingFrom(served, result, ranges, p + 1));
    }
  }

  lemma {:induction false} ReportedWithin(missing: seq<nat>, digests: seq<Option<string>>, remaining: map<string, nat>,
                                          p: nat)
    requires p in Reported(missing, digests, remaining)
    ensures p in missing
    decreases |missing|
  {
    hide Survives, Use;
    if missing[0] != p { ReportedWithin(missing[1..], digests, Use(remaining, DigestAt(digests, missing[0])), p); }
  }

  /** What is reported is part of what is missing, in the same order. */
  lemma {:induction false} ReportedAscend(missing: seq<nat>, digests: seq<Option<string>>, remaining: map<string, nat>)
    requires Ascend(missing)
    ensures var reported := Reported(missing, digests, remaining);
            Ascend(reported) && forall p :: p in reported ==> p in missing
    decreases |missing|
  {
    forall p | p in Reported(missing, digests, remaining) ensures p in missing {
      ReportedWithin(missing, digests, remaining, p);
    }
    if missing != [] {
      var next := Use(remaining, DigestAt(digests, missing[0]));
      assert forall p :: p in missing[1..] ==> missing[0] < p;
      ReportedAscend(missing[1..], digests, next);
      assert missing == [missing[0]] + missing[1..];
      ReportedStep(missing[0], missing[1..], digests, remaining);
      hide Use, Survives, Ascend, Reported;
      HeadAscends(missing[0], Reported(missing[1..], digests, next));
    }
  }

  function Located(p: nat, locate: (nat, int) -> int, ranges: seq<Interval>): int
  {
    locate(p, DeltaBefore(p, ranges))
  }

  /** The lines that are shown. */
  function Shown(drifted: seq<nat>, locate: (nat, int) -> int, ranges: seq<Interval>, limit: nat): seq<nat>
  {
    if drifted == [] then []
    else if 0 <= Located(drifted[0], locate, ranges) < limit
      then [drifted[0]] + Shown(drifted[1..], locate, ranges, limit)
    else Shown(drifted[1..], locate, ranges, limit)
  }

  lemma {:induction false} ShownAre(drifted: seq<nat>, locate: (nat, int) -> int, ranges: seq<Interval>, limit: nat)
    requires Ascend(drifted)
    ensures var shown := Shown(drifted, locate, ranges, limit);
            && (forall p :: p in shown <==> p in drifted && 0 <= Located(p, locate, ranges) < limit)
            && Ascend(shown)
  {
    if drifted != [] {
      ShownAre(drifted[1..], locate, ranges, limit);
      var rest := Shown(drifted[1..], locate, ranges, limit);
      assert forall p :: p in drifted <==> p == drifted[0] || p in drifted[1..];
      assert forall p :: p in drifted[1..] ==> drifted[0] < p;
      HeadAscends(drifted[0], rest);
      hide Located, Ascend;
    }
  }

  /** Where each line now stands. */
  function Places(lines: seq<nat>, locate: (nat, int) -> int, ranges: seq<Interval>): (places: seq<int>)
    ensures |places| == |lines| && forall k :: 0 <= k < |lines| ==> places[k] == Located(lines[k], locate, ranges)
  {
    if lines == [] then [] else [Located(lines[0], locate, ranges)] + Places(lines[1..], locate, ranges)
  }

  lemma PlacesOfHead(head: seq<int>, p: nat, rest: seq<nat>, locate: (nat, int) -> int, ranges: seq<Interval>)
    ensures head + Places([p] + rest, locate, ranges)
         == head + [Located(p, locate, ranges)] + Places(rest, locate, ranges)
  {
    assert ([p] + rest)[1..] == rest;
  }

  lemma {:induction false} NotedPlaces(t: Tally, drifted: seq<nat>, locate: (nat, int) -> int, ranges: seq<Interval>,
                                       limit: nat, reported: set<string>, key: int -> string)
    ensures NotedAll(t, drifted, locate, ranges, limit, reported, key).positions
         == t.positions + Places(Shown(drifted, locate, ranges, limit), locate, ranges)
    decreases |drifted|
  {
    if drifted == [] {
      assert t.positions + [] == t.positions;
    } else {
      var here := Located(drifted[0], locate, ranges);
      NotedPlaces(Noted(t, here, limit, reported, key), drifted[1..], locate, ranges, limit, reported, key);
      PlacesOfHead(t.positions, drifted[0], Shown(drifted[1..], locate, ranges, limit), locate, ranges);
      hide Places;
    }
  }

  /** The reported lines: served, gone and not edited, in file order. */
  lemma ReportedAreGone(served: seq<Option<string>>, result: set<string>, digests: seq<Option<string>>,
                        canons: seq<string>, ranges: seq<Interval>)
    ensures var lines := ReportedFor(served, result, digests, canons, ranges);
            Ascend(lines) && forall p :: p in lines ==> Gone(served, result, ranges, p)
  {
    MissingAre(served, result, ranges, 0);
    ReportedAscend(MissingFrom(served, result, ranges, 0), digests, Surviving(canons, EditedSpans(ranges), |canons|));
    hide MissingFrom, Reported, Surviving, Gone, Ascend;
  }

  /**
   * The positions an edit notes: where the shown lines now stand, in the scan's order. A line is shown when it is
   * reported and stands within the limit.
   */
  lemma PositionsNoted(served: seq<Option<string>>, result: set<string>, digests: seq<Option<string>>,
                       canons: seq<string>, ranges: seq<Interval>, locate: (nat, int) -> int, limit: nat,
                       reported: set<string>, key: int -> string) returns (shown: seq<nat>)
    ensures var lines := ReportedFor(served, result, digests, canons, ranges);
            Ascend(shown) && forall p :: p in shown <==> p in lines && 0 <= Located(p, locate, ranges) < limit
    ensures var places := NotedAll(Tally(0, 0, false, []), ReportedFor(served, result, digests, canons, ranges),
                                   locate, ranges, limit, reported, key).positions;
            |places| == |shown| && forall k :: 0 <= k < |shown| ==> places[k] == Located(shown[k], locate, ranges)
  {
    var lines := ReportedFor(served, result, digests, canons, ranges);
    shown := Shown(lines, locate, ranges, limit);
    ReportedAreGone(served, result, digests, canons, ranges);
    ShownAre(lines, locate, ranges, limit);
    NotedPlaces(Tally(0, 0, false, []), lines, locate, ranges, limit, reported, key);
    hide ReportedFor, Shown, NotedAll, Located, Gone, Ascend;
    assert [] + Places(shown, locate, ranges) == Places(shown, locate, ranges);
  }
}
