/**
 * A revert repair retires its intent before its rows: exactly when runs of repairs strand the rows, and what follows.
 */
module CutStranding {

  import opened UndoStore
  import opened CutRepair
  import opened CutRecovery
  import opened CutUndo

  // ----- one repair

  predicate LandsFirst(luck: Luck, n: nat)
    decreases n
  {
    n == 0 || (FateOf(luck) == Lands && LandsFirst(Rest(luck), n - 1))
  }

  function Skip(luck: Luck, n: nat): Luck
    decreases n
  {
    if n == 0 then luck else Skip(Rest(luck), n - 1)
  }

  lemma {:induction false} WritesUse(w: World, toWrite: seq<Row>, which: Which)
    requires forall a :: a in toWrite ==> a.ending.Some?
    ensures var e := WriteRows(w, toWrite, which);
            && (e.outcome == Completed <==> LandsFirst(w.luck, |toWrite|))
            && (e.outcome == Completed ==> e.world.luck == Skip(w.luck, |toWrite|))
    decreases |toWrite|
  {
    if toWrite != [] {
      assert toWrite[0] in toWrite;
      var d := WriteFile(w, toWrite[0].path, Image(toWrite[0], which).value);
      if d.fate == Lands { WritesUse(d.world, toWrite[1..], which); }
    }
  }

  /** Something is to be written, every write and the intent's deletion land, and the next step does not. */
  predicate LuckStrands(w: World, intent: Intent)
  {
    var n := |Having(w.files, RowsOf(w.rows, intent.txn), AtPost)|;
    n > 0 && LandsFirst(w.luck, n) && FateOf(Skip(w.luck, n)) == Lands && FateOf(Rest(Skip(w.luck, n))) != Lands
  }

  /** Where a revert stands between repairs: rows and intent, rows without an intent, or no rows. */
  datatype Standing = Pending | Stranded | Cleared | Torn

  ghost function StandingOf(w: World, rows: seq<Row>, intent: Intent): Standing
  {
    if RowsOf(w.rows, intent.txn) == [] then Cleared
    else if RowsOf(w.rows, intent.txn) != rows then Torn
    else if intent in w.intents then Pending else Stranded
  }

  lemma ResolveLands(w: World, rows: seq<Row>, intent: Intent)
    requires Recovering(w, rows, intent, Pre)
    ensures var toWrite := Having(w.files, rows, AtPost);
            var e := ApplyResolution(w, intent.txn, toWrite, Pre);
            && (e.outcome == Completed
                <==> LandsFirst(w.luck, |toWrite|) && FateOf(Skip(w.luck, |toWrite|)) == Lands)
            && (e.outcome == Completed ==> e.world.luck == Rest(Skip(w.luck, |toWrite|)))
            && (e.outcome == Completed ==> intent !in e.world.intents)
            && (e.outcome != Completed ==> e.world.intents == w.intents)
            && e.world.rows == w.rows
  {
    var toWrite := Having(w.files, rows, AtPost);
    forall r ensures r in toWrite <==> r in rows && StateOf(w.files, r) == AtPost {
      HavingAre(w.files, rows, AtPost, r);
    }
    WritesUse(w, toWrite, Pre);
    WriteRowsTables(w, toWrite, Pre);
    FewerIntents(w.intents, intent.txn, intent);
  }

  /** One repair of a pending revert, interrupted anywhere, strands its rows exactly under this luck. */
  lemma RevertStrandsRowsExactlyWhen(w: World, rows: seq<Row>, intent: Intent)
    requires Recovering(w, rows, intent, Pre) && intent.direction == Revert && StandingOf(w, rows, intent) == Pending
    ensures var after := StandingOf(RepairOne(w, intent).world, rows, intent);
            (after == Stranded <==> LuckStrands(w, intent)) && after != Torn
  {
    assert !AnyElsewhere(w.files, rows);
    var toWrite := Having(w.files, rows, AtPost);
    if toWrite == [] {
      var d := DeleteUndoTransaction(w, intent.txn);
      ClearedRows(w.rows, intent.txn, intent.txn);
    } else {
      ResolveLands(w, rows, intent);
      var e := ApplyResolution(w, intent.txn, toWrite, Pre);
      ClearedRows(e.world.rows, intent.txn, intent.txn);
    }
  }

  // ----- one run

  /** A transaction has one intent: the id is the table's key. */
  ghost predicate OneEach(intents: seq<Intent>)
  {
    intents == [] || ((forall i :: i in intents[1..] ==> i.txn != intents[0].txn) && OneEach(intents[1..]))
  }

  lemma {:induction false} OneEachIsOne(intents: seq<Intent>, intent: Intent)
    requires OneEach(intents) && intent in intents
    ensures OneIntent(intents, intent)
  {
    if intent != intents[0] { OneEachIsOne(intents[1..], intent); }
    assert forall i :: i in intents <==> i == intents[0] || i in intents[1..];
  }

  lemma {:induction false} OneEachWithout(intents: seq<Intent>, txn: TxnId)
    requires OneEach(intents)
    ensures OneEach(IntentsWithout(intents, txn))
  {
    if intents != [] {
      OneEachWithout(intents[1..], txn);
      var rest := IntentsWithout(intents[1..], txn);
      forall i | i in rest
        ensures i.txn != intents[0].txn
      {
        IntentsWithoutAre(intents[1..], txn, i);
      }
      assert ([intents[0]] + rest)[1..] == rest;
    }
  }

  /** During this scan the intent's turn comes with a luck that strands its rows. */
  ghost predicate ScanStrands(w: World, listed: seq<Intent>, intent: Intent)
    decreases |listed|
  {
    listed != []
    && ((listed[0] == intent && LuckStrands(w, intent))
        || (RepairOne(w, listed[0]).outcome != Died && ScanStrands(RepairOne(w, listed[0]).world, listed[1..], intent)))
  }

  /** How a repair of any listed intent moves the standing. */
  lemma StandingStep(w: World, rows: seq<Row>, intent: Intent, other: Intent)
    requires Recovering(w, rows, intent, Pre) && intent.direction == Revert && StandingOf(w, rows, intent) != Torn
    requires other.txn == intent.txn ==> other == intent
    ensures var e := RepairOne(w, other).world;
            var before, after := StandingOf(w, rows, intent), StandingOf(e, rows, intent);
            && Recovering(e, rows, intent, Pre) && after != Torn
            && (other != intent ==> after == before)
            && (before == Cleared ==> after == Cleared)
            && (before == Pending && other == intent ==> (after == Stranded <==> LuckStrands(w, intent)))
  {
    if other == intent {
      OwnStep(w, rows, intent, Pre);
      if StandingOf(w, rows, intent) == Pending { RevertStrandsRowsExactlyWhen(w, rows, intent); }
    } else {
      OtherStep(w, rows, intent, Pre, other);
    }
  }

  lemma EmptyNeverStrands(w: World, intent: Intent)
    requires RowsOf(w.rows, intent.txn) == []
    ensures !LuckStrands(w, intent)
  {
  }

  /** Without rows, or without the intent in the list, a scan leaves the standing as it is. */
  lemma {:induction false} ScanSkips(w: World, listed: seq<Intent>, rows: seq<Row>, intent: Intent)
    requires Recovering(w, rows, intent, Pre) && intent.direction == Revert && OneIntent(listed, intent)
    requires StandingOf(w, rows, intent) != Torn && (intent in listed ==> StandingOf(w, rows, intent) == Cleared)
    ensures StandingOf(RepairAll(w, listed).world, rows, intent) == StandingOf(w, rows, intent)
    ensures !ScanStrands(w, listed, intent)
    decreases |listed|
  {
    if listed != [] {
      assert listed[0] in listed && listed == [listed[0]] + listed[1..];
      if RowsOf(w.rows, intent.txn) == [] { EmptyNeverStrands(w, intent); }
      if listed[0].txn != intent.txn || listed[0] == intent { StandingStep(w, rows, intent, listed[0]); }
      if RepairOne(w, listed[0]).outcome != Died {
        ScanSkips(RepairOne(w, listed[0]).world, listed[1..], rows, intent);
      }
    }
  }

  /** A scan that lists a pending revert once strands its rows exactly when its turn comes with such a luck. */
  lemma {:induction false} ScanStrandsExactlyWhen(w: World, listed: seq<Intent>, rows: seq<Row>, intent: Intent)
    requires Recovering(w, rows, intent, Pre) && intent.direction == Revert && OneEach(listed) && intent in listed
    requires StandingOf(w, rows, intent) == Pending
    ensures var after := StandingOf(RepairAll(w, listed).world, rows, intent);
            (after == Stranded <==> ScanStrands(w, listed, intent)) && after != Torn
    decreases |listed|
  {
    OneEachIsOne(listed, intent);
    assert listed[0] in listed && listed == [listed[0]] + listed[1..];
    StandingStep(w, rows, intent, listed[0]);
    var e := RepairOne(w, listed[0]);
    if e.outcome != Died {
      if listed[0] == intent {
        ScanSkips(e.world, listed[1..], rows, intent);
      } else {
        ScanStrandsExactlyWhen(e.world, listed[1..], rows, intent);
      }
    }
  }

  lemma {:induction false} ScanKeepsOneEach(w: World, listed: seq<Intent>)
    requires OneEach(w.intents)
    ensures OneEach(RepairAll(w, listed).world.intents)
    decreases |listed|
  {
    if listed != [] {
      RepairFrame(w, listed[0]);
      OneEachWithout(w.intents, listed[0].txn);
      if RepairOne(w, listed[0]).outcome != Died { ScanKeepsOneEach(RepairOne(w, listed[0]).world, listed[1..]); }
    }
  }

  /** One run from any standing. */
  lemma RunStrandsExactlyWhen(w: World, rows: seq<Row>, intent: Intent)
    requires Recovering(w, rows, intent, Pre) && intent.direction == Revert && OneEach(w.intents)
    requires StandingOf(w, rows, intent) != Torn
    ensures var e := RepairRun(w).world;
            var before, after := StandingOf(w, rows, intent), StandingOf(e, rows, intent);
            && Recovering(e, rows, intent, Pre) && OneEach(e.intents) && after != Torn
            && (after == Stranded <==> before == Stranded || ScanStrands(w, w.intents, intent))
            && (before == Stranded || before == Cleared ==> !ScanStrands(w, w.intents, intent) && after == before)
  {
    ScanKeeps(w, w.intents, rows, intent, Pre);
    ScanKeepsOneEach(w, w.intents);
    if StandingOf(w, rows, intent) == Pending {
      ScanStrandsExactlyWhen(w, w.intents, rows, intent);
    } else {
      ScanSkips(w, w.intents, rows, intent);
    }
  }

  // ----- whole runs

  /** In one of these runs the intent's turn comes with a luck that strands its rows. */
  ghost predicate SomeRunStrands(w: World, lucks: seq<Luck>, intent: Intent)
    decreases |lucks|
  {
    lucks != []
    && var start := w.(luck := lucks[0]);
       ScanStrands(start, start.intents, intent) || SomeRunStrands(RepairRun(start).world, lucks[1..], intent)
  }

  lemma {:induction false} RunsStrandExactlyWhen(w: World, lucks: seq<Luck>, rows: seq<Row>, intent: Intent)
    requires Recovering(w, rows, intent, Pre) && intent.direction == Revert && OneEach(w.intents)
    requires StandingOf(w, rows, intent) != Torn
    ensures var end := Runs(w, lucks);
            var before, after := StandingOf(w, rows, intent), StandingOf(end, rows, intent);
            && Recovering(end, rows, intent, Pre) && OneEach(end.intents) && after != Torn
            && (after == Stranded <==> before == Stranded || SomeRunStrands(w, lucks, intent))
            && (before == Cleared ==> after == Cleared && !SomeRunStrands(w, lucks, intent))
    decreases |lucks|
  {
    if lucks != [] {
      var start := w.(luck := lucks[0]);
      RunStrandsExactlyWhen(start, rows, intent);
      RunsStrandExactlyWhen(RepairRun(start).world, lucks[1..], rows, intent);
    }
  }

  /** Rows stranded once stay stranded under every later run, and no file of theirs changes. */
  lemma StrandedForGood(w: World, lucks: seq<Luck>, rows: seq<Row>, intent: Intent)
    requires Recovering(w, rows, intent, Pre) && intent.direction == Revert && OneEach(w.intents)
    requires StandingOf(w, rows, intent) == Stranded
    ensures StandingOf(Runs(w, lucks), rows, intent) == Stranded && AllAt(Runs(w, lucks).files, rows, Pre)
  {
    RunsStrandExactlyWhen(w, lucks, rows, intent);
  }

  /**
   * Any interrupted runs of a revert and then a complete one leave no rows exactly when no run dealt the revert
   * a luck that strands them. The complete run helps only a revert whose intent it still finds.
   */
  lemma RevertClearsExactlyWhen(w: World, intent: Intent, lucks: seq<Luck>)
    requires Crashed(w, intent) && intent.direction == Revert && OneEach(w.intents)
    ensures var mid := Runs(w, lucks);
            var end := RepairRun(mid.(luck := HEALTHY)).world;
            && (RowsOf(end.rows, intent.txn) == [] <==> !SomeRunStrands(w, lucks, intent))
            && (RowsOf(end.rows, intent.txn) == [] <==> intent in mid.intents || RowsOf(mid.rows, intent.txn) == [])
            && RowsOf(end.rows, intent.txn) in {[], RowsOf(w.rows, intent.txn)}
  {
    var rows := RowsOf(w.rows, intent.txn);
    CrashedRecovers(w, intent);
    RunsStrandExactlyWhen(w, lucks, rows, intent);
    var last := Runs(w, lucks).(luck := HEALTHY);
    RunStrandsExactlyWhen(last, rows, intent);
    ScanKeeps(last, last.intents, rows, intent, Pre);
  }

  // ----- what a stranded transaction answers

  /**
   * After runs that strand it, undo of any member that differs from its post image answers stale and changes nothing.
   */
  lemma StrandedUndoIsStale(w: World, intent: Intent, lucks: seq<Luck>, luck: Luck, r: Row)
    requires Crashed(w, intent) && intent.direction == Revert && OneEach(w.intents)
    requires SomeRunStrands(w, lucks, intent)
    requires r in RowsOf(w.rows, intent.txn) && Image(r, Pre) != Image(r, Post)
    ensures var end := Runs(w, lucks).(luck := luck); Undo(end, intent.txn, r.path) == Undone(end, Stale)
  {
    var rows := RowsOf(w.rows, intent.txn);
    CrashedRecovers(w, intent);
    RunsStrandExactlyWhen(w, lucks, rows, intent);
    var end := Runs(w, lucks).(luck := luck);
    assert RowsOf(end.rows, intent.txn) == rows && HasImage(end.files, r, Pre);
    assert !HasImage(end.files, r, Post);
  }

  // ----- one that strands

  /** One file went from `a` to `b`; its revert repair writes `a` back, drops the intent and dies. */
  lemma OneDeathStrands()
    ensures
      var row := OneChar([0], 'a', 'b');
      var intent := Intent(1, [0], Direction.Revert);
      var w := World(map[[0] := "b"], [row], [intent], HEALTHY);
      var lucks := [Luck([true, true], false)];
      && Crashed(w, intent) && OneEach(w.intents) && SomeRunStrands(w, lucks, intent)
      && Undo(Runs(w, lucks), 1, [0]) == Undone(Runs(w, lucks), Stale)
  {
    var row := OneChar([0], 'a', 'b');
    var intent := Intent(1, [0], Direction.Revert);
    var w := World(map[[0] := "b"], [row], [intent], HEALTHY);
    var lucks := [Luck([true, true], false)];
    OneCharImages([0], 'a', 'b');
    assert RowsOf(w.rows, 1) == [row] by { assert [row][1..] == []; }
    assert HasImage(w.files, row, Post);
    var start := w.(luck := lucks[0]);
    assert Having(start.files, [row], AtPost) == [row] by { assert [row][1..] == []; }
    assert LuckStrands(start, intent);
    StrandedUndoIsStale(w, intent, lucks, Runs(w, lucks).luck, row);
  }
}
