/** A transaction with an unreadable row: what repair and undo leave of the member they did not load. */
module CutShortSets {

  import opened CutRecovery
  import opened CutRepair
  import opened CutUndo
  import opened LexOrder
  import opened Options
  import opened UndoStore

  /** A stored row of the transaction that loading skips, because its hashes do not parse. */
  predicate Skipped(rows: seq<Row>, txn: TxnId, u: Row)
  {
    u in rows && u.txn == Some(txn) && !u.readable
  }

  /** No row that a repair could load stands at the path. */
  ghost predicate NoneLoads(rows: seq<Row>, path: Path)
  {
    forall r :: r in rows && r.readable && r.txn.Some? ==> r.path != path
  }

  lemma SkippedIsAlone(rows: seq<Row>, u: Row)
    requires Keyed(rows) && u in rows && !u.readable
    ensures NoneLoads(rows, u.path)
  {
    forall r | r in rows && r.readable
      ensures r.path != u.path
    {
      if r.path == u.path { SamePathSameRow(rows, r, u); }
    }
  }

  lemma RepairPasses(w: World, intent: Intent, path: Path)
    requires NoneLoads(w.rows, path)
    ensures var e := RepairOne(w, intent).world;
            NoneLoads(e.rows, path) && Read(e.files, path) == Read(w.files, path)
  {
    forall r | r in RowsOf(w.rows, intent.txn)
      ensures r.path != path
    {
      RowsOfAre(w.rows, intent.txn, r);
    }
    RepairFilesFrame(w, intent, path);
    RepairFrame(w, intent);
    forall r ensures r in RowsWithout(w.rows, intent.txn) ==> r in w.rows {
      RowsWithoutAre(w.rows, intent.txn, r);
    }
  }

  lemma {:induction false} ScanPasses(w: World, listed: seq<Intent>, path: Path)
    requires NoneLoads(w.rows, path)
    ensures var e := RepairAll(w, listed).world;
            NoneLoads(e.rows, path) && Read(e.files, path) == Read(w.files, path)
    decreases |listed|
  {
    if listed != [] {
      RepairPasses(w, listed[0], path);
      var e := RepairOne(w, listed[0]);
      if e.outcome != Died { ScanPasses(e.world, listed[1..], path); }
    }
  }

  lemma {:induction false} RunsPass(w: World, lucks: seq<Luck>, path: Path)
    requires NoneLoads(w.rows, path)
    ensures var e := Runs(w, lucks);
            NoneLoads(e.rows, path) && Read(e.files, path) == Read(w.files, path)
    decreases |lucks|
  {
    if lucks != [] {
      var start := w.(luck := lucks[0]);
      ScanPasses(start, start.intents, path);
      RunsPass(RepairRun(start).world, lucks[1..], path);
    }
  }

  /**
   * After any interrupted runs and a complete one, every stored member of the transaction is on the decided image
   * exactly when the skipped ones stood there from the start: repair never writes them.
   */
  lemma WholeSetDecidedExactlyWhen(w: World, intent: Intent, lucks: seq<Luck>)
    requires Crashed(w, intent)
    ensures var which := Decision(w, intent);
            var end := RepairRun(Runs(w, lucks).(luck := HEALTHY)).world;
            (forall r :: r in w.rows && r.txn == Some(intent.txn) ==> HasImage(end.files, r, which))
            <==> forall u :: Skipped(w.rows, intent.txn, u) ==> HasImage(w.files, u, which)
  {
    var which := Decision(w, intent);
    var end := RepairRun(Runs(w, lucks).(luck := HEALTHY)).world;
    forall r | r in w.rows && r.txn == Some(intent.txn)
      ensures if r.readable then HasImage(end.files, r, which)
              else Skipped(w.rows, intent.txn, r) && (HasImage(end.files, r, which) <==> HasImage(w.files, r, which))
    {
      MemberAfterRuns(w, intent, lucks, r);
    }
  }

  lemma MemberAfterRuns(w: World, intent: Intent, lucks: seq<Luck>, r: Row)
    requires Crashed(w, intent) && r in w.rows && r.txn == Some(intent.txn)
    ensures var which := Decision(w, intent);
            var end := RepairRun(Runs(w, lucks).(luck := HEALTHY)).world;
            if r.readable then HasImage(end.files, r, which) else Read(end.files, r.path) == Read(w.files, r.path)
  {
    var last := Runs(w, lucks).(luck := HEALTHY);
    if r.readable {
      RecoveryConverges(w, intent, lucks);
      RowsOfAre(w.rows, intent.txn, r);
    } else {
      SkippedIsAlone(w.rows, r);
      RunsPass(w, lucks, r.path);
      ScanPasses(last, last.intents, r.path);
    }
  }

  /**
   * A repair that clears a transaction's rows clears the skipped ones with them: their files can no longer be undone.
   */
  lemma ClearingForgetsSkipped(w: World, intent: Intent)
    requires RowsOf(w.rows, intent.txn) != [] && RowsOf(RepairOne(w, intent).world.rows, intent.txn) == []
    ensures forall r :: r in RepairOne(w, intent).world.rows ==> r.txn != Some(intent.txn)
  {
    RepairFrame(w, intent);
    forall r ensures r in RowsWithout(w.rows, intent.txn) ==> r.txn != Some(intent.txn) {
      RowsWithoutAre(w.rows, intent.txn, r);
    }
  }

  // ----- undo of a short set

  lemma UndoPasses(w: World, txn: TxnId, requested: Path, u: Row)
    requires Keyed(w.rows) && Skipped(w.rows, txn, u)
    ensures Read(Undo(w, txn, requested).world.files, u.path) == Read(w.files, u.path)
  {
    var rows := RowsOf(w.rows, txn);
    SkippedIsAlone(w.rows, u);
    forall r | r in rows
      ensures r.path != u.path
    {
      RowsOfAre(w.rows, txn, r);
    }
    if Undo(w, txn, requested).outcome !in {Stale, NoHistory} && FateOf(w.luck) == Lands {
      RevertPasses(WriteCutIntent(w, Intent(txn, requested, Direction.Revert)).world, rows, u.path);
    }
  }

  lemma {:induction false} CompletePasses(w: World, rest: seq<Row>, failed: bool, path: Path)
    requires AllSerializable(rest) && forall r :: r in rest ==> r.path != path
    ensures Read(Complete(w, rest, failed).world.files, path) == Read(w.files, path)
    decreases |rest|
  {
    if rest != [] {
      assert rest[0] in rest;
      var d := WriteFile(w, rest[0].path, PreBytes(rest[0]));
      if d.fate != Dies { CompletePasses(d.world, rest[1..], failed || d.fate == Throws, path); }
    }
  }

  lemma {:induction false} RevertPasses(w: World, plans: seq<Row>, path: Path)
    requires AllSerializable(plans) && forall r :: r in plans ==> r.path != path
    ensures Read(CutUndo.Revert(w, plans).world.files, path) == Read(w.files, path)
    decreases |plans|
  {
    if plans != [] {
      assert plans[0] in plans;
      var d := WriteFile(w, plans[0].path, PreBytes(plans[0]));
      if d.fate == Lands { RevertPasses(d.world, plans[1..], path); }
      if d.fate == Throws { CompletePasses(d.world, plans, false, path); }
    }
  }

  /**
   * A successful undo drops every row of the transaction, and has reverted every stored member exactly when the
   * skipped ones stood at their pre image already.
   */
  lemma UndoIsWholeExactlyWhen(w: World, txn: TxnId, requested: Path)
    requires Keyed(w.rows) && Undo(w, txn, requested).outcome == Success
    ensures var end := Undo(w, txn, requested).world;
            && (forall r :: r in end.rows ==> r.txn != Some(txn))
            && ((forall r :: r in w.rows && r.txn == Some(txn) ==> HasImage(end.files, r, Pre))
                <==> forall u :: Skipped(w.rows, txn, u) ==> HasImage(w.files, u, Pre))
  {
    UndoOutcomes(w, txn, requested);
    var end := Undo(w, txn, requested).world;
    forall r | r in w.rows && r.txn == Some(txn) && r.readable
      ensures r in RowsOf(w.rows, txn)
    {
      RowsOfAre(w.rows, txn, r);
    }
    forall u | Skipped(w.rows, txn, u)
      ensures Read(end.files, u.path) == Read(w.files, u.path)
    {
      UndoPasses(w, txn, requested, u);
    }
    UndoDropsRows(w, txn, requested);
  }

  lemma UndoDropsRows(w: World, txn: TxnId, requested: Path)
    requires Undo(w, txn, requested).outcome == Success
    ensures forall r :: r in Undo(w, txn, requested).world.rows ==> r.txn != Some(txn)
  {
    var swept := CutUndo.Revert(WriteCutIntent(w, Intent(txn, requested, Direction.Revert)).world, RowsOf(w.rows, txn));
    forall r ensures r in RowsWithout(swept.world.rows, txn) ==> r.txn != Some(txn) {
      RowsWithoutAre(swept.world.rows, txn, r);
    }
  }

  /** Two members, one row unreadable: the undo succeeds, that member keeps its post image, and its row is gone. */
  lemma ShortUndoSucceeds()
    ensures
      var loaded, skipped := OneChar([0], 'a', 'b'), OneChar([1], 'c', 'd').(readable := false);
      var w := World(map[[0] := "b", [1] := "d"], [loaded, skipped], [], HEALTHY);
      var u := Undo(w, 1, [0]);
      && Keyed(w.rows) && u.outcome == Success
      && Read(u.world.files, [1]) == Some("d") && !HasImage(u.world.files, skipped, Pre)
      && forall r :: r in u.world.rows ==> r.txn != Some(1)
  {
    var loaded, skipped := OneChar([0], 'a', 'b'), OneChar([1], 'c', 'd').(readable := false);
    var w := World(map[[0] := "b", [1] := "d"], [loaded, skipped], [], HEALTHY);
    OneCharImages([0], 'a', 'b');
    OneCharImages([1], 'c', 'd');
    assert Less([0], [1]);
    RowsOfPair(loaded, skipped, 1);
    assert AllFresh(w.files, [loaded]);
    HealthyRevert(WriteCutIntent(w, Intent(1, [0], Direction.Revert)).world, [loaded]);
    UndoPasses(w, 1, [0], skipped);
    UndoDropsRows(w, 1, [0]);
  }

  lemma {:induction false} HealthyRevert(w: World, plans: seq<Row>)
    requires AllSerializable(plans) && w.luck == HEALTHY
    ensures var s := CutUndo.Revert(w, plans); !s.failed && !s.killed && s.world.luck == HEALTHY
    decreases |plans|
  {
    if plans != [] { HealthyRevert(WriteFile(w, plans[0].path, PreBytes(plans[0])).world, plans[1..]); }
  }
}
