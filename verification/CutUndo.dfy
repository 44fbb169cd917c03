/** Undo of a correlated cut: validate every member, record the intent, revert with inline completion, clear once. */
module CutUndo {

  import opened Endings
  import opened LexOrder
  import opened UndoStore
  import opened CutRepair
  import opened CutRecovery

  /** `Escaped` is an exception out of the call; `Killed` the death of the process. */
  datatype UndoOutcome = NoHistory | Stale | Defeated | Success | Escaped | Killed

  datatype Undone = Undone(world: World, outcome: UndoOutcome)

  /** The revert writes go on past failures; `failed` when some member could not be written. */
  datatype Swept = Swept(world: World, failed: bool, killed: bool)

  function PreBytes(row: Row): string
    requires row.ending.Some?
  {
    if row.rawPre.Some? then row.rawPre.value else row.bom + RestoreEndings(row.content, row.ending.value)
  }

  predicate AllSerializable(rows: seq<Row>)
  {
    forall r :: r in rows ==> r.ending.Some?
  }

  /** The completion pass: one more attempt per remaining member, in order. */
  function Complete(w: World, rest: seq<Row>, failed: bool): Swept
    requires AllSerializable(rest)
    decreases |rest|
  {
    if rest == [] then Swept(w, failed, false)
    else
      var d := WriteFile(w, rest[0].path, PreBytes(rest[0]));
      if d.fate == Dies then Swept(d.world, failed, true)
      else Complete(d.world, rest[1..], failed || d.fate == Throws)
  }

  /** The first failed write hands over to the completion pass, which tries that member again. */
  function Revert(w: World, plans: seq<Row>): Swept
    requires AllSerializable(plans)
    decreases |plans|
  {
    if plans == [] then Swept(w, false, false)
    else
      var d := WriteFile(w, plans[0].path, PreBytes(plans[0]));
      match d.fate
      case Lands => Revert(d.world, plans[1..])
      case Throws => Complete(d.world, plans, false)
      case Dies => Swept(d.world, false, true)
  }

  function Clear(w: World, txn: TxnId): Undone
  {
    var cleared := DeleteUndoTransaction(w, txn);
    match cleared.fate
    case Throws => Undone(cleared.world, Escaped)
    case Dies => Undone(cleared.world, Killed)
    case Lands =>
      var dropped := DeleteCutIntent(cleared.world, txn);
      Undone(dropped.world, if dropped.fate == Dies then Killed else Success)
  }

  function Undo(w: World, txn: TxnId, requested: Path): Undone
  {
    var rows := RowsOf(w.rows, txn);
    if !AllSerializable(rows) then Undone(w, Stale)
    else if !(exists r :: r in rows && r.path == requested) then Undone(w, NoHistory)
    else if !AllFresh(w.files, rows) then Undone(w, Stale)
    else
      var saved := WriteCutIntent(w, Intent(txn, requested, Direction.Revert));
      match saved.fate
      case Throws => Undone(saved.world, Escaped)
      case Dies => Undone(saved.world, Killed)
      case Lands =>
        var swept := Revert(saved.world, rows);
        if swept.killed then Undone(swept.world, Killed)
        else if swept.failed then Undone(swept.world, Defeated)
        else Clear(swept.world, txn)
  }

  /** Every member's bytes on disk are its post image. */
  predicate AllFresh(files: map<Path, string>, rows: seq<Row>)
  {
    forall r :: r in rows ==> HasImage(files, r, Post)
  }

  // ----- the program

  method UndoCorrelated(store: Store, txn: TxnId, requested: Path) returns (outcome: UndoOutcome)
    requires Keyed(store.rows)
    modifies store
    ensures Undone(store.Now(), outcome) == Undo(old(store.Now()), txn, requested)
  {
    hide Revert, RowsOf, Image, DeleteUndoTransaction, DeleteCutIntent;
    var rows := store.GetUndoTransaction(txn);
    var member := false;
    for i := 0 to |rows|
      invariant AllSerializable(rows[..i])
      invariant member <==> exists j :: 0 <= j < i && rows[j].path == requested
    {
      if rows[i].ending.None? {
        assert rows[i] in rows;
        return Stale;
      }
      member := member || rows[i].path == requested;
    }
    assert rows[..|rows|] == rows;
    if !member { return NoHistory; }
    for i := 0 to |rows|
      invariant forall j :: 0 <= j < i ==> HasImage(store.files, rows[j], Post)
    {
      if !HasImage(store.files, rows[i], Post) {
        assert rows[i] in rows;
        return Stale;
      }
    }
    assert AllFresh(store.files, rows);
    var saved := store.SaveIntent(Intent(txn, requested, Direction.Revert));
    if saved == Throws { return Escaped; }
    if saved == Dies { return Killed; }
    RowsOnePerPath(store.rows, txn);
    var failed, killed := RevertMembers(store, rows);
    if killed { return Killed; }
    if failed { return Defeated; }
    var cleared := store.ClearTransaction(txn);
    if cleared == Throws { return Escaped; }
    if cleared == Dies { return Killed; }
    var dropped := store.DropIntent(txn);
    return if dropped == Dies then Killed else Success;
  }

  /** `plans` are visited again from the first; those already reverted are skipped by path. */
  method RevertMembers(store: Store, plans: seq<Row>) returns (failed: bool, killed: bool)
    requires AllSerializable(plans)
    requires forall i, j :: 0 <= i < j < |plans| ==> plans[i].path != plans[j].path
    modifies store
    ensures Swept(store.Now(), failed, killed) == Revert(old(store.Now()), plans)
  {
    var reverted: set<Path> := {};
    for i := 0 to |plans|
      invariant forall p :: p in reverted <==> exists j :: 0 <= j < i && plans[j].path == p
      invariant Revert(store.Now(), plans[i..]) == Revert(old(store.Now()), plans)
    {
      assert plans[i..][1..] == plans[i + 1..];
      var fate := store.WriteAtomic(plans[i].path, PreBytes(plans[i]));
      if fate == Dies { return false, true; }
      if fate == Throws {
        failed, killed := CompleteMembers(store, plans, reverted, i);
        return;
      }
      reverted := reverted + {plans[i].path};
    }
    return false, false;
  }

  lemma CompleteStep(w: World, plans: seq<Row>, i: nat, failed: bool)
    requires AllSerializable(plans) && i < |plans|
    ensures var d := WriteFile(w, plans[i].path, PreBytes(plans[i]));
            Complete(w, plans[i..], failed) ==
            if d.fate == Dies then Swept(d.world, failed, true)
            else Complete(d.world, plans[i + 1..], failed || d.fate == Throws)
  {
    assert plans[i..][1..] == plans[i + 1..] && plans[i..][0] == plans[i];
  }

  lemma CompleteEnd(w: World, failed: bool)
    ensures Complete(w, [], failed) == Swept(w, failed, false)
  {
  }

  method CompleteMembers(store: Store, plans: seq<Row>, reverted: set<Path>, ghost first: nat)
    returns (failed: bool, killed: bool)
    requires AllSerializable(plans) && first <= |plans|
    requires forall i, j :: 0 <= i < j < |plans| ==> plans[i].path != plans[j].path
    requires forall p :: p in reverted <==> exists j :: 0 <= j < first && plans[j].path == p
    modifies store
    ensures Swept(store.Now(), failed, killed) == Complete(old(store.Now()), plans[first..], false)
  {
    hide Complete, PreBytes;
    failed := false;
    var done := reverted;
    for i := 0 to |plans|
      invariant forall j :: i <= j < |plans| ==> (plans[j].path in done <==> j < first)
      invariant Complete(store.Now(), plans[if i < first then first else i..], failed)
                == Complete(old(store.Now()), plans[first..], false)
    {
      if plans[i].path in done { continue; }
      CompleteStep(store.Now(), plans, i, failed);
      var fate := store.WriteAtomic(plans[i].path, PreBytes(plans[i]));
      if fate == Dies { return failed, true; }
      if fate == Throws { failed := true; } else { done := done + {plans[i].path}; }
    }
    CompleteEnd(store.Now(), failed);
    killed := false;
  }

  lemma {:induction false} RowsOfKeyed(rows: seq<Row>, txn: TxnId)
    requires Keyed(rows)
    ensures Keyed(RowsOf(rows, txn))
  {
    if rows != [] {
      KeyedTail(rows);
      RowsOfKeyed(rows[1..], txn);
      var rest := RowsOf(rows[1..], txn);
      if rest != [] {
        RowsOfAre(rows[1..], txn, rest[0]);
        KeyedHeadLess(rows, rest[0]);
        assert ([rows[0]] + rest)[1..] == rest;
      }
    }
  }

  lemma {:induction false} KeyedPathsDiffer(rows: seq<Row>, i: nat, j: nat)
    requires Keyed(rows) && i < j < |rows|
    ensures rows[i].path != rows[j].path
  {
    if i > 0 {
      KeyedPathsDiffer(rows[1..], i - 1, j - 1);
    } else {
      assert rows[j] == rows[1..][j - 1];
      KeyedHeadLess(rows, rows[j]);
      Trichotomy(rows[0].path, rows[j].path);
    }
  }

  lemma RowsOnePerPath(rows: seq<Row>, txn: TxnId)
    requires Keyed(rows)
    ensures forall i, j :: 0 <= i < j < |RowsOf(rows, txn)| ==> RowsOf(rows, txn)[i].path != RowsOf(rows, txn)[j].path
  {
    RowsOfKeyed(rows, txn);
    forall i, j | 0 <= i < j < |RowsOf(rows, txn)|
      ensures RowsOf(rows, txn)[i].path != RowsOf(rows, txn)[j].path
    {
      KeyedPathsDiffer(RowsOf(rows, txn), i, j);
    }
  }

  // ----- what the writes leave behind

  lemma {:induction false} CompleteAt(w: World, rest: seq<Row>, failed: bool, r: Row)
    requires AllSerializable(rest) && Distinct(rest, r)
    ensures var s := Complete(w, rest, failed);
            && (Read(s.world.files, r.path) == Read(w.files, r.path) || (r in rest && HasImage(s.world.files, r, Pre)))
            && (!s.failed && !s.killed && r in rest ==> HasImage(s.world.files, r, Pre))
            && (failed ==> s.failed)
    decreases |rest|
  {
    if rest != [] {
      assert rest[0] in rest;
      var d := WriteFile(w, rest[0].path, PreBytes(rest[0]));
      if d.fate != Dies { CompleteAt(d.world, rest[1..], failed || d.fate == Throws, r); }
    }
  }

  lemma {:induction false} RevertAt(w: World, plans: seq<Row>, r: Row)
    requires AllSerializable(plans) && Distinct(plans, r)
    ensures var s := Revert(w, plans);
            && (Read(s.world.files, r.path) == Read(w.files, r.path) || (r in plans && HasImage(s.world.files, r, Pre)))
            && (!s.failed && !s.killed && r in plans ==> HasImage(s.world.files, r, Pre))
    decreases |plans|
  {
    if plans != [] {
      assert plans[0] in plans;
      var d := WriteFile(w, plans[0].path, PreBytes(plans[0]));
      if d.fate == Lands { RevertAt(d.world, plans[1..], r); }
      if d.fate == Throws { CompleteAt(d.world, plans, false, r); }
    }
  }

  lemma {:induction false} CompleteTables(w: World, rest: seq<Row>, failed: bool)
    requires AllSerializable(rest)
    ensures var s := Complete(w, rest, failed); s.world.rows == w.rows && s.world.intents == w.intents
    decreases |rest|
  {
    if rest != [] {
      var d := WriteFile(w, rest[0].path, PreBytes(rest[0]));
      if d.fate != Dies { CompleteTables(d.world, rest[1..], failed || d.fate == Throws); }
    }
  }

  lemma {:induction false} RevertTables(w: World, plans: seq<Row>)
    requires AllSerializable(plans)
    ensures var s := Revert(w, plans); s.world.rows == w.rows && s.world.intents == w.intents
    decreases |plans|
  {
    if plans != [] {
      var d := WriteFile(w, plans[0].path, PreBytes(plans[0]));
      if d.fate == Lands { RevertTables(d.world, plans[1..]); }
      if d.fate == Throws { CompleteTables(d.world, plans, false); }
    }
  }

  // ----- the honest outcomes

  ghost predicate Unwritten(before: World, after: World)
  {
    after.files == before.files && after.rows == before.rows && after.intents == before.intents
  }

  /** From a landed intent on, whatever happens leaves the revert recoverable. */
  lemma SweptRecovers(w: World, txn: TxnId, requested: Path)
    requires Keyed(w.rows) && AllSerializable(RowsOf(w.rows, txn)) && AllFresh(w.files, RowsOf(w.rows, txn))
    requires RowsOf(w.rows, txn) != []
    ensures var rows, intent := RowsOf(w.rows, txn), Intent(txn, requested, Direction.Revert);
            var saved := w.(intents := IntentsWithout(w.intents, txn) + [intent], luck := Rest(w.luck));
            var s := Revert(saved, rows);
            && Recovering(s.world, rows, intent, Pre) && s.world.rows == w.rows && intent in s.world.intents
            && (!s.failed && !s.killed ==> AllAt(s.world.files, rows, Pre))
  {
    var rows, intent := RowsOf(w.rows, txn), Intent(txn, requested, Direction.Revert);
    var saved := w.(intents := IntentsWithout(w.intents, txn) + [intent], luck := Rest(w.luck));
    forall i ensures i in IntentsWithout(w.intents, txn) <==> i in w.intents && i.txn != txn {
      IntentsWithoutAre(w.intents, txn, i);
    }
    assert Crashed(saved, intent);
    CrashedRecovers(saved, intent);
    var s := Revert(saved, rows);
    RevertTables(saved, rows);
    forall r | r in rows
      ensures HasImage(s.world.files, r, Pre) || (HasImage(s.world.files, r, Post) && (s.failed || s.killed))
    {
      RevertAt(saved, rows, r);
    }
  }

  /**
   * The outcomes of a correlated undo. A refusal changes nothing; a defeat keeps rows and intent with every
   * member at an image; success has every member at pre and no rows; an interruption is one of these for repair.
   */
  lemma UndoOutcomes(w: World, txn: TxnId, requested: Path)
    requires Keyed(w.rows)
    ensures var rows, intent, u := RowsOf(w.rows, txn), Intent(txn, requested, Direction.Revert),
            Undo(w, txn, requested);
            && (u.outcome == Stale || u.outcome == NoHistory ==> u.world == w)
            && (u.outcome == Defeated
                ==> Settled(u.world.files, rows) && u.world.rows == w.rows && intent in u.world.intents)
            && (u.outcome == Success ==> AllAt(u.world.files, rows, Pre) && RowsOf(u.world.rows, txn) == [])
            && (Unwritten(w, u.world) || Recovering(u.world, rows, intent, Pre))
            && (u.outcome == Defeated || u.outcome == Success ==> Recovering(u.world, rows, intent, Pre))
  {
    hide Revert, Image;
    var rows, intent := RowsOf(w.rows, txn), Intent(txn, requested, Direction.Revert);
    if Undo(w, txn, requested).outcome !in {Stale, NoHistory} && FateOf(w.luck) == Lands {
      SweptRecovers(w, txn, requested);
      var saved := WriteCutIntent(w, intent);
      var s := Revert(saved.world, rows);
      if !s.failed && !s.killed {
        ClearKeeps(s.world, rows, intent, Pre);
        ClearKeeps(DeleteUndoTransaction(s.world, txn).world, rows, intent, Pre);
        ClearedRows(s.world.rows, txn, txn);
      }
    }
  }

  /** An undo that got past validation, however it ended, is completed by repair: all members at pre, intent gone. */
  lemma UndoThenRepair(w: World, txn: TxnId, requested: Path, lucks: seq<Luck>)
    requires Keyed(w.rows)
    ensures var rows, intent, u := RowsOf(w.rows, txn), Intent(txn, requested, Direction.Revert),
            Undo(w, txn, requested);
            var end := RepairRun(Runs(u.world, lucks).(luck := HEALTHY)).world;
            Unwritten(w, u.world) || (AllAt(end.files, rows, Pre) && intent !in end.intents)
  {
    var rows, intent, u := RowsOf(w.rows, txn), Intent(txn, requested, Direction.Revert), Undo(w, txn, requested);
    UndoOutcomes(w, txn, requested);
    if !Unwritten(w, u.world) {
      RunsKeep(u.world, lucks, rows, intent, Pre);
      var last := Runs(u.world, lucks).(luck := HEALTHY);
      ScanKeeps(last, last.intents, rows, intent, Pre);
    }
  }

  // ----- inline completion

  lemma {:induction false} HealthyComplete(w: World, rest: seq<Row>)
    requires AllSerializable(rest) && w.luck == HEALTHY
    ensures !Complete(w, rest, false).failed && !Complete(w, rest, false).killed
    decreases |rest|
  {
    if rest != [] { HealthyComplete(WriteFile(w, rest[0].path, PreBytes(rest[0])).world, rest[1..]); }
  }

  /** One failing write, at any member, is absorbed: the completion pass writes it and all the rest. */
  lemma {:induction false} OneFailureAbsorbed(w: World, plans: seq<Row>, before: nat)
    requires AllSerializable(plans) && w.luck == Luck(seq(before, _ => true) + [false], true)
    ensures !Revert(w, plans).failed && !Revert(w, plans).killed
    decreases |plans|
  {
    if plans != [] {
      var d := WriteFile(w, plans[0].path, PreBytes(plans[0]));
      if before == 0 {
        HealthyComplete(d.world, plans);
      } else {
        assert w.luck.steps[1..] == seq(before - 1, _ => true) + [false];
        OneFailureAbsorbed(d.world, plans[1..], before - 1);
      }
    }
  }
}
