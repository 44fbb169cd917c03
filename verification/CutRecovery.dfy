/** Over any number of interrupted repair runs, a settled transaction keeps its direction and ends on one image. */
module CutRecovery {

  import opened CutRepair
  import opened Options
  import opened UndoStore

  // ----- writing a stretch of rows

  /** Two rows of a set never share a path. */
  ghost predicate Distinct(rows: seq<Row>, r: Row)
  {
    forall a :: a in rows && a.path == r.path ==> a == r
  }

  predicate HasImage(files: map<Path, string>, r: Row, which: Which)
  {
    Image(r, which).Some? && Read(files, r.path) == Image(r, which)
  }

  /** Each row is rewritten to its image or left alone; a completed write rewrites them all. */
  lemma {:induction false} WriteRowsAt(w: World, toWrite: seq<Row>, which: Which, r: Row)
    requires Distinct(toWrite, r)
    ensures var e := WriteRows(w, toWrite, which);
            && (Read(e.world.files, r.path) == Read(w.files, r.path)
                || (r in toWrite && HasImage(e.world.files, r, which)))
            && (e.outcome == Completed && r in toWrite ==> HasImage(e.world.files, r, which))
    decreases |toWrite|
  {
    if toWrite != [] && Image(toWrite[0], which).Some? {
      var d := WriteFile(w, toWrite[0].path, Image(toWrite[0], which).value);
      if d.fate == Lands {
        assert toWrite[0] in toWrite;
        WriteRowsAt(d.world, toWrite[1..], which, r);
      }
    }
  }

  lemma {:induction false} WriteRowsElsewhere(w: World, toWrite: seq<Row>, which: Which, path: Path)
    requires forall a :: a in toWrite ==> a.path != path
    ensures Read(WriteRows(w, toWrite, which).world.files, path) == Read(w.files, path)
    decreases |toWrite|
  {
    if toWrite != [] && Image(toWrite[0], which).Some? {
      var d := WriteFile(w, toWrite[0].path, Image(toWrite[0], which).value);
      if d.fate == Lands { WriteRowsElsewhere(d.world, toWrite[1..], which, path); }
    }
  }

  lemma {:induction false} WriteRowsTables(w: World, toWrite: seq<Row>, which: Which)
    ensures var e := WriteRows(w, toWrite, which);
            && e.world.rows == w.rows && e.world.intents == w.intents
            && (w.luck == HEALTHY ==> e.world.luck == HEALTHY)
            && (w.luck == HEALTHY && (forall a :: a in toWrite ==> a.ending.Some?) ==> e.outcome == Completed)
    decreases |toWrite|
  {
    if toWrite != [] && Image(toWrite[0], which).Some? {
      var d := WriteFile(w, toWrite[0].path, Image(toWrite[0], which).value);
      if d.fate == Lands { WriteRowsTables(d.world, toWrite[1..], which); }
    }
  }

  /** With nothing failing, the writes complete exactly when no row lacks the image: one without stops them halfway. */
  lemma {:induction false} HealthyWritesCompleteExactlyWhen(w: World, toWrite: seq<Row>, which: Which)
    requires w.luck == HEALTHY
    ensures WriteRows(w, toWrite, which).outcome == Completed <==> forall r :: r in toWrite ==> Image(r, which).Some?
    decreases |toWrite|
  {
    if toWrite != [] {
      assert toWrite[0] in toWrite && toWrite == [toWrite[0]] + toWrite[1..];
      if Image(toWrite[0], which).Some? {
        HealthyWritesCompleteExactlyWhen(WriteFile(w, toWrite[0].path, Image(toWrite[0], which).value).world,
                                         toWrite[1..], which);
      }
    }
  }

  lemma {:induction false} HavingAre(files: map<Path, string>, rows: seq<Row>, seen: Seen, r: Row)
    ensures r in Having(files, rows, seen) <==> r in rows && StateOf(files, r) == seen
  {
    if rows != [] {
      HavingAre(files, rows[1..], seen, r);
      assert rows == [rows[0]] + rows[1..];
    }
  }

  // ----- one transaction's members

  /** What stays fixed about a transaction: its loaded rows, all serializable, one per path. */
  ghost predicate Members(rows: seq<Row>)
  {
    && (forall r :: r in rows ==> r.ending.Some?)
    && (forall r :: r in rows ==> Distinct(rows, r))
  }

  ghost predicate Settled(files: map<Path, string>, rows: seq<Row>)
  {
    forall r :: r in rows ==> HasImage(files, r, Pre) || HasImage(files, r, Post)
  }

  ghost predicate AllAt(files: map<Path, string>, rows: seq<Row>, which: Which)
  {
    forall r :: r in rows ==> HasImage(files, r, which)
  }

  /** One attempt to move every member to one image. */
  lemma ApplyKeeps(w: World, txn: TxnId, rows: seq<Row>, which: Which)
    requires Members(rows) && Settled(w.files, rows)
    ensures var e := ApplyResolution(w, txn, Having(w.files, rows, Expected(which)), which);
            && Settled(e.world.files, rows)
            && (AllAt(w.files, rows, which) ==> AllAt(e.world.files, rows, which))
            && (e.outcome == Completed || e.world.intents != w.intents ==> AllAt(e.world.files, rows, which))
  {
    var toWrite := Having(w.files, rows, Expected(which));
    forall r ensures r in toWrite <==> r in rows && StateOf(w.files, r) == Expected(which) {
      HavingAre(w.files, rows, Expected(which), r);
    }
    WriteRowsTables(w, toWrite, which);
    var e := WriteRows(w, toWrite, which);
    forall r | r in rows
      ensures HasImage(e.world.files, r, which)
              || (Read(e.world.files, r.path) == Read(w.files, r.path) && e.outcome != Completed)
    {
      WriteRowsAt(w, toWrite, which, r);
    }
  }

  /** The tables and the luck after one attempt; a healthy attempt completes. */
  lemma ApplyTables(w: World, txn: TxnId, rows: seq<Row>, which: Which)
    requires forall r :: r in rows ==> r.ending.Some?
    ensures var e := ApplyResolution(w, txn, Having(w.files, rows, Expected(which)), which);
            && e.world.rows == w.rows
            && (e.world.intents == w.intents || e.world.intents == IntentsWithout(w.intents, txn))
            && (e.outcome == Completed ==> e.world.intents == IntentsWithout(w.intents, txn))
            && (w.luck == HEALTHY ==> e.outcome == Completed && e.world.luck == HEALTHY)
  {
    var toWrite := Having(w.files, rows, Expected(which));
    forall r ensures r in toWrite <==> r in rows && StateOf(w.files, r) == Expected(which) {
      HavingAre(w.files, rows, Expected(which), r);
    }
    WriteRowsTables(w, toWrite, which);
  }

  /** A member already past the expected state is not written. */
  lemma ApplyLeaves(w: World, txn: TxnId, rows: seq<Row>, which: Which, r: Row)
    requires Distinct(rows, r) && StateOf(w.files, r) != Expected(which)
    ensures Read(ApplyResolution(w, txn, Having(w.files, rows, Expected(which)), which).world.files, r.path)
            == Read(w.files, r.path)
  {
    var toWrite := Having(w.files, rows, Expected(which));
    forall a | a in toWrite
      ensures a.path != r.path
    {
      HavingAre(w.files, rows, Expected(which), a);
    }
    WriteRowsElsewhere(w, toWrite, which, r.path);
  }

  // ----- the recovery invariant

  ghost predicate Apart(table: seq<Row>, rows: seq<Row>, txn: TxnId)
  {
    forall other, r :: other in table && r in rows && other.txn != Some(txn) ==> other.path != r.path
  }

  ghost predicate OneIntent(intents: seq<Intent>, intent: Intent)
  {
    forall i :: i in intents && i.txn == intent.txn ==> i == intent
  }

  /** The image the transaction must end on: the target's for a forward intent, pre for a revert. */
  ghost predicate Decided(files: map<Path, string>, rows: seq<Row>, intent: Intent, which: Which)
  {
    match intent.direction
    case Revert => which == Pre
    case Forward =>
      && Lookup(rows, intent.target).Some?
      && StateOf(files, Lookup(rows, intent.target).value) == if which == Post then AtPost else AtPre
  }

  ghost predicate Recovering(w: World, rows: seq<Row>, intent: Intent, which: Which)
  {
    && rows != [] && Members(rows) && Apart(w.rows, rows, intent.txn) && OneIntent(w.intents, intent)
    && (RowsOf(w.rows, intent.txn) == rows || RowsOf(w.rows, intent.txn) == [])
    && Settled(w.files, rows) && Decided(w.files, rows, intent, which)
    && (intent !in w.intents || RowsOf(w.rows, intent.txn) == [] ==> AllAt(w.files, rows, which))
  }

  lemma {:induction false} LookupIn(rows: seq<Row>, path: Path)
    ensures Lookup(rows, path).Some? ==> Lookup(rows, path).value in rows && Lookup(rows, path).value.path == path
  {
    if rows != [] { LookupIn(rows[1..], path); }
  }

  lemma FewerIntents(intents: seq<Intent>, txn: TxnId, intent: Intent)
    ensures OneIntent(intents, intent) ==> OneIntent(IntentsWithout(intents, txn), intent)
    ensures intent in IntentsWithout(intents, txn) <==> intent in intents && intent.txn != txn
  {
  }

  lemma FewerRows(table: seq<Row>, rows: seq<Row>, txn: TxnId, other: TxnId)
    requires Apart(table, rows, other)
    ensures Apart(RowsWithout(table, txn), rows, other)
    ensures RowsOf(RowsWithout(table, txn), other) == if other == txn then [] else RowsOf(table, other)
  {
  }

  /** Moving all members towards the decided image, then closing the intent. */
  lemma AttemptKeeps(w: World, rows: seq<Row>, intent: Intent, which: Which)
    requires Recovering(w, rows, intent, which)
    ensures var e := ApplyResolution(w, intent.txn, Having(w.files, rows, Expected(which)), which);
            && Recovering(e.world, rows, intent, which)
            && e.world.rows == w.rows
            && (e.outcome == Completed ==> intent !in e.world.intents && AllAt(e.world.files, rows, which))
            && (w.luck == HEALTHY ==> e.outcome == Completed && e.world.luck == HEALTHY)
  {
    ApplyKeeps(w, intent.txn, rows, which);
    ApplyTables(w, intent.txn, rows, which);
    FewerIntents(w.intents, intent.txn, intent);
    if intent.direction == Forward {
      var target := Lookup(rows, intent.target).value;
      LookupIn(rows, intent.target);
      ApplyLeaves(w, intent.txn, rows, which, target);
    }
  }

  lemma OwnForward(w: World, rows: seq<Row>, intent: Intent, which: Which)
    requires Recovering(w, rows, intent, which) && intent.direction == Forward && RowsOf(w.rows, intent.txn) == rows
    ensures var e := RepairForward(w, w.files, intent.txn, intent.target, rows);
            && Recovering(e.world, rows, intent, which)
            && (w.luck == HEALTHY ==> e.outcome == Completed && intent !in e.world.intents && e.world.luck == HEALTHY)
  {
    AttemptKeeps(w, rows, intent, which);
  }

  lemma NoneAtPost(w: World, rows: seq<Row>)
    requires Settled(w.files, rows) && Having(w.files, rows, AtPost) == []
    ensures AllAt(w.files, rows, Pre)
  {
  }

  lemma ClearKeeps(w: World, rows: seq<Row>, intent: Intent, which: Which)
    requires Recovering(w, rows, intent, which) && AllAt(w.files, rows, which)
    ensures Recovering(DeleteUndoTransaction(w, intent.txn).world, rows, intent, which)
    ensures Recovering(DeleteCutIntent(w, intent.txn).world, rows, intent, which)
    ensures DeleteCutIntent(w, intent.txn).fate == Lands ==> intent !in DeleteCutIntent(w, intent.txn).world.intents
  {
    FewerRows(w.rows, rows, intent.txn, intent.txn);
    FewerIntents(w.intents, intent.txn, intent);
  }

  lemma OwnRevert(w: World, rows: seq<Row>, intent: Intent)
    requires Recovering(w, rows, intent, Pre) && intent.direction == Revert && RowsOf(w.rows, intent.txn) == rows
    ensures var e := RepairRevert(w, w.files, intent.txn, rows);
            && Recovering(e.world, rows, intent, Pre)
            && (w.luck == HEALTHY ==> e.outcome == Completed && intent !in e.world.intents && e.world.luck == HEALTHY)
            && (w.luck == HEALTHY ==> RowsOf(e.world.rows, intent.txn) == [])
  {
    FewerRows(w.rows, rows, intent.txn, intent.txn);
    if Having(w.files, rows, AtPost) == [] {
      NoneAtPost(w, rows);
      ClearKeeps(w, rows, intent, Pre);
      var d := DeleteUndoTransaction(w, intent.txn);
      ClearKeeps(d.world, rows, intent, Pre);
    } else {
      AttemptKeeps(w, rows, intent, Pre);
      var e := ApplyResolution(w, intent.txn, Having(w.files, rows, AtPost), Pre);
      if e.outcome == Completed { ClearKeeps(e.world, rows, intent, Pre); }
    }
  }

  /** One repair of the transaction itself, interrupted anywhere. */
  lemma OwnStep(w: World, rows: seq<Row>, intent: Intent, which: Which)
    requires Recovering(w, rows, intent, which)
    ensures var e := RepairOne(w, intent);
            && Recovering(e.world, rows, intent, which)
            && (w.luck == HEALTHY ==> e.outcome == Completed && intent !in e.world.intents && e.world.luck == HEALTHY)
            && (RowsOf(w.rows, intent.txn) == [] || (w.luck == HEALTHY && intent.direction == Revert)
                ==> RowsOf(e.world.rows, intent.txn) == [])
  {
    if RowsOf(w.rows, intent.txn) == [] {
      ClearKeeps(w, rows, intent, which);
    } else {
      assert !AnyElsewhere(w.files, rows);
      match intent.direction
      case Forward => OwnForward(w, rows, intent, which);
      case Revert => OwnRevert(w, rows, intent);
    }
  }

  // ----- repairs of other transactions

  ghost predicate OnlyTxn(before: World, after: World, txn: TxnId)
  {
    && (after.rows == before.rows || after.rows == RowsWithout(before.rows, txn))
    && (after.intents == before.intents || after.intents == IntentsWithout(before.intents, txn))
    && (before.luck == HEALTHY ==> after.luck == HEALTHY)
  }

  lemma ResolutionFrame(w: World, txn: TxnId, toWrite: seq<Row>, which: Which)
    ensures OnlyTxn(w, ApplyResolution(w, txn, toWrite, which).world, txn)
    ensures ApplyResolution(w, txn, toWrite, which).world.rows == w.rows
  {
    WriteRowsTables(w, toWrite, which);
  }

  lemma RevertFrame(w: World, txn: TxnId, rows: seq<Row>)
    ensures OnlyTxn(w, RepairRevert(w, w.files, txn, rows).world, txn)
  {
    ResolutionFrame(w, txn, Having(w.files, rows, AtPost), Pre);
  }

  lemma ForwardFrame(w: World, txn: TxnId, target: Path, rows: seq<Row>)
    ensures OnlyTxn(w, RepairForward(w, w.files, txn, target, rows).world, txn)
  {
    ResolutionFrame(w, txn, Having(w.files, rows, AtPost), Pre);
    ResolutionFrame(w, txn, Having(w.files, rows, AtPre), Post);
  }

  /** A repair touches only its own transaction's rows, intent and member files. */
  lemma RepairFrame(w: World, intent: Intent)
    ensures OnlyTxn(w, RepairOne(w, intent).world, intent.txn)
  {
    var rows := RowsOf(w.rows, intent.txn);
    RevertFrame(w, intent.txn, rows);
    ForwardFrame(w, intent.txn, intent.target, rows);
  }

  lemma HavingAvoids(w: World, txn: TxnId, rows: seq<Row>, which: Which, path: Path)
    requires forall r :: r in rows ==> r.path != path
    ensures Read(ApplyResolution(w, txn, Having(w.files, rows, Expected(which)), which).world.files, path)
            == Read(w.files, path)
  {
    var toWrite := Having(w.files, rows, Expected(which));
    forall a | a in toWrite
      ensures a.path != path
    {
      HavingAre(w.files, rows, Expected(which), a);
    }
    WriteRowsElsewhere(w, toWrite, which, path);
  }

  lemma RepairFilesFrame(w: World, intent: Intent, path: Path)
    requires forall r :: r in RowsOf(w.rows, intent.txn) ==> r.path != path
    ensures Read(RepairOne(w, intent).world.files, path) == Read(w.files, path)
  {
    var rows := RowsOf(w.rows, intent.txn);
    if intent.direction == Revert {
      RevertFilesFrame(w, intent.txn, rows, path);
    } else {
      HavingAvoids(w, intent.txn, rows, Pre, path);
      HavingAvoids(w, intent.txn, rows, Post, path);
    }
  }

  lemma RevertFilesFrame(w: World, txn: TxnId, rows: seq<Row>, path: Path)
    requires forall r :: r in rows ==> r.path != path
    ensures Read(RepairRevert(w, w.files, txn, rows).world.files, path) == Read(w.files, path)
  {
    HavingAvoids(w, txn, rows, Pre, path);
  }

  lemma OtherFiles(w: World, rows: seq<Row>, txn: TxnId, other: Intent, r: Row)
    requires Apart(w.rows, rows, txn) && other.txn != txn && r in rows
    ensures Read(RepairOne(w, other).world.files, r.path) == Read(w.files, r.path)
  {
    forall a | a in RowsOf(w.rows, other.txn)
      ensures a.path != r.path
    {
      RowsOfAre(w.rows, other.txn, a);
    }
    RepairFilesFrame(w, other, r.path);
  }

  lemma OtherTables(w: World, rows: seq<Row>, intent: Intent, other: Intent)
    requires Apart(w.rows, rows, intent.txn) && other.txn != intent.txn
    ensures var e := RepairOne(w, other);
            && Apart(e.world.rows, rows, intent.txn)
            && RowsOf(e.world.rows, intent.txn) == RowsOf(w.rows, intent.txn)
            && (OneIntent(w.intents, intent) ==> OneIntent(e.world.intents, intent))
            && (intent in e.world.intents <==> intent in w.intents)
            && (w.luck == HEALTHY ==> e.world.luck == HEALTHY)
  {
    RepairFrame(w, other);
    FewerIntents(w.intents, other.txn, intent);
    FewerRows(w.rows, rows, other.txn, intent.txn);
  }

  lemma SameFiles(before: map<Path, string>, after: map<Path, string>, rows: seq<Row>, intent: Intent, which: Which)
    requires forall r :: r in rows ==> Read(after, r.path) == Read(before, r.path)
    ensures Settled(before, rows) ==> Settled(after, rows)
    ensures AllAt(before, rows, which) ==> AllAt(after, rows, which)
    ensures Decided(before, rows, intent, which) ==> Decided(after, rows, intent, which)
  {
    LookupIn(rows, intent.target);
  }

  lemma OtherStep(w: World, rows: seq<Row>, intent: Intent, which: Which, other: Intent)
    requires Recovering(w, rows, intent, which) && other.txn != intent.txn
    ensures var e := RepairOne(w, other);
            && Recovering(e.world, rows, intent, which)
            && (intent in e.world.intents <==> intent in w.intents)
            && RowsOf(e.world.rows, intent.txn) == RowsOf(w.rows, intent.txn)
            && (w.luck == HEALTHY ==> e.world.luck == HEALTHY)
  {
    var e := RepairOne(w, other);
    OtherTables(w, rows, intent, other);
    forall r | r in rows
      ensures Read(e.world.files, r.path) == Read(w.files, r.path)
    {
      OtherFiles(w, rows, intent.txn, other, r);
    }
    SameFiles(w.files, e.world.files, rows, intent, which);
  }

  // ----- whole runs

  lemma {:induction false} ScanKeeps(w: World, listed: seq<Intent>, rows: seq<Row>, intent: Intent, which: Which)
    requires Recovering(w, rows, intent, which) && OneIntent(listed, intent)
    ensures var e := RepairAll(w, listed);
            && Recovering(e.world, rows, intent, which)
            && (w.luck == HEALTHY && (intent in listed || intent !in w.intents) ==> intent !in e.world.intents)
            && (w.luck == HEALTHY && intent.direction == Revert
                && (intent in listed || RowsOf(w.rows, intent.txn) == [])
                ==> RowsOf(e.world.rows, intent.txn) == [])
    decreases |listed|
  {
    if listed != [] {
      assert listed[0] in listed;
      var e := RepairOne(w, listed[0]);
      if listed[0].txn == intent.txn {
        OwnStep(w, rows, intent, which);
      } else {
        OtherStep(w, rows, intent, which, listed[0]);
      }
      if w.luck == HEALTHY { HealthyNeverDies(w, listed[0]); }
      assert listed == [listed[0]] + listed[1..];
      if e.outcome != Died { ScanKeeps(e.world, listed[1..], rows, intent, which); }
    }
  }

  /** A scan that does not list the intent leaves its rows as they are. */
  lemma {:induction false} ScanWithoutIntent(w: World, listed: seq<Intent>, rows: seq<Row>, intent: Intent,
                                             which: Which)
    requires Recovering(w, rows, intent, which) && OneIntent(listed, intent) && intent !in listed
    ensures RowsOf(RepairAll(w, listed).world.rows, intent.txn) == RowsOf(w.rows, intent.txn)
    decreases |listed|
  {
    if listed != [] {
      assert listed[0] in listed && listed == [listed[0]] + listed[1..];
      OtherStep(w, rows, intent, which, listed[0]);
      var e := RepairOne(w, listed[0]);
      if e.outcome != Died { ScanWithoutIntent(e.world, listed[1..], rows, intent, which); }
    }
  }

  lemma HealthyNeverDies(w: World, intent: Intent)
    requires w.luck == HEALTHY
    ensures RepairOne(w, intent).outcome != Died
  {
    var rows := RowsOf(w.rows, intent.txn);
    HealthyAttempt(w, intent.txn, Having(w.files, rows, AtPost), Pre);
    HealthyAttempt(w, intent.txn, Having(w.files, rows, AtPre), Post);
  }

  lemma HealthyAttempt(w: World, txn: TxnId, toWrite: seq<Row>, which: Which)
    requires w.luck == HEALTHY
    ensures ApplyResolution(w, txn, toWrite, which).outcome != Died
    ensures ApplyResolution(w, txn, toWrite, which).world.luck == HEALTHY
  {
    HealthyWrites(w, toWrite, which);
  }

  lemma {:induction false} HealthyWrites(w: World, toWrite: seq<Row>, which: Which)
    requires w.luck == HEALTHY
    ensures WriteRows(w, toWrite, which).outcome != Died && WriteRows(w, toWrite, which).world.luck == HEALTHY
    decreases |toWrite|
  {
    if toWrite != [] && Image(toWrite[0], which).Some? {
      HealthyWrites(WriteFile(w, toWrite[0].path, Image(toWrite[0], which).value).world, toWrite[1..], which);
    }
  }

  /** Repair runs one after another, each interrupted as its luck says. */
  function Runs(w: World, lucks: seq<Luck>): World
    decreases |lucks|
  {
    if lucks == [] then w else Runs(RepairRun(w.(luck := lucks[0])).world, lucks[1..])
  }

  lemma {:induction false} RunsKeep(w: World, lucks: seq<Luck>, rows: seq<Row>, intent: Intent, which: Which)
    requires Recovering(w, rows, intent, which)
    ensures Recovering(Runs(w, lucks), rows, intent, which)
    decreases |lucks|
  {
    if lucks != [] {
      var start := w.(luck := lucks[0]);
      ScanKeeps(start, start.intents, rows, intent, which);
      RunsKeep(RepairRun(start).world, lucks[1..], rows, intent, which);
    }
  }

  /** A crashed cut or revert as the next run finds it: its rows loaded, every member at pre or post. */
  ghost predicate Crashed(w: World, intent: Intent)
  {
    var rows := RowsOf(w.rows, intent.txn);
    && Keyed(w.rows) && OneIntent(w.intents, intent) && intent in w.intents
    && rows != [] && (forall r :: r in rows ==> r.ending.Some?) && Settled(w.files, rows)
    && (intent.direction == Forward ==> Lookup(rows, intent.target).Some?)
  }

  /** Post exactly when a forward cut's target already stands at its post image. */
  function Decision(w: World, intent: Intent): Which
  {
    var target := Lookup(RowsOf(w.rows, intent.txn), intent.target);
    if intent.direction == Forward && target.Some? && StateOf(w.files, target.value) == AtPost then Post else Pre
  }

  lemma SamePathSameRow(table: seq<Row>, a: Row, b: Row)
    requires Keyed(table) && a in table && b in table && a.path == b.path
    ensures a == b
  {
    OneRowPerPath(table, a);
    OneRowPerPath(table, b);
  }

  lemma CrashedRecovers(w: World, intent: Intent)
    requires Crashed(w, intent)
    ensures Recovering(w, RowsOf(w.rows, intent.txn), intent, Decision(w, intent))
  {
    var rows := RowsOf(w.rows, intent.txn);
    forall r ensures r in rows <==> r in w.rows && r.txn == Some(intent.txn) && r.readable {
      RowsOfAre(w.rows, intent.txn, r);
    }
    forall a, b | a in w.rows && b in w.rows && a.path == b.path
      ensures a == b
    {
      SamePathSameRow(w.rows, a, b);
    }
    LookupIn(rows, intent.target);
  }

  /**
   * The direction never flips: after any interrupted runs the members are settled and the decision is the first one.
   */
  lemma DirectionNeverFlips(w: World, intent: Intent, lucks: seq<Luck>)
    requires Crashed(w, intent)
    ensures var rows, after := RowsOf(w.rows, intent.txn), Runs(w, lucks);
            && Settled(after.files, rows)
            && Decided(after.files, rows, intent, Decision(w, intent))
            && (intent !in after.intents ==> AllAt(after.files, rows, Decision(w, intent)))
            && (intent in after.intents && RowsOf(after.rows, intent.txn) == rows
                ==> Decision(after, intent) == Decision(w, intent))
  {
    CrashedRecovers(w, intent);
    RunsKeep(w, lucks, RowsOf(w.rows, intent.txn), intent, Decision(w, intent));
  }

  /**
   * Any interrupted runs, then a complete one: every member on the decided image and no intent left. A revert
   * leaves no rows either, exactly when the complete run still finds its intent, or its rows gone already.
   */
  lemma RecoveryConverges(w: World, intent: Intent, lucks: seq<Luck>)
    requires Crashed(w, intent)
    ensures var end := RepairRun(Runs(w, lucks).(luck := HEALTHY)).world;
            && AllAt(end.files, RowsOf(w.rows, intent.txn), Decision(w, intent)) && intent !in end.intents
            && (intent.direction == Revert ==>
                  (RowsOf(end.rows, intent.txn) == []
                   <==> intent in Runs(w, lucks).intents || RowsOf(Runs(w, lucks).rows, intent.txn) == []))
  {
    var rows, which := RowsOf(w.rows, intent.txn), Decision(w, intent);
    CrashedRecovers(w, intent);
    RunsKeep(w, lucks, rows, intent, which);
    var last := Runs(w, lucks).(luck := HEALTHY);
    ScanKeeps(last, last.intents, rows, intent, which);
    if intent !in last.intents { ScanWithoutIntent(last, last.intents, rows, intent, which); }
  }

  // ----- a member at neither image

  ghost predicate Stuck(w: World, rows: seq<Row>, intent: Intent)
  {
    && rows != [] && AnyElsewhere(w.files, rows) && RowsOf(w.rows, intent.txn) == rows
    && Apart(w.rows, rows, intent.txn) && OneIntent(w.intents, intent) && intent in w.intents
  }

  ghost predicate SameMembers(before: map<Path, string>, after: map<Path, string>, rows: seq<Row>)
  {
    forall r :: r in rows ==> Read(after, r.path) == Read(before, r.path)
  }

  lemma StuckStep(w: World, rows: seq<Row>, intent: Intent, other: Intent)
    requires Stuck(w, rows, intent) && (other.txn == intent.txn ==> other == intent)
    ensures Stuck(RepairOne(w, other).world, rows, intent)
    ensures SameMembers(w.files, RepairOne(w, other).world.files, rows)
  {
    if other.txn != intent.txn {
      OtherTables(w, rows, intent, other);
      forall r | r in rows
        ensures Read(RepairOne(w, other).world.files, r.path) == Read(w.files, r.path)
      {
        OtherFiles(w, rows, intent.txn, other, r);
      }
      var r :| r in rows && StateOf(w.files, r) == Elsewhere;
      assert StateOf(RepairOne(w, other).world.files, r) == Elsewhere;
    }
  }

  lemma {:induction false} StuckScan(w: World, listed: seq<Intent>, rows: seq<Row>, intent: Intent)
    requires Stuck(w, rows, intent) && OneIntent(listed, intent)
    ensures Stuck(RepairAll(w, listed).world, rows, intent)
    ensures SameMembers(w.files, RepairAll(w, listed).world.files, rows)
    decreases |listed|
  {
    if listed != [] {
      assert listed[0] in listed;
      StuckStep(w, rows, intent, listed[0]);
      if RepairOne(w, listed[0]).outcome != Died {
        StuckScan(RepairOne(w, listed[0]).world, listed[1..], rows, intent);
      }
    }
  }

  lemma {:induction false} StuckRuns(w: World, lucks: seq<Luck>, rows: seq<Row>, intent: Intent)
    requires Stuck(w, rows, intent)
    ensures Stuck(Runs(w, lucks), rows, intent) && SameMembers(w.files, Runs(w, lucks).files, rows)
    decreases |lucks|
  {
    if lucks != [] {
      var start := w.(luck := lucks[0]);
      StuckScan(start, start.intents, rows, intent);
      StuckRuns(RepairRun(start).world, lucks[1..], rows, intent);
    }
  }

  /** One member at neither image: no run writes any member, drops any row or retires the intent. */
  lemma UnknownImageBlocks(w: World, intent: Intent, lucks: seq<Luck>)
    requires Keyed(w.rows) && OneIntent(w.intents, intent) && intent in w.intents
    requires AnyElsewhere(w.files, RowsOf(w.rows, intent.txn))
    ensures SameMembers(w.files, Runs(w, lucks).files, RowsOf(w.rows, intent.txn))
    ensures RowsOf(Runs(w, lucks).rows, intent.txn) == RowsOf(w.rows, intent.txn) && intent in Runs(w, lucks).intents
  {
    var rows := RowsOf(w.rows, intent.txn);
    forall r ensures r in rows <==> r in w.rows && r.txn == Some(intent.txn) && r.readable {
      RowsOfAre(w.rows, intent.txn, r);
    }
    forall a, b | a in w.rows && b in w.rows && a.path == b.path
      ensures a == b
    {
      SamePathSameRow(w.rows, a, b);
    }
    StuckRuns(w, lucks, rows, intent);
  }

  // ----- the target's row overwritten by a later edit

  /** With the target's row gone to another transaction, a forward repair writes nothing at all. */
  lemma LaterEditStopsForward(w: World, intent: Intent, row: Row)
    requires Keyed(w.rows) && intent.direction == Forward && row.path == intent.target && row.txn != Some(intent.txn)
    ensures RepairOne(w.(rows := PutRow(w.rows, row)), intent).world.files == w.files
  {
    var table := PutRow(w.rows, row);
    var rows := RowsOf(table, intent.txn);
    PutKeepsKeyed(w.rows, row);
    PutThenLookup(w.rows, row, row.path);
    LookupIn(rows, intent.target);
    if Lookup(rows, intent.target).Some? {
      var found := Lookup(rows, intent.target).value;
      RowsOfAre(table, intent.txn, found);
      OneRowPerPath(table, found);
      assert false;
    }
  }

  // ----- nothing left to resolve from

  /** An intent without rows, or a forward one whose target's row is gone, is retired and nothing else is touched. */
  lemma RetiresWithoutEvidence(w: World, intent: Intent)
    requires var rows := RowsOf(w.rows, intent.txn);
             rows == [] || (intent.direction == Forward && !AnyElsewhere(w.files, rows)
                            && forall r :: r in rows ==> r.path != intent.target)
    requires FateOf(w.luck) == Lands
    ensures var e := RepairOne(w, intent);
            && e.outcome == Completed && e.world.files == w.files && e.world.rows == w.rows
            && forall i :: i in e.world.intents <==> i in w.intents && i.txn != intent.txn
  {
    LookupIn(RowsOf(w.rows, intent.txn), intent.target);
    forall i ensures i in IntentsWithout(w.intents, intent.txn) <==> i in w.intents && i.txn != intent.txn {
      IntentsWithoutAre(w.intents, intent.txn, i);
    }
  }
}
