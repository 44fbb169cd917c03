/** Outside writers between a repair's scan and its queues: what the second look saves, and what it cannot see. */
module CutInterference {

  import opened CutRecovery
  import opened CutRepair
  import opened LexOrder
  import opened Options
  import opened UndoStore

  /** The members a repair is about to write, by its scan. */
  function ToWrite(seen: map<Path, string>, rows: seq<Row>, which: Which): seq<Row>
  {
    Having(seen, rows, Expected(which))
  }

  /** Some member about to be written no longer holds the image it was scanned at. */
  ghost predicate Moved(seen: map<Path, string>, now: map<Path, string>, rows: seq<Row>, which: Which)
  {
    exists r :: r in rows && StateOf(seen, r) == Expected(which) && StateOf(now, r) != Expected(which)
  }

  /** `now` is what outside writers made of the member files `w` was scanned with. */
  function Locked(w: World, now: map<Path, string>): World
  {
    w.(files := now)
  }

  lemma ToWriteAre(seen: map<Path, string>, rows: seq<Row>, which: Which)
    ensures forall r :: r in ToWrite(seen, rows, which) <==> r in rows && StateOf(seen, r) == Expected(which)
  {
    forall r ensures r in ToWrite(seen, rows, which) <==> r in rows && StateOf(seen, r) == Expected(which) {
      HavingAre(seen, rows, Expected(which), r);
    }
  }

  /** What an arm leaves, against one plain attempt to move the members to write. */
  ghost predicate ArmLeaves(w: World, now: map<Path, string>, intent: Intent, toWrite: seq<Row>, which: Which)
  {
    var a := ApplyResolution(Locked(w, now), intent.txn, toWrite, which);
    var e := RepairAmid(Locked(w, now), w.files, intent);
    && e.world.files == a.world.files
    && (toWrite != [] || w.luck == HEALTHY ==> (intent in e.world.intents <==> intent in a.world.intents))
    && (a.outcome == Refused ==> e == a)
  }

  lemma NothingToWrite(w: World, now: map<Path, string>, txn: TxnId, which: Which)
    ensures ApplyResolution(Locked(w, now), txn, [], which) == Close(DeleteCutIntent(Locked(w, now), txn))
  {
  }

  lemma ArmRevert(w: World, now: map<Path, string>, intent: Intent)
    requires Crashed(w, intent) && intent.direction == Revert
    ensures ArmLeaves(w, now, intent, ToWrite(w.files, RowsOf(w.rows, intent.txn), Pre), Pre)
  {
    assert !AnyElsewhere(w.files, RowsOf(w.rows, intent.txn));
    FewerIntents(w.intents, intent.txn, intent);
    NothingToWrite(w, now, intent.txn, Pre);
  }

  lemma ArmForward(w: World, now: map<Path, string>, intent: Intent)
    requires Crashed(w, intent) && intent.direction == Forward
    ensures var which := Decision(w, intent);
            ArmLeaves(w, now, intent, ToWrite(w.files, RowsOf(w.rows, intent.txn), which), which)
  {
    assert !AnyElsewhere(w.files, RowsOf(w.rows, intent.txn));
  }

  /** The decision of the scan picks the arm. */
  lemma ArmOf(w: World, now: map<Path, string>, intent: Intent)
    requires Crashed(w, intent)
    ensures ArmLeaves(w, now, intent, ToWrite(w.files, RowsOf(w.rows, intent.txn), Decision(w, intent)),
                      Decision(w, intent))
  {
    match intent.direction
    case Revert => ArmRevert(w, now, intent);
    case Forward => ArmForward(w, now, intent);
  }

  lemma ToWriteHealthy(w: World, now: map<Path, string>, intent: Intent)
    requires Crashed(w, intent)
    ensures var rows, which := RowsOf(w.rows, intent.txn), Decision(w, intent);
            var toWrite := ToWrite(w.files, rows, which);
            && (AllSeen(now, toWrite, Expected(which)) <==> !Moved(w.files, now, rows, which))
            && forall r :: r in toWrite ==> r.ending.Some? && Distinct(toWrite, r)
  {
    var rows, which := RowsOf(w.rows, intent.txn), Decision(w, intent);
    ToWriteAre(w.files, rows, which);
    CrashedRecovers(w, intent);
  }

  /**
   * No outside edit to a member about to be written is overwritten: a moved one stops the repair, which then
   * writes nothing and keeps rows and intent; and a member is only ever written over the image it was scanned at.
   */
  lemma OutsideEditsSurvive(w: World, now: map<Path, string>, intent: Intent)
    requires Crashed(w, intent)
    ensures var rows, which := RowsOf(w.rows, intent.txn), Decision(w, intent);
            var e := RepairAmid(Locked(w, now), w.files, intent);
            && (Moved(w.files, now, rows, which) ==> e == Ended(Locked(w, now), Refused))
            && forall r :: r in rows ==>
                 || Read(e.world.files, r.path) == Read(now, r.path)
                 || (StateOf(w.files, r) == StateOf(now, r) == Expected(which) && HasImage(e.world.files, r, which))
  {
    var rows, which := RowsOf(w.rows, intent.txn), Decision(w, intent);
    var toWrite := ToWrite(w.files, rows, which);
    ArmOf(w, now, intent);
    ToWriteHealthy(w, now, intent);
    ToWriteAre(w.files, rows, which);
    if !Moved(w.files, now, rows, which) {
      forall r | r in rows
        ensures var after := WriteRows(Locked(w, now), toWrite, which).world.files;
                Read(after, r.path) == Read(now, r.path) || (r in toWrite && HasImage(after, r, which))
      {
        WrittenOrLeft(w, now, intent, r);
      }
    }
  }

  lemma WrittenOrLeft(w: World, now: map<Path, string>, intent: Intent, r: Row)
    requires Crashed(w, intent) && r in RowsOf(w.rows, intent.txn)
    ensures var rows, which := RowsOf(w.rows, intent.txn), Decision(w, intent);
            var toWrite := ToWrite(w.files, rows, which);
            var e := WriteRows(Locked(w, now), toWrite, which);
            && (Read(e.world.files, r.path) == Read(now, r.path) || (r in toWrite && HasImage(e.world.files, r, which)))
            && (e.outcome == Completed && r in toWrite ==> HasImage(e.world.files, r, which))
            && (r !in toWrite ==> Read(e.world.files, r.path) == Read(now, r.path))
  {
    var rows, which := RowsOf(w.rows, intent.txn), Decision(w, intent);
    CrashedRecovers(w, intent);
    ToWriteAre(w.files, rows, which);
    WriteRowsAt(Locked(w, now), ToWrite(w.files, rows, which), which, r);
  }

  /**
   * The second look does not cover the members already on the decided image. With nothing failing and nothing moved
   * among those to write, the intent is retired, and the transaction is on one image exactly when those others
   * still stand there: an outside edit to one of them goes unnoticed.
   */
  lemma RetiresUnevenExactlyWhen(w: World, now: map<Path, string>, intent: Intent)
    requires Crashed(w, intent) && w.luck == HEALTHY
    ensures var rows, which := RowsOf(w.rows, intent.txn), Decision(w, intent);
            var e := RepairAmid(Locked(w, now), w.files, intent);
            && (intent !in e.world.intents <==> !Moved(w.files, now, rows, which))
            && (!Moved(w.files, now, rows, which) ==>
                  (AllAt(e.world.files, rows, which)
                   <==> forall r :: r in rows && StateOf(w.files, r) != Expected(which) ==> HasImage(now, r, which)))
  {
    var rows, which := RowsOf(w.rows, intent.txn), Decision(w, intent);
    var toWrite := ToWrite(w.files, rows, which);
    ArmOf(w, now, intent);
    ToWriteHealthy(w, now, intent);
    ToWriteAre(w.files, rows, which);
    if !Moved(w.files, now, rows, which) {
      WriteRowsTables(Locked(w, now), toWrite, which);
      FewerIntents(w.intents, intent.txn, intent);
      forall r | r in rows
        ensures var after := WriteRows(Locked(w, now), toWrite, which).world.files;
                if r in toWrite then HasImage(after, r, which) else Read(after, r.path) == Read(now, r.path)
      {
        WrittenOrLeft(w, now, intent, r);
      }
    }
  }

  /**
   * Two members, the target at post. The target is edited outside after the scan; the repair still writes the other
   * member and retires the intent, with the target at neither image.
   */
  lemma EditedTargetGoesUnnoticed()
    ensures
      var target, source := OneChar([0], 'a', 'b'), OneChar([1], 'c', 'd');
      var intent := Intent(1, [0], Forward);
      var w := World(map[[0] := "b", [1] := "c"], [target, source], [intent], HEALTHY);
      var now := map[[0] := "x", [1] := "c"];
      var e := RepairAmid(Locked(w, now), w.files, intent);
      && Crashed(w, intent) && intent !in e.world.intents
      && Read(e.world.files, [0]) == Some("x") && StateOf(e.world.files, target) == Elsewhere
  {
    var target, source := OneChar([0], 'a', 'b'), OneChar([1], 'c', 'd');
    var rows, intent := [target, source], Intent(1, [0], Forward);
    var w := World(map[[0] := "b", [1] := "c"], rows, [intent], HEALTHY);
    var now := map[[0] := "x", [1] := "c"];
    OneCharImages([0], 'a', 'b');
    OneCharImages([1], 'c', 'd');
    RowsOfPair(target, source, 1);
    assert Less([0], [1]);
    assert HasImage(w.files, target, Post) && HasImage(w.files, source, Pre) && Lookup(rows, [0]) == Some(target);
    assert Crashed(w, intent);
    assert StateOf(now, source) == AtPre;
    RetiresUnevenExactlyWhen(w, now, intent);
    OutsideEditsSurvive(w, now, intent);
  }
}
