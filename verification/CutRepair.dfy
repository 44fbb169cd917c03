/** Next-run repair of a crashed two-file cut or a defeated undo, from the undo rows and the intent alone. */
module CutRepair {

  import opened Endings
  import opened Options
  import opened UndoStore

  datatype Which = Pre | Post

  datatype Seen = AtPre | AtPost | Elsewhere

  datatype Outcome = Completed | Refused | Threw | Died

  datatype Ended = Ended(world: World, outcome: Outcome)

  function Close(d: Done): Ended
  {
    Ended(d.world, match d.fate case Lands => Completed case Throws => Threw case Dies => Died)
  }

  /** The raw pre image when the row has one, else the canonical serialization; none under an invalid ending. */
  function Image(row: Row, which: Which): Option<string>
  {
    if which == Pre && row.rawPre.Some? then row.rawPre
    else if row.ending.None? then None
    else Some(row.bom + RestoreEndings(if which == Pre then row.content else row.result, row.ending.value))
  }

  /** The post image is compared first. */
  function StateOf(files: map<Path, string>, row: Row): Seen
  {
    var bytes := Read(files, row.path);
    if bytes.None? then Elsewhere
    else if Image(row, Post) == bytes then AtPost
    else if Image(row, Pre) == bytes then AtPre
    else Elsewhere
  }

  function Having(files: map<Path, string>, rows: seq<Row>, seen: Seen): seq<Row>
  {
    if rows == [] then []
    else if StateOf(files, rows[0]) == seen then [rows[0]] + Having(files, rows[1..], seen)
    else Having(files, rows[1..], seen)
  }

  predicate AllSeen(files: map<Path, string>, rows: seq<Row>, seen: Seen)
  {
    forall row :: row in rows ==> StateOf(files, row) == seen
  }

  predicate AnyElsewhere(files: map<Path, string>, rows: seq<Row>)
  {
    exists row :: row in rows && StateOf(files, row) == Elsewhere
  }

  function WriteRows(w: World, toWrite: seq<Row>, which: Which): Ended
    decreases |toWrite|
  {
    if toWrite == [] then Ended(w, Completed)
    else match Image(toWrite[0], which)
      case None => Ended(w, Refused)
      case Some(bytes) =>
        var d := WriteFile(w, toWrite[0].path, bytes);
        if d.fate == Lands then WriteRows(d.world, toWrite[1..], which) else Close(d)
  }

  function Expected(which: Which): Seen
  {
    if which == Post then AtPre else AtPost
  }

  function ApplyResolution(w: World, txn: TxnId, toWrite: seq<Row>, which: Which): Ended
  {
    if !AllSeen(w.files, toWrite, Expected(which)) then Ended(w, Refused)
    else
      var e := WriteRows(w, toWrite, which);
      if e.outcome == Completed then Close(DeleteCutIntent(e.world, txn)) else e
  }

  function RepairRevert(w: World, seen: map<Path, string>, txn: TxnId, rows: seq<Row>): Ended
  {
    var toWrite := Having(seen, rows, AtPost);
    if toWrite == [] then
      var d := DeleteUndoTransaction(w, txn);
      if d.fate == Lands then Close(DeleteCutIntent(d.world, txn)) else Close(d)
    else
      var e := ApplyResolution(w, txn, toWrite, Pre);
      if e.outcome == Completed then Close(DeleteUndoTransaction(e.world, txn)) else e
  }

  function RepairForward(w: World, seen: map<Path, string>, txn: TxnId, target: Path, rows: seq<Row>): Ended
  {
    match Lookup(rows, target)
    case None => Close(DeleteCutIntent(w, txn))
    case Some(row) =>
      if StateOf(seen, row) == AtPost then ApplyResolution(w, txn, Having(seen, rows, AtPre), Post)
      else ApplyResolution(w, txn, Having(seen, rows, AtPost), Pre)
  }

  /** One repair whose scan saw the files as `seen`; outside writers have since made them what `w` holds. */
  function RepairAmid(w: World, seen: map<Path, string>, intent: Intent): Ended
  {
    var rows := RowsOf(w.rows, intent.txn);
    if rows == [] then Close(DeleteCutIntent(w, intent.txn))
    else if AnyElsewhere(seen, rows) then Ended(w, Refused)
    else match intent.direction
      case Revert => RepairRevert(w, seen, intent.txn, rows)
      case Forward => RepairForward(w, seen, intent.txn, intent.target, rows)
  }

  function RepairOne(w: World, intent: Intent): Ended
  {
    RepairAmid(w, w.files, intent)
  }

  /** A throw leaves that intent in place and goes on to the next; only the death of the process stops the scan. */
  function RepairAll(w: World, listed: seq<Intent>): Ended
    decreases |listed|
  {
    if listed == [] then Ended(w, Completed)
    else
      var e := RepairOne(w, listed[0]);
      if e.outcome == Died then e else RepairAll(e.world, listed[1..])
  }

  function RepairRun(w: World): Ended
  {
    RepairAll(w, w.intents)
  }

  // ----- the program

  method SeenStates(store: Store, rows: seq<Row>) returns (states: seq<Seen>)
    ensures |states| == |rows|
    ensures forall i :: 0 <= i < |rows| ==> states[i] == StateOf(store.files, rows[i])
  {
    states := [];
    for i := 0 to |rows|
      invariant |states| == i
      invariant forall j :: 0 <= j < i ==> states[j] == StateOf(store.files, rows[j])
    {
      states := states + [StateOf(store.files, rows[i])];
    }
  }

  method Filtered(ghost files: map<Path, string>, rows: seq<Row>, states: seq<Seen>, seen: Seen) returns (out: seq<Row>)
    requires |states| == |rows|
    requires forall i :: 0 <= i < |rows| ==> states[i] == StateOf(files, rows[i])
    ensures out == Having(files, rows, seen)
  {
    hide StateOf;
    out := [];
    for i := 0 to |rows|
      invariant out + Having(files, rows[i..], seen) == Having(files, rows, seen)
    {
      assert rows[i..][1..] == rows[i + 1..];
      if states[i] == seen { out := out + [rows[i]]; }
    }
  }

  method Resolve(store: Store, txn: TxnId, toWrite: seq<Row>, which: Which) returns (outcome: Outcome)
    modifies store
    ensures Ended(store.Now(), outcome) == ApplyResolution(old(store.Now()), txn, toWrite, which)
  {
    for i := 0 to |toWrite|
      invariant forall j :: 0 <= j < i ==> StateOf(store.files, toWrite[j]) == Expected(which)
    {
      if StateOf(store.files, toWrite[i]) != Expected(which) { return Refused; }
    }
    assert AllSeen(store.files, toWrite, Expected(which));
    for i := 0 to |toWrite|
      invariant WriteRows(store.Now(), toWrite[i..], which) == WriteRows(old(store.Now()), toWrite, which)
    {
      assert toWrite[i..][1..] == toWrite[i + 1..];
      var bytes := Image(toWrite[i], which);
      if bytes.None? { return Refused; }
      var written := store.WriteAtomic(toWrite[i].path, bytes.value);
      if written == Throws { return Threw; }
      if written == Dies { return Died; }
    }
    var dropped := store.DropIntent(txn);
    return match dropped case Lands => Completed case Throws => Threw case Dies => Died;
  }

  /** Outside writers leave the files as `now` after the scan and before the queues are entered. */
  method Repair(store: Store, intent: Intent, now: map<Path, string>) returns (outcome: Outcome)
    modifies store
    ensures Ended(store.Now(), outcome) == RepairAmid(old(store.Now()).(files := now), old(store.files), intent)
  {
    ghost var seen := store.files;
    var rows := store.GetUndoTransaction(intent.txn);
    var states := SeenStates(store, rows);
    store.files := now;
    if rows == [] {
      outcome := CloseIntent(store, intent.txn);
      return;
    }
    for i := 0 to |states|
      invariant forall j :: 0 <= j < i ==> states[j] != Elsewhere
    {
      if states[i] == Elsewhere {
        assert rows[i] in rows;
        return Refused;
      }
    }
    assert !AnyElsewhere(seen, rows);
    if intent.direction == Revert {
      outcome := FinishRevert(store, seen, intent.txn, rows, states);
    } else {
      outcome := FinishForward(store, seen, intent.txn, intent.target, rows, states);
    }
  }

  method CloseIntent(store: Store, txn: TxnId) returns (outcome: Outcome)
    modifies store
    ensures Ended(store.Now(), outcome) == Close(DeleteCutIntent(old(store.Now()), txn))
  {
    var dropped := store.DropIntent(txn);
    return match dropped case Lands => Completed case Throws => Threw case Dies => Died;
  }

  method CloseRows(store: Store, txn: TxnId) returns (outcome: Outcome)
    modifies store
    ensures Ended(store.Now(), outcome) == Close(DeleteUndoTransaction(old(store.Now()), txn))
  {
    var cleared := store.ClearTransaction(txn);
    return match cleared case Lands => Completed case Throws => Threw case Dies => Died;
  }

  method FinishRevert(store: Store, ghost seen: map<Path, string>, txn: TxnId, rows: seq<Row>, states: seq<Seen>)
    returns (outcome: Outcome)
    requires |states| == |rows|
    requires forall i :: 0 <= i < |rows| ==> states[i] == StateOf(seen, rows[i])
    modifies store
    ensures Ended(store.Now(), outcome) == RepairRevert(old(store.Now()), seen, txn, rows)
  {
    var toWrite := Filtered(seen, rows, states, AtPost);
    if toWrite == [] {
      outcome := CloseRows(store, txn);
      if outcome == Completed { outcome := CloseIntent(store, txn); }
    } else {
      outcome := Resolve(store, txn, toWrite, Pre);
      if outcome == Completed { outcome := CloseRows(store, txn); }
    }
  }

  method FinishForward(store: Store, ghost seen: map<Path, string>, txn: TxnId, target: Path, rows: seq<Row>,
                       states: seq<Seen>)
    returns (outcome: Outcome)
    requires |states| == |rows|
    requires forall i :: 0 <= i < |rows| ==> states[i] == StateOf(seen, rows[i])
    modifies store
    ensures Ended(store.Now(), outcome) == RepairForward(old(store.Now()), seen, txn, target, rows)
  {
    var at := TargetAt(rows, target);
    if at == |rows| {
      outcome := CloseIntent(store, txn);
      return;
    }
    if states[at] == AtPost {
      var toWrite := Filtered(seen, rows, states, AtPre);
      outcome := Resolve(store, txn, toWrite, Post);
    } else {
      var toWrite := Filtered(seen, rows, states, AtPost);
      outcome := Resolve(store, txn, toWrite, Pre);
    }
  }

  /** `rows.find`: the position of the target's row, or the length without one. */
  method TargetAt(rows: seq<Row>, target: Path) returns (at: nat)
    ensures at <= |rows| && Lookup(rows, target) == if at < |rows| then Some(rows[at]) else None
  {
    for i := 0 to |rows|
      invariant Lookup(rows[i..], target) == Lookup(rows, target)
    {
      assert rows[i..][0] == rows[i] && rows[i..][1..] == rows[i + 1..];
      if rows[i].path == target { return i; }
    }
    return |rows|;
  }

  method RepairCutIntents(store: Store) returns (outcome: Outcome)
    modifies store
    ensures Ended(store.Now(), outcome) == RepairRun(old(store.Now()))
  {
    var listed := store.intents;
    for i := 0 to |listed|
      invariant RepairAll(store.Now(), listed[i..]) == RepairRun(old(store.Now()))
    {
      assert listed[i..][1..] == listed[i + 1..];
      outcome := Repair(store, listed[i], store.files);
      if outcome == Died { return Died; }
    }
    return Completed;
  }

  // ----- the smallest member, for worked cases

  /** A file whose whole text went from one character to another. */
  function OneChar(path: Path, before: char, after: char): Row
  {
    Row(path, Some(1), [before], [after], "", Some(LF), None, true)
  }

  lemma OneCharImages(path: Path, before: char, after: char)
    requires before != '\n' && after != '\n'
    ensures Image(OneChar(path, before, after), Pre) == Some([before])
    ensures Image(OneChar(path, before, after), Post) == Some([after])
  {
    assert [before][1..] == "" && [after][1..] == "";
    assert RestoreEndings([before], LF) == [before] + RestoreEndings("", LF) == [before];
    assert RestoreEndings([after], LF) == [after] + RestoreEndings("", LF) == [after];
    assert "" + [before] == [before] && "" + [after] == [after];
  }

  lemma RowsOfPair(a: Row, b: Row, txn: TxnId)
    requires a.txn == Some(txn) && a.readable && b.txn == Some(txn)
    ensures RowsOf([a, b], txn) == if b.readable then [a, b] else [a]
  {
    assert [a, b][1..] == [b] && [b][1..] == [];
    assert RowsOf([b], txn) == if b.readable then [b] else [];
  }
}
