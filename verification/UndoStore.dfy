/** The durable side of a correlated cut: member files, undo rows keyed by path, and intents keyed by transaction. */
module UndoStore {

  import opened Endings
  import opened LexOrder
  import opened Options

  type Path = seq<int>
  type TxnId = nat

  /** `ending` is absent when the stored text is none of the three endings; an unreadable row has corrupt hashes. */
  datatype Row = Row(path: Path, txn: Option<TxnId>, content: string, result: string, bom: string,
                     ending: Option<LineEnding>, rawPre: Option<string>, readable: bool)

  datatype Direction = Forward | Revert

  datatype Intent = Intent(txn: TxnId, target: Path, direction: Direction)

  /** What becomes of one durable step: it lands, it throws without landing, or the process dies before it. */
  datatype Fate = Lands | Throws | Dies

  /** A scripted prefix of steps; afterwards everything lands (healthy) or the process is dead. */
  datatype Luck = Luck(steps: seq<bool>, healthy: bool)

  function FateOf(luck: Luck): Fate
  {
    if luck.steps == [] then (if luck.healthy then Lands else Dies)
    else if luck.steps[0] then Lands else Throws
  }

  function Rest(luck: Luck): Luck
  {
    if luck.steps == [] then luck else Luck(luck.steps[1..], luck.healthy)
  }

  const HEALTHY := Luck([], true)

  /** The durable state, and the fate of the steps still to come. */
  datatype World = World(files: map<Path, string>, rows: seq<Row>, intents: seq<Intent>, luck: Luck)

  datatype Done = Done(world: World, fate: Fate)

  function Read(files: map<Path, string>, path: Path): Option<string>
  {
    if path in files then Some(files[path]) else None
  }

  // ----- tables

  /** Rows stand in path order, one per path. */
  predicate Keyed(rows: seq<Row>)
  {
    |rows| < 2 || (Less(rows[0].path, rows[1].path) && Keyed(rows[1..]))
  }

  function Lookup(rows: seq<Row>, path: Path): Option<Row>
  {
    if rows == [] then None else if rows[0].path == path then Some(rows[0]) else Lookup(rows[1..], path)
  }

  function PutRow(rows: seq<Row>, row: Row): seq<Row>
  {
    if rows == [] then [row]
    else if rows[0].path == row.path then [row] + rows[1..]
    else if Less(row.path, rows[0].path) then [row] + rows
    else [rows[0]] + PutRow(rows[1..], row)
  }

  /** The readable rows of a transaction, in path order. */
  function RowsOf(rows: seq<Row>, txn: TxnId): seq<Row>
  {
    if rows == [] then []
    else if rows[0].txn == Some(txn) && rows[0].readable then [rows[0]] + RowsOf(rows[1..], txn)
    else RowsOf(rows[1..], txn)
  }

  function RowsWithout(rows: seq<Row>, txn: TxnId): seq<Row>
  {
    if rows == [] then []
    else if rows[0].txn == Some(txn) then RowsWithout(rows[1..], txn)
    else [rows[0]] + RowsWithout(rows[1..], txn)
  }

  function IntentsWithout(intents: seq<Intent>, txn: TxnId): seq<Intent>
  {
    if intents == [] then []
    else if intents[0].txn == txn then IntentsWithout(intents[1..], txn)
    else [intents[0]] + IntentsWithout(intents[1..], txn)
  }

  // ----- single durable steps

  function WriteFile(w: World, path: Path, bytes: string): Done
  {
    var fate := FateOf(w.luck);
    Done(w.(files := if fate == Lands then w.files[path := bytes] else w.files, luck := Rest(w.luck)), fate)
  }

  function DeleteUndoTransaction(w: World, txn: TxnId): Done
  {
    var fate := FateOf(w.luck);
    Done(w.(rows := if fate == Lands then RowsWithout(w.rows, txn) else w.rows, luck := Rest(w.luck)), fate)
  }

  function DeleteCutIntent(w: World, txn: TxnId): Done
  {
    var fate := FateOf(w.luck);
    Done(w.(intents := if fate == Lands then IntentsWithout(w.intents, txn) else w.intents, luck := Rest(w.luck)), fate)
  }

  /** A second intent of the same transaction replaces the first and is listed last. */
  function WriteCutIntent(w: World, intent: Intent): Done
  {
    var fate := FateOf(w.luck);
    Done(w.(intents := if fate == Lands then IntentsWithout(w.intents, intent.txn) + [intent] else w.intents,
            luck := Rest(w.luck)), fate)
  }

  class Store {
    var files: map<Path, string>
    var rows: seq<Row>
    var intents: seq<Intent>
    var luck: Luck

    ghost function Now(): World
      reads this
    {
      World(files, rows, intents, luck)
    }

    constructor (w: World)
      ensures Now() == w
    {
      files, rows, intents, luck := w.files, w.rows, w.intents, w.luck;
    }

    /** Draws the fate of the next durable step. */
    method Draw() returns (fate: Fate)
      modifies this`luck
      ensures fate == FateOf(old(luck)) && luck == Rest(old(luck))
    {
      fate := FateOf(luck);
      luck := Rest(luck);
    }

    method WriteAtomic(path: Path, bytes: string) returns (fate: Fate)
      modifies this
      ensures Done(Now(), fate) == WriteFile(old(Now()), path, bytes)
    {
      fate := Draw();
      if fate == Lands { files := files[path := bytes]; }
    }

    method ClearTransaction(txn: TxnId) returns (fate: Fate)
      modifies this
      ensures Done(Now(), fate) == DeleteUndoTransaction(old(Now()), txn)
    {
      fate := Draw();
      if fate == Lands { rows := RowsWithout(rows, txn); }
    }

    method DropIntent(txn: TxnId) returns (fate: Fate)
      modifies this
      ensures Done(Now(), fate) == DeleteCutIntent(old(Now()), txn)
    {
      fate := Draw();
      if fate == Lands { intents := IntentsWithout(intents, txn); }
    }

    method SaveIntent(intent: Intent) returns (fate: Fate)
      modifies this
      ensures Done(Now(), fate) == WriteCutIntent(old(Now()), intent)
    {
      fate := Draw();
      if fate == Lands { intents := IntentsWithout(intents, intent.txn) + [intent]; }
    }

    /** The row replaces its path's row; every other path keeps its own, and the table its order. */
    method UpsertUndo(row: Row)
      requires Keyed(rows)
      modifies this`rows
      ensures Keyed(rows) && Lookup(rows, row.path) == Some(row)
      ensures forall path :: path != row.path ==> Lookup(rows, path) == Lookup(old(rows), path)
      ensures forall r :: r in rows <==> r == row || (r in old(rows) && r.path != row.path)
    {
      PutKeepsKeyed(rows, row);
      forall path
        ensures Lookup(PutRow(rows, row), path) == if path == row.path then Some(row) else Lookup(rows, path)
      {
        PutThenLookup(rows, row, path);
      }
      forall r
        ensures r in PutRow(rows, row) <==> r == row || (r in rows && r.path != row.path)
      {
        PutRowAre(rows, row, r);
      }
      rows := PutRow(rows, row);
    }

    method GetUndoTransaction(txn: TxnId) returns (out: seq<Row>)
      ensures out == RowsOf(rows, txn)
    {
      out := [];
      for i := 0 to |rows|
        invariant out + RowsOf(rows[i..], txn) == RowsOf(rows, txn)
      {
        assert rows[i..][1..] == rows[i + 1..];
        if rows[i].txn == Some(txn) && rows[i].readable { out := out + [rows[i]]; }
      }
    }
  }

  // ----- the tables keep their keys

  lemma {:induction false} PutKeepsKeyed(rows: seq<Row>, row: Row)
    requires Keyed(rows)
    ensures Keyed(PutRow(rows, row))
    ensures rows != [] && !Less(row.path, rows[0].path) ==> PutRow(rows, row)[0].path == rows[0].path
  {
    if rows != [] {
      Trichotomy(rows[0].path, row.path);
      if rows[0].path == row.path {
        assert ([row] + rows[1..])[1..] == rows[1..];
      } else if Less(row.path, rows[0].path) {
        assert ([row] + rows)[1..] == rows;
      } else {
        PutKeepsKeyed(rows[1..], row);
        assert ([rows[0]] + PutRow(rows[1..], row))[1..] == PutRow(rows[1..], row);
      }
    }
  }

  /** The upsert is keyed by path: it replaces that path's row and no other. */
  lemma {:induction false} PutThenLookup(rows: seq<Row>, row: Row, path: Path)
    ensures Lookup(PutRow(rows, row), path) == if path == row.path then Some(row) else Lookup(rows, path)
  {
    if rows != [] {
      if rows[0].path == row.path {
        assert ([row] + rows[1..])[1..] == rows[1..];
      } else if Less(row.path, rows[0].path) {
        assert ([row] + rows)[1..] == rows;
      } else {
        PutThenLookup(rows[1..], row, path);
        assert ([rows[0]] + PutRow(rows[1..], row))[1..] == PutRow(rows[1..], row);
      }
    }
  }

  lemma {:induction false} KeyedHeadLess(rows: seq<Row>, row: Row)
    requires Keyed(rows) && rows != [] && row in rows[1..]
    ensures Less(rows[0].path, row.path)
  {
    if row != rows[1] {
      KeyedHeadLess(rows[1..], row);
      Transitive(rows[0].path, rows[1].path, row.path);
    }
  }

  lemma {:induction false} OneRowPerPath(rows: seq<Row>, row: Row)
    requires Keyed(rows) && row in rows
    ensures Lookup(rows, row.path) == Some(row)
  {
    if rows[0] != row {
      assert row in rows[1..];
      KeyedHeadLess(rows, row);
      Trichotomy(rows[0].path, row.path);
      KeyedTail(rows);
      OneRowPerPath(rows[1..], row);
    }
  }

  lemma KeyedTail(rows: seq<Row>)
    requires Keyed(rows) && rows != []
    ensures Keyed(rows[1..])
  {
  }

  /** The table's rows are exactly what its lookups find. */
  lemma {:induction false} KeyedIn(rows: seq<Row>, row: Row)
    requires Keyed(rows)
    ensures row in rows <==> Lookup(rows, row.path) == Some(row)
  {
    if row in rows {
      OneRowPerPath(rows, row);
    } else if rows != [] {
      KeyedTail(rows);
      KeyedIn(rows[1..], row);
      assert rows == [rows[0]] + rows[1..];
    }
  }

  lemma PutRowAre(rows: seq<Row>, row: Row, r: Row)
    requires Keyed(rows)
    ensures r in PutRow(rows, row) <==> r == row || (r in rows && r.path != row.path)
  {
    PutKeepsKeyed(rows, row);
    PutThenLookup(rows, row, r.path);
    KeyedIn(rows, r);
    KeyedIn(PutRow(rows, row), r);
  }

  // ----- a transaction's rows and everyone else's

  lemma {:induction false} RowsOfAre(rows: seq<Row>, txn: TxnId, row: Row)
    ensures row in RowsOf(rows, txn) <==> row in rows && row.txn == Some(txn) && row.readable
  {
    if rows != [] {
      RowsOfAre(rows[1..], txn, row);
      assert rows == [rows[0]] + rows[1..];
    }
  }

  lemma {:induction false} RowsWithoutAre(rows: seq<Row>, txn: TxnId, row: Row)
    ensures row in RowsWithout(rows, txn) <==> row in rows && row.txn != Some(txn)
  {
    if rows != [] {
      RowsWithoutAre(rows[1..], txn, row);
      assert rows == [rows[0]] + rows[1..];
    }
  }

  lemma {:induction false} ClearedRows(rows: seq<Row>, txn: TxnId, other: TxnId)
    ensures RowsOf(RowsWithout(rows, txn), other) == if other == txn then [] else RowsOf(rows, other)
  {
    if rows != [] {
      ClearedRows(rows[1..], txn, other);
      if rows[0].txn != Some(txn) {
        assert ([rows[0]] + RowsWithout(rows[1..], txn))[1..] == RowsWithout(rows[1..], txn);
      }
    }
  }

  lemma {:induction false} IntentsWithoutAre(intents: seq<Intent>, txn: TxnId, i: Intent)
    ensures i in IntentsWithout(intents, txn) <==> i in intents && i.txn != txn
  {
    if intents != [] {
      IntentsWithoutAre(intents[1..], txn, i);
      assert intents == [intents[0]] + intents[1..];
    }
  }
}
