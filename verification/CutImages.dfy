/** The bytes behind the images: a file that was recorded is recognised, written back and undone byte for byte. */
module CutImages {

  import opened Endings
  import opened Options
  import opened UndoStore
  import opened CutRepair
  import opened CutRecovery
  import opened CutUndo

  /** Folding a text that spells every break as e and restoring it with e gives the text back. */
  lemma RebuildUniform(s: string, e: LineEnding)
    requires Uniform(s, e)
    ensures RestoreEndings(ToLF(s), e) == s
  {
    match e
    case LF =>
      FoldPairsKeeps(s);
      FoldLoneShape(s);
      RestoreShape(s, LF);
    case CRLF => RebuildUniformCrlf(s);
    case CR =>
      FoldPairsKeeps(s);
      RebuildUniformCr(s);
  }

  /** The row remembers that the member's file became a byte order mark and the text `after`, in its own ending. */
  ghost predicate RecordsPost(r: Row, after: string)
  {
    r.ending.Some? && Uniform(after, r.ending.value) && r.result == ToLF(after)
  }

  /** The row remembers `before`, the whole file as it was: raw, or as mark and text in its own ending. */
  ghost predicate RecordsPre(r: Row, before: string)
  {
    if r.rawPre.Some? then r.rawPre == Some(before)
 else r.ending.Some?
      && exists text :: before == r.bom + text && Uniform(text, r.ending.value) && r.content == ToLF(text)
  }

  lemma PostImage(r: Row, after: string)
    requires RecordsPost(r, after)
    ensures Image(r, Post) == Some(r.bom + after)
  {
    RebuildUniform(after, r.ending.value);
  }

  lemma PreImage(r: Row, before: string)
    requires RecordsPre(r, before)
    ensures Image(r, Pre) == Some(before)
  {
    if r.rawPre.None? {
      var text :| before == r.bom + text && Uniform(text, r.ending.value) && r.content == ToLF(text);
      RebuildUniform(text, r.ending.value);
    }
  }

  /**
   * A file is seen at post exactly when it holds the mark and the text after, and at pre when it holds what was before.
   */
  lemma SeenByItsBytes(files: map<Path, string>, r: Row, before: string, after: string)
    requires RecordsPost(r, after) && RecordsPre(r, before)
    ensures StateOf(files, r) == AtPost <==> Read(files, r.path) == Some(r.bom + after)
    ensures StateOf(files, r) == AtPre <==> Read(files, r.path) == Some(before) && before != r.bom + after
  {
    PostImage(r, after);
    PreImage(r, before);
  }

  /** A completed write leaves exactly the recorded bytes. */
  lemma WritesItsBytes(w: World, toWrite: seq<Row>, which: Which, r: Row, before: string, after: string)
    requires RecordsPost(r, after) && RecordsPre(r, before)
    requires r in toWrite && Distinct(toWrite, r) && WriteRows(w, toWrite, which).outcome == Completed
    ensures Read(WriteRows(w, toWrite, which).world.files, r.path)
         == Some(if which == Post then r.bom + after else before)
  {
    WriteRowsAt(w, toWrite, which, r);
    PostImage(r, after);
    PreImage(r, before);
  }

  /** A text without a mark, as the row of an edit stores it: its folded text and its detected ending. */
  lemma UniformTextIsRecorded(r: Row, text: string)
    requires Uniform(text, DetectEnding(text)) && r.ending == Some(DetectEnding(text))
    ensures r.result == ToLF(text) ==> RecordsPost(r, text)
    ensures r.content == ToLF(text) && r.rawPre.None? ==> RecordsPre(r, r.bom + text)
  {
  }

  /**
   * Recovery in bytes: after any interrupted runs and a complete one, a member's file is exactly the mark and the text
   * after, when a forward cut's target holds the target's text after, and exactly what it was before otherwise.
   */
  lemma RecoveryRestoresBytes(w: World, intent: Intent, lucks: seq<Luck>, r: Row, before: string, after: string,
                              target: Row, targetAfter: string)
    requires Crashed(w, intent) && r in RowsOf(w.rows, intent.txn) && RecordsPost(r, after) && RecordsPre(r, before)
    requires intent.direction == Forward ==>
               Lookup(RowsOf(w.rows, intent.txn), intent.target) == Some(target) && RecordsPost(target, targetAfter)
    ensures var end := RepairRun(Runs(w, lucks).(luck := HEALTHY)).world;
            var landed := intent.direction == Forward && Read(w.files, target.path) == Some(target.bom + targetAfter);
            Read(end.files, r.path) == Some(if landed then r.bom + after else before)
  {
    RecoveryConverges(w, intent, lucks);
    PostImage(r, after);
    PreImage(r, before);
    if intent.direction == Forward { PostImage(target, targetAfter); }
  }

  /** Every member's file holds the mark and the text after, as the rows recorded them. */
  ghost predicate Untouched(files: map<Path, string>, rows: seq<Row>, after: Path -> string)
  {
    forall r :: r in rows ==> Read(files, r.path) == Some(r.bom + after(r.path))
  }

  /**
   * A healthy undo in bytes. It answers stale exactly when some row has no ending, or the path is a member and some
   * member's file is not the recorded bytes; it answers no history exactly when the path is no member; otherwise it
   * succeeds, puts back what every member was before, touches no other file, and drops rows and intent.
   */
  lemma HealthyUndoExactly(w: World, txn: TxnId, requested: Path, before: Path -> string, after: Path -> string)
    requires Keyed(w.rows) && w.luck == HEALTHY
    requires forall r :: r in RowsOf(w.rows, txn) && r.ending.Some? ==>
               RecordsPost(r, after(r.path)) && RecordsPre(r, before(r.path))
    ensures var rows, u := RowsOf(w.rows, txn), Undo(w, txn, requested);
            var member := exists r :: r in rows && r.path == requested;
            && (u.outcome == Stale <==>
                  (exists r :: r in rows && r.ending.None?) || (member && !Untouched(w.files, rows, after)))
            && (u.outcome == NoHistory <==> (forall r :: r in rows ==> r.ending.Some?) && !member)
            && (u.outcome in {Stale, NoHistory, Success}) && (u.outcome != Success ==> u.world == w)
            && (u.outcome == Success ==> Reverted(w, u.world, txn, before))
  {
    var rows := RowsOf(w.rows, txn);
    forall r | r in rows && r.ending.Some?
      ensures HasImage(w.files, r, Post) <==> Read(w.files, r.path) == Some(r.bom + after(r.path))
    {
      PostImage(r, after(r.path));
    }
    if AllSerializable(rows) && (exists r :: r in rows && r.path == requested) && AllFresh(w.files, rows) {
      HealthyUndoReverts(w, txn, requested, before, after);
    }
  }

  /**
   * Members hold what they were before, other files are as they were, and no row or intent of the transaction is left.
   */
  ghost predicate Reverted(was: World, now: World, txn: TxnId, before: Path -> string)
  {
    && (forall r :: r in RowsOf(was.rows, txn) ==> Read(now.files, r.path) == Some(before(r.path)))
    && (forall path :: (forall r :: r in RowsOf(was.rows, txn) ==> r.path != path) ==>
          Read(now.files, path) == Read(was.files, path))
    && now.rows == RowsWithout(was.rows, txn) && (forall i :: i in now.intents <==> i in was.intents && i.txn != txn)
  }

  lemma {:induction false} HealthyRevertAt(w: World, plans: seq<Row>)
    requires AllSerializable(plans) && w.luck == HEALTHY
    ensures var s := CutUndo.Revert(w, plans);
            !s.failed && !s.killed && s.world.luck == HEALTHY && s.world.rows == w.rows && s.world.intents == w.intents
    decreases |plans|
  {
    if plans != [] { HealthyRevertAt(WriteFile(w, plans[0].path, PreBytes(plans[0])).world, plans[1..]); }
  }

  lemma {:induction false} HealthyRevertElsewhere(w: World, plans: seq<Row>, path: Path)
    requires AllSerializable(plans) && w.luck == HEALTHY && forall r :: r in plans ==> r.path != path
    ensures Read(CutUndo.Revert(w, plans).world.files, path) == Read(w.files, path)
    decreases |plans|
  {
    if plans != [] { HealthyRevertElsewhere(WriteFile(w, plans[0].path, PreBytes(plans[0])).world, plans[1..], path); }
  }

  /** With every write landing, an undo is its revert pass, then rows and intent go. */
  lemma HealthyUndoRuns(w: World, txn: TxnId, requested: Path)
    requires Keyed(w.rows) && w.luck == HEALTHY && AllSerializable(RowsOf(w.rows, txn))
    requires AllFresh(w.files, RowsOf(w.rows, txn)) && exists r :: r in RowsOf(w.rows, txn) && r.path == requested
    ensures var u, saved := Undo(w, txn, requested), WriteCutIntent(w, Intent(txn, requested, Direction.Revert)).world;
            && u.outcome == Success && u.world.files == CutUndo.Revert(saved, RowsOf(w.rows, txn)).world.files
            && u.world.rows == RowsWithout(w.rows, txn)
            && u.world.intents == IntentsWithout(saved.intents, txn)
            && saved.luck == HEALTHY && saved.files == w.files
  {
    HealthyRevertAt(WriteCutIntent(w, Intent(txn, requested, Direction.Revert)).world, RowsOf(w.rows, txn));
    hide HasImage, AllFresh, AllSerializable;
  }

  lemma HealthyUndoReverts(w: World, txn: TxnId, requested: Path, before: Path -> string, after: Path -> string)
    requires Keyed(w.rows) && w.luck == HEALTHY && AllSerializable(RowsOf(w.rows, txn))
    requires AllFresh(w.files, RowsOf(w.rows, txn)) && exists r :: r in RowsOf(w.rows, txn) && r.path == requested
    requires forall r :: r in RowsOf(w.rows, txn) ==> RecordsPost(r, after(r.path)) && RecordsPre(r, before(r.path))
    ensures Undo(w, txn, requested).outcome == Success && Reverted(w, Undo(w, txn, requested).world, txn, before)
  {
    hide Undo, AllFresh, RowsOf, RowsWithout, IntentsWithout, CutUndo.Revert, RecordsPost, Keyed;
    var rows, saved := RowsOf(w.rows, txn), WriteCutIntent(w, Intent(txn, requested, Direction.Revert)).world;
    forall i ensures i in IntentsWithout(saved.intents, txn) <==> i in w.intents && i.txn != txn {
      IntentsWithoutAre(saved.intents, txn, i);
      IntentsWithoutAre(w.intents, txn, i);
    }
    HealthyUndoRuns(w, txn, requested);
    var swept := CutUndo.Revert(saved, rows);
    RowsOnePerPath(w.rows, txn);
    HealthyRevertAt(saved, rows);
    forall r | r in rows
      ensures Read(swept.world.files, r.path) == Some(before(r.path))
    {
      RevertAt(saved, rows, r);
      PreImage(r, before(r.path));
      hide RecordsPre, Image, WriteCutIntent;
    }
    forall path | forall r :: r in rows ==> r.path != path
      ensures Read(swept.world.files, path) == Read(w.files, path)
    {
      HealthyRevertElsewhere(saved, rows, path);
    }
  }
}
