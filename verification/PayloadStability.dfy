/** Admission is stable: the admitted request is a fixpoint of the analyzer, so every seam answers alike. */
module PayloadStability {

  import opened Options
  import opened PathWrappers
  import opened PayloadContract

  // ----- the fold

  lemma Kept(f: map<Key, Json>, k: Key)
    requires k in f ==> !Absent(f[k])
    ensures DropAbsent(f, k) == f
  {
  }

  /** In a folded item the four optional slots carry values or are not there. */
  ghost predicate Folded(f: map<Key, Json>)
  {
    && (Text in f ==> !Absent(f[Text])) && (TextRef in f ==> !Absent(f[TextRef])) && (At in f ==> !Absent(f[At]))
    && (TextRef in f && f[TextRef].Obj?
        ==> !f[TextRef].marked && (File in f[TextRef].fields ==> !Absent(f[TextRef].fields[File])))
  }

  lemma FoldedIsFixpoint(f: map<Key, Json>)
    requires Folded(f)
    ensures FoldAbsentSlots(f) == f
  {
    Kept(f, Text);
    Kept(f, TextRef);
    Kept(f, At);
    if TextRef in f && f[TextRef].Obj? {
      Kept(f[TextRef].fields, File);
      assert f[TextRef := f[TextRef]] == f;
    }
  }

  /** Folding a folded item changes nothing. */
  lemma FoldItemTwice(raw: Json)
    ensures FoldItem(FoldItem(raw)) == FoldItem(raw)
  {
    if raw.Obj? {
      FoldedIsFixpoint(FoldAbsentSlots(raw.fields));
    }
  }

  // ----- the items

  function FoldAll(items: seq<Json>): (r: seq<Json>)
    ensures |r| == |items|
  {
    if items == [] then [] else [FoldItem(items[0])] + FoldAll(items[1..])
  }

  ghost predicate AllClean(items: seq<Json>)
  {
    forall e :: e in items ==> FoldItem(e) == e && AnalyzeItem(e).None?
  }

  lemma {:induction false} FailuresStay(acc: Scan, items: seq<Json>, index: nat)
    ensures |AnalyzeItems(acc, items, index).failures| >= |acc.failures|
    decreases |items|
  {
    hide FoldItem, AnalyzeItem;
    if items != [] {
      var item := FoldItem(items[0]);
      var refusal := AnalyzeItem(item);
      FailuresStay(if refusal.Some? then acc.(failures := acc.failures + [Failure(index, refusal.value)])
                   else acc.(edited := acc.edited + [item]), items[1..], index + 1);
    }
  }

  /** Without a failure every item was kept, folded. */
  lemma {:induction false} NoFailureKeepsAll(acc: Scan, items: seq<Json>, index: nat)
    requires AnalyzeItems(acc, items, index).failures == []
    ensures AnalyzeItems(acc, items, index).edited == acc.edited + FoldAll(items)
    ensures AllClean(FoldAll(items))
    decreases |items|
  {
    hide FoldItem, AnalyzeItem;
    if items != [] {
      var item := FoldItem(items[0]);
      var refusal := AnalyzeItem(item);
      if refusal.Some? {
        FailuresStay(acc.(failures := acc.failures + [Failure(index, refusal.value)]), items[1..], index + 1);
        assert false;
      } else {
        NoFailureKeepsAll(acc.(edited := acc.edited + [item]), items[1..], index + 1);
        FoldItemTwice(items[0]);
        assert acc.edited + [item] + FoldAll(items[1..]) == acc.edited + FoldAll(items);
        assert forall e :: e in FoldAll(items) <==> e == item || e in FoldAll(items[1..]);
      }
    }
  }

  lemma {:induction false} CleanAreKept(acc: Scan, items: seq<Json>, index: nat)
    requires AllClean(items)
    ensures AnalyzeItems(acc, items, index) == acc.(edited := acc.edited + items)
    decreases |items|
  {
    hide FoldItem, AnalyzeItem;
    if items == [] {
      assert acc.edited + items == acc.edited;
    } else {
      assert items[0] in items && forall e :: e in items[1..] ==> e in items;
      CleanAreKept(acc.(edited := acc.edited + [items[0]]), items[1..], index + 1);
      assert acc.edited + [items[0]] + items[1..] == acc.edited + items;
    }
  }

  // ----- the request

  /** What an admitted request looks like. */
  ghost predicate AdmittedForm(r: Json, file: string, edits: seq<Json>, mode: Json)
  {
    && r == Request(file, edits, mode) && file != "" && Sanitized(file) == Path(file)
    && edits != [] && AllClean(edits) && (mode.Undefined? || IsMode(mode))
  }

  lemma AdmittedHasForm(input: Json) returns (file: string, edits: seq<Json>, mode: Json)
    requires Analyze(input).Admitted?
    ensures AdmittedForm(Analyze(input).request, file, edits, mode)
  {
    var rec := input.fields;
    var scan := AnalyzeItems(Scan([], []), rec[Edits].items, 0);
    file, edits, mode := SanitizeField(rec[File]).text, scan.edited, if Absent(Get(rec, Mode)) then Undefined
        else rec[Mode];
    SanitizedTwice(rec[File].s);
    NoFailureKeepsAll(Scan([], []), rec[Edits].items, 0);
    assert [] + FoldAll(rec[Edits].items) == FoldAll(rec[Edits].items);
  }

  lemma FieldsAreAdmitted(r: Json, file: string, edits: seq<Json>, mode: Json)
    requires r.Obj? && File in r.fields && r.fields[File] == Str(file) && Get(r.fields, Edits) == Arr(edits)
    requires Get(r.fields, Mode) == mode && r.fields.Keys - {File, Edits, Mode} == {}
    requires Sanitized(file) == Path(file) && edits != [] && (mode.Undefined? || IsMode(mode))
    requires AnalyzeItems(Scan([], []), edits, 0) == Scan([], edits)
    ensures Analyze(r) == Admitted(Request(file, edits, mode))
  {
  }

  lemma FormIsAdmitted(r: Json, file: string, edits: seq<Json>, mode: Json)
    requires AdmittedForm(r, file, edits, mode)
    ensures Analyze(r) == Admitted(r)
  {
    CleanAreKept(Scan([], []), edits, 0);
    assert [] + edits == edits;
    FieldsAreAdmitted(r, file, edits, mode);
  }

  /** For every admitted value, analyzing the admitted request again admits that same request. */
  lemma AnalyzeIsStable(input: Json)
    requires Analyze(input).Admitted?
    ensures Analyze(Analyze(input).request) == Analyze(input)
  {
    var file, edits, mode := AdmittedHasForm(input);
    FormIsAdmitted(Analyze(input).request, file, edits, mode);
  }

  /** Preparing first changes nothing: the engine seam normalizes a prepared request to what it makes of the raw one. */
  lemma NormalizeAfterPrepare(input: Json)
    ensures match PrepareEditArguments(input)
            case Prepared(request) => NormReq(request) == NormReq(input)
            case BadPayload(r) => NormReq(input) == input && Analyze(input) == Refused(r)
  {
    if Analyze(input).Admitted? { AnalyzeIsStable(input); }
  }

  // ----- acceptance

  lemma PayloadNormal(f: map<Key, Json>)
    requires if Text in f then f[Text].Str? && TextRef !in f else AnalyzeRef(Get(f, TextRef)).None?
    ensures var payload := NormalizedPayload(f);
            && IsNormalizedPayload(payload)
            && !(Get(payload.fields, Kind) == Str("literal") && Get(payload.fields, Text) == Str(""))
  {
  }

  lemma CleanNormalizes(e: Json)
    requires AnalyzeItem(e).None? && FoldItem(e) == e
    ensures IsNormalizedItem(NormalizedItem(e)) && !EmptyLiteralItem(NormalizedItem(e))
  {
    hide FoldItem, NormalizedPayload, IsNormalizedPayload, AnalyzeRef;
    PayloadNormal(e.fields);
  }

  lemma {:induction false} CleanItemsPass(items: seq<Json>, index: nat)
    requires AllClean(items)
    ensures ItemsRefusal(NormalizedItems(items), index).None?
    decreases |items|
  {
    if items != [] {
      assert items[0] in items && forall e :: e in items[1..] ==> e in items;
      CleanNormalizes(items[0]);
      CleanItemsPass(items[1..], index + 1);
      assert NormalizedItems(items)[1..] == NormalizedItems(items[1..]);
    }
  }

  lemma FieldsPass(fields: map<Key, Json>, edits: seq<Json>, mode: Json)
    requires Get(fields, Edits) == Arr(edits) && Get(fields, Mode) == mode && fields.Keys - {File, Edits, Mode} == {}
    requires edits != [] && (mode.Undefined? || IsMode(mode)) && ItemsRefusal(NormalizedItems(edits), 0).None?
    ensures AssertRefuses(Obj(NormalizedFields(fields), true)).None?
  {
  }

  lemma FormPasses(r: Json, file: string, edits: seq<Json>, mode: Json)
    requires AdmittedForm(r, file, edits, mode)
    ensures AssertRefuses(Obj(NormalizedFields(r.fields), true)).None?
  {
    hide AnalyzeItems, ItemsRefusal, NormalizedItems, NormalizedFields, AssertRefuses, Sanitized;
    CleanItemsPass(edits, 0);
    FieldsPass(r.fields, edits, mode);
  }

  /**
   * The engine's gate accepts exactly the normalized form of what admission admits: of a raw value it accepts the
   * result when, and only when, the value was admitted.
   */
  lemma AssertAcceptsExactlyAdmitted(input: Json)
    requires input.Obj? ==> !input.marked
    ensures AssertRefuses(NormReq(input)).None? <==> Analyze(input).Admitted?
  {
    if Analyze(input).Admitted? {
      var file, edits, mode := AdmittedHasForm(input);
      FormPasses(Analyze(input).request, file, edits, mode);
    }
  }

  /** A refused raw value is refused at every seam with the same refusal. */
  lemma SeamsRefuseAlike(input: Json)
    requires Analyze(input).Refused? && (input.Obj? ==> !input.marked)
    ensures PrepareEditArguments(input) == BadPayload(Analyze(input).refusal)
    ensures AssertRefuses(NormReq(input)) == Some(Raw(Analyze(input).refusal))
  {
  }
}
