/** Edit admission: one analyzer at every seam, the fold of absent slots, and the normalized request. */
module PayloadContract {

  import opened Options
  import opened PathWrappers

  /** The field names the analyzer knows; any other is carried by its spelling. */
  datatype Key = File | Edits | Mode | AnchorFrom | AnchorTo | At | Text | TextRef | Target | Payload | Kind | Span
      | Other(name: string)

  /** `marked` is the hidden property of a normalized request. */
  datatype Json =
    | Undefined
    | Null
    | Bool(b: bool)
    | Num(n: int)
    | Str(s: string)
    | Arr(items: seq<Json>)
    | Obj(fields: map<Key, Json>, marked: bool)

  function Get(fields: map<Key, Json>, k: Key): Json
  {
    if k in fields then fields[k] else Undefined
  }

  predicate Absent(v: Json)
  {
    v.Undefined? || v.Null?
  }

  // ----- folding absent slots

  function DropAbsent(fields: map<Key, Json>, k: Key): map<Key, Json>
  {
    if Absent(Get(fields, k)) then fields - {k} else fields
  }

  /** `text`, `text_ref`, `at` and the nested `text_ref.file`: an absent value is no field at all. */
  function FoldAbsentSlots(item: map<Key, Json>): map<Key, Json>
  {
    var folded := DropAbsent(DropAbsent(DropAbsent(item, Text), TextRef), At);
    var ref := Get(folded, TextRef);
    if ref.Obj? then folded[TextRef := Obj(DropAbsent(ref.fields, File), false)] else folded
  }

  // ----- one item

  datatype ItemRefusal =
    | NotAnObject
    | BothPayloads
    | NoPayload(unsupported: set<Key>, missing: set<Key>)
    | IllegalFields(unsupported: set<Key>, missing: set<Key>)
    | AnchorsNotStrings
    | UnderscoredAt
    | BadAt
    | TextNotString
    | RefNotObject
    | RefWithoutMode
    | RefUnsupported(fields: set<Key>)
    | RefBadMode
    | RefFileNotString
    | RefFileEmpty
    | RefAnchorsNotStrings

  predicate LegalKeys(keys: set<Key>)
  {
    || keys == {AnchorFrom, AnchorTo, Text} || keys == {AnchorFrom, AnchorTo, At, Text}
    || keys == {AnchorFrom, AnchorTo, TextRef} || keys == {AnchorFrom, AnchorTo, At, TextRef}
  }

  function KeyRefusal(keys: set<Key>): ItemRefusal
  {
    var unsupported := keys - {AnchorFrom, AnchorTo, At, Text, TextRef};
    var missing := {AnchorFrom, AnchorTo} - keys;
    if Text in keys && TextRef in keys then BothPayloads
    else if Text !in keys && TextRef !in keys then NoPayload(unsupported, missing)
    else IllegalFields(unsupported, missing)
  }

  predicate IsPlacement(s: string)
  {
    s == "in-place" || s == "before" || s == "after"
  }

  function AnalyzeRef(ref: Json): Option<ItemRefusal>
  {
    if !ref.Obj? then Some(RefNotObject)
    else
      var f := ref.fields;
      if Mode !in f then Some(RefWithoutMode)
      else if f.Keys - {AnchorFrom, AnchorTo, File, Mode} != {}
        then Some(RefUnsupported(f.Keys - {AnchorFrom, AnchorTo, File, Mode}))
      else if f[Mode] != Str("copy") && f[Mode] != Str("cut") then Some(RefBadMode)
      else if File in f && !f[File].Str? then Some(RefFileNotString)
      else if Get(f, File) == Str("") then Some(RefFileEmpty)
      else if !Get(f, AnchorFrom).Str? || !Get(f, AnchorTo).Str? then Some(RefAnchorsNotStrings)
      else None
  }

  function AnalyzeItem(value: Json): Option<ItemRefusal>
  {
    if !value.Obj? then Some(NotAnObject)
    else
      var f := value.fields;
      if !LegalKeys(f.Keys) then Some(KeyRefusal(f.Keys))
      else if !Get(f, AnchorFrom).Str? || !Get(f, AnchorTo).Str? then Some(AnchorsNotStrings)
      else if !Absent(Get(f, At)) && f[At] == Str("in_place") then Some(UnderscoredAt)
      else if !Absent(Get(f, At)) && (!f[At].Str? || !IsPlacement(f[At].s)) then Some(BadAt)
      else if Text in f then (if f[Text].Str? then None else Some(TextNotString))
      else AnalyzeRef(Get(f, TextRef))
  }

  // ----- the request

  datatype Failure = Failure(index: nat, refusal: ItemRefusal)

  datatype Refusal = NotARecord | Unsupported(fields: set<Key>) | BadMode | NoFile | BadFile | NoEdits
      | Items(failures: seq<Failure>)

  datatype Admission = Admitted(request: Json) | Refused(refusal: Refusal)

  function FoldItem(raw: Json): Json
  {
    if raw.Obj? then Obj(FoldAbsentSlots(raw.fields), false) else raw
  }

  datatype Scan = Scan(failures: seq<Failure>, edited: seq<Json>)

  /** Items from `index` on, refused or kept in the shape they were judged in. */
  function AnalyzeItems(acc: Scan, items: seq<Json>, index: nat): Scan
    decreases |items|
  {
    if items == [] then acc
    else
      var item := FoldItem(items[0]);
      var refusal := AnalyzeItem(item);
      AnalyzeItems(if refusal.Some? then acc.(failures := acc.failures + [Failure(index, refusal.value)])
                   else acc.(edited := acc.edited + [item]), items[1..], index + 1)
  }

  function Request(file: string, edits: seq<Json>, mode: Json): Json
  {
    if mode.Undefined? then Obj(map[File := Str(file), Edits := Arr(edits)], false)
    else Obj(map[File := Str(file), Edits := Arr(edits), Mode := mode], false)
  }

  function SanitizeField(v: Json): Path
  {
    if v.Str? then Sanitized(v.s) else NoPath
  }

  predicate IsMode(v: Json)
  {
    v == Str("general") || v == Str("literal")
  }

  function Analyze(input: Json): Admission
  {
    if !input.Obj? then Refused(NotARecord)
    else
      var rec := input.fields;
      var mode := if Absent(Get(rec, Mode)) then Undefined else rec[Mode];
      if rec.Keys - {File, Edits, Mode} != {} then Refused(Unsupported(rec.Keys - {File, Edits, Mode}))
      else if !mode.Undefined? && !IsMode(mode) then Refused(BadMode)
      else if File !in rec then Refused(NoFile)
      else if SanitizeField(rec[File]).NoPath? then Refused(BadFile)
      else if !Get(rec, Edits).Arr? || rec[Edits].items == [] then Refused(NoEdits)
      else
        var scan := AnalyzeItems(Scan([], []), rec[Edits].items, 0);
        if scan.failures != [] then Refused(Items(scan.failures))
        else Admitted(Request(SanitizeField(rec[File]).text, scan.edited, mode))
  }

  method AnalyzeRequest(input: Json) returns (admission: Admission)
    ensures admission == Analyze(input)
  {
    hide AnalyzeItems, Sanitized, IsMode, Request;
    if !input.Obj? { return Refused(NotARecord); }
    var rec := input.fields;
    var offending := rec.Keys - {File, Edits, Mode};
    if offending != {} { return Refused(Unsupported(offending)); }
    var mode := Undefined;
    if Mode in rec && !Absent(rec[Mode]) {
      if !IsMode(rec[Mode]) { return Refused(BadMode); }
      mode := rec[Mode];
    }
    if File !in rec { return Refused(NoFile); }
    var sanitized := NoPath;
    if rec[File].Str? { sanitized := SanitizePath(rec[File].s); }
    if sanitized.NoPath? { return Refused(BadFile); }
    if Edits !in rec || !rec[Edits].Arr? || rec[Edits].items == [] { return Refused(NoEdits); }
    var scan := AnalyzeEdits(rec[Edits].items);
    if scan.failures != [] { return Refused(Items(scan.failures)); }
    return Admitted(Request(sanitized.text, scan.edited, mode));
  }

  method AnalyzeEdits(items: seq<Json>) returns (scan: Scan)
    ensures scan == AnalyzeItems(Scan([], []), items, 0)
  {
    var failures, edited := [], [];
    for index := 0 to |items|
      invariant AnalyzeItems(Scan(failures, edited), items[index..], index) == AnalyzeItems(Scan([], []), items, 0)
    {
      assert items[index..][1..] == items[index + 1..];
      var item := FoldItem(items[index]);
      var refusal := AnalyzeItem(item);
      if refusal.Some? {
        failures := failures + [Failure(index, refusal.value)];
      } else {
        edited := edited + [item];
      }
    }
    scan := Scan(failures, edited);
  }

  // ----- the normalized request

  function NormalizedPayload(item: map<Key, Json>): Json
  {
    var ref := Get(item, TextRef);
    if !ref.Undefined? then
      Obj(map[Kind := Str("reference"), Span := ref, Mode := if ref.Obj? then Get(ref.fields, Mode) else Undefined],
          false)
    else if Get(item, Text) == Str("") then Obj(map[Kind := Str("empty")], false)
    else Obj(map[Kind := Str("literal"), Text := if Absent(Get(item, Text)) then Str("") else Get(item, Text)], false)
  }

  function NormalizedItem(item: Json): Json
  {
    if !item.Obj? then item
    else
      var f := item.fields;
      Obj(map[Target := Obj(map[AnchorFrom := Get(f, AnchorFrom), AnchorTo := Get(f, AnchorTo)], false),
              At := if Absent(Get(f, At)) then Str("in-place") else Get(f, At),
              Payload := NormalizedPayload(f)], false)
  }

  function NormalizedItems(items: seq<Json>): (r: seq<Json>)
    ensures |r| == |items|
  {
    if items == [] then [] else [NormalizedItem(items[0])] + NormalizedItems(items[1..])
  }

  function NormalizedFields(request: map<Key, Json>): map<Key, Json>
  {
    if Edits in request
      && request[Edits].Arr? then request[Edits := Arr(NormalizedItems(request[Edits].items))] else request
  }

  /** An input that is not admitted is handed back as it is. */
  function NormReq(input: Json): Json
  {
    match Analyze(input)
    case Refused(_) => input
    case Admitted(request) => if request.Obj? then Obj(NormalizedFields(request.fields), true) else request
  }

  datatype Prepared = Prepared(request: Json) | BadPayload(refusal: Refusal)

  function PrepareEditArguments(args: Json): Prepared
  {
    match Analyze(args)
    case Refused(r) => BadPayload(r)
    case Admitted(request) => Prepared(request)
  }

  predicate IsNormalizedPayload(payload: Json)
  {
    payload.Obj?
    && var f := payload.fields;
       || Get(f, Kind) == Str("empty")
       || (Get(f, Kind) == Str("literal") && Get(f, Text).Str?)
       || (Get(f, Kind) == Str("reference") && Get(f, Span).Obj?
           && Get(f[Span].fields, AnchorFrom).Str? && Get(f[Span].fields, AnchorTo).Str?
           && (Get(f, Mode) == Str("copy") || Get(f, Mode) == Str("cut")))
  }

  predicate IsNormalizedItem(value: Json)
  {
    value.Obj?
    && var f := value.fields;
       && Get(f, Target).Obj? && Get(f[Target].fields, AnchorFrom).Str? && Get(f[Target].fields, AnchorTo).Str?
       && Get(f, At).Str? && IsPlacement(f[At].s) && IsNormalizedPayload(Get(f, Payload))
  }

  datatype AssertRefusal = Raw(refusal: Refusal) | NotNormalized | UnknownFields | ModeRefused | EditsRefused
      | ItemRefused(index: nat) | EmptyLiteral(index: nat)

  predicate EmptyLiteralItem(item: Json)
  {
    item.Obj? && Get(item.fields, Payload).Obj?
    && Get(item.fields[Payload].fields, Kind) == Str("literal") && Get(item.fields[Payload].fields, Text) == Str("")
  }

  function ItemsRefusal(items: seq<Json>, index: nat): Option<AssertRefusal>
    decreases |items|
  {
    if items == [] then None
    else if !IsNormalizedItem(items[0]) then Some(ItemRefused(index))
    else if EmptyLiteralItem(items[0]) then Some(EmptyLiteral(index))
    else ItemsRefusal(items[1..], index + 1)
  }

  /** None is acceptance. */
  function AssertRefuses(request: Json): Option<AssertRefusal>
  {
    if !request.Obj? || !request.marked then
      Some(match Analyze(request) case Refused(r) => Raw(r) case Admitted(_) => NotNormalized)
    else
      var f := request.fields;
      var mode := Get(f, Mode);
      if f.Keys - {File, Edits, Mode} != {} then Some(UnknownFields)
      else if !mode.Undefined? && !IsMode(mode) then Some(ModeRefused)
      else if !Get(f, Edits).Arr? || f[Edits].items == [] then Some(EditsRefused)
      else ItemsRefusal(f[Edits].items, 0)
  }

  method AssertReq(request: Json) returns (refusal: Option<AssertRefusal>)
    ensures refusal == AssertRefuses(request)
  {
    if !request.Obj? || !request.marked {
      var admission := AnalyzeRequest(request);
      return Some(if admission.Refused? then Raw(admission.refusal) else NotNormalized);
    }
    var f := request.fields;
    if f.Keys - {File, Edits, Mode} != {} { return Some(UnknownFields); }
    var mode := Get(f, Mode);
    if !mode.Undefined? && !IsMode(mode) { return Some(ModeRefused); }
    if !Get(f, Edits).Arr? || f[Edits].items == [] { return Some(EditsRefused); }
    var items := f[Edits].items;
    for index := 0 to |items|
      invariant ItemsRefusal(items[index..], index) == ItemsRefusal(items, 0)
    {
      assert items[index..][1..] == items[index + 1..];
      if !IsNormalizedItem(items[index]) { return Some(ItemRefused(index)); }
      if EmptyLiteralItem(items[index]) { return Some(EmptyLiteral(index)); }
    }
    return None;
  }
}
