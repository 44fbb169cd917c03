/** What an edit item says, read from the raw item and from the normalized one, and which requests are admitted. */
module PayloadMeaning {

  import opened Options
  import opened PathWrappers
  import opened PayloadContract
  import opened PayloadStability

  // ----- the meaning of an item

  /** The content an edit brings: none, lines of its own, or lines quoted from a span that is copied or cut. */
  datatype Content = Nothing | Lines(text: string) | Quote(from: string, to: string, file: Option<string>, cut: bool)

  datatype Edit = Edit(from: string, to: string, at: string, content: Content)

  predicate Anchored(fields: map<Key, Json>, from: string, to: string)
  {
    Get(fields, AnchorFrom) == Str(from) && Get(fields, AnchorTo) == Str(to)
  }

  function Spelled(cut: bool): Json
  {
    Str(if cut then "cut" else "copy")
  }

  /** A reference as the wire spells it: an absent file is no file. */
  predicate QuotesRaw(ref: Json, e: Content)
    requires e.Quote?
  {
    && ref.Obj? && Anchored(ref.fields, e.from, e.to) && Get(ref.fields, Mode) == Spelled(e.cut)
    && if e.file.Some? then Get(ref.fields, File) == Str(e.file.value) else Absent(Get(ref.fields, File))
  }

  predicate Brings(text: Json, ref: Json, e: Content)
  {
    match e
    case Nothing => text == Str("") && Absent(ref)
    case Lines(t) => t != "" && text == Str(t) && Absent(ref)
    case Quote(_, _, _, _) => Absent(text) && QuotesRaw(ref, e)
  }

  /** The wire's reading: an absent slot is no slot, and an empty text deletes. */
  predicate SaysRaw(item: Json, e: Edit)
  {
    && item.Obj? && Anchored(item.fields, e.from, e.to)
    && (if Absent(Get(item.fields, At)) then e.at == "in-place" else Get(item.fields, At) == Str(e.at))
    && Brings(Get(item.fields, Text), Get(item.fields, TextRef), e.content)
  }

  predicate Pays(payload: map<Key, Json>, e: Content)
  {
    match e
    case Nothing => Get(payload, Kind) == Str("empty")
    case Lines(t) => Get(payload, Kind) == Str("literal") && Get(payload, Text) == Str(t)
    case Quote(from, to, file, cut) =>
      && Get(payload, Kind) == Str("reference") && Get(payload, Mode) == Spelled(cut) && Get(payload, Span).Obj?
      && Anchored(payload[Span].fields, from, to)
      && if file.Some? then Get(payload[Span].fields, File) == Str(file.value) else File !in payload[Span].fields
  }

  /** The engine's reading: a target, a place and one payload of a kind. */
  predicate SaysNormal(item: Json, e: Edit)
  {
    && item.Obj? && Get(item.fields, Target).Obj? && Anchored(item.fields[Target].fields, e.from, e.to)
    && Get(item.fields, At) == Str(e.at) && Get(item.fields, Payload).Obj?
    && Pays(item.fields[Payload].fields, e.content)
  }

  // ----- which items are admitted

  /** No field but its own, and a reference with no field but its own and no empty file name. */
  predicate OnlyItsFields(item: Json)
  {
    && item.Obj? && item.fields.Keys <= {AnchorFrom, AnchorTo, At, Text, TextRef}
    && var ref := Get(item.fields, TextRef);
       ref.Obj? ==> ref.fields.Keys <= {AnchorFrom, AnchorTo, File, Mode} && Get(ref.fields, File) != Str("")
  }

  ghost predicate WellFormed(item: Json)
  {
    OnlyItsFields(item) && exists e :: SaysRaw(item, e) && IsPlacement(e.at)
  }

  function TextOf(v: Json): string
  {
    if v.Str? then v.s else ""
  }

  /** The one edit an item can say. */
  function Reading(item: map<Key, Json>): Edit
  {
    var ref := Get(item, TextRef);
    var content :=
      if ref.Obj? then
        var file := Get(ref.fields, File);
        Quote(TextOf(Get(ref.fields, AnchorFrom)), TextOf(Get(ref.fields, AnchorTo)),
              if Absent(file) then None else Some(TextOf(file)), Get(ref.fields, Mode) == Str("cut"))
      else if Get(item, Text) == Str("") then Nothing else Lines(TextOf(Get(item, Text)));
    Edit(TextOf(Get(item, AnchorFrom)), TextOf(Get(item, AnchorTo)),
         if Absent(Get(item, At)) then "in-place" else TextOf(Get(item, At)), content)
  }

  lemma OneReading(item: Json, e: Edit)
    requires SaysRaw(item, e)
    ensures e == Reading(item.fields)
  {
  }

  /** The fold takes away absent slots and nothing else. */
  lemma FoldedField(f: map<Key, Json>, k: Key)
    requires k != TextRef
    ensures k in FoldAbsentSlots(f) <==> k in f && !(k in {Text, At} && Absent(f[k]))
    ensures k in FoldAbsentSlots(f) ==> FoldAbsentSlots(f)[k] == f[k]
  {
  }

  lemma FoldedRef(f: map<Key, Json>)
    ensures var ref, folded := Get(f, TextRef), Get(FoldAbsentSlots(f), TextRef);
            && (TextRef in FoldAbsentSlots(f) <==> !Absent(ref))
            && folded == if ref.Obj? then Obj(DropAbsent(ref.fields, File), false)
                         else if Absent(ref) then Undefined else ref
  {
  }

  lemma FoldedReading(f: map<Key, Json>)
    ensures var g := FoldAbsentSlots(f);
            && Get(g, AnchorFrom) == Get(f, AnchorFrom) && Get(g, AnchorTo) == Get(f, AnchorTo)
            && Get(g, At) == (if Absent(Get(f, At)) then Undefined else Get(f, At))
            && Get(g, Text) == (if Absent(Get(f, Text)) then Undefined else Get(f, Text))
  {
    FoldedField(f, AnchorFrom);
    FoldedField(f, AnchorTo);
    FoldedField(f, At);
    FoldedField(f, Text);
  }

  lemma FoldKeepsRef(raw: Json, e: Content)
    requires raw.Obj? && e.Quote?
    ensures QuotesRaw(Get(FoldAbsentSlots(raw.fields), TextRef), e) <==> QuotesRaw(Get(raw.fields, TextRef), e)
  {
    FoldedRef(raw.fields);
  }

  lemma FoldSaysTheSame(raw: Json, e: Edit)
    requires raw.Obj?
    ensures SaysRaw(FoldItem(raw), e) <==> SaysRaw(raw, e)
  {
    FoldedReading(raw.fields);
    FoldedRef(raw.fields);
    if e.content.Quote? { FoldKeepsRef(raw, e.content); }
    hide FoldAbsentSlots, QuotesRaw;
  }

  lemma FoldKeepsFields(raw: Json)
    requires raw.Obj?
    ensures OnlyItsFields(FoldItem(raw)) <==> OnlyItsFields(raw)
  {
    FoldedRef(raw.fields);
    forall k | k != TextRef ensures k in FoldAbsentSlots(raw.fields) ==> k in raw.fields
                            ensures k in raw.fields && k !in {Text, At} ==> k in FoldAbsentSlots(raw.fields) {
      FoldedField(raw.fields, k);
    }
    hide FoldAbsentSlots;
  }

  /** A folded item has a legal set of keys exactly when it has both anchors, one payload and nothing unknown. */
  lemma LegalExactlyWhen(keys: set<Key>)
    ensures LegalKeys(keys) <==>
            && keys <= {AnchorFrom, AnchorTo, At, Text, TextRef} && AnchorFrom in keys && AnchorTo in keys
            && (Text in keys <==> TextRef !in keys)
  {
  }

  lemma RefPassesExactlyWhen(ref: Json)
    requires ref.Obj? && File in ref.fields ==> !Absent(ref.fields[File])
    ensures AnalyzeRef(ref).None? <==>
            && ref.Obj? && ref.fields.Keys <= {AnchorFrom, AnchorTo, File, Mode} && Get(ref.fields, File) != Str("")
            && exists e: Content :: e.Quote? && QuotesRaw(ref, e)
  {
    if AnalyzeRef(ref).None? {
      var r := ref.fields;
      var e := Quote(r[AnchorFrom].s, r[AnchorTo].s, if File in r then Some(r[File].s)
                     else None, r[Mode] == Str("cut"));
      assert QuotesRaw(ref, e);
    }
  }

  lemma FoldedPassesExactlyWhen(item: Json)
    requires item.Obj? && Folded(item.fields)
    ensures AnalyzeItem(item).None? <==> WellFormed(item)
  {
    var f := item.fields;
    LegalExactlyWhen(f.Keys);
    RefPassesExactlyWhen(Get(f, TextRef));
    hide LegalKeys, AnalyzeRef;
    if AnalyzeItem(item).None? {
      if TextRef in f {
        hide QuotesRaw;
        var e: Content :| e.Quote? && QuotesRaw(f[TextRef], e);
        assert SaysRaw(item, Edit(f[AnchorFrom].s, f[AnchorTo].s, if At in f then f[At].s else "in-place", e));
      } else {
        assert SaysRaw(item, Reading(f));
      }
    }
  }

  /** An item passes exactly when it is well formed. */
  lemma PassesExactlyWhen(raw: Json)
    ensures AnalyzeItem(FoldItem(raw)).None? <==> WellFormed(raw)
  {
    if raw.Obj? {
      FoldedPassesExactlyWhen(FoldItem(raw));
      FoldKeepsFields(raw);
      hide AnalyzeItem, FoldItem, SaysRaw, OnlyItsFields;
      forall e ensures SaysRaw(FoldItem(raw), e) <==> SaysRaw(raw, e) {
        FoldSaysTheSame(raw, e);
      }
    }
  }

  // ----- the normalized request says what the raw one said

  lemma NormalizedContentSays(f: map<Key, Json>, e: Content)
    requires Folded(f) && if Text in f then f[Text].Str? && TextRef !in f else AnalyzeRef(Get(f, TextRef)).None?
    ensures Pays(NormalizedPayload(f).fields, e) <==> Brings(Get(f, Text), Get(f, TextRef), e)
  {
  }

  lemma NormalizedItemSays(item: Json, e: Edit)
    requires AnalyzeItem(item).None? && Folded(item.fields)
    ensures SaysNormal(NormalizedItem(item), e) <==> SaysRaw(item, e)
  {
    LegalExactlyWhen(item.fields.Keys);
    NormalizedContentSays(item.fields, e.content);
    hide LegalKeys, AnalyzeRef, Pays, Brings, NormalizedPayload;
  }

  lemma {:induction false} NormalizedAt(items: seq<Json>, k: nat)
    requires k < |items|
    ensures NormalizedItems(items)[k] == NormalizedItem(items[k])
  {
    if k > 0 { NormalizedAt(items[1..], k - 1); }
  }

  lemma {:induction false} FoldedAt(items: seq<Json>, k: nat)
    requires k < |items|
    ensures FoldAll(items)[k] == FoldItem(items[k])
  {
    if k > 0 { FoldedAt(items[1..], k - 1); }
  }

  lemma ItemSays(raw: Json, e: Edit)
    requires AnalyzeItem(FoldItem(raw)).None?
    ensures SaysNormal(NormalizedItem(FoldItem(raw)), e) <==> SaysRaw(raw, e)
  {
    FoldSaysTheSame(raw, e);
    assert Folded(FoldItem(raw).fields);
    NormalizedItemSays(FoldItem(raw), e);
  }

  /** Item by item, the same edits. */
  ghost predicate SayTheSame(raw: seq<Json>, normal: seq<Json>)
  {
    |normal| == |raw| && forall k, e :: 0 <= k < |raw| ==> (SaysNormal(normal[k], e) <==> SaysRaw(raw[k], e))
  }

  lemma ItemsSay(items: seq<Json>)
    requires AllClean(FoldAll(items))
    ensures SayTheSame(items, NormalizedItems(FoldAll(items)))
  {
    hide SaysNormal, SaysRaw, FoldItem, NormalizedItem, AnalyzeItem;
    forall k, e | 0 <= k < |items|
      ensures SaysNormal(NormalizedItems(FoldAll(items))[k], e) <==> SaysRaw(items[k], e)
    {
      FoldedAt(items, k);
      NormalizedAt(FoldAll(items), k);
      assert FoldAll(items)[k] in FoldAll(items);
      ItemSays(items[k], e);
    }
  }

  lemma NormalizedFieldsAre(file: string, edits: seq<Json>, mode: Json)
    ensures var request := Request(file, edits, mode);
            && request.Obj?
            && var f := NormalizedFields(request.fields);
               && Get(f, File) == Str(file) && Get(f, Mode) == mode && Get(f, Edits) == Arr(NormalizedItems(edits))
  {
  }

  lemma AdmittedIs(input: Json)
    requires Analyze(input).Admitted?
    ensures var raw := input.fields;
            && AllClean(FoldAll(raw[Edits].items))
            && Analyze(input).request == Request(Sanitized(raw[File].s).text, FoldAll(raw[Edits].items),
                                                 if Absent(Get(raw, Mode)) then Undefined else raw[Mode])
  {
    var items := input.fields[Edits].items;
    NoFailureKeepsAll(Scan([], []), items, 0);
    assert [] + FoldAll(items) == FoldAll(items);
    hide AnalyzeItems, Sanitized, FoldAll, AllClean, Request, IsMode;
  }

  /**
   * A normalized request says what the admitted one said: the sanitized file, the mode it named, and item by item the
   * same edits in the same order.
   */
  lemma NormalizedSaysTheSame(input: Json)
    requires Analyze(input).Admitted?
    ensures var raw, normal := input.fields, NormReq(input);
            && normal.Obj? && normal.marked && Get(normal.fields, File) == Str(Sanitized(raw[File].s).text)
            && Get(normal.fields, Mode) == (if Absent(Get(raw, Mode)) then Undefined else raw[Mode])
            && Get(normal.fields, Edits).Arr? && SayTheSame(raw[Edits].items, normal.fields[Edits].items)
  {
    var raw := input.fields;
    var items := raw[Edits].items;
    AdmittedIs(input);
    ItemsSay(items);
    NormalizedFieldsAre(Sanitized(raw[File].s).text, FoldAll(items), if Absent(Get(raw, Mode)) then Undefined
                        else raw[Mode]);
    hide Analyze, Sanitized, SayTheSame, NormalizedFields, NormalizedItems, FoldAll, Request, AllClean;
  }

  // ----- which requests are admitted, and what a refusal lists

  ghost predicate Admissible(input: Json)
  {
    && input.Obj? && input.fields.Keys <= {File, Edits, Mode}
    && (Absent(Get(input.fields, Mode)) || IsMode(input.fields[Mode]))
    && Get(input.fields, File).Str? && Sanitized(input.fields[File].s).Path?
    && Get(input.fields, Edits).Arr? && input.fields[Edits].items != []
    && forall k :: 0 <= k < |input.fields[Edits].items| ==> WellFormed(input.fields[Edits].items[k])
  }

  ghost predicate Fails(items: seq<Json>, from: nat, f: Failure)
  {
    from <= f.index < from + |items| && AnalyzeItem(FoldItem(items[f.index - from])) == Some(f.refusal)
  }

  /** The failures of the items that are not well formed, by ascending index, each with its own reason. */
  ghost predicate ListsFailures(failures: seq<Failure>, items: seq<Json>, from: nat)
  {
    && (forall j, k :: 0 <= j < k < |failures| ==> failures[j].index < failures[k].index)
    && (forall f :: f in failures ==> Fails(items, from, f))
    && (forall i :: 0 <= i < |items| && !WellFormed(items[i]) ==> exists f :: f in failures && f.index == from + i)
  }

  function Verdict(item: Json, index: nat): seq<Failure>
  {
    var refusal := AnalyzeItem(FoldItem(item));
    if refusal.Some? then [Failure(index, refusal.value)] else []
  }

  function FailuresFrom(items: seq<Json>, from: nat): seq<Failure>
  {
    if items == [] then [] else Verdict(items[0], from) + FailuresFrom(items[1..], from + 1)
  }

  lemma {:induction false} ScanFailures(acc: Scan, items: seq<Json>, from: nat)
    ensures AnalyzeItems(acc, items, from).failures == acc.failures + FailuresFrom(items, from)
    decreases |items|
  {
    hide FoldItem, AnalyzeItem;
    if items == [] {
      assert acc.failures + [] == acc.failures;
    } else {
      var refusal := AnalyzeItem(FoldItem(items[0]));
      var next := if refusal.Some? then acc.(failures := acc.failures + [Failure(from, refusal.value)])
                  else acc.(edited := acc.edited + [FoldItem(items[0])]);
      ScanFailures(next, items[1..], from + 1);
      assert next.failures == acc.failures + Verdict(items[0], from);
      assert acc.failures + Verdict(items[0], from) + FailuresFrom(items[1..], from + 1)
          == acc.failures + (Verdict(items[0], from) + FailuresFrom(items[1..], from + 1));
    }
  }

  lemma {:induction false} FailuresAreListed(items: seq<Json>, from: nat)
    ensures ListsFailures(FailuresFrom(items, from), items, from)
  {
    if items != [] {
      FailuresAreListed(items[1..], from + 1);
      PassesExactlyWhen(items[0]);
      ListsHead(FailuresFrom(items[1..], from + 1), items, from);
      hide ListsFailures, Verdict;
    }
  }

  lemma ListsHead(rest: seq<Failure>, items: seq<Json>, from: nat)
    requires items != [] && ListsFailures(rest, items[1..], from + 1)
    requires AnalyzeItem(FoldItem(items[0])).None? <==> WellFormed(items[0])
    ensures ListsFailures(Verdict(items[0], from) + rest, items, from)
  {
    hide FoldItem, AnalyzeItem, WellFormed;
    var all := Verdict(items[0], from) + rest;
    forall k | 0 <= k < |rest| ensures rest[k].index > from {
      assert rest[k] in rest && Fails(items[1..], from + 1, rest[k]);
    }
    forall f | f in all ensures Fails(items, from, f) {
      if f in rest { assert Fails(items[1..], from + 1, f); }
    }
    forall i | 0 <= i < |items| && !WellFormed(items[i])
      ensures exists f :: f in all && f.index == from + i
    {
      if i == 0 {
        assert Verdict(items[0], from)[0] in all;
      } else {
        assert items[1..][i - 1] == items[i];
        var f :| f in rest && f.index == from + 1 + (i - 1);
        assert f in all;
      }
    }
  }

  lemma {:induction false} AllPassExactlyWhen(items: seq<Json>, from: nat)
    ensures FailuresFrom(items, from) == [] <==> forall k :: 0 <= k < |items| ==> WellFormed(items[k])
  {
    hide FoldItem, AnalyzeItem, WellFormed;
    if items != [] {
      AllPassExactlyWhen(items[1..], from + 1);
      PassesExactlyWhen(items[0]);
      assert forall k :: 0 < k < |items| ==> items[k] == items[1..][k - 1];
      assert (forall k :: 0 <= k < |items| ==> WellFormed(items[k])) ==>
             forall k :: 0 <= k < |items[1..]| ==> WellFormed(items[1..][k]) by {
        assert forall k :: 0 <= k < |items[1..]| ==> items[1..][k] == items[k + 1];
      }
    }
  }

  /** A request is admitted exactly when its fields, its mode, its file and every one of its items are in order. */
  lemma AdmittedExactlyWhen(input: Json)
    ensures Analyze(input).Admitted? <==> Admissible(input)
  {
    if input.Obj? && Get(input.fields, Edits).Arr? {
      var items := input.fields[Edits].items;
      ScanFailures(Scan([], []), items, 0);
      AllPassExactlyWhen(items, 0);
    }
    hide AnalyzeItems, FailuresFrom, WellFormed, Sanitized, Request;
  }

  /** A refusal of items lists every item that is not well formed, in order, each with its own reason, and no other. */
  lemma RefusalListsFailures(input: Json)
    requires Analyze(input).Refused? && Analyze(input).refusal.Items?
    ensures ListsFailures(Analyze(input).refusal.failures, input.fields[Edits].items, 0)
  {
    var items := input.fields[Edits].items;
    ScanFailures(Scan([], []), items, 0);
    FailuresAreListed(items, 0);
    assert [] + FailuresFrom(items, 0) == FailuresFrom(items, 0);
    hide AnalyzeItems, FailuresFrom, ListsFailures, Sanitized, Request;
  }

  /** Why a reference can be refused, in the order it is looked at. */
  lemma RefReasonHolds(ref: Json)
    requires AnalyzeRef(ref).Some?
    ensures var f := if ref.Obj? then ref.fields else map[];
            match AnalyzeRef(ref).value
            case RefNotObject => !ref.Obj?
            case RefWithoutMode => ref.Obj? && Mode !in f
            case RefUnsupported(fields) => fields != {} && fields == f.Keys - {AnchorFrom, AnchorTo, File, Mode}
            case RefBadMode => Mode in f && f[Mode] != Spelled(true) && f[Mode] != Spelled(false)
            case RefFileNotString => File in f && !f[File].Str?
            case RefFileEmpty => Get(f, File) == Str("")
            case RefAnchorsNotStrings => ref.Obj? && !(Get(f, AnchorFrom).Str? && Get(f, AnchorTo).Str?)
            case _ => false
  {
  }

  /** The reason given for an item is true of the raw item. */
  lemma ReasonHolds(raw: Json)
    requires AnalyzeItem(FoldItem(raw)).Some?
    ensures var f := if raw.Obj? then raw.fields else map[];
            var texts, refs := !Absent(Get(f, Text)), !Absent(Get(f, TextRef));
            var unknown := f.Keys - {AnchorFrom, AnchorTo, At, Text, TextRef};
            var missing := {AnchorFrom, AnchorTo} - f.Keys;
            match AnalyzeItem(FoldItem(raw)).value
            case NotAnObject => !raw.Obj?
            case BothPayloads => texts && refs
            case NoPayload(u, m) => raw.Obj? && !texts && !refs && u == unknown && m == missing
            case IllegalFields(u, m) => texts != refs && u == unknown && m == missing && u + m != {}
            case AnchorsNotStrings => missing == {} && !(f[AnchorFrom].Str? && f[AnchorTo].Str?)
            case UnderscoredAt => Get(f, At) == Str("in_place")
            case BadAt => !Absent(Get(f, At)) && !(Get(f, At).Str? && IsPlacement(f[At].s))
            case TextNotString => texts && !f[Text].Str?
            case r => refs && AnalyzeRef(Get(FoldItem(raw).fields, TextRef)) == Some(r)
  {
    if raw.Obj? {
      var f, g := raw.fields, FoldAbsentSlots(raw.fields);
      FoldedReading(f);
      FoldedRef(f);
      FoldedKeys(f);
      LegalExactlyWhen(g.Keys);
      hide FoldAbsentSlots, LegalKeys, AnalyzeRef;
    }
  }

  lemma FoldedKeys(f: map<Key, Json>)
    ensures FoldAbsentSlots(f).Keys - {At, Text, TextRef} == f.Keys - {At, Text, TextRef}
    ensures Text in FoldAbsentSlots(f) <==> !Absent(Get(f, Text))
    ensures var known := {AnchorFrom, AnchorTo, At, Text, TextRef};
            FoldAbsentSlots(f).Keys - known == f.Keys - known
    ensures {AnchorFrom, AnchorTo} - FoldAbsentSlots(f).Keys == {AnchorFrom, AnchorTo} - f.Keys
  {
  }

  /** The reason a request is refused for is true of it, and holds only if no earlier one does. */
  lemma RequestReasonHolds(input: Json)
    requires Analyze(input).Refused?
    ensures var f := if input.Obj? then input.fields else map[];
            var unknown, modeFits := f.Keys - {File, Edits, Mode}, Absent(Get(f, Mode)) || IsMode(Get(f, Mode));
            var fileFits := Get(f, File).Str? && Sanitized(f[File].s).Path?;
            match Analyze(input).refusal
            case NotARecord => !input.Obj?
            case Unsupported(keys) => keys == unknown && keys != {}
            case BadMode => unknown == {} && !modeFits
            case NoFile => input.Obj? && unknown == {} && modeFits && File !in f
            case BadFile => unknown == {} && modeFits && File in f && !fileFits
            case NoEdits => unknown == {} && modeFits && fileFits && (!Get(f, Edits).Arr? || f[Edits].items == [])
            case Items(failures) => unknown == {} && modeFits && fileFits && failures != []
  {
    hide AnalyzeItems, Sanitized, Request;
  }

  // ----- the engine's gate

  /** A normalized item as far as the engine reads it: it does not look at the file of a quoted span. */
  predicate Carries(item: Json, e: Edit)
  {
    && item.Obj? && Get(item.fields, Target).Obj? && Anchored(item.fields[Target].fields, e.from, e.to)
    && Get(item.fields, At) == Str(e.at) && Get(item.fields, Payload).Obj?
    && var payload := item.fields[Payload].fields;
       match e.content
       case Quote(from, to, _, cut) =>
         && Get(payload, Kind) == Str("reference") && Get(payload, Mode) == Spelled(cut) && Get(payload, Span).Obj?
         && Anchored(payload[Span].fields, from, to)
       case _ => Pays(payload, e.content)
  }

  ghost predicate PassesGate(item: Json)
  {
    exists e :: Carries(item, e) && IsPlacement(e.at) && e.content != Lines("")
  }

  function ContentOf(payload: map<Key, Json>): Content
  {
    var span := Get(payload, Span);
    if Get(payload, Kind) == Str("empty") then Nothing
    else if Get(payload, Kind) == Str("literal") then Lines(TextOf(Get(payload, Text)))
    else
      var f := if span.Obj? then span.fields else map[];
      Quote(TextOf(Get(f, AnchorFrom)), TextOf(Get(f, AnchorTo)), None, Get(payload, Mode) == Str("cut"))
  }

  lemma GateTakesItemExactlyWhen(item: Json)
    ensures IsNormalizedItem(item) && !EmptyLiteralItem(item) <==> PassesGate(item)
  {
    if IsNormalizedItem(item) && !EmptyLiteralItem(item) {
      var f := item.fields;
      var target := f[Target].fields;
      assert Carries(item, Edit(target[AnchorFrom].s, target[AnchorTo].s, f[At].s, ContentOf(f[Payload].fields)));
    }
  }

  lemma {:induction false} GateTakesItems(items: seq<Json>, index: nat)
    ensures ItemsRefusal(items, index).None? <==> forall k :: 0 <= k < |items| ==> PassesGate(items[k])
    decreases |items|
  {
    hide IsNormalizedItem, EmptyLiteralItem, PassesGate;
    if items != [] {
      GateTakesItemExactlyWhen(items[0]);
      GateTakesItems(items[1..], index + 1);
      assert forall k :: 0 <= k < |items[1..]| ==> items[1..][k] == items[k + 1];
      assert forall k :: 0 < k < |items| ==> items[k] == items[1..][k - 1];
    }
  }

  /**
   * The gate, for every value: it accepts exactly the marked requests with known fields, an absent or known mode, and
   * edits each of which carries an edit at a known place that is not an empty literal. A null mode is refused here.
   */
  lemma GateAcceptsExactlyWhen(request: Json)
    ensures AssertRefuses(request).None? <==>
            && request.Obj? && request.marked && request.fields.Keys <= {File, Edits, Mode}
            && (Get(request.fields, Mode).Undefined? || IsMode(request.fields[Mode]))
            && Get(request.fields, Edits).Arr? && request.fields[Edits].items != []
            && forall k :: 0 <= k < |request.fields[Edits].items| ==> PassesGate(request.fields[Edits].items[k])
  {
    if request.Obj? && Get(request.fields, Edits).Arr? { GateTakesItems(request.fields[Edits].items, 0); }
    hide ItemsRefusal, PassesGate, Analyze;
  }
}
