/** helpers/speciesnet_utils.py: display names for taxonomic labels, the
    summary of the classifier's first prediction, and the upload handler that
    runs the classifier on a temp file and always removes that file.
    The classifier is the parameter `infer`; its output is typed, with an
    absent list standing as the empty list and an absent value as `Null`. */
module SpeciesNetUtils {
  import opened Wrappers
  import opened Text
  import opened JsonValues
  import opened ImageUtils

  /** The display name of a non-empty label: its last non-blank
      `;`-separated segment, stripped, or the label itself when every segment
      is blank. */
  function DisplayNameOfText(s: string): string
    requires s != ""
  {
    var parts := StrippedNonBlank(Split(s, ';'));
    if parts == [] then s else parts[|parts| - 1]
  }

  /** A display name is never empty. When some segment is non-blank it holds
      no `;` and has no whitespace at either end; otherwise it is the label. */
  lemma DisplayNameShape(s: string)
    requires s != ""
    ensures DisplayNameOfText(s) != ""
    ensures (exists p :: p in Split(s, ';') && Strip(p) != "") ==>
      ';' !in DisplayNameOfText(s) && Trimmed(DisplayNameOfText(s))
    ensures (forall p :: p in Split(s, ';') ==> Strip(p) == "") ==> DisplayNameOfText(s) == s
  {
    var pieces := Split(s, ';');
    var parts := StrippedNonBlank(pieces);
    StrippedNonBlankEmpty(pieces);
    if parts != [] {
      assert parts[|parts| - 1] in parts;
      StrippedNonBlankClean(pieces);
      SplitPiecesAvoid(s, ';');
      StrippedNonBlankAvoids(pieces, ';');
    }
  }

  /** `extract_display_name`: nothing for a missing or empty label, else the
      display name of its text. */
  function ExtractDisplayName(raw: Option<string>): (r: Option<string>)
    ensures r.None? <==> raw.None? || raw == Some("")
  {
    match raw
    case None => None
    case Some(s) => if s == "" then None else Some(DisplayNameOfText(s))
  }

  /** When some segment is not blank, the display name is the last such
      segment, stripped. */
  lemma DisplayNameIsLastNonBlankSegment(s: string, k: nat)
    requires s != "" && k < |Split(s, ';')| && Strip(Split(s, ';')[k]) != ""
    requires forall p :: p in Split(s, ';')[k + 1..] ==> Strip(p) == ""
    ensures ExtractDisplayName(Some(s)) == Some(Strip(Split(s, ';')[k]))
  {
    var pieces := Split(s, ';');
    var parts := StrippedNonBlank(pieces);
    LastStrippedNonBlank(pieces, k);
    assert parts != [] && parts[|parts| - 1] == Strip(pieces[k]);
    assert DisplayNameOfText(s) == parts[|parts| - 1];
  }

  /** The text after the last `;`, when not blank, is the display name. */
  lemma DisplayNameAfterLastSeparator(front: string, last: string)
    requires ';' !in last && Strip(last) != ""
    ensures ExtractDisplayName(Some(front + [';'] + last)) == Some(Strip(last))
  {
    var s := front + [';'] + last;
    assert s != "";
    SplitConcat(front, last, ';');
    SplitWithoutSeparator(last, ';');
    var pieces := Split(s, ';');
    assert pieces == Split(front, ';') + [last];
    DisplayNameIsLastNonBlankSegment(s, |pieces| - 1);
  }

  /** A non-empty label whose segments are all blank is returned verbatim. */
  lemma DisplayNameOfBlankLabel(s: string)
    requires s != ""
    requires forall p :: p in Split(s, ';') ==> Strip(p) == ""
    ensures ExtractDisplayName(Some(s)) == Some(s)
  {
    StrippedNonBlankEmpty(Split(s, ';'));
  }

  /** A non-empty, stripped label without `;` is its own display name. */
  lemma DisplayNameOfPlainName(name: string)
    requires name != "" && ';' !in name && Trimmed(name)
    ensures DisplayNameOfText(name) == name
  {
    SplitWithoutSeparator(name, ';');
    StripTrimmed(name);
    assert [name][1..] == [];
    assert StrippedNonBlank([name]) == [name];
  }

  /** A display name is its own display name. */
  lemma DisplayNameIdempotent(raw: Option<string>)
    ensures ExtractDisplayName(ExtractDisplayName(raw)) == ExtractDisplayName(raw)
  {
    if raw.Some? && raw.value != "" {
      var name := DisplayNameOfText(raw.value);
      DisplayNameShape(raw.value);
      if name != raw.value {
        DisplayNameOfPlainName(name);
      }
    }
  }

  /** A taxonomic label: "a; b ;Canis lupus" is shown as "Canis lupus". */
  lemma DisplayNameOfTaxonomicLabel(s: string)
    requires s == "a; b ;Canis lupus"
    ensures ExtractDisplayName(Some(s)) == Some("Canis lupus")
  {
    var front, last := "a; b ", "Canis lupus";
    assert s == front + [';'] + last;
    assert ';' !in last && Strip(last) == last by {
      StripTrimmed(last);
    }
    DisplayNameAfterLastSeparator(front, last);
  }

  /** What a key of a summary record holds when it is `None` or a string. */
  function OptionToJson(o: Option<string>): Json {
    if o.Some? then Str(o.value) else Null
  }

  datatype SummaryError =
    | NotADict        // the classifier returned None: `.get` raises
    | NoPredictions   // RuntimeError("SpeciesNet returned no predictions.")
    | LabelNotText    // a truthy non-string label: `.split` raises
    | EngineFailed    // the classifier call itself raised

  /** `extract_display_name(v)` on a loosely typed value: falsy values give
      `None`, strings their display name, anything else raises. */
  function DisplayValue(v: Json): (r: Result<Json, SummaryError>)
    ensures r.Success? <==> !Truthy(v) || v.Str?
    ensures !Truthy(v) ==> r == Success(Null)
    ensures v.Str? ==> r == Success(OptionToJson(ExtractDisplayName(Some(v.s))))
  {
    if !Truthy(v) then Success(Null)
    else if v.Str? then Success(OptionToJson(ExtractDisplayName(Some(v.s))))
    else Failure(LabelNotText)
  }

  /** `detection.get("label")`. */
  function LabelOf(fields: map<string, Json>): Json {
    if "label" in fields then fields["label"] else Null
  }

  /** A detection record after the handler's annotation. */
  function Annotated(fields: map<string, Json>): (r: map<string, Json>)
    ensures LabelOf(r) == LabelOf(fields)
  {
    match DisplayValue(LabelOf(fields))
    case Success(v) => fields["label_display" := v]
    case Failure(_) => fields
  }

  /** When the label can be displayed, annotation adds `label_display`, holding
      the label's display value, and changes no other key; otherwise the
      record is left as it was. */
  lemma AnnotatedContents(fields: map<string, Json>)
    ensures var r := Annotated(fields);
      DisplayValue(LabelOf(fields)).Success? ==>
        && r.Keys == fields.Keys + {"label_display"}
        && r["label_display"] == DisplayValue(LabelOf(fields)).value
        && forall k :: k in fields && k != "label_display" ==> r[k] == fields[k]
    ensures DisplayValue(LabelOf(fields)).Failure? ==> Annotated(fields) == fields
  {
  }

  /** A string label is displayed as its display name, a falsy one as `null`. */
  lemma AnnotatedLabelDisplay(fields: map<string, Json>)
    ensures LabelOf(fields).Str? ==>
      Annotated(fields)["label_display"] == OptionToJson(ExtractDisplayName(Some(LabelOf(fields).s)))
    ensures !Truthy(LabelOf(fields)) ==> Annotated(fields)["label_display"] == Null
  {
  }

  /** Annotating twice is annotating once. */
  lemma AnnotatedIdempotent(fields: map<string, Json>)
    ensures Annotated(Annotated(fields)) == Annotated(fields)
  {
  }

  /** A detection record, a dict that the summary annotates in place. */
  class Detection {
    var fields: map<string, Json>

    constructor (fields: map<string, Json>)
      ensures this.fields == fields
    {
      this.fields := fields;
    }
  }

  datatype Classifications = Classifications(classes: seq<string>, scores: seq<Json>)

  /** One record of the classifier's `predictions` list, with the keys the
      summary reads. `None` classifications stand for an absent or empty dict. */
  datatype Prediction = Prediction(
    classifications: Option<Classifications>,
    detections: seq<Detection>,
    prediction: Option<string>,
    predictionScore: Json,
    predictionSource: Json,
    modelVersion: Json,
    failures: Json)

  datatype PredictionsDict = PredictionsDict(predictions: seq<Prediction>)

  /** An entry of `top_classes`. */
  datatype ClassEntry = ClassEntry(labelRaw: string, displayName: Option<string>, score: Json)

  datatype Summary = Summary(
    prediction: Option<string>,
    predictionDisplayName: Option<string>,
    predictionScore: Json,
    predictionSource: Json,
    modelVersion: Json,
    topClasses: seq<ClassEntry>,
    detections: seq<Detection>,
    bestClass: Option<ClassEntry>,
    failures: Json)

  function ClassesOf(p: Prediction): seq<string> {
    if p.classifications.Some? then p.classifications.value.classes else []
  }

  function ScoresOf(p: Prediction): seq<Json> {
    if p.classifications.Some? then p.classifications.value.scores else []
  }

  function Min(a: int, b: int): int {
    if a <= b then a else b
  }

  /** The `top_classes` entry of a class and its score. */
  function Entry(name: string, score: Json): (e: ClassEntry)
    ensures e.labelRaw == name && e.score == score
    ensures e.displayName == ExtractDisplayName(Some(name))
  {
    ClassEntry(name, ExtractDisplayName(Some(name)), score)
  }

  /** The first `n` results of `f` over the pairs of `xs` and `ys`. */
  function ZipWith<A, B, C>(f: (A, B) -> C, xs: seq<A>, ys: seq<B>, n: nat): (r: seq<C>)
    requires n <= |xs| && n <= |ys|
    ensures |r| == n
  {
    if n == 0 then [] else ZipWith(f, xs, ys, n - 1) + [f(xs[n - 1], ys[n - 1])]
  }

  lemma {:induction false} ZipWithAt<A, B, C>(f: (A, B) -> C, xs: seq<A>, ys: seq<B>, n: nat)
    requires n <= |xs| && n <= |ys|
    ensures forall i :: 0 <= i < n ==> ZipWith(f, xs, ys, n)[i] == f(xs[i], ys[i])
  {
    if n > 0 {
      ZipWithAt(f, xs, ys, n - 1);
    }
  }

  /** The ranked list pairs the i-th class with the i-th score, for as many
      pairs as both lists have. */
  ghost predicate RanksClasses(classes: seq<string>, scores: seq<Json>, top: seq<ClassEntry>) {
    && |top| == Min(|classes|, |scores|)
    && forall i :: 0 <= i < |top| ==> top[i] == Entry(classes[i], scores[i])
  }

  /** `s` summarises the prediction record `first`: its fields copied, its
      display name derived, its classes ranked, its detection list kept. */
  ghost predicate Summarizes(first: Prediction, s: Summary) {
    && s.prediction == first.prediction
    && s.predictionDisplayName == ExtractDisplayName(first.prediction)
    && s.predictionScore == first.predictionScore
    && s.predictionSource == first.predictionSource
    && s.modelVersion == first.modelVersion
    && s.failures == first.failures
    && RanksClasses(ClassesOf(first), ScoresOf(first), s.topClasses)
    && s.bestClass == (if s.topClasses == [] then None else Some(s.topClasses[0]))
    && s.detections == first.detections
  }

  /** The loop over `zip(classes, scores)` that builds `top_classes`. */
  method RankClasses(classes: seq<string>, scores: seq<Json>) returns (top: seq<ClassEntry>)
    ensures |top| == Min(|classes|, |scores|)
    ensures forall i :: 0 <= i < |top| ==>
      top[i].labelRaw == classes[i] && top[i].score == scores[i]
      && top[i].displayName == ExtractDisplayName(Some(classes[i]))
  {
    top := [];
    var i := 0;
    while i < |classes| && i < |scores|
      invariant i <= |classes| && i <= |scores|
      invariant top == ZipWith(Entry, classes, scores, i)
    {
      top := top + [Entry(classes[i], scores[i])];
      i := i + 1;
    }
    ZipWithAt(Entry, classes, scores, i);
  }

  /** The loop that sets `label_display` on every detection, in order; it
      stops at the first label that is neither falsy nor a string. */
  method AnnotateDetections(detections: seq<Detection>) returns (r: Result<(), SummaryError>)
    modifies set d | d in detections
    ensures r.Success? <==> forall i :: 0 <= i < |detections| ==> DisplayValue(LabelOf(old(detections[i].fields))).Success?
    ensures r.Failure? ==> r.error == LabelNotText
    ensures forall d :: d in detections ==> d.fields == old(d.fields) || d.fields == Annotated(old(d.fields))
    ensures r.Success? ==> forall d :: d in detections ==> d.fields == Annotated(old(d.fields))
  {
    var i := 0;
    while i < |detections|
      invariant i <= |detections|
      invariant forall j :: 0 <= j < i ==> DisplayValue(LabelOf(old(detections[j].fields))).Success?
      invariant forall d :: d in detections ==>
        d.fields == if d in detections[..i] then Annotated(old(d.fields)) else old(d.fields)
    {
      var d := detections[i];
      var display := DisplayValue(LabelOf(d.fields));
      if display.Failure? {
        assert LabelOf(d.fields) == LabelOf(old(d.fields));
        return Failure(LabelNotText);
      }
      AnnotatedIdempotent(old(d.fields));
      d.fields := d.fields["label_display" := display.value];
      assert detections[..i + 1] == detections[..i] + [d];
      i := i + 1;
    }
    assert detections[..i] == detections;
    return Success(());
  }

  /** The detections of the first prediction, which the summary annotates. */
  function FirstDetections(output: Option<PredictionsDict>): set<Detection> {
    if output.Some? && output.value.predictions != [] then
      set d | d in output.value.predictions[0].detections
    else {}
  }

  /** `summarize_prediction`: fails when there is no prediction; otherwise
      summarises the first one, annotating its detections in place. */
  method SummarizePrediction(output: Option<PredictionsDict>) returns (r: Result<Summary, SummaryError>)
    modifies FirstDetections(output)
    ensures output.None? ==> r == Failure(NotADict)
    ensures output.Some? && output.value.predictions == [] ==> r == Failure(NoPredictions)
    ensures output.Some? && output.value.predictions != [] ==>
      var first := output.value.predictions[0];
      && (r.Success? <==> forall i :: 0 <= i < |first.detections| ==>
            DisplayValue(LabelOf(old(first.detections[i].fields))).Success?)
      && (r.Failure? ==> r.error == LabelNotText)
      && (r.Success? ==> Summarizes(first, r.value))
    ensures forall d :: d in FirstDetections(output) ==> d.fields == old(d.fields) || d.fields == Annotated(old(d.fields))
    ensures r.Success? ==> forall d :: d in FirstDetections(output) ==> d.fields == Annotated(old(d.fields))
  {
    if output.None? {
      return Failure(NotADict);
    }
    if output.value.predictions == [] {
      return Failure(NoPredictions);
    }
    var first := output.value.predictions[0];
    var top := RankClasses(ClassesOf(first), ScoresOf(first));
    var annotated := AnnotateDetections(first.detections);
    if annotated.Failure? {
      return Failure(annotated.error);
    }
    r := Success(Summary(
      first.prediction,
      ExtractDisplayName(first.prediction),
      first.predictionScore,
      first.predictionSource,
      first.modelVersion,
      top,
      first.detections,
      if top == [] then None else Some(top[0]),
      first.failures));
  }

  /** What the classifier call does: raise, or return an output (`None` too). */
  datatype EngineOutcome = EngineRaised(message: string) | EngineReturned(output: Option<PredictionsDict>)

  function EngineDetections(outcome: EngineOutcome): set<Detection> {
    if outcome.EngineReturned? then FirstDetections(outcome.output) else {}
  }

  /** Every detection label of the first prediction can be displayed. */
  ghost predicate Summarizable(outcome: EngineOutcome)
    reads EngineDetections(outcome)
  {
    && outcome.EngineReturned?
    && outcome.output.Some?
    && outcome.output.value.predictions != []
    && var first := outcome.output.value.predictions[0];
       forall i :: 0 <= i < |first.detections| ==> DisplayValue(LabelOf(first.detections[i].fields)).Success?
  }

  /** The inner `try` of `analyze_speciesnet_upload` after the call: the
      engine's outcome summarised, or the error it leads to. */
  method SummarizeOutcome(outcome: EngineOutcome) returns (r: Result<Summary, SummaryError>)
    modifies EngineDetections(outcome)
    ensures r.Success? <==> old(Summarizable(outcome))
    ensures outcome.EngineRaised? ==> r == Failure(EngineFailed)
    ensures r.Success? ==> Summarizes(outcome.output.value.predictions[0], r.value)
    ensures forall d :: d in EngineDetections(outcome) ==>
      d.fields == old(d.fields) || d.fields == Annotated(old(d.fields))
    ensures r.Success? ==> forall d :: d in EngineDetections(outcome) ==> d.fields == Annotated(old(d.fields))
  {
    if outcome.EngineRaised? {
      return Failure(EngineFailed);
    }
    r := SummarizePrediction(outcome.output);
  }

  const INFERENCE_FAILED := HttpError(500, "SpeciesNet inference failed. Check server logs for details.")

  /** The JSON body of a successful `/analyze/` answer. */
  datatype AnalysisResponse = AnalysisResponse(filename: Option<string>, contentSize: nat, speciesnet: Summary)

  /** The `try`/`finally` of `analyze_speciesnet_upload` once the classifier
      has run on the temp file at `path`: summarise its outcome, map any
      failure to the fixed 500, and remove the file on every path. */
  method ClassifyAndUnlink(scratch: ScratchDirectory, path: TempPath, outcome: EngineOutcome)
    returns (r: Result<Summary, HttpError>)
    requires scratch.Valid()
    modifies scratch, EngineDetections(outcome)
    ensures scratch.Valid()
    ensures scratch.files == old(scratch.files) - {path} && scratch.created == old(scratch.created)
    ensures r.Success? <==> old(Summarizable(outcome))
    ensures r.Failure? ==> r.error == INFERENCE_FAILED
    ensures r.Success? ==> Summarizes(outcome.output.value.predictions[0], r.value)
    ensures forall d :: d in EngineDetections(outcome) ==>
      d.fields == old(d.fields) || d.fields == Annotated(old(d.fields))
    ensures r.Success? ==> forall d :: d in EngineDetections(outcome) ==> d.fields == Annotated(old(d.fields))
  {
    var summary := SummarizeOutcome(outcome);
    if summary.Failure? {
      r := Failure(INFERENCE_FAILED);
    } else {
      r := Success(summary.value);
    }
    scratch.Unlink(path);
  }

  /** `analyze_speciesnet_upload`: validate, persist to a temp file, classify
      and summarise; any failure of the last two is a 500 with a fixed
      message, and the temp file is removed on every path. */
  method AnalyzeSpeciesNetUpload(
    scratch: ScratchDirectory,
    upload: Upload,
    detect: Bytes -> Option<string>,
    infer: TempPath -> EngineOutcome)
    returns (r: Result<AnalysisResponse, HttpError>)
    requires scratch.Valid()
    modifies scratch, EngineDetections(infer(scratch.NextPath(upload.filename)))
    ensures scratch.Valid() && scratch.files == old(scratch.files)
    ensures ReadAndValidateImage(upload, detect).Failure? ==>
      r == Failure(ReadAndValidateImage(upload, detect).error)
    ensures ReadAndValidateImage(upload, detect).Success? ==>
      var outcome := infer(old(scratch.NextPath(upload.filename)));
      && (r.Success? <==> old(Summarizable(outcome)))
      && (r.Failure? ==> r.error == INFERENCE_FAILED)
      && (r.Success? ==>
            && r.value.filename == upload.filename
            && r.value.contentSize == |upload.body|
            && Summarizes(outcome.output.value.predictions[0], r.value.speciesnet))
    ensures var detections := old(EngineDetections(infer(scratch.NextPath(upload.filename))));
      && (forall d :: d in detections ==> d.fields == old(d.fields) || d.fields == Annotated(old(d.fields)))
      && (r.Success? ==> forall d :: d in detections ==> d.fields == Annotated(old(d.fields)))
      && (ReadAndValidateImage(upload, detect).Failure? ==> forall d :: d in detections ==> d.fields == old(d.fields))
  {
    var validated := ReadAndValidateImage(upload, detect);
    if validated.Failure? {
      return Failure(validated.error);
    }
    var content := validated.value;
    ghost var expected := infer(scratch.NextPath(upload.filename));
    ghost var summarizable := Summarizable(expected);
    var path := scratch.PersistTempImage(content, upload.filename);
    var outcome := infer(path);
    assert outcome == expected;
    var summary := ClassifyAndUnlink(scratch, path, outcome);
    if summary.Failure? {
      r := Failure(summary.error);
    } else {
      r := Success(AnalysisResponse(upload.filename, |content|, summary.value));
    }
  }
}
