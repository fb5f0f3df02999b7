/** main.py: the Gemini endpoint. After the upload guards and image decoding
    it calls the model, maps a raised exception to a status code, and
    normalises the SDK's response object into JSON through a fixed cascade.
    The model call, `json.loads` and the image decoder are parameters. */
module MainApp {
  import opened Wrappers
  import opened JsonValues
  import opened ImageUtils

  /** A Python exception: its class name, `str(exc)`, and whether it is an
      instance of `RuntimeError`. */
  datatype PyException = PyException(typeName: string, message: string, isRuntimeError: bool)

  /** The attributes of a response object that the handler inspects:
      `text` (`Null` when absent), the result of `model_dump(exclude_none=True)`
      when the object has that method, and the result of `to_dict()` when it
      has a callable of that name. */
  datatype GeminiResponse = GeminiResponse(text: Json, modelDump: Option<Json>, toDict: Option<Json>)

  /** What calling the model does: answer, or raise. */
  datatype GeminiCall = Responded(response: GeminiResponse) | Raised(exc: PyException)

  const GEMINI_CALL_FAILED := HttpError(502, "Gemini API call failed. Check server logs for details.")

  /** The two `except` clauses around the model call: a `RuntimeError` (a
      configuration error such as a missing API key) is a 500 carrying its
      own message; any other exception is a 502 with a fixed message. */
  function MapGeminiFailure(exc: PyException): (r: HttpError)
    ensures r.status == 500 <==> exc.isRuntimeError
    ensures r.status == 502 <==> !exc.isRuntimeError
    ensures exc.isRuntimeError ==> r.detail == exc.message
    ensures !exc.isRuntimeError ==> r == GEMINI_CALL_FAILED
  {
    if exc.isRuntimeError then HttpError(500, exc.message) else GEMINI_CALL_FAILED
  }

  /** Whatever an upstream failure says, the client sees the same answer:
      only configuration errors reveal their message. */
  lemma UpstreamDetailHidden(e1: PyException, e2: PyException)
    requires !e1.isRuntimeError && !e2.isRuntimeError
    ensures MapGeminiFailure(e1) == MapGeminiFailure(e2)
  {
  }

  /** `{"text": text_val}`. */
  function TextOnly(text: Json): (r: Json)
    ensures r.Object? && r.fields.Keys == {"text"}
    ensures Subscript(r, "text") == Some(text)
  {
    Object(map["text" := text])
  }

  /** `dump["candidates"]["response"]` does not raise. */
  predicate HasCandidateResponse(dump: Json) {
    && Subscript(dump, "candidates").Some?
    && Subscript(Subscript(dump, "candidates").value, "response").Some?
  }

  /** The decoding cascade: a string `text` is parsed as JSON, or wrapped
      when it does not parse; otherwise `model_dump(...)["candidates"]["response"]`,
      whose failing subscripts escape the handler; otherwise `to_dict()`;
      otherwise the wrapped `text`. */
  function DecodeResponse(resp: GeminiResponse, parseJson: string -> Option<Json>): (r: Result<Json, HttpError>)
    ensures resp.text.Str? ==> r.Success?
    ensures resp.text.Str? && parseJson(resp.text.s).Some? ==> r.value == parseJson(resp.text.s).value
    ensures resp.text.Str? && parseJson(resp.text.s).None? ==> r.value == Object(map["text" := resp.text])
    ensures r.Failure? <==> !resp.text.Str? && resp.modelDump.Some? && !HasCandidateResponse(resp.modelDump.value)
    ensures r.Failure? ==> r.error == UNHANDLED_ERROR
    ensures !resp.text.Str? && resp.modelDump.Some? && r.Success? ==>
      var candidates := resp.modelDump.value.fields["candidates"];
      candidates.Object? && r.value == candidates.fields["response"]
    ensures !resp.text.Str? && resp.modelDump.None? && resp.toDict.Some? ==> r == Success(resp.toDict.value)
    ensures !resp.text.Str? && resp.modelDump.None? && resp.toDict.None? ==>
      r == Success(Object(map["text" := resp.text]))
  {
    if resp.text.Str? then
      match parseJson(resp.text.s)
      case Some(parsed) => Success(parsed)
      case None => Success(TextOnly(resp.text))
    else if resp.modelDump.Some? then
      match Subscript(resp.modelDump.value, "candidates")
      case None => Failure(UNHANDLED_ERROR)
      case Some(candidates) =>
        match Subscript(candidates, "response")
        case None => Failure(UNHANDLED_ERROR)
        case Some(inner) => Success(inner)
    else if resp.toDict.Some? then Success(resp.toDict.value)
    else Success(TextOnly(resp.text))
  }

  /** A string `text` decides alone: the other attributes are never read. */
  lemma TextTakesPrecedence(r1: GeminiResponse, r2: GeminiResponse, parseJson: string -> Option<Json>)
    requires r1.text.Str? && r1.text == r2.text
    ensures DecodeResponse(r1, parseJson) == DecodeResponse(r2, parseJson)
  {
  }

  /** `model_dump` is preferred to `to_dict` when the object has both. */
  lemma ModelDumpBeforeToDict(resp: GeminiResponse, parseJson: string -> Option<Json>)
    requires !resp.text.Str? && resp.modelDump.Some?
    ensures DecodeResponse(resp, parseJson) == DecodeResponse(resp.(toDict := None), parseJson)
  {
  }

  /** The endpoint's JSON answer. */
  datatype GeminiReply = GeminiReply(prompt: string, geminiModel: string, response: Json)

  /** The part of the handler after the model call: the exception mapping,
      then the decoding cascade. */
  function Answer(prompt: string, outcome: GeminiCall, modelName: string, parseJson: string -> Option<Json>): (r: Result<GeminiReply, HttpError>)
    ensures outcome.Raised? ==> r == Failure(MapGeminiFailure(outcome.exc))
    ensures outcome.Responded? ==>
      match DecodeResponse(outcome.response, parseJson)
      case Success(v) => r == Success(GeminiReply(prompt, modelName, v))
      case Failure(e) => r == Failure(e)
  {
    match outcome
    case Raised(exc) => Failure(MapGeminiFailure(exc))
    case Responded(resp) =>
      match DecodeResponse(resp, parseJson)
      case Success(v) => Success(GeminiReply(prompt, modelName, v))
      case Failure(e) => Failure(e)
  }

  /** `analyze_with_gemini` with the model called on the prompt and the
      decoded image. Every failure is one of the upload's 400s, a 500 (a
      configuration error or an unexpected dump shape) or the 502. */
  function AnalyzeWithGemini(
    prompt: string,
    upload: Upload,
    detect: Bytes -> Option<string>,
    decodeImage: Bytes -> bool,
    call: (string, Bytes) -> GeminiCall,
    modelName: string,
    parseJson: string -> Option<Json>): (r: Result<GeminiReply, HttpError>)
    ensures ReadAndValidateImage(upload, detect).Failure? ==> r == Failure(ReadAndValidateImage(upload, detect).error)
    ensures ReadAndValidateImage(upload, detect).Success? && !decodeImage(upload.body) ==> r == Failure(IMAGE_DECODE_FAILED)
    ensures r.Failure? ==> r.error.status in {400, 500, 502}
    ensures ReadAndValidateImage(upload, detect).Success? && decodeImage(upload.body) ==>
      r == Answer(prompt, call(prompt, upload.body), modelName, parseJson)
  {
    match ReadAndValidateImage(upload, detect)
    case Failure(e) => Failure(e)
    case Success(content) =>
      match PreparePilImage(content, decodeImage)
      case Failure(e) => Failure(e)
      case Success(image) => Answer(prompt, call(prompt, image), modelName, parseJson)
  }

  /** Parameters of `call_gemini` (helpers/gemini_utils.py:33). */
  const CALL_GEMINI_PARAMETERS := 2
  /** Positional arguments main.py:43-45 passes to it. */
  const CALL_GEMINI_ARGUMENTS := 3

  /** Calling a Python function with a given number of positional arguments:
      a count that does not match its parameters raises `TypeError` before
      its body runs. */
  function Invoke(parameters: nat, arguments: nat, outcome: GeminiCall): (r: GeminiCall)
    ensures arguments == parameters ==> r == outcome
    ensures arguments != parameters ==> r.Raised? && r.exc.typeName == "TypeError" && !r.exc.isRuntimeError
  {
    if arguments == parameters then outcome
    else Raised(PyException("TypeError", "call_gemini() takes 2 positional arguments but 3 were given", false))
  }

  /** `analyze_with_gemini` as written, passing the schema as a third argument. */
  function AnalyzeWithGeminiAsWritten(
    prompt: string,
    upload: Upload,
    detect: Bytes -> Option<string>,
    decodeImage: Bytes -> bool,
    call: (string, Bytes) -> GeminiCall,
    modelName: string,
    parseJson: string -> Option<Json>): (r: Result<GeminiReply, HttpError>)
    ensures ReadAndValidateImage(upload, detect).Failure? ==> r == Failure(ReadAndValidateImage(upload, detect).error)
  {
    match ReadAndValidateImage(upload, detect)
    case Failure(e) => Failure(e)
    case Success(content) =>
      match PreparePilImage(content, decodeImage)
      case Failure(e) => Failure(e)
      case Success(image) =>
        Answer(prompt, Invoke(CALL_GEMINI_PARAMETERS, CALL_GEMINI_ARGUMENTS, call(prompt, image)), modelName, parseJson)
  }

  /** As written, the endpoint never answers successfully: every upload that
      passes the guards and decodes gets the 502, whatever the model would
      have said and even when the API key is missing. */
  lemma AsWrittenAlwaysBadGateway(
    prompt: string,
    upload: Upload,
    detect: Bytes -> Option<string>,
    decodeImage: Bytes -> bool,
    call: (string, Bytes) -> GeminiCall,
    modelName: string,
    parseJson: string -> Option<Json>)
    requires ReadAndValidateImage(upload, detect).Success? && decodeImage(upload.body)
    ensures AnalyzeWithGeminiAsWritten(prompt, upload, detect, decodeImage, call, modelName, parseJson)
      == Failure(GEMINI_CALL_FAILED)
  {
  }

  /** With the call corrected, a model that answers with parseable JSON text
      has that JSON returned to the client. */
  lemma CorrectedReturnsModelJson(
    prompt: string,
    upload: Upload,
    detect: Bytes -> Option<string>,
    decodeImage: Bytes -> bool,
    call: (string, Bytes) -> GeminiCall,
    modelName: string,
    parseJson: string -> Option<Json>,
    reply: string,
    value: Json)
    requires ReadAndValidateImage(upload, detect).Success? && decodeImage(upload.body)
    requires call(prompt, upload.body).Responded? && call(prompt, upload.body).response.text == Str(reply)
    requires parseJson(reply) == Some(value)
    ensures AnalyzeWithGemini(prompt, upload, detect, decodeImage, call, modelName, parseJson)
      == Success(GeminiReply(prompt, modelName, value))
  {
  }
}
