# Atlas Backend — a verified model of its request core

Atlas Backend is a small FastAPI service with two upload endpoints:
- `/analyze/` classifies a wildlife photo with the SpeciesNet engine and returns a summary of its first prediction.
- `/gemini/analyze/` is meant to send a prompt and a photo to Google Gemini and return the model's answer as JSON. As written it answers every valid upload with a 502 (see "## Findings").

This project models in Dafny the parts of the service that decide its answers:
- **Upload guards.** The declared MIME type, a 5 MiB size ceiling and the image signature are checked in that order. The first that fails decides the 400 message.
- **Temp files.** The upload is written to a temp file with a normalised suffix. The file is removed on every path.
- **Display names.** A taxonomic label such as `"a; b ;Canis lupus"` is shown as its last non-blank segment.
- **Prediction summary.** It ranks the classes and annotates every detection record in place.
- **Error mapping.** Classifier failures become a fixed 500. Gemini call failures become 500 for a `RuntimeError` and 502 otherwise.
- **Gemini response decoding.** The response object is turned into JSON through a fixed cascade: `text` first, then `model_dump`, then `to_dict`, then a wrapped `text`.
- **Configuration.** The environment-driven settings, including comma-separated lists and boolean flags.
- **Rate limit.** The limit string handed to the rate limiter.

Everything outside the service's own code is a parameter of the model:
- the image-signature detector (`imghdr.what`)
- `json.loads`
- the image decoder (PIL)
- the Gemini call
- the SpeciesNet engine
- `int()`
- the environment

The modules follow the source files:

| module | file | content |
|---|---|---|
| `Wrappers` | `wrappers.dfy` | `Option`, `Result`, bytes, the HTTP error |
| `Text` | `text.dfy` | Python's `strip`, `split`, `lower` and decimal printing, with their laws |
| `JsonValues` | `json.dfy` | JSON values and Python truthiness |
| `Config` | `config.dfy` | helpers/config.py |
| `SecurityUtils` | `security_utils.dfy` | helpers/security_utils.py |
| `ImageUtils` | `image_utils.dfy` | helpers/image_utils.py; its `ScratchDirectory` class is the temp-file directory |
| `SpeciesNetUtils` | `speciesnet_utils.dfy` | helpers/speciesnet_utils.py; its `Detection` class is a detection dict updated in place |
| `MainApp` | `main.dfy` | main.py |

The handlers are modelled as the code is written. The following features do not appear in it and are not modelled:
- multiple images per request
- a caller-supplied schema
- grouping of results
- retries
- a 503 with a retry hint

## Model

| member | source | states |
|---|---|---|
| Text.Strip | helpers/speciesnet_utils.py:17 | `str.strip()`: the result has no whitespace (Python's `isspace` set) at either end and is no longer than the input |
| Text.TrimStartSuffix | helpers/speciesnet_utils.py:17 | stripping the front keeps a suffix of the input |
| Text.TrimEndPrefix | helpers/speciesnet_utils.py:17 | stripping the end keeps a prefix of the input |
| Text.StripMiddle | helpers/speciesnet_utils.py:17 | `strip()` is a slice of the input with only whitespace before and after it |
| Text.TrimStartDropsSpace | helpers/speciesnet_utils.py:17 | stripping the front drops only whitespace |
| Text.TrimEndDropsSpace | helpers/speciesnet_utils.py:17 | stripping the end drops only whitespace |
| Text.StripBlank | helpers/config.py:7 | `strip()` gives "" exactly when the input is all whitespace |
| Text.StripAvoids | helpers/speciesnet_utils.py:17 | a character the input lacks is not in its `strip()` |
| Text.SplitPiecesAvoid | helpers/config.py:7 | no piece of `str.split(sep)` contains the separator |
| Text.Split | helpers/config.py:7 | `str.split(sep)` with a one-character separator always gives at least one piece |
| Text.JoinSplit | helpers/config.py:7 | `str.split(sep)` loses nothing: joining the pieces with the separator gives back the string |
| Text.SplitConcat | helpers/speciesnet_utils.py:17 | splitting `a + sep + b` gives the pieces of `a` followed by the pieces of `b` |
| Text.StrippedNonBlank | helpers/config.py:7 | `[item.strip() for item in pieces if item.strip()]` keeps at most as many items as there are pieces |
| Text.StrippedNonBlankClean | helpers/config.py:7 | every item the comprehension keeps is non-empty and has no whitespace at either end |
| Text.StrippedNonBlankAvoids | helpers/speciesnet_utils.py:17 | a character no piece contains is in no kept item |
| Text.StrippedNonBlankSound | helpers/config.py:7 | every item the comprehension keeps is the stripped form of some piece |
| Text.StrippedNonBlankComplete | helpers/config.py:7 | every piece that is not blank is kept, stripped |
| Text.StrippedNonBlankEmpty | helpers/config.py:7-8 | the comprehension keeps nothing exactly when every piece is blank |
| Text.StrippedNonBlankAppend | helpers/config.py:7 | the comprehension keeps input order: it distributes over concatenation |
| Text.LastStrippedNonBlank | helpers/speciesnet_utils.py:17-18 | the last kept item is the stripped form of the last non-blank piece |
| Text.AsciiLower | helpers/image_utils.py:43 | lower-casing keeps the length |
| Text.AsciiLowerAt | helpers/image_utils.py:43 | lower-casing works character by character, in place |
| Text.AsciiLowerIdempotent | helpers/config.py:24-25 | lower-casing twice is lower-casing once |
| Text.ParseNatToString | helpers/security_utils.py:29 | the decimal form of a count reads back as that count |
| Config.SplitEnvList | helpers/config.py:6-8 | a non-empty fallback gives a non-empty result |
| Config.SplitEnvListItems | helpers/config.py:6-8 | all pieces blank gives the fallback; otherwise the result is not empty and its items are non-empty, comma-free and stripped |
| Config.SplitEnvListOfName | helpers/config.py:6-8 | a value that is one stripped, comma-free name is the list of that name |
| Config.SplitEnvListSingle | helpers/config.py:6-8 | a comma-free value is the one stripped item, or the fallback when it is blank |
| Config.SplitEnvListConcat | helpers/config.py:6-8 | the items of `a,b` are the items of `a` then those of `b` |
| Config.ParseFlag | helpers/config.py:24-25 | definition: `value.lower() in {"1", "true", "yes"}`; its laws are ParseFlagIgnoresCase and ParseFlagExamples |
| Config.ParseFlagIgnoresCase | helpers/config.py:24-25 | a boolean setting reads the same in any letter case |
| Config.ParseFlagExamples | helpers/config.py:24-25 | "TRUE", "Yes" and "1" switch a flag on; "false", "on" and "" leave it off |
| Config.GetEnv | helpers/config.py:16 | definition of `os.getenv(key, default)`: the variable's value when set, the default otherwise |
| Config.LoadSettings | helpers/config.py:16-27 | start-up succeeds exactly when both rate-limit settings are integers, and a failure names the first variable that is not; on success every setting is its variable read with `os.getenv` and its default: the model name, version and log level verbatim, the origin and host lists split by `_split_env_list` with fallback `["*"]` (so never empty), the two rate-limit integers, and the flags parsed as above |
| Config.DefaultSettings | helpers/config.py:16-27 | with an empty environment: default model, every origin and host allowed, 60 requests per 60 seconds, both flags off |
| SecurityUtils.UnitWord | helpers/security_utils.py:21 | definition of the unit-word choice (singular for one, plural otherwise); that the rendered string keeps this fact is proved by FormatLimitStringRoundTrip |
| SecurityUtils.Render | helpers/security_utils.py:22 | `f"{requests}/{count} {unit}"`; its meaning is stated by `ParseRender` |
| SecurityUtils.ParseRender | helpers/security_utils.py:21-29 | `f"{requests}/{count} {unit}"` (`Render`, with the unit word chosen by `UnitWord`) reads back as its three parts |
| SecurityUtils.FormatLimitString | helpers/security_utils.py:12-14 | no limit exactly when the request count or the window is not positive |
| SecurityUtils.FormatLimitStringRoundTrip | helpers/security_utils.py:16-29 | the string reads back to the same request count and a period of exactly the window, in the largest of hour, minute or second that divides it, singular exactly when the count is one |
| SecurityUtils.DefaultLimitString | helpers/security_utils.py:20-26 | 60 requests per 60 seconds is "60/1 minute" |
| ImageUtils.IsValidImageSignature | helpers/image_utils.py:13-15 | the detector names JPEG, PNG or WEBP; no answer is not a valid signature |
| ImageUtils.ReadAndValidateImage | helpers/image_utils.py:13-39 | accepted exactly when the type is allowed, the size is at most 5 MiB and the signature is JPEG, PNG or WEBP; the first failing guard gives its own 400 message; an accepted upload comes back unchanged |
| ImageUtils.DeclaredTypeOnlyGates | helpers/image_utils.py:18-39 | among allowed types the declared one does not affect the outcome |
| ImageUtils.PreparePilImage | helpers/image_utils.py:51-57 | succeeds exactly when the decoder accepts the bytes; otherwise the 400 "Failed to decode image for Gemini." |
| ImageUtils.LastIndexOf | helpers/image_utils.py:43 | `str.rfind`: -1 or an index holding the character |
| ImageUtils.LastIndexOfIsLast | helpers/image_utils.py:43 | no occurrence of the character follows the index found |
| ImageUtils.PathName | helpers/image_utils.py:43 | `Path(path).name`: the last component that is neither empty nor ".", or "" |
| ImageUtils.PathNameHasNoSlash | helpers/image_utils.py:43 | the final component of a path holds no separator |
| ImageUtils.PathNameOfPlainName | helpers/image_utils.py:43 | a name without `/` that is neither empty nor "." is its own final component |
| ImageUtils.PathNameInDirectory | helpers/image_utils.py:43 | the final component of `dir/name` is `name` |
| ImageUtils.PathSuffix | helpers/image_utils.py:43 | `Path(path).suffix`: "" or a string that starts with a dot |
| ImageUtils.PathSuffixShape | helpers/image_utils.py:43 | a suffix is a dot followed by at least one character, with no further dot |
| ImageUtils.PathSuffixOf | helpers/image_utils.py:43 | a final component `stem.ext` with non-empty stem and extension has suffix `.ext` |
| ImageUtils.SuffixOfDefaultName | helpers/image_utils.py:43 | the default name "upload.jpg" has suffix ".jpg" |
| ImageUtils.NameOrDefault | helpers/image_utils.py:43 | `original_name or "upload.jpg"` is never empty |
| ImageUtils.TempSuffix | helpers/image_utils.py:43-45 | always one of the four allowed suffixes; either ".jpg" or the lower-cased suffix of the name (of "upload.jpg" when there is none) |
| ImageUtils.TempSuffixOfMissingName | helpers/image_utils.py:43 | a missing or empty name gives ".jpg" |
| ImageUtils.TempSuffixOfName | helpers/image_utils.py:43-45 | for a non-empty name, the lower-cased suffix when allowed, else ".jpg" |
| ImageUtils.TempSuffixUpperCase | helpers/image_utils.py:43 | "PHOTO.PNG" is stored with ".png" |
| ImageUtils.TempSuffixNoSuffix | helpers/image_utils.py:43 | ".png" and "photo." have no suffix and get ".jpg" |
| ImageUtils.ScratchDirectory.constructor | helpers/config.py:12-13 | at start-up this process has created no temp file; files already in the directory are kept and not tracked |
| ImageUtils.ScratchDirectory.PersistTempImage | helpers/image_utils.py:42-48 | writes the bytes to a new file that did not exist before, under an allowed suffix, and changes nothing else |
| ImageUtils.ScratchDirectory.Unlink | helpers/speciesnet_utils.py:96 | removes the file if present; a missing file is no error |
| SpeciesNetUtils.DisplayNameOfText | helpers/speciesnet_utils.py:17-18 | the last non-blank `;`-segment of a non-empty label, stripped, or the label itself when there is none |
| SpeciesNetUtils.DisplayNameShape | helpers/speciesnet_utils.py:17-18 | the display name of a non-empty label is non-empty; when some segment is non-blank it has no ';' and no surrounding whitespace, and when every segment is blank it is the label itself |
| SpeciesNetUtils.ExtractDisplayName | helpers/speciesnet_utils.py:14-18 | no name exactly for a missing or empty label |
| SpeciesNetUtils.DisplayNameOfPlainName | helpers/speciesnet_utils.py:17-18 | a non-empty, stripped label without ';' is its own display name |
| SpeciesNetUtils.DisplayNameIsLastNonBlankSegment | helpers/speciesnet_utils.py:17-18 | the display name is the last non-blank segment, stripped |
| SpeciesNetUtils.DisplayNameAfterLastSeparator | helpers/speciesnet_utils.py:17-18 | non-blank text after the last ';' is the display name, stripped |
| SpeciesNetUtils.DisplayNameOfBlankLabel | helpers/speciesnet_utils.py:18 | a label whose segments are all blank is returned verbatim |
| SpeciesNetUtils.DisplayNameIdempotent | helpers/speciesnet_utils.py:14-18 | a display name is its own display name |
| SpeciesNetUtils.DisplayNameOfTaxonomicLabel | helpers/speciesnet_utils.py:14-18 | "a; b ;Canis lupus" is shown as "Canis lupus" |
| SpeciesNetUtils.DisplayValue | helpers/speciesnet_utils.py:15-17 | a loosely typed label can be displayed exactly when it is falsy or a string, anything else raises; a falsy label gives `null`, a string its display name |
| SpeciesNetUtils.Annotated | helpers/speciesnet_utils.py:42 | annotating a detection never changes its label |
| SpeciesNetUtils.AnnotatedContents | helpers/speciesnet_utils.py:42 | when the label can be displayed, annotation adds `label_display` with the label's display value and changes no other key; otherwise the record is unchanged |
| SpeciesNetUtils.AnnotatedLabelDisplay | helpers/speciesnet_utils.py:42 | `label_display` is the display name of a string label and `null` for a falsy one |
| SpeciesNetUtils.AnnotatedIdempotent | helpers/speciesnet_utils.py:41-42 | annotating twice is annotating once, so a detection listed twice ends up the same |
| SpeciesNetUtils.RankClasses | helpers/speciesnet_utils.py:27-38 | `top_classes` pairs the i-th class with the i-th score and its display name, for as many pairs as both lists have |
| SpeciesNetUtils.AnnotateDetections | helpers/speciesnet_utils.py:40-42 | succeeds exactly when every label can be displayed; then every detection is annotated; on failure each is either annotated or untouched |
| SpeciesNetUtils.SummarizePrediction | helpers/speciesnet_utils.py:21-55 | no output or no predictions is an error; otherwise the first prediction's fields are copied, its classes ranked, its best class the first ranked, and its detections annotated in place |
| SpeciesNetUtils.SummarizeOutcome | helpers/speciesnet_utils.py:86-88 | a raised classifier call or an unsummarisable output is an error; otherwise the first prediction is summarised; the detections end annotated on success, and each is annotated or untouched otherwise |
| SpeciesNetUtils.ClassifyAndUnlink | helpers/speciesnet_utils.py:85-96 | succeeds exactly when the classifier's output can be summarised, else the fixed 500; the detections end annotated on success, annotated or untouched otherwise; this request's temp file is removed on every path and no other file is touched |
| SpeciesNetUtils.AnalyzeSpeciesNetUpload | helpers/speciesnet_utils.py:82-102 | a failed guard is answered with its 400 and touches nothing; otherwise any classifier or summary failure is the fixed 500; a success carries the file name, the byte count and the summary, with every detection record annotated; the temp file it created is removed on every path and no other file is touched |
| JsonValues.Subscript | main.py:64 | definition of `v[key]`: defined exactly on a dict holding the key, where it is that key's value |
| MainApp.MapGeminiFailure | main.py:46-53 | 500 with the exception's message exactly for a `RuntimeError`; 502 with the fixed message for anything else |
| MainApp.UpstreamDetailHidden | main.py:48-53 | two non-configuration failures give the client the same answer |
| MainApp.TextOnly | main.py:62 | `{"text": text_val}`: a dict whose only key is "text", holding the text |
| MainApp.DecodeResponse | main.py:55-70 | string text is parsed, or becomes the one-key dict `{"text": text}` when it does not parse; otherwise the dump's `candidates.response`, failing with an unhandled 500 exactly when that path is missing; otherwise `to_dict()`; otherwise `{"text": text}` |
| MainApp.TextTakesPrecedence | main.py:56-62 | a string `text` decides alone |
| MainApp.ModelDumpBeforeToDict | main.py:63-68 | `model_dump` wins over `to_dict` |
| MainApp.Answer | main.py:46-75 | a raised call is mapped; a response is decoded and returned with the prompt and model name |
| MainApp.AnalyzeWithGemini | main.py:34-75 | the guards' 400s, then the decode 400; an upload that passes both gets exactly `Answer` of the model's outcome (mapped failure, decode failure, or the decoded reply); every failure is 400, 500 or 502 |
| MainApp.Invoke | main.py:43-45 | a call with the wrong number of positional arguments raises `TypeError`, not a `RuntimeError` |
| MainApp.AnalyzeWithGeminiAsWritten | main.py:39-45 | the handler as written answers a failed guard with its 400 |
| MainApp.AsWrittenAlwaysBadGateway | main.py:43-53 | as written, every upload that passes the guards and decodes is answered with the 502 |
| MainApp.CorrectedReturnsModelJson | main.py:55-59 | with the call corrected, JSON text from the model is returned to the client |

## Left out

- `str.lower()` is modelled on ASCII letters only. Its results are only tested for membership in the allowed suffixes and the true words. For those tests the model is exact: the only non-ASCII characters that lower to ASCII letters are U+212A (to `k`) and U+0130 (to `i` and a combining dot), and neither letter occurs in those sets.
- Paths are POSIX paths. Windows separators and drive letters are not modelled.
- `Path.suffix` follows the rule of Python 3.12, the last version with the `imghdr` module that helpers/image_utils.py imports: a final component has a suffix when its last `.` is neither its first nor its last character. A final component `.` is treated as having no name.
- Temp file names are a counter instead of random names. The guarantee kept is that a new file never overwrites an existing one.
- `NamedTemporaryFile` and `unlink` are state changes of `ScratchDirectory`; disk I/O and its errors are not modelled.
- The SpeciesNet engine (model loading, `predict`, the worker thread) is the parameter `infer`. Its output is typed:
  - an absent `predictions`, `detections` or `classifications` stands as empty
  - class labels and the `prediction` label are strings; a truthy non-string `prediction` would make `extract_display_name` raise at helpers/speciesnet_utils.py:47, after the detections were annotated, and the answer would be the 500
- An explicit `None` for `detections`, `classes` or `scores` is not modelled (the source would raise and answer 500).
- Python dicts are maps; key order is not kept. Numbers are reals, so the int/float distinction and float rounding are not modelled.
- The Gemini client, API-key lookup and PIL re-encoding (helpers/gemini_utils.py) are the parameter `call`. A raised `RuntimeError` stands for the missing-key error.
- `model_dump(exclude_none=True)` raising, `to_dict()` raising, and `text` attributes that are properties raising, are not modelled.
- `json.loads` is the parameter `parseJson`; `None` stands for any exception it raises.
- `imghdr.what` is the parameter `detect`. PIL decoding is the parameter `decodeImage`.
- `int()` on the rate-limit settings is the parameter `parseInt`. A failure is reported by the variable name, where the source raises `ValueError` at import.
- `configure_rate_limiting`, the middlewares, the request schemas, logging and the two trivial routes are outside the modelled core. The limit string they consume is modelled.
- AnalyzeSpeciesNetUpload: requests are modelled one at a time. The handler awaits (helpers/speciesnet_utils.py:83 and :87), and concurrent requests share the scratch directory, so the per-request promise kept is that its own temp file is removed and no other file is touched. Cancellation is not modelled: `asyncio.CancelledError` is not an `Exception`, so it escapes the `except` at helpers/speciesnet_utils.py:89 without becoming the 500, while the `finally` still removes the file.
- ClassifyAndUnlink: the same two limits apply: other requests running meanwhile, and cancellation escaping as a non-500 while the file is still removed, are not modelled.
- `AnalyzeWithGeminiAsWritten` states only the guard outcomes in its own contract; the 502 outcome is stated by `AsWrittenAlwaysBadGateway`.

## Findings

| source | as written | input that shows it | evidently intended | confidence | as-written member | corrected member |
|---|---|---|---|---|---|---|
| main.py:43-45 | passes three positional arguments (prompt, image, `{"type": "object"}`) to `call_gemini`, which takes two (helpers/gemini_utils.py:33); the `TypeError` is caught by `except Exception` | any prompt with a JPEG upload under 5 MiB that decodes | call the model with the prompt and the image | high (not executed) | MainApp.AnalyzeWithGeminiAsWritten, MainApp.AsWrittenAlwaysBadGateway | MainApp.AnalyzeWithGemini, MainApp.CorrectedReturnsModelJson |
