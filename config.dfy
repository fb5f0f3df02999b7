/** helpers/config.py: the upload limits and the settings read from the
    environment at start-up. The environment is a parameter, and so is
    Python's `int()`, which is only ever applied to two settings. */
module Config {
  import opened Wrappers
  import opened Text

  /** MIME types an upload may declare. */
  const ALLOWED_TYPES: set<string> := {"image/jpeg", "image/png", "image/webp"}

  /** Largest accepted upload, in bytes (5 MiB). */
  const MAX_FILE_SIZE: nat := 5 * 1024 * 1024

  /** Scratch directory for uploads handed to the classifier. */
  const TMP_SPECIESNET_DIR: string := "tmp_speciesnet"

  const SERVICE_NAME: string := "Atlas Backend"
  const DEFAULT_GEMINI_MODEL: string := "models/gemini-1.5-flash"

  /** Lower-cased values that switch a boolean setting on. */
  const TRUE_WORDS: set<string> := {"1", "true", "yes"}

  /** `_split_env_list`: the comma-separated items, stripped, blank ones
      dropped, or `fallback` when nothing is left. */
  function SplitEnvList(value: string, fallback: seq<string>): (r: seq<string>)
    ensures fallback != [] ==> r != []
  {
    var candidates := StrippedNonBlank(Split(value, ','));
    if candidates != [] then candidates else fallback
  }

  /** All items blank gives the fallback; otherwise the result is not empty
      and its items are non-empty, comma-free and stripped. */
  lemma SplitEnvListItems(value: string, fallback: seq<string>)
    ensures (forall p :: p in Split(value, ',') ==> Strip(p) == []) ==> SplitEnvList(value, fallback) == fallback
    ensures (exists p :: p in Split(value, ',') && Strip(p) != []) ==>
      var r := SplitEnvList(value, fallback);
      r != [] && forall x :: x in r ==> x != [] && ',' !in x && Trimmed(x)
  {
    var pieces := Split(value, ',');
    StrippedNonBlankEmpty(pieces);
    if StrippedNonBlank(pieces) != [] {
      StrippedNonBlankClean(pieces);
      SplitPiecesAvoid(value, ',');
      StrippedNonBlankAvoids(pieces, ',');
    }
  }

  /** A value without commas is one item: itself, stripped (or the fallback
      when it is blank). */
  lemma SplitEnvListSingle(value: string, fallback: seq<string>)
    requires ',' !in value
    ensures SplitEnvList(value, fallback) == if Strip(value) == [] then fallback else [Strip(value)]
  {
    SplitWithoutSeparator(value, ',');
    var pieces := Split(value, ',');
    assert pieces[1..] == [];
    assert StrippedNonBlank(pieces) == if Strip(value) == [] then [] else [Strip(value)];
  }

  /** Items keep their order: the items of `a,b` are those of `a` followed by
      those of `b`. */
  lemma SplitEnvListConcat(a: string, b: string, fallback: seq<string>)
    requires exists p :: p in Split(a, ',') && Strip(p) != []
    requires exists p :: p in Split(b, ',') && Strip(p) != []
    ensures SplitEnvList(a + [','] + b, fallback) == SplitEnvList(a, fallback) + SplitEnvList(b, fallback)
  {
    var pa, pb := Split(a, ','), Split(b, ',');
    SplitConcat(a, b, ',');
    StrippedNonBlankAppend(pa, pb);
    StrippedNonBlankEmpty(pa);
    StrippedNonBlankEmpty(pb);
    assert StrippedNonBlank(pa) != [] && StrippedNonBlank(pb) != [];
    assert StrippedNonBlank(Split(a + [','] + b, ',')) == StrippedNonBlank(pa) + StrippedNonBlank(pb);
  }

  /** `value.lower() in {"1", "true", "yes"}`. */
  function ParseFlag(value: string): (on: bool)
    ensures on ==> 1 <= |value| <= 4
  {
    AsciiLower(value) in TRUE_WORDS
  }

  /** A flag reads the same whatever the case of its letters. */
  lemma ParseFlagIgnoresCase(value: string)
    ensures ParseFlag(AsciiLower(value)) == ParseFlag(value)
  {
    AsciiLowerIdempotent(value);
  }

  /** The words that switch a flag on, in any case; the default is off. */
  lemma ParseFlagExamples()
    ensures ParseFlag("TRUE") && ParseFlag("Yes") && ParseFlag("1")
    ensures !ParseFlag("false") && !ParseFlag("on") && !ParseFlag("")
  {
    assert AsciiLower("TRUE") == "true";
    assert AsciiLower("Yes") == "yes";
    assert AsciiLower("1") == "1";
    assert AsciiLower("false") == "false";
    assert AsciiLower("on") == "on";
  }

  /** `os.getenv(key, default)`. */
  function GetEnv(env: map<string, string>, key: string, default: string): (v: string)
    ensures key in env ==> v == env[key]
    ensures key !in env ==> v == default
  {
    if key in env then env[key] else default
  }

  datatype Settings = Settings(
    geminiModelName: string,
    allowedOrigins: seq<string>,
    allowedHosts: seq<string>,
    rateLimitRequests: int,
    rateLimitWindowSeconds: int,
    forceHttps: bool,
    enableApiDocs: bool,
    serviceVersion: string,
    logLevel: string)

  /** The module-level settings of config.py. `parseInt` stands for `int()`;
      when it rejects a value the import fails, named here by the variable. */
  function LoadSettings(env: map<string, string>, parseInt: string -> Option<int>): (r: Result<Settings, string>)
    ensures r.Success? <==>
      parseInt(GetEnv(env, "RATE_LIMIT_REQUESTS", "60")).Some? &&
      parseInt(GetEnv(env, "RATE_LIMIT_WINDOW_SECONDS", "60")).Some?
    ensures r.Success? ==> r.value.allowedOrigins != [] && r.value.allowedHosts != []
    ensures r.Success? ==> r.value.forceHttps == ParseFlag(GetEnv(env, "FORCE_HTTPS", "false"))
    ensures r.Success? ==> r.value.enableApiDocs == ParseFlag(GetEnv(env, "ENABLE_API_DOCS", "false"))
    ensures r.Success? ==>
      && r.value.rateLimitRequests == parseInt(GetEnv(env, "RATE_LIMIT_REQUESTS", "60")).value
      && r.value.rateLimitWindowSeconds == parseInt(GetEnv(env, "RATE_LIMIT_WINDOW_SECONDS", "60")).value
    ensures r.Success? ==>
      && r.value.allowedOrigins == SplitEnvList(GetEnv(env, "ALLOWED_ORIGINS", "*"), ["*"])
      && r.value.allowedHosts == SplitEnvList(GetEnv(env, "ALLOWED_HOSTS", "*"), ["*"])
    ensures r.Success? ==>
      && r.value.geminiModelName == GetEnv(env, "GEMINI_MODEL", DEFAULT_GEMINI_MODEL)
      && r.value.serviceVersion == GetEnv(env, "ATLAS_BACKEND_VERSION", "1.0.0")
      && r.value.logLevel == GetEnv(env, "LOG_LEVEL", "INFO")
    ensures r.Failure? && parseInt(GetEnv(env, "RATE_LIMIT_REQUESTS", "60")).None? ==>
      r.error == "RATE_LIMIT_REQUESTS"
    ensures r.Failure? && parseInt(GetEnv(env, "RATE_LIMIT_REQUESTS", "60")).Some? ==>
      r.error == "RATE_LIMIT_WINDOW_SECONDS"
  {
    var requests := parseInt(GetEnv(env, "RATE_LIMIT_REQUESTS", "60"));
    var window := parseInt(GetEnv(env, "RATE_LIMIT_WINDOW_SECONDS", "60"));
    if requests.None? then Failure("RATE_LIMIT_REQUESTS")
    else if window.None? then Failure("RATE_LIMIT_WINDOW_SECONDS")
    else Success(Settings(
      GetEnv(env, "GEMINI_MODEL", DEFAULT_GEMINI_MODEL),
      SplitEnvList(GetEnv(env, "ALLOWED_ORIGINS", "*"), ["*"]),
      SplitEnvList(GetEnv(env, "ALLOWED_HOSTS", "*"), ["*"]),
      requests.value,
      window.value,
      ParseFlag(GetEnv(env, "FORCE_HTTPS", "false")),
      ParseFlag(GetEnv(env, "ENABLE_API_DOCS", "false")),
      GetEnv(env, "ATLAS_BACKEND_VERSION", "1.0.0"),
      GetEnv(env, "LOG_LEVEL", "INFO")))
  }

  /** A single clean name is the list holding just that name. */
  lemma SplitEnvListOfName(name: string, fallback: seq<string>)
    requires name != "" && ',' !in name && Trimmed(name)
    ensures SplitEnvList(name, fallback) == [name]
  {
    SplitEnvListSingle(name, fallback);
    StripTrimmed(name);
  }

  /** With nothing set in the environment: every origin and host allowed,
      HTTPS redirection and API docs off, 60 requests per 60 seconds. */
  lemma DefaultSettings(parseInt: string -> Option<int>)
    requires parseInt("60") == Some(60)
    ensures LoadSettings(map[], parseInt) ==
      Success(Settings(DEFAULT_GEMINI_MODEL, ["*"], ["*"], 60, 60, false, false, "1.0.0", "INFO"))
  {
    SplitEnvListOfName("*", ["*"]);
    ParseFlagExamples();
    var r := LoadSettings(map[], parseInt);
    assert r.Success?;
    assert r.value.allowedOrigins == ["*"] && r.value.allowedHosts == ["*"];
    assert !r.value.forceHttps && !r.value.enableApiDocs;
  }
}
