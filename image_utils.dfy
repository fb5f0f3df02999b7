/** helpers/image_utils.py: the three upload guards, the choice of the temp
    file's suffix, and the scratch directory that holds temp files.
    `imghdr.what` is the parameter `detect`; the bytes written to disk are
    kept as ghost state. */
module ImageUtils {
  import opened Wrappers
  import opened Text
  import Config

  /** An `UploadFile`: client-supplied name and content type, and its body. */
  datatype Upload = Upload(filename: Option<string>, contentType: Option<string>, body: Bytes)

  const INVALID_TYPE := HttpError(400, "Invalid file type. Only JPG, PNG, WEBP allowed.")
  const TOO_LARGE := HttpError(400, "File too large. Maximum size is 5MB.")
  const BAD_SIGNATURE := HttpError(400, "Invalid image file signature.")

  /** Tags of the detector that count as an image. */
  const IMAGE_KINDS: set<string> := {"jpeg", "png", "webp"}

  /** `is_valid_image_signature`: the detector recognises a JPEG, PNG or WEBP. */
  predicate IsValidImageSignature(detect: Bytes -> Option<string>, data: Bytes) {
    detect(data).Some? && detect(data).value in IMAGE_KINDS
  }

  /** The declared content type is one of `ALLOWED_TYPES` (`None` is not). */
  predicate AllowedType(contentType: Option<string>) {
    contentType.Some? && contentType.value in Config.ALLOWED_TYPES
  }

  /** `read_and_validate_image`: three guards in order, the first that fails
      decides the 400 answer; an upload that passes comes back unchanged. */
  function ReadAndValidateImage(upload: Upload, detect: Bytes -> Option<string>): (r: Result<Bytes, HttpError>)
    ensures r.Success? <==>
      AllowedType(upload.contentType) && |upload.body| <= Config.MAX_FILE_SIZE
      && IsValidImageSignature(detect, upload.body)
    ensures r.Success? ==> r.value == upload.body
    ensures r.Failure? ==> r.error.status == 400
    ensures !AllowedType(upload.contentType) ==> r == Failure(INVALID_TYPE)
    ensures AllowedType(upload.contentType) && |upload.body| > Config.MAX_FILE_SIZE ==> r == Failure(TOO_LARGE)
    ensures (AllowedType(upload.contentType) && |upload.body| <= Config.MAX_FILE_SIZE
             && !IsValidImageSignature(detect, upload.body)) ==> r == Failure(BAD_SIGNATURE)
  {
    if !AllowedType(upload.contentType) then Failure(INVALID_TYPE)
    else if |upload.body| > Config.MAX_FILE_SIZE then Failure(TOO_LARGE)
    else if !IsValidImageSignature(detect, upload.body) then Failure(BAD_SIGNATURE)
    else Success(upload.body)
  }

  /** Among the allowed types the declared one makes no difference: the bytes
      alone decide, so a mislabelled image is judged by its signature. */
  lemma DeclaredTypeOnlyGates(u1: Upload, u2: Upload, detect: Bytes -> Option<string>)
    requires AllowedType(u1.contentType) && AllowedType(u2.contentType)
    requires u1.body == u2.body
    ensures ReadAndValidateImage(u1, detect) == ReadAndValidateImage(u2, detect)
  {
  }

  const IMAGE_DECODE_FAILED := HttpError(400, "Failed to decode image for Gemini.")

  /** `prepare_pil_image`: the bytes as a decoded image, or a 400 when the
      decoder (the parameter `decode`) rejects them. The image is represented
      by the bytes it was decoded from. */
  function PreparePilImage(content: Bytes, decode: Bytes -> bool): (r: Result<Bytes, HttpError>)
    ensures r.Success? <==> decode(content)
    ensures r.Success? ==> r.value == content
    ensures r.Failure? ==> r.error == IMAGE_DECODE_FAILED && r.error.status == 400
  {
    if decode(content) then Success(content) else Failure(IMAGE_DECODE_FAILED)
  }

  /** Suffixes a temp file may carry. */
  const ALLOWED_SUFFIXES: set<string> := {".jpg", ".jpeg", ".png", ".webp"}

  /** Index of the last `c` in `s`, or -1 (`str.rfind`). */
  function LastIndexOf(s: string, c: char): (i: int)
    ensures -1 <= i < |s|
    ensures i >= 0 ==> s[i] == c
  {
    if s == [] then -1
    else if s[|s| - 1] == c then |s| - 1
    else LastIndexOf(s[..|s| - 1], c)
  }

  /** No `c` follows the one found. */
  lemma {:induction false} LastIndexOfIsLast(s: string, c: char)
    ensures forall j :: LastIndexOf(s, c) < j < |s| ==> s[j] != c
  {
    if s != [] && s[|s| - 1] != c {
      LastIndexOfIsLast(s[..|s| - 1], c);
    }
  }

  /** The last `c` is the one followed by no other. */
  lemma {:induction false} LastIndexOfAt(a: string, c: char, b: string)
    requires c !in b
    ensures LastIndexOf(a + [c] + b, c) == |a|
  {
    var s := a + [c] + b;
    if b != [] {
      assert s[..|s| - 1] == a + [c] + b[..|b| - 1];
      assert s[|s| - 1] == b[|b| - 1];
      LastIndexOfAt(a, c, b[..|b| - 1]);
    }
  }

  /** Path components that name something: empty pieces (from repeated or
      trailing slashes) and "." are dropped, as pathlib does. */
  function NamedComponents(pieces: seq<string>): (r: seq<string>)
    ensures forall x :: x in r ==> x in pieces && x != "" && x != "."
  {
    if pieces == [] then []
    else (if pieces[0] == "" || pieces[0] == "." then [] else [pieces[0]]) + NamedComponents(pieces[1..])
  }

  /** `Path(path).name`: the final component, "" when there is none. */
  function PathName(path: string): string {
    var parts := NamedComponents(Split(path, '/'));
    if parts == [] then "" else parts[|parts| - 1]
  }

  /** The final component holds no separator. */
  lemma PathNameHasNoSlash(path: string)
    ensures '/' !in PathName(path)
  {
    var pieces := Split(path, '/');
    SplitPiecesAvoid(path, '/');
    var parts := NamedComponents(pieces);
    if parts != [] {
      assert parts[|parts| - 1] in pieces;
    }
  }

  /** `Path(path).suffix`: from the last dot of the name, unless that dot
      starts or ends the name. */
  function PathSuffix(path: string): (r: string)
    ensures r == [] || r[0] == '.'
  {
    var name := PathName(path);
    var i := LastIndexOf(name, '.');
    if 0 < i < |name| - 1 then name[i..] else ""
  }

  /** A suffix is a dot followed by at least one character and no other dot. */
  lemma PathSuffixShape(path: string)
    ensures var r := PathSuffix(path);
      r != [] ==> |r| >= 2 && r[0] == '.' && '.' !in r[1..]
  {
    var name := PathName(path);
    var i := LastIndexOf(name, '.');
    LastIndexOfIsLast(name, '.');
    if 0 < i < |name| - 1 {
      var r := name[i..];
      forall k | 0 <= k < |r[1..]| ensures r[1..][k] != '.' {
        assert r[1..][k] == name[i + 1 + k];
      }
    }
  }

  /** A bare file name is its own final component. */
  lemma PathNameOfPlainName(name: string)
    requires name != "" && name != "." && '/' !in name
    ensures PathName(name) == name
  {
    SplitWithoutSeparator(name, '/');
    assert NamedComponents([name]) == [name] by {
      assert [name][1..] == [];
    }
  }

  /** The final component of "dir/name" is the name. */
  lemma PathNameInDirectory(dir: string, name: string)
    requires '/' !in dir && name != "" && name != "." && '/' !in name
    ensures PathName(dir + "/" + name) == name
  {
    assert dir + "/" + name == dir + ['/'] + name;
    SplitConcat(dir, name, '/');
    SplitWithoutSeparator(dir, '/');
    SplitWithoutSeparator(name, '/');
    assert [dir, name][1..] == [name] && [name][1..] == [];
    assert NamedComponents([name]) == [name];
    assert NamedComponents([dir, name]) == (if dir == "" || dir == "." then [] else [dir]) + [name];
  }

  /** A final component "stem.ext" with a non-empty stem and extension has
      suffix ".ext". */
  lemma PathSuffixOf(path: string, stem: string, ext: string)
    requires PathName(path) == stem + "." + ext
    requires stem != "" && ext != "" && '.' !in ext
    ensures PathSuffix(path) == "." + ext
  {
    var name := stem + "." + ext;
    assert name == stem + ['.'] + ext;
    LastIndexOfAt(stem, '.', ext);
    assert name[|stem|..] == "." + ext;
  }

  lemma SuffixOfDefaultName(name: string)
    requires name == "upload.jpg"
    ensures PathSuffix(name) == ".jpg"
  {
    assert name == "upload" + "." + "jpg";
    PathNameOfPlainName(name);
    PathSuffixOf(name, "upload", "jpg");
  }

  /** `original_name or "upload.jpg"`. */
  function NameOrDefault(originalName: Option<string>): (name: string)
    ensures name != ""
  {
    if originalName.None? || originalName.value == "" then "upload.jpg" else originalName.value
  }

  /** The suffix of `persist_temp_image`: the lower-cased suffix of the
      client's file name (of "upload.jpg" when it has none), replaced by
      ".jpg" when it is missing or not one of the four allowed. */
  function TempSuffix(originalName: Option<string>): (r: string)
    ensures r in ALLOWED_SUFFIXES
    ensures r == ".jpg" || r == AsciiLower(PathSuffix(NameOrDefault(originalName)))
  {
    var suffix := AsciiLower(PathSuffix(NameOrDefault(originalName)));
    var chosen := if suffix == "" then ".jpg" else suffix;
    if chosen in ALLOWED_SUFFIXES then chosen else ".jpg"
  }

  /** An upload without a file name is stored as ".jpg". */
  lemma TempSuffixOfMissingName(originalName: Option<string>)
    requires originalName.None? || originalName == Some("")
    ensures TempSuffix(originalName) == ".jpg"
  {
    SuffixOfDefaultName("upload.jpg");
    assert AsciiLower(".jpg") == ".jpg";
  }

  /** For a non-empty name, the lower-cased suffix if allowed, else ".jpg". */
  lemma TempSuffixOfName(name: string, lowered: string)
    requires name != "" && AsciiLower(PathSuffix(name)) == lowered
    ensures TempSuffix(Some(name)) == if lowered in ALLOWED_SUFFIXES then lowered else ".jpg"
  {
  }

  /** Case is folded: "PHOTO.PNG" is stored as ".png". */
  lemma TempSuffixUpperCase(name: string)
    requires name == "PHOTO.PNG"
    ensures TempSuffix(Some(name)) == ".png"
  {
    assert name == "PHOTO" + "." + "PNG";
    PathNameOfPlainName(name);
    PathSuffixOf(name, "PHOTO", "PNG");
    assert AsciiLower("." + "PNG") == ".png";
    TempSuffixOfName(name, ".png");
  }

  /** A name that starts or ends with its only dot has no suffix. */
  lemma TempSuffixNoSuffix()
    ensures TempSuffix(Some(".png")) == ".jpg"
    ensures TempSuffix(Some("photo.")) == ".jpg"
  {
    PathNameOfPlainName(".png");
    LastIndexOfAt("", '.', "png");
    assert "" + ['.'] + "png" == ".png";
    PathNameOfPlainName("photo.");
    LastIndexOfAt("photo", '.', "");
    assert "photo" + ['.'] + "" == "photo.";
  }

  /** A temp file `tmp_speciesnet/<unique name><suffix>`. */
  datatype TempPath = TempPath(id: nat, suffix: string)

  /** The scratch directory `TMP_SPECIESNET_DIR`. Temporary-file names are
      unique; here they are numbered in order of creation. */
  class ScratchDirectory {
    /** The temp files this process has created and not yet removed, and
        what they hold. Files already in the directory are not tracked. */
    ghost var files: map<TempPath, Bytes>
    /** How many temp files were ever created here. */
    var created: nat

    ghost predicate Valid()
      reads this
    {
      forall p :: p in files ==> p.id < created
    }

    /** `TMP_SPECIESNET_DIR.mkdir(parents=True, exist_ok=True)` at start-up:
        whatever the directory already holds stays, and this process has
        created no temp file yet. */
    constructor ()
      ensures Valid() && files == map[] && created == 0
    {
      files := map[];
      created := 0;
    }

    /** The path the next `PersistTempImage` call creates. */
    function NextPath(originalName: Option<string>): TempPath
      reads this
    {
      TempPath(created, TempSuffix(originalName))
    }

    /** `persist_temp_image`: writes the bytes to a new file, never one that
        already exists, under the normalised suffix. */
    method PersistTempImage(data: Bytes, originalName: Option<string>) returns (p: TempPath)
      requires Valid()
      modifies this
      ensures Valid()
      ensures p == old(NextPath(originalName)) && p !in old(files)
      ensures p.suffix in ALLOWED_SUFFIXES
      ensures files == old(files)[p := data]
      ensures created == old(created) + 1
    {
      p := TempPath(created, TempSuffix(originalName));
      files := files[p := data];
      created := created + 1;
    }

    /** `path.unlink(missing_ok=True)`: removing a missing file is no error. */
    method Unlink(p: TempPath)
      requires Valid()
      modifies this
      ensures Valid()
      ensures files == old(files) - {p} && created == old(created)
    {
      files := files - {p};
    }
  }
}
