/** The upload middleware's own decisions around multer: which formats are
    allowed, the file filter and its rejection message, the size and count
    limits, how multer's errors are passed on, the stored file name, and
    the public `url` given to every stored file. Multer's parsing and the
    disk writes are not modelled; the clock and the random number of the
    file name are parameters. */
module Upload {
  import opened Wrappers
  import opened Values
  import opened Strings
  import opened AppErrors
  import opened Http
  import opened ErrorHandler

  /** `allowedFileTypes` */
  const AllowedFileTypes: seq<string> := ["image/png", "image/jpeg", "image/jpg"]

  /** The default of the `fields` parameter. */
  const DefaultFields: seq<string> := ["file"]

  /** `appConfig.UPLOAD_SIZE_LIMIT`, in megabytes. */
  const UploadSizeLimit: nat := 5

  /** `maxCount` of every configured field. */
  const MaxCount: nat := 10

  /** `if (allowedFormats.length === 0) allowedFormats = allowedFileTypes` */
  function WithDefault(formats: seq<string>): (r: seq<string>)
    ensures |r| > 0
    ensures |formats| > 0 ==> r == formats
    ensures |formats| == 0 ==> r == AllowedFileTypes
  {
    if |formats| == 0 then AllowedFileTypes else formats
  }

  /** `format.split('/')[1]`; `join` writes a missing piece as `''`. */
  function Subtype(format: string): string {
    var parts := Split(format, '/');
    if |parts| >= 2 then parts[1] else ""
  }

  /** `allowedFormats.map(format => format.split('/')[1])` */
  function Subtypes(formats: seq<string>): (r: seq<string>)
    ensures |r| == |formats|
    ensures forall i :: 0 <= i < |formats| ==> r[i] == Subtype(formats[i])
  {
    if |formats| == 0 then [] else [Subtype(formats[0])] + Subtypes(formats[1..])
  }

  /** The rejection message of `fileFilter`. */
  function InvalidFormatMessage(fieldName: string, formats: seq<string>): string {
    "Invalid format for field \"" + fieldName + "\". Allowed: " + Join(Subtypes(formats), ", ")
  }

  function FileFormatError(message: string): Thrown {
    OtherError("FileFormatError", message)
  }

  /** `fileFilter(req, file, cb)`: accepts exactly the listed MIME types;
      any other type is refused with a `FileFormatError`. */
  function FileFilter(formats: seq<string>, fieldName: string, mimetype: string): (r: Result<bool, Thrown>)
    ensures r.Ok? <==> mimetype in formats
    ensures r.Ok? ==> r.value
    ensures r.Err? ==> r.error == FileFormatError(InvalidFormatMessage(fieldName, formats))
  {
    if mimetype in formats then Ok(true) else Err(FileFormatError(InvalidFormatMessage(fieldName, formats)))
  }

  /** The subtype of `type/subtype`. */
  lemma SubtypeOf(t: string, sub: string)
    requires '/' !in t && '/' !in sub
    ensures Subtype(t + "/" + sub) == sub
  {
    SplitPair(t, '/', sub);
    assert t + "/" + sub == t + ['/'] + sub;
  }

  lemma DefaultSubtypes()
    ensures Subtypes(AllowedFileTypes) == ["png", "jpeg", "jpg"]
  {
    var f := AllowedFileTypes;
    assert f[0] == "image" + "/" + "png" && f[1] == "image" + "/" + "jpeg" && f[2] == "image" + "/" + "jpg";
    SubtypeOf("image", "png");
    SubtypeOf("image", "jpeg");
    SubtypeOf("image", "jpg");
    var r := Subtypes(f);
    assert |r| == 3 && r[0] == "png" && r[1] == "jpeg" && r[2] == "jpg";
  }

  lemma ListedThree()
    ensures "png" + ", " + ("jpeg" + ", " + "jpg") == "png, jpeg, jpg"
  {
  }

  /** The default formats are listed as `png, jpeg, jpg`. */
  lemma DefaultList()
    ensures Join(Subtypes(AllowedFileTypes), ", ") == "png, jpeg, jpg"
  {
    DefaultSubtypes();
    JoinThree("png", "jpeg", "jpg", ", ");
    ListedThree();
  }

  /** With the default formats the message lists png, jpeg and jpg. */
  lemma DefaultRejectionMessage(fieldName: string)
    ensures InvalidFormatMessage(fieldName, AllowedFileTypes)
      == "Invalid format for field \"" + fieldName + "\". Allowed: " + "png, jpeg, jpg"
  {
    DefaultList();
  }

  lemma JoinThree(a: string, b: string, c: string, sep: string)
    ensures Join([a, b, c], sep) == a + sep + (b + sep + c)
  {
    assert [a, b, c][1..] == [b, c];
    assert [b, c][1..] == [c];
    assert Join([c], sep) == c;
    assert Join([b, c], sep) == b + sep + c;
  }

  /** A refused file reaches the client as a 400 carrying the message. */
  lemma RefusedFormatIs400(formats: seq<string>, fieldName: string, mimetype: string, v: seq<Value>)
    requires mimetype !in formats
    ensures HandleError(FileFilter(formats, fieldName, mimetype).error, v)
      == Respond(400, map["status" := VStr("fail"), "message" := VStr(InvalidFormatMessage(fieldName, formats))])
  {
    var e := FileFilter(formats, fieldName, mimetype).error;
    assert !IsUnauthorized(e) by {
      assert "FileFormatError" != "UnauthorizedError" by { assert "FileFormatError"[0] != "UnauthorizedError"[0]; }
      assert InvalidFormatMessage(fieldName, formats) != "Unauthorized" by {
        assert InvalidFormatMessage(fieldName, formats)[0] == 'I';
      }
    }
  }

  // ---------------------------------------------------------------- limits

  /** `limits.fileSize`: the limit in bytes. */
  function FileSizeLimit(): (n: nat)
    ensures n == 5242880
  {
    UploadSizeLimit * 1024 * 1024
  }

  /** The largest file multer lets through; one byte more trips
      `LIMIT_FILE_SIZE`. */
  predicate WithinSizeLimit(size: nat) {
    size <= FileSizeLimit()
  }

  const TooLargeMessage := "File too large. Maximum size allowed is " + NatToString(UploadSizeLimit) + "MB."

  /** `.fields(fields.map(name => ({ name, maxCount: 10 })))` */
  function FieldLimits(fields: seq<string>): (r: seq<(string, nat)>)
    ensures |r| == |fields|
    ensures forall i :: 0 <= i < |fields| ==> r[i] == (fields[i], MaxCount)
  {
    seq(|fields|, i requires 0 <= i < |fields| => (fields[i], MaxCount))
  }

  /** What multer hands to the upload callback. */
  datatype Failure =
    | MulterError(code: string, message: string)
    | Refused(err: Thrown)
    | OtherFailure(err: Thrown)

  /** The callback of `upload(req, res, cb)` and the `try`/`catch` around
      it: a too-large file becomes a `FileFormatError` naming the limit,
      every other failure is passed on as it is, and success calls
      `next()`. `filesSet` says whether multer set `req.files`, which it
      does not for a request that is not multipart: `Object.values` of
      `undefined` then throws a TypeError that reaches `next`. */
  function Settle(failure: Option<Failure>, filesSet: bool): (o: Reply)
    ensures o == Next <==> failure.None? && filesSet
    ensures failure.None? && !filesSet ==> o == NextWith(TypeError)
    ensures failure.Some? && failure.value.MulterError? && failure.value.code == "LIMIT_FILE_SIZE" ==>
      o == NextWith(FileFormatError(TooLargeMessage))
    ensures failure.Some? && failure.value.MulterError? && failure.value.code != "LIMIT_FILE_SIZE" ==>
      o == NextWith(OtherError("MulterError", failure.value.message))
    ensures failure.Some? && !failure.value.MulterError? ==> o == NextWith(failure.value.err)
  {
    match failure
    case None => if filesSet then Next else NextWith(TypeError)
    case Some(MulterError(code, message)) =>
      if code == "LIMIT_FILE_SIZE" then NextWith(FileFormatError(TooLargeMessage))
      else NextWith(OtherError("MulterError", message))
    case Some(Refused(e)) => NextWith(e)
    case Some(OtherFailure(e)) => NextWith(e)
  }

  // ------------------------------------------------------------------ names

  /** `file.path.replace(/^public[\\/]/, '/')` */
  function PublicUrl(path: string): (r: string)
    ensures (StartsWith(path, "public/") || StartsWith(path, "public\\")) ==> r == "/" + path[7..]
    ensures !(StartsWith(path, "public/") || StartsWith(path, "public\\")) ==> r == path
  {
    if StartsWith(path, "public/") || StartsWith(path, "public\\") then "/" + path[7..] else path
  }

  /** Applying the mapping twice changes nothing more. */
  lemma PublicUrlIdempotent(path: string)
    ensures PublicUrl(PublicUrl(path)) == PublicUrl(path)
  {
    var r := PublicUrl(path);
    if r != path {
      assert r[0] == '/';
      assert !StartsWith(r, "public/") && !StartsWith(r, "public\\") by {
        if |r| >= 7 { assert r[..7][0] == '/'; }
      }
    }
  }

  /** A stored file under `public/` is served from the root. */
  lemma PublicPathServedFromRoot(rest: string)
    ensures PublicUrl("public/" + rest) == "/" + rest
    ensures PublicUrl("public\\" + rest) == "/" + rest
  {
    assert ("public/" + rest)[..7] == "public/";
    assert ("public/" + rest)[7..] == rest;
    assert ("public\\" + rest)[..7] == "public\\";
    assert ("public\\" + rest)[7..] == rest;
  }

  /** Position of the last `c` in `s`, or -1. */
  function LastIndex(s: string, c: char): (k: int)
    ensures -1 <= k < |s|
    ensures k >= 0 ==> s[k] == c
    ensures forall j :: k < j < |s| ==> s[j] != c
  {
    if |s| == 0 then -1
    else if s[|s| - 1] == c then |s| - 1
    else LastIndex(s[..|s| - 1], c)
  }

  /** What follows the last `c` holds no `c` and ends the string. */
  lemma AfterLast(s: string, c: char, k: int)
    requires -1 <= k < |s| && forall j :: k < j < |s| ==> s[j] != c
    ensures c !in s[k + 1..] && EndsWith(s, s[k + 1..])
  {
    var b := s[k + 1..];
    assert forall j :: 0 <= j < |b| ==> b[j] == s[k + 1 + j];
  }

  /** The last path segment, where `path.extname` looks for the dot. */
  function BaseName(name: string): (b: string)
    ensures '/' !in b
    ensures EndsWith(name, b)
  {
    var k := LastIndex(name, '/');
    AfterLast(name, '/', k);
    name[k + 1..]
  }

  /** `path.extname(name)`: from the last dot of the last segment to its
      end, or `''` when that segment has no dot, starts with its only
      leading dot, or is `..`. */
  function ExtName(name: string): (r: string)
    ensures r == "" || (r[0] == '.' && EndsWith(name, r) && '.' !in r[1..] && '/' !in r)
  {
    var b := BaseName(name);
    var k := LastIndex(b, '.');
    if k <= 0 || b == ".." then ""
    else
      ExtensionShape(name, b, k);
      b[k..]
  }

  /** From the last dot of the last segment on, the name has one dot and
      no `/`, and it ends the name. */
  lemma ExtensionShape(name: string, b: string, k: nat)
    requires '/' !in b && EndsWith(name, b)
    requires k < |b| && b[k] == '.' && forall j :: k < j < |b| ==> b[j] != '.'
    ensures var r := b[k..]; r[0] == '.' && EndsWith(name, r) && '.' !in r[1..] && '/' !in r
  {
    var r := b[k..];
    AfterLast(b, '.', k);
    assert r[1..] == b[k + 1..];
    assert forall j :: 0 <= j < |r| ==> r[j] == b[k + j];
    assert name[|name| - |b|..] == b;
    assert name[|name| - |r|..] == b[|b| - |r|..];
  }

  /** `${Date.now()}-${Math.round(Math.random() * 1e9)}${ext}`, where
      `now` is the clock reading and `rand` the rounded random number. */
  function StoredName(now: nat, rand: nat, originalName: string): (r: string)
    ensures EndsWith(r, ExtName(originalName))
  {
    var r := NatToString(now) + "-" + NatToString(rand) + ExtName(originalName);
    assert r[|r| - |ExtName(originalName)|..] == ExtName(originalName);
    r
  }

  /** Only the extension of the original name survives. */
  lemma OriginalBaseDiscarded(now: nat, rand: nat, a: string, b: string)
    requires ExtName(a) == ExtName(b)
    ensures StoredName(now, rand, a) == StoredName(now, rand, b)
  {
  }

  lemma {:induction false} LastIndexAfter(a: string, c: char, b: string)
    requires c !in b
    ensures LastIndex(a + [c] + b, c) == |a|
    decreases |b|
  {
    var s := a + [c] + b;
    if |b| > 0 {
      assert s[..|s| - 1] == a + [c] + b[..|b| - 1];
      LastIndexAfter(a, c, b[..|b| - 1]);
    }
  }

  lemma {:induction false} LastIndexNone(s: string, c: char)
    requires c !in s
    ensures LastIndex(s, c) == -1
  {
    if |s| > 0 {
      LastIndexNone(s[..|s| - 1], c);
    }
  }

  /** A one-segment name `stem.ext` with a non-empty stem has extension
      `.ext`. */
  lemma ExtensionOf(stem: string, ext: string)
    requires stem != "" && stem != "." && '/' !in stem && '/' !in ext && '.' !in ext
    ensures ExtName(stem + "." + ext) == "." + ext
  {
    var name := stem + "." + ext;
    assert name == stem + ['.'] + ext;
    assert '/' !in name;
    LastIndexNone(name, '/');
    assert name[0..] == name;
    assert BaseName(name) == name;
    LastIndexAfter(stem, '.', ext);
    assert name[|stem|..] == "." + ext;
  }

  /** A name whose only dot is its first character has no extension. */
  lemma DotFileHasNoExtension(rest: string)
    requires '/' !in rest && '.' !in rest
    ensures ExtName("." + rest) == ""
  {
    var name := "." + rest;
    assert '/' !in name;
    LastIndexNone(name, '/');
    assert name[0..] == name;
    LastIndexAfter("", '.', rest);
    assert "" + ['.'] + rest == name;
  }

  // ------------------------------------------------------------- the state

  /** An uploaded file: multer's `path`, and the `url` the middleware adds. */
  class UploadedFile {
    const path: string
    var url: Option<string>

    constructor (path: string)
      ensures this.path == path && url == None
    {
      this.path := path;
      url := None;
    }
  }

  /** Every file of every field. */
  function AllFiles(groups: seq<seq<UploadedFile>>): set<UploadedFile> {
    if |groups| == 0 then {} else (set f | f in groups[0]) + AllFiles(groups[1..])
  }

  lemma {:induction false} InAllFiles(groups: seq<seq<UploadedFile>>, i: nat, j: nat)
    requires i < |groups| && j < |groups[i]|
    ensures groups[i][j] in AllFiles(groups)
  {
    if i > 0 {
      InAllFiles(groups[1..], i - 1, j);
    }
  }

  /** The nested `forEach` that gives every stored file its `url`. */
  method AssignUrls(filesByField: seq<seq<UploadedFile>>)
    modifies AllFiles(filesByField)
    ensures forall i, j :: 0 <= i < |filesByField| && 0 <= j < |filesByField[i]| ==>
      filesByField[i][j].url == Some(PublicUrl(filesByField[i][j].path))
  {
    var i := 0;
    while i < |filesByField|
      invariant 0 <= i <= |filesByField|
      invariant forall i', j :: 0 <= i' < i && 0 <= j < |filesByField[i']| ==>
        filesByField[i'][j].url == Some(PublicUrl(filesByField[i'][j].path))
    {
      var files := filesByField[i];
      var j := 0;
      while j < |files|
        invariant 0 <= j <= |files|
        invariant forall i', j' :: 0 <= i' < i && 0 <= j' < |filesByField[i']| ==>
          filesByField[i'][j'].url == Some(PublicUrl(filesByField[i'][j'].path))
        invariant forall j' :: 0 <= j' < j ==> files[j'].url == Some(PublicUrl(files[j'].path))
      {
        InAllFiles(filesByField, i, j);
        files[j].url := Some(PublicUrl(files[j].path));
        j := j + 1;
      }
      i := i + 1;
    }
  }

  /** The middleware made by `uploadFile(destinationPath, allowedFormats,
      fields)`; `allowedFormats` is the closure variable it reassigns. */
  class UploadMiddleware {
    const destinationPath: string
    const fields: seq<string>
    var allowedFormats: seq<string>

    constructor (destinationPath: string, allowedFormats: seq<string>, fields: seq<string>)
      ensures this.destinationPath == destinationPath && this.allowedFormats == allowedFormats && this.fields == fields
    {
      this.destinationPath := destinationPath;
      this.allowedFormats := allowedFormats;
      this.fields := fields;
    }

    /** `uploadFile(destinationPath)`: no formats, so the defaults apply
        on the first request, and the one field `file`. */
    constructor Default(destinationPath: string)
      ensures this.destinationPath == destinationPath && this.allowedFormats == [] && this.fields == DefaultFields
    {
      this.destinationPath := destinationPath;
      this.allowedFormats := [];
      this.fields := DefaultFields;
    }

    /** The first statement of every request. */
    method UseDefaultFormats()
      modifies this
      ensures allowedFormats == WithDefault(old(allowedFormats))
      ensures |allowedFormats| > 0
    {
      if |allowedFormats| == 0 {
        allowedFormats := AllowedFileTypes;
      }
    }
  }

  /** A second request finds the formats as the first one left them. */
  lemma WithDefaultIdempotent(formats: seq<string>)
    ensures WithDefault(WithDefault(formats)) == WithDefault(formats)
  {
  }
}
