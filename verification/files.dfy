/**
 * Uploaded files: FileServiceImpl (extension whitelist, URL construction,
 * deletion by URL), LocalFileStorageServiceImpl (extension, name checks,
 * URL path cleaning) and MvcConfig (the static resource handler that
 * serves the uploads). The filesystem, the UUID generator and the URL
 * builder are parameters.
 */
module Files {
  import opened Wrappers
  import opened JavaStrings
  import opened ResultCodes

  // ---------------------------------------------------------------------
  // Slash normalisation shared by all three classes

  /** Prefixes a '/' unless s already starts with one. */
  function WithLeadingSlash(s: string): (r: string)
    ensures |r| >= 1 && r[0] == '/'
    ensures StartsWith(s, "/") ==> r == s
    ensures !StartsWith(s, "/") ==> r[1..] == s
  {
    if StartsWith(s, "/") then s else "/" + s
  }

  /** Removes one trailing '/', if there is one. */
  function DropTrailingSlash(s: string): (r: string)
    ensures EndsWith(s, "/") ==> s == r + "/"
    ensures !EndsWith(s, "/") ==> r == s
  {
    if EndsWith(s, "/") then s[..|s| - 1] else s
  }

  /** Normalising twice is normalising once. */
  lemma WithLeadingSlashIdempotent(s: string)
    ensures WithLeadingSlash(WithLeadingSlash(s)) == WithLeadingSlash(s)
  {
  }

  // ---------------------------------------------------------------------
  // FileServiceImpl

  const AllowedTypes: seq<string> := ["jpg", "jpeg", "png", "gif", "webp"]
  const DefaultUrlSegment: string := "/uploads"

  /**
   * Spring's StringUtils.getFilenameExtension: the text after the last
   * '.', or None for a null path, a path without '.', or one whose last
   * '/' comes after its last '.'.
   */
  function FilenameExtension(path: Option<string>): (r: Option<string>)
    ensures r.Some? ==> path.Some? && '.' !in r.value && '/' !in r.value
                        && |r.value| < |path.value| && path.value == path.value[..|path.value| - |r.value| - 1] + "." + r.value
    ensures path.Some? && '.' !in path.value ==> r.None?
  {
    if path.None? then None
    else match LastIndexOf(path.value, '.')
      case None => None
      case Some(dot) =>
        var tail := path.value[dot + 1..];
        if '/' in tail then None
        else
          assert path.value == path.value[..dot] + "." + tail;
          Some(tail)
  }

  /** A name followed by '.' and an extension free of '.' and '/' yields that extension back. */
  lemma FilenameExtensionOfName(name: string, ext: string)
    requires '.' !in ext && '/' !in ext
    ensures FilenameExtension(Some(name + "." + ext)) == Some(ext)
  {
    var p := name + "." + ext;
    assert p[|name|] == '.';
    var dot := LastIndexOf(p, '.').value;
    assert dot == |name|;
    assert p[dot + 1..] == ext;
  }

  /** isValidFileType: a non-null extension equal, ignoring case, to one of the five allowed types. */
  function IsValidFileType(ext: Option<string>): (b: bool)
    ensures b <==> ext.Some? && ToLower(ext.value) in AllowedTypes
  {
    LowerAllowedTypes();
    ext.Some? && exists k :: 0 <= k < |AllowedTypes| && EqualsIgnoreCase(AllowedTypes[k], ext.value)
  }

  /** The allowed types are already lower case. */
  lemma LowerAllowedTypes()
    ensures forall k :: 0 <= k < |AllowedTypes| ==> ToLower(AllowedTypes[k]) == AllowedTypes[k]
  {
    assert ToLower("jpg") == "jpg";
    assert ToLower("jpeg") == "jpeg";
    assert ToLower("png") == "png";
    assert ToLower("gif") == "gif";
    assert ToLower("webp") == "webp";
  }

  /** Upper-case spellings pass; a missing, empty or other extension does not. */
  lemma FileTypeExamples()
    ensures IsValidFileType(Some("PNG")) && IsValidFileType(Some("jpeg"))
    ensures !IsValidFileType(None) && !IsValidFileType(Some("")) && !IsValidFileType(Some("bmp"))
  {
    assert ToLower("PNG") == "png";
    assert ToLower("jpeg") == "jpeg";
    assert ToLower("bmp") == "bmp";
  }

  /** A multipart file as the service sees it: its original name and its size. */
  datatype Multipart = Multipart(originalFilename: Option<string>, size: nat)

  /** The segment part of an upload URL: the configured segment, default "/uploads", without one trailing '/'. */
  function UrlBase(segment: Option<string>): (r: string)
    ensures var s := segment.GetOr(DefaultUrlSegment); s == r || s == r + "/"
  {
    DropTrailingSlash(segment.GetOr(DefaultUrlSegment))
  }

  /** The folder with a leading '/' unless it is empty, then the file name with a leading '/'. */
  function UrlRest(folder: string, fileName: string): (r: string)
    ensures |r| >= 1 && r[0] == '/'
    ensures EndsWith(r, WithLeadingSlash(fileName))
  {
    var folderPart := if folder == "" then "" else WithLeadingSlash(folder);
    var r := folderPart + WithLeadingSlash(fileName);
    assert r[|r| - |WithLeadingSlash(fileName)|..] == WithLeadingSlash(fileName);
    r
  }

  /** The public URL of a stored file. */
  function StoredUrl(segment: Option<string>, folder: string, fileName: string): (url: string)
    ensures url == UrlBase(segment) + UrlRest(folder, fileName)
  {
    UrlBase(segment) + UrlRest(folder, fileName)
  }

  function EmptyUpload(message: string): Failure {
    Api(ApiException(ValidationError.Code(), message))
  }

  function UnsupportedType(ext: Option<string>): Failure {
    Api(ApiException(ValidationError.Code(), "不支持的文件类型: " + ext.GetOr("null")))
  }

  /**
   * The checks both uploadFile variants make before touching the
   * filesystem: the content must be present and non-empty, and the name's
   * extension one of the allowed types. The result is the extension.
   */
  function CheckUpload(size: Option<nat>, name: Option<string>, emptyMessage: string): (r: Result<string, Failure>)
    ensures (size.None? || size.value == 0) ==> r == Err(EmptyUpload(emptyMessage))
    ensures size.Some? && size.value > 0 && !IsValidFileType(FilenameExtension(name))
            ==> r == Err(UnsupportedType(FilenameExtension(name)))
    ensures r.Ok? ==> FilenameExtension(name) == Some(r.value) && ToLower(r.value) in AllowedTypes
  {
    if size.None? || size.value == 0 then Err(EmptyUpload(emptyMessage))
    else
      var ext := FilenameExtension(name);
      if !IsValidFileType(ext) then Err(UnsupportedType(ext))
      else Ok(ext.value)
  }

  function MultipartSize(file: Option<Multipart>): Option<nat> {
    if file.None? then None else Some(file.value.size)
  }

  function MultipartName(file: Option<Multipart>): Option<string> {
    if file.None? then None else file.value.originalFilename
  }

  /**
   * uploadFile(MultipartFile, folder): after CheckUpload the file is
   * stored as the UUID, '.', and the extension. A null folder makes
   * Paths.get throw; an IOException becomes UPLOAD_FAILED.
   */
  function UploadMultipart(file: Option<Multipart>, folder: Option<string>, segment: Option<string>,
                           uuid: string, ioFails: bool): (r: Result<string, Failure>)
    ensures var check := CheckUpload(MultipartSize(file), MultipartName(file), "上传的文件不能为空");
      && (check.Err? ==> r == Err(check.error))
      && (r.Ok? <==> check.Ok? && folder.Some? && !ioFails)
      && (check.Ok? && folder.Some? && ioFails ==> r == Err(Fail(UploadFailed)))
      && (r.Ok? ==> r.value == StoredUrl(segment, folder.value, uuid + "." + check.value))
  {
    var ext :- CheckUpload(MultipartSize(file), MultipartName(file), "上传的文件不能为空");
    if folder.None? then Err(NullPointer)
    else if ioFails then Err(Fail(UploadFailed))
    else Ok(StoredUrl(segment, folder.value, uuid + "." + ext))
  }

  /** uploadFile(byte[], name, folder): the same checks, with the caller's file name used verbatim. */
  function UploadBytes(fileBytes: Option<seq<bv8>>, fileName: Option<string>, folder: Option<string>,
                       segment: Option<string>, ioFails: bool): (r: Result<string, Failure>)
    ensures var check := CheckUpload(if fileBytes.None? then None else Some(|fileBytes.value|), fileName, "上传的文件字节不能为空");
      && (check.Err? ==> r == Err(check.error))
      && (r.Ok? <==> check.Ok? && folder.Some? && !ioFails)
      && (check.Ok? && folder.Some? && ioFails ==> r == Err(Fail(UploadFailed)))
      && (r.Ok? ==> fileName.Some? && r.value == StoredUrl(segment, folder.value, fileName.value))
  {
    var _ :- CheckUpload(if fileBytes.None? then None else Some(|fileBytes.value|), fileName, "上传的文件字节不能为空");
    if folder.None? then Err(NullPointer)
    else if ioFails then Err(Fail(UploadFailed))
    else Ok(StoredUrl(segment, folder.value, fileName.value))
  }

  /**
   * The path deleteFile hands to the filesystem: the URL without the
   * configured segment (default "/uploads", not trimmed here), or None
   * when the URL is null, empty, or does not start with the segment.
   */
  function DeletePath(fileUrl: Option<string>, segment: Option<string>): (r: Option<string>)
    ensures r.Some? <==> fileUrl.Some? && fileUrl.value != "" && StartsWith(fileUrl.value, segment.GetOr(DefaultUrlSegment))
    ensures r.Some? ==> fileUrl.value == segment.GetOr(DefaultUrlSegment) + r.value
  {
    var s := segment.GetOr(DefaultUrlSegment);
    if fileUrl.None? || fileUrl.value == "" then None
    else if !StartsWith(fileUrl.value, s) then None
    else
      assert fileUrl.value == s + fileUrl.value[|s|..];
      Some(fileUrl.value[|s|..])
  }

  /**
   * deleteFile: false without touching the filesystem when DeletePath
   * refuses; otherwise what deleteIfExists reports (None for an
   * IOException, which also gives false).
   */
  function DeleteFile(fileUrl: Option<string>, segment: Option<string>, deleteIfExists: string -> Option<bool>): (deleted: bool)
    ensures deleted <==> DeletePath(fileUrl, segment).Some? && deleteIfExists(DeletePath(fileUrl, segment).value) == Some(true)
  {
    match DeletePath(fileUrl, segment)
    case None => false
    case Some(path) => deleteIfExists(path) == Some(true)
  }

  /**
   * Every URL an upload returns passes deleteFile's prefix test, whatever
   * the segment; the path handed to the filesystem is the folder and file
   * part, without its leading '/' when the segment ends in '/'.
   */
  lemma UploadedUrlIsDeletable(segment: Option<string>, folder: string, fileName: string)
    ensures var s := segment.GetOr(DefaultUrlSegment);
      var rest := UrlRest(folder, fileName);
      DeletePath(Some(StoredUrl(segment, folder, fileName)), segment) == Some(if EndsWith(s, "/") then rest[1..] else rest)
  {
    var s := segment.GetOr(DefaultUrlSegment);
    var rest := UrlRest(folder, fileName);
    var tail := if EndsWith(s, "/") then rest[1..] else rest;
    UrlIsSegmentAndTail(segment, rest);
    DeletePathAfterSegment(segment, tail);
  }

  /** The stored URL is the segment followed by the rest, less its '/' when the segment ends in one. */
  lemma UrlIsSegmentAndTail(segment: Option<string>, rest: string)
    requires |rest| >= 1 && rest[0] == '/'
    ensures var s := segment.GetOr(DefaultUrlSegment);
      UrlBase(segment) + rest == s + (if EndsWith(s, "/") then rest[1..] else rest)
  {
    var s := segment.GetOr(DefaultUrlSegment);
    if EndsWith(s, "/") {
      assert rest == "/" + rest[1..];
    }
  }

  /** deleteFile's path for a URL under the segment is what follows the segment. */
  lemma DeletePathAfterSegment(segment: Option<string>, tail: string)
    requires segment.GetOr(DefaultUrlSegment) + tail != ""
    ensures DeletePath(Some(segment.GetOr(DefaultUrlSegment) + tail), segment) == Some(tail)
  {
    SplitAfterPrefix(segment.GetOr(DefaultUrlSegment), tail);
  }

  /** A successful upload can be deleted by its URL, and the deletion reaches the filesystem. */
  lemma UploadThenDelete(file: Option<Multipart>, folder: Option<string>, segment: Option<string>, uuid: string,
                         deleteIfExists: string -> Option<bool>)
    requires UploadMultipart(file, folder, segment, uuid, false).Ok?
    ensures var url := UploadMultipart(file, folder, segment, uuid, false).value;
      DeletePath(Some(url), segment).Some?
      && (DeleteFile(Some(url), segment, deleteIfExists) <==> deleteIfExists(DeletePath(Some(url), segment).value) == Some(true))
  {
    var ext := CheckUpload(MultipartSize(file), MultipartName(file), "上传的文件不能为空").value;
    UploadedUrlIsDeletable(segment, folder.value, uuid + "." + ext);
  }

  // ---------------------------------------------------------------------
  // LocalFileStorageServiceImpl

  /** The @Value settings: the servlet context path and the public path segment. */
  datatype StorageConfig = StorageConfig(contextPath: string, uploadPathSegment: string)

  /** getFileExtension: from the last '.' inclusive, or "" for a blank name or one without '.'. */
  function FileExtension(name: Option<string>): (ext: string)
    ensures ext == "" || (ext[0] == '.' && '.' !in ext[1..])
    ensures ext != "" ==> name.Some? && EndsWith(name.value, ext)
    ensures ext == "" <==> !HasTextOpt(name) || '.' !in name.value
  {
    if !HasTextOpt(name) then ""
    else match LastIndexOf(name.value, '.')
      case None => ""
      case Some(dot) =>
        var ext := name.value[dot..];
        assert ext[1..] == name.value[dot + 1..];
        assert name.value[|name.value| - |ext|..] == ext;
        ext
  }

  /** A name ending in '.' and a dot-free suffix gives that suffix with its dot. */
  lemma FileExtensionOfName(name: string, ext: string)
    requires '.' !in ext
    ensures FileExtension(Some(name + "." + ext)) == "." + ext
  {
    var p := name + "." + ext;
    assert p[|name|] == '.';
    assert !IsWhitespace('.');
    var dot := LastIndexOf(p, '.').value;
    assert dot == |name|;
    assert p[dot..] == "." + ext;
  }

  /** The segment with a leading '/' and without one trailing '/'. */
  function CleanSegment(segment: string): (r: string)
    ensures r == "" || r[0] == '/'
    ensures EndsWith(WithLeadingSlash(segment), "/") ==> WithLeadingSlash(segment) == r + "/"
    ensures !EndsWith(WithLeadingSlash(segment), "/") ==> r == WithLeadingSlash(segment)
  {
    DropTrailingSlash(WithLeadingSlash(segment))
  }

  /** A segment that already starts and does not end with '/' is kept as it is. */
  lemma CleanSegmentKeepsCleanSegment(segment: string)
    requires StartsWith(segment, "/") && !EndsWith(segment, "/")
    ensures CleanSegment(segment) == segment
  {
  }

  /** The path getFileUrl hands to the URL builder. */
  function StoragePath(cfg: StorageConfig, fileName: string): (p: string)
    ensures StartsWith(p, cfg.contextPath) && EndsWith(p, "/" + fileName)
    ensures |p| == |cfg.contextPath| + |CleanSegment(cfg.uploadPathSegment)| + 1 + |fileName|
    ensures p[|cfg.contextPath|..|p| - |fileName| - 1] == CleanSegment(cfg.uploadPathSegment)
  {
    ThreeParts(cfg.contextPath, CleanSegment(cfg.uploadPathSegment), "/" + fileName);
    cfg.contextPath + CleanSegment(cfg.uploadPathSegment) + ("/" + fileName)
  }

  /** A concatenation of three parts starts with the first, ends with the last and has the middle between. */
  lemma ThreeParts(a: string, m: string, b: string)
    ensures StartsWith(a + m + b, a) && EndsWith(a + m + b, b)
    ensures (a + m + b)[|a|..|a + m + b| - |b|] == m
  {
    var s := a + m + b;
    assert s[..|a|] == a;
    assert s[|s| - |b|..] == b;
    assert s[|a|..|s| - |b|] == m;
  }

  /**
   * getFileUrl: null for a blank name; otherwise the builder's URL for
   * StoragePath. `toUri` stands for ServletUriComponentsBuilder.
   */
  function GetFileUrl(cfg: StorageConfig, fileName: Option<string>, toUri: string -> string): (url: Option<string>)
    ensures url.None? <==> !HasTextOpt(fileName)
    ensures url.Some? ==> url.value == toUri(StoragePath(cfg, fileName.value))
  {
    if !HasTextOpt(fileName) then None else Some(toUri(StoragePath(cfg, fileName.value)))
  }

  /**
   * storeFile: an absent or empty file and a cleaned name that is null or
   * contains ".." are refused with IllegalArgumentException; the file is
   * stored as the UUID plus the extension. `cleanPath` stands for
   * StringUtils.cleanPath.
   */
  function StoreFile(cfg: StorageConfig, file: Option<Multipart>, cleanPath: string -> string, uuid: string,
                     ioFails: bool, toUri: string -> string): (r: Result<Option<string>, Failure>)
    ensures (file.None? || file.value.size == 0) ==> r == Err(IllegalArgument)
    ensures (file.Some? && file.value.size > 0 && file.value.originalFilename.Some?
             && Contains(cleanPath(file.value.originalFilename.value), "..")) ==> r == Err(IllegalArgument)
    ensures r.Ok? <==> file.Some? && file.value.size > 0 && file.value.originalFilename.Some?
                       && !Contains(cleanPath(file.value.originalFilename.value), "..") && !ioFails
    ensures r.Ok? ==> r.value == GetFileUrl(cfg, Some(uuid + FileExtension(Some(cleanPath(file.value.originalFilename.value)))), toUri)
  {
    if file.None? || file.value.size == 0 then Err(IllegalArgument)
    else if file.value.originalFilename.None? then Err(IllegalArgument)
    else
      var name := cleanPath(file.value.originalFilename.value);
      if Contains(name, "..") then Err(IllegalArgument)
      else if ioFails then Err(IO)
      else Ok(GetFileUrl(cfg, Some(uuid + FileExtension(Some(name))), toUri))
  }

  /** What the filesystem does for a delete: removed, absent, or an IOException. */
  datatype DeleteOutcome = Deleted | Missing | IoError

  /** deleteFile(name): a blank name is refused; a missing file is no error. Ok(true) when a file was removed. */
  function DeleteStored(fileName: Option<string>, fs: string -> DeleteOutcome): (r: Result<bool, Failure>)
    ensures !HasTextOpt(fileName) ==> r == Err(IllegalArgument)
    ensures HasTextOpt(fileName) ==> (r.Err? <==> fs(fileName.value) == IoError)
    ensures r.Ok? ==> (r.value <==> fs(fileName.value) == Deleted)
    ensures r.Err? ==> r.error == IllegalArgument || r.error == IO
  {
    if !HasTextOpt(fileName) then Err(IllegalArgument)
    else match fs(fileName.value)
      case Deleted => Ok(true)
      case Missing => Ok(false)
      case IoError => Err(IO)
  }

  // ---------------------------------------------------------------------
  // MvcConfig

  const FallbackPattern: string := "/static/uploads_fallback"

  /** The URL path the resource handler serves, before the "/" and double-star wildcard is appended. */
  function PatternBase(segment: Option<string>): (r: string)
    ensures |r| >= 1 && r[0] == '/'
    ensures var s := if segment.None? || segment.value == "" then FallbackPattern else segment.value;
      && (|WithLeadingSlash(s)| > 1 && EndsWith(WithLeadingSlash(s), "/") ==> WithLeadingSlash(s) == r + "/")
      && (|WithLeadingSlash(s)| == 1 || !EndsWith(WithLeadingSlash(s), "/") ==> r == WithLeadingSlash(s))
  {
    var s := if segment.None? || segment.value == "" then FallbackPattern else segment.value;
    var p := WithLeadingSlash(s);
    if |p| > 1 && EndsWith(p, "/") then
      assert p[..|p| - 1][0] == '/';
      p[..|p| - 1]
    else p
  }

  /** The resource location: "file:", the absolute upload directory, and a trailing '/'. */
  function ResourceLocation(absoluteDir: string): (loc: string)
    ensures StartsWith(loc, "file:") && EndsWith(loc, "/")
    ensures loc == "file:" + absoluteDir || loc == "file:" + absoluteDir + "/"
  {
    var loc := "file:" + absoluteDir + (if EndsWith(absoluteDir, "/") then "" else "/");
    assert loc[..5] == "file:";
    loc
  }

  /**
   * addResourceHandlers: no handler without an upload directory; otherwise
   * the pattern PatternBase plus the double-star wildcard mapped to the resource location.
   * `absolute` stands for Paths.get(dir).toAbsolutePath().normalize().
   */
  function ResourceHandler(segment: Option<string>, uploadDir: Option<string>, absolute: string -> string): (h: Option<(string, string)>)
    ensures h.None? <==> uploadDir.None? || uploadDir.value == ""
    ensures h.Some? ==> h.value.0 == PatternBase(segment) + "/**" && EndsWith(h.value.1, "/")
                        && StartsWith(h.value.1, "file:")
  {
    if uploadDir.None? || uploadDir.value == "" then None
    else
      var loc := ResourceLocation(absolute(uploadDir.value));
      Some((PatternBase(segment) + "/**", loc))
  }

  /**
   * With a segment that starts with '/' and is longer than "/", every
   * uploaded file's URL lies under the pattern the handler serves.
   */
  lemma UploadsAreServed(segment: string, folder: string, fileName: string)
    requires |segment| > 1 && segment[0] == '/'
    ensures StartsWith(StoredUrl(Some(segment), folder, fileName), PatternBase(Some(segment)) + "/")
  {
    var base := UrlBase(Some(segment));
    assert PatternBase(Some(segment)) == base;
    var url := StoredUrl(Some(segment), folder, fileName);
    assert url[..|base| + 1] == base + "/";
  }

  /**
   * A null segment makes the two classes fall back to different paths:
   * uploads get "/uploads" URLs, the handler serves "/static/uploads_fallback".
   * Configuration binding keeps the field's default instead of setting null,
   * so this needs the field to be set to null by other means.
   */
  lemma DefaultSegmentsDiffer(folder: string, fileName: string)
    ensures !StartsWith(StoredUrl(None, folder, fileName), PatternBase(None) + "/")
  {
    DefaultBases();
    FallbackBase();
    var url := StoredUrl(None, folder, fileName);
    assert url[1] == DefaultUrlSegment[1];
    DifferAt(url, FallbackPattern + "/", 1);
  }

  /** The segment FileUploadConfig holds when none is configured. */
  const ConfiguredDefaultSegment: string := "/static/images"

  /** With the configured default, every upload URL lies under the served pattern. */
  lemma ConfiguredDefaultIsServed(folder: string, fileName: string)
    ensures StartsWith(StoredUrl(Some(ConfiguredDefaultSegment), folder, fileName),
                       PatternBase(Some(ConfiguredDefaultSegment)) + "/")
  {
    UploadsAreServed(ConfiguredDefaultSegment, folder, fileName);
  }

  /** The folders the services pass to the upload operations. */
  const CallerFolders: seq<string> := ["product", "avatar", "category", "images"]

  /**
   * A segment configured as empty: FileServiceImpl keeps it and builds
   * "/<folder>/<name>" URLs, while the handler falls back to
   * "/static/uploads_fallback", so no upload from any caller is served.
   */
  lemma EmptySegmentsDiffer(folder: string, fileName: string)
    requires folder in CallerFolders
    ensures StoredUrl(Some(""), folder, fileName) == UrlRest(folder, fileName)
    ensures PatternBase(Some("")) == FallbackPattern
    ensures !StartsWith(StoredUrl(Some(""), folder, fileName), PatternBase(Some("")) + "/")
  {
    FallbackBase();
    CallerFolderStart(folder);
    EmptySegmentUrl(folder, fileName);
    DifferAt(StoredUrl(Some(""), folder, fileName), FallbackPattern + "/", 1);
  }

  /** Every caller's folder is non-empty and starts with neither '/' nor 's'. */
  lemma CallerFolderStart(folder: string)
    requires folder in CallerFolders
    ensures folder != "" && folder[0] != '/' && folder[0] != 's'
  {
  }

  /** A string does not start with a prefix it differs from at some position. */
  lemma DifferAt(s: string, prefix: string, i: nat)
    requires i < |s| && i < |prefix| && s[i] != prefix[i]
    ensures !StartsWith(s, prefix)
  {
    if |prefix| <= |s| {
      assert s[..|prefix|][i] == s[i];
    }
  }

  /** A null or empty segment gives the handler the fallback pattern. */
  lemma FallbackBase()
    ensures PatternBase(None) == FallbackPattern && PatternBase(Some("")) == FallbackPattern
    ensures |FallbackPattern + "/"| > 1 && (FallbackPattern + "/")[1] == 's'
  {
    assert FallbackPattern[..1] == "/";
    assert FallbackPattern[|FallbackPattern| - 1..] == "k";
  }

  /** With an empty segment the URL is the folder part and the name, and its second character begins the folder. */
  lemma EmptySegmentUrl(folder: string, fileName: string)
    requires folder != "" && folder[0] != '/'
    ensures StoredUrl(Some(""), folder, fileName) == UrlRest(folder, fileName)
    ensures |StoredUrl(Some(""), folder, fileName)| > 1 && StoredUrl(Some(""), folder, fileName)[1] == folder[0]
  {
    assert UrlBase(Some("")) == "";
    assert WithLeadingSlash(folder) == "/" + folder;
  }

  /** With a null segment, URLs start "/uploads" and the handler serves the fallback pattern. */
  lemma DefaultBases()
    ensures UrlBase(None) == DefaultUrlSegment
    ensures PatternBase(None) == FallbackPattern
    ensures |DefaultUrlSegment| > 1 && DefaultUrlSegment[1] == 'u'
  {
    assert DefaultUrlSegment[|DefaultUrlSegment| - 1..] == "s";
    assert FallbackPattern[..1] == "/";
    assert FallbackPattern[|FallbackPattern| - 1..] == "k";
  }
}
