/**
 * `ensureDriveFileExists`: the single request that creates a file (when no
 * Drive file exists at the path yet) or updates the existing one, optionally
 * carrying the file's contents as a media upload. `guessMimeType` is a
 * library call; its answer is passed in as `guessedMime`.
 */
module Requests {
  import opened Common
  import opened Drive
  import opened Api

  /** The explicit parameters of the request: the fetched fields, plus the body when it is attached. */
  function UploadParams(cfg: Config, contents: string, attach: bool): (p: Params)
    ensures "fields" in p && p["fields"] == cfg.fetchFieldsGet
    ensures attach ==> p.Keys == {"fields", "data", "uploadType"} && p["data"] == contents && p["uploadType"] == "media"
    ensures !attach ==> p.Keys == {"fields"}
  {
    var p := map["fields" := cfg.fetchFieldsGet];
    if attach then p["data" := contents]["uploadType" := "media"] else p
  }

  /** The parameters a create or update request carries. */
  function RequestParams(c: Call): Params {
    match c
    case FilesCreate(_, params) => params
    case FilesUpdate(_, _, params) => params
    case _ => map[]
  }

  /** The request carries `contents` as its media body. */
  predicate HasBody(c: Call, contents: string) {
    var p := RequestParams(c);
    "data" in p && p["data"] == contents && "uploadType" in p && p["uploadType"] == "media"
  }

  /** Every parameter but the field list comes from the command's configured defaults. */
  predicate OnlyDefaultsBesideFields(cfg: Config, c: Call, cmdName: string) {
    forall k :: k in RequestParams(c) && k != "fields" ==> cmdName in cfg.defaultParams && k in cfg.defaultParams[cmdName]
  }

  /**
   * The request for one upload, with the decision whether to attach the
   * body made by the caller: an insert naming the file and its parent when
   * no source DriveFile exists, else an update of the source's id. The MIME
   * type is always set, to `mime` when it is truthy and to the guessed type
   * otherwise.
   */
  function UploadRequest(cfg: Config, contents: string, attach: bool, parentId: string, fileName: string,
                         src: Option<DriveFile>, mime: string, guessedMime: string): (c: Call)
    ensures src.None? ==> c.FilesCreate? && c.meta == FileMeta(Some(fileName), Some([parentId]), Some(if Truthy(mime) then mime else guessedMime), None)
    ensures src.Some? ==> c.FilesUpdate? && c.fileId == src.value.id && c.meta == FileMeta(None, None, Some(if Truthy(mime) then mime else guessedMime), None)
    ensures "fields" in RequestParams(c) && RequestParams(c)["fields"] == cfg.fetchFieldsGet
    ensures attach ==> HasBody(c, contents)
    ensures !attach ==> OnlyDefaultsBesideFields(cfg, c, if src.None? then "files.create" else "files.update")
  {
    var m := if Truthy(mime) then mime else guessedMime;
    var p := UploadParams(cfg, contents, attach);
    if src.None? then FilesCreate(FileMeta(Some(fileName), Some([parentId]), Some(m), None), ApplyDefaultParams(cfg.defaultParams, p, "files.create"))
    else FilesUpdate(src.value.id, FileMeta(None, None, Some(m), None), ApplyDefaultParams(cfg.defaultParams, p, "files.update"))
  }

  /** `ensureDriveFileExists` as written: the body is attached when `$contents` is truthy in PHP's sense. */
  function EnsureDriveFileExistsAsWritten(cfg: Config, contents: string, parentId: string, fileName: string,
                                          src: Option<DriveFile>, mime: string, guessedMime: string): (c: Call)
    ensures Truthy(contents) ==> HasBody(c, contents)
    ensures !Truthy(contents) ==> OnlyDefaultsBesideFields(cfg, c, if src.None? then "files.create" else "files.update")
  {
    UploadRequest(cfg, contents, Truthy(contents), parentId, fileName, src, mime, guessedMime)
  }

  /**
   * `ensureDriveFileExists` with the body attached whenever there is one:
   * only the empty string, which the chunked upload passes on purpose to get
   * a bodiless request, goes without.
   */
  function EnsureDriveFileExists(cfg: Config, contents: string, parentId: string, fileName: string,
                                 src: Option<DriveFile>, mime: string, guessedMime: string): (c: Call)
    ensures contents != "" ==> HasBody(c, contents)
    ensures contents == "" ==> OnlyDefaultsBesideFields(cfg, c, if src.None? then "files.create" else "files.update")
  {
    UploadRequest(cfg, contents, contents != "", parentId, fileName, src, mime, guessedMime)
  }

  /**
   * The request as written loses the one-byte file "0": PHP reads the string
   * "0" as false, so the request goes out without a body and the Drive file
   * is created empty. The corrected request carries it.
   */
  lemma ZeroContentsDropped(cfg: Config, parentId: string, fileName: string, mime: string, guessedMime: string)
    requires cfg.defaultParams == map[]
    ensures "data" !in RequestParams(EnsureDriveFileExistsAsWritten(cfg, "0", parentId, fileName, None, mime, guessedMime))
    ensures HasBody(EnsureDriveFileExists(cfg, "0", parentId, fileName, None, mime, guessedMime), "0")
  {
    assert !Truthy("0");
  }

  /** The two agree on every contents except "0". */
  lemma AsWrittenAgreesElsewhere(cfg: Config, contents: string, parentId: string, fileName: string,
                                 src: Option<DriveFile>, mime: string, guessedMime: string)
    requires contents != "0"
    ensures EnsureDriveFileExistsAsWritten(cfg, contents, parentId, fileName, src, mime, guessedMime)
         == EnsureDriveFileExists(cfg, contents, parentId, fileName, src, mime, guessedMime)
  {
  }
}
