/**
 * The adapter's object cache and `getFileObject`, stated on values. The
 * three caches are `cacheFileObjects` (by item id; PHP may store null there
 * after a 404), `cacheFileObjectsByName` (by "parentId/name") and
 * `cacheHasDirs` (by folder id). A lookup receives Drive's replies to the
 * requests it may send and reports the requests it did send.
 */
module Cache {
  import opened Common
  import opened Paths
  import opened Drive
  import opened Api
  import opened Metadata

  datatype Caches = Caches(
    byId: map<string, Option<DriveFile>>,
    byName: map<string, DriveFile>,
    hasDirs: map<string, bool>)

  const EmptyCaches := Caches(map[], map[], map[])

  /** Drive's answer to `files.get`: the file, or a `Google_Service_Exception` with its code. */
  datatype GetReply = Fetched(file: DriveFile) | Failed(code: int)

  /** Drive's answer to the one-item `files.list` of sub-folders: whether it listed any, or an exception. */
  datatype ListReply = Listed(nonEmpty: bool) | ListFailed

  /** What a lookup leaves behind: the caches, the object found (`None` for null), and the requests sent. */
  datatype Lookup = Lookup(caches: Caches, file: Option<DriveFile>, calls: seq<Call>)

  /** The key of `cacheFileObjectsByName`. */
  function NameKey(parentId: string, itemId: string): string {
    parentId + "/" + itemId
  }

  /**
   * The cached answer for an item: the by-id entry when `isset` (a cached
   * null is not), else the by-name entry under its parent.
   */
  function CachedHit(c: Caches, parentId: string, itemId: string): (hit: Option<DriveFile>)
    ensures itemId in c.byId && c.byId[itemId].Some? ==> hit == c.byId[itemId]
    ensures !(itemId in c.byId && c.byId[itemId].Some?) ==>
      hit == (if NameKey(parentId, itemId) in c.byName then Some(c.byName[NameKey(parentId, itemId)]) else None)
  {
    if itemId in c.byId && c.byId[itemId].Some? then c.byId[itemId]
    else if NameKey(parentId, itemId) in c.byName then Some(c.byName[NameKey(parentId, itemId)])
    else None
  }

  /** `files.get` of an item with the configured fields. */
  function GetRequest(cfg: Config, itemId: string): Call {
    FilesGet(itemId, ApplyDefaultParams(cfg.defaultParams, map["fields" := cfg.fetchFieldsGet], "files.get"))
  }

  /** The query that asks whether a folder holds a sub-folder. */
  function HasDirQuery(itemId: string): string {
    "trashed = false and \"" + itemId + "\" in parents and mimeType = \"" + DIRMIME + "\""
  }

  function HasDirRequest(cfg: Config, itemId: string): Call {
    FilesList(ApplyDefaultParams(cfg.defaultParams, map["pageSize" := "1", "q" := HasDirQuery(itemId)], "files.list"))
  }

  /**
   * `getFileObject($path, $checkDir)`. A cache hit is answered without any
   * request. Otherwise the item is fetched (and, with `checkDir` and
   * `useHasDir`, its sub-folders listed); an exception other than a 404
   * yields null and leaves the caches alone; otherwise the object, or null
   * after a 404, is stored under the item id, and a listed folder's hasDir
   * flag under the folder's own id.
   */
  function GetFileObject(cfg: Config, c: Caches, path: string, checkDir: bool, get: GetReply, list: ListReply): (r: Lookup)
    ensures var sp := SplitPath(path, cfg.root, true);
      var hit := CachedHit(c, sp.parent, sp.leaf);
      && r.caches.byName == c.byName
      && (hit.Some? ==> r.calls == [] && r.caches == c && r.file == hit)
      && (hit.None? ==> r.calls != [] && r.calls[0] == GetRequest(cfg, sp.leaf))
      && (hit.None? && get.Failed? && get.code != 404 ==> r.caches == c && r.file == None)
      && (hit.None? && !(get.Failed? && get.code != 404) ==>
            && r.caches.byId == c.byId[sp.leaf := r.file]
            && r.file == (if get.Fetched? then Some(get.file) else None))
      && (forall k :: k in c.hasDirs && !(r.file.Some? && k == r.file.value.id) ==> k in r.caches.hasDirs && r.caches.hasDirs[k] == c.hasDirs[k])
      && (hit.None? && get.Failed? ==> r.calls == [GetRequest(cfg, sp.leaf)] && r.caches.hasDirs == c.hasDirs)
      && (hit.None? && get.Fetched? ==>
            && r.calls == [GetRequest(cfg, sp.leaf)] + (if checkDir && cfg.useHasDir then [HasDirRequest(cfg, sp.leaf)] else [])
            && r.caches.hasDirs ==
                 (if checkDir && cfg.useHasDir && list.Listed? && get.file.mimeType == DIRMIME
                  then c.hasDirs[get.file.id := list.nonEmpty] else c.hasDirs))
  {
    var sp := SplitPath(path, cfg.root, true);
    var itemId := sp.leaf;
    var hit := CachedHit(c, sp.parent, itemId);
    if hit.Some? then Lookup(c, hit, [])
    else
      var listing := checkDir && cfg.useHasDir;
      match get
      case Failed(code) =>
        if code != 404 then Lookup(c, None, [GetRequest(cfg, itemId)])
        else Lookup(c.(byId := c.byId[itemId := None]), None, [GetRequest(cfg, itemId)])
      case Fetched(f) =>
        var calls := [GetRequest(cfg, itemId)] + (if listing then [HasDirRequest(cfg, itemId)] else []);
        var hasDirs := if listing && list.Listed? && f.mimeType == DIRMIME then c.hasDirs[f.id := list.nonEmpty] else c.hasDirs;
        Lookup(Caches(c.byId[itemId := Some(f)], c.byName, hasDirs), Some(f), calls)
  }

  /**
   * An object once found stays found: looking the same path up again,
   * whatever Drive would answer, returns it from the cache without a request.
   */
  lemma FoundIsRemembered(cfg: Config, c: Caches, path: string, checkDir: bool, get: GetReply, list: ListReply,
                          checkDir2: bool, get2: GetReply, list2: ListReply)
    requires GetFileObject(cfg, c, path, checkDir, get, list).file.Some?
    ensures var first := GetFileObject(cfg, c, path, checkDir, get, list);
      GetFileObject(cfg, first.caches, path, checkDir2, get2, list2) == Lookup(first.caches, first.file, [])
  {
    var sp := SplitPath(path, cfg.root, true);
    var first := GetFileObject(cfg, c, path, checkDir, get, list);
    assert CachedHit(first.caches, sp.parent, sp.leaf) == first.file;
  }

  /**
   * A 404 is cached as null, and a cached null is no hit: unless the by-name
   * cache knows the item, the next lookup asks Drive again.
   */
  lemma NotFoundIsAskedAgain(cfg: Config, c: Caches, path: string, checkDir: bool, list: ListReply,
                             checkDir2: bool, get2: GetReply, list2: ListReply)
    requires var sp := SplitPath(path, cfg.root, true);
      CachedHit(c, sp.parent, sp.leaf).None?
    ensures var sp := SplitPath(path, cfg.root, true);
      var first := GetFileObject(cfg, c, path, checkDir, Failed(404), list);
      && first.file == None
      && sp.leaf in first.caches.byId && first.caches.byId[sp.leaf] == None
      && GetFileObject(cfg, first.caches, path, checkDir2, get2, list2).calls[0] == GetRequest(cfg, sp.leaf)
  {
    var sp := SplitPath(path, cfg.root, true);
    var first := GetFileObject(cfg, c, path, checkDir, Failed(404), list);
    assert CachedHit(first.caches, sp.parent, sp.leaf).None?;
  }

  /** `clearCache`: forgets the by-id objects and the hasDir flags; the by-name cache is kept. */
  function Cleared(c: Caches): (r: Caches)
    ensures r.byId == map[] && r.hasDirs == map[] && r.byName == c.byName
  {
    Caches(map[], c.byName, map[])
  }

  /**
   * After `clearCache` every lookup that the by-name cache does not answer
   * goes to Drive, and every one it does answer is served from it.
   */
  lemma ClearedServesOnlyNames(cfg: Config, c: Caches, path: string, checkDir: bool, get: GetReply, list: ListReply)
    ensures var sp := SplitPath(path, cfg.root, true);
      var key := NameKey(sp.parent, sp.leaf);
      var r := GetFileObject(cfg, Cleared(c), path, checkDir, get, list);
      && (key in c.byName ==> r == Lookup(Cleared(c), Some(c.byName[key]), []))
      && (key !in c.byName ==> r.calls != [] && r.calls[0] == GetRequest(cfg, sp.leaf))
  {
  }

  /** What a cache-writing operation leaves behind: the caches, whether it succeeded, and the requests sent. */
  datatype Step = Step(caches: Caches, ok: bool, calls: seq<Call>)

  /** `createFolder`: `files.create` of a folder with the given name under the given parent. */
  function CreateFolderRequest(cfg: Config, name: string, parentId: string): Call {
    FilesCreate(FileMeta(Some(name), Some([parentId]), Some(DIRMIME), None),
                ApplyDefaultParams(cfg.defaultParams, map["fields" := cfg.fetchFieldsGet], "files.create"))
  }

  /**
   * `createDirectory($path)`: always asks Drive to create the folder (there
   * is no check for an existing one), and when Drive answers with a
   * DriveFile remembers it by name and by id, with no sub-folders.
   * `created` is Drive's answer; `None` stands for anything that is not a
   * DriveFile, which fails the operation.
   */
  function CreateDirectory(cfg: Config, c: Caches, path: string, created: Option<DriveFile>): (r: Step)
    ensures var sp := SplitPath(path, cfg.root, true);
      && r.calls == [CreateFolderRequest(cfg, sp.leaf, sp.parent)]
      && (r.ok <==> created.Some?)
      && (!r.ok ==> r.caches == c)
      && (r.ok ==>
            && r.caches.byName == c.byName[NameKey(sp.parent, sp.leaf) := created.value]
            && r.caches.byId == c.byId[created.value.id := created]
            && r.caches.hasDirs == c.hasDirs[created.value.id := false])
  {
    var sp := SplitPath(path, cfg.root, true);
    var call := CreateFolderRequest(cfg, sp.leaf, sp.parent);
    match created
    case None => Step(c, false, [call])
    case Some(folder) =>
      Step(Caches(c.byId[folder.id := Some(folder)], c.byName[NameKey(sp.parent, sp.leaf) := folder], c.hasDirs[folder.id := false]), true, [call])
  }

  /**
   * A directory created in this connection is found again at its path without
   * asking Drive, even after `clearCache`, because the by-name cache survives it.
   */
  lemma CreatedDirectoryIsFound(cfg: Config, c: Caches, path: string, folder: DriveFile,
                                checkDir: bool, get: GetReply, list: ListReply)
    ensures var after := CreateDirectory(cfg, c, path, Some(folder)).caches;
      && GetFileObject(cfg, Cleared(after), path, checkDir, get, list) == Lookup(Cleared(after), Some(folder), [])
      && (var sp := SplitPath(path, cfg.root, true);
          !(sp.leaf in c.byId && c.byId[sp.leaf].Some?) || sp.leaf == folder.id ==>
            GetFileObject(cfg, after, path, checkDir, get, list) == Lookup(after, Some(folder), []))
  {
    var sp := SplitPath(path, cfg.root, true);
    var after := CreateDirectory(cfg, c, path, Some(folder)).caches;
    assert NameKey(sp.parent, sp.leaf) in after.byName;
    assert CachedHit(Cleared(after), sp.parent, sp.leaf) == Some(folder);
    if !(sp.leaf in c.byId && c.byId[sp.leaf].Some?) || sp.leaf == folder.id {
      assert CachedHit(after, sp.parent, sp.leaf) == Some(folder);
    }
  }

  /** What `normaliseUploadedFile` leaves behind: the caches, the metadata (`None` for false) and the requests sent. */
  datatype Normalised = Normalised(caches: Caches, meta: Option<Metadata>, calls: seq<Call>)

  /**
   * `normaliseUploadedFile($uploadedFile, $localPath)`: remembers the
   * uploaded file by its id, looks the local path up, and when that finds
   * nothing remembers the file under the path's name too; then normalises
   * it under the path's directory. `phpDirname` is what PHP's `dirname`
   * answers for the path; `get` is Drive's answer should the lookup ask.
   */
  function NormaliseUploadedFile(cfg: Config, c: Caches, uploaded: Option<DriveFile>, localPath: string,
                                 phpDirname: string, get: GetReply): (r: Normalised)
    ensures uploaded.None? ==> r == Normalised(c, None, [])
    ensures uploaded.Some? ==>
      && r.meta == Some(NormaliseObject(uploaded.value, Dirname(phpDirname), cfg.useHasDir, r.caches.hasDirs))
      && |r.calls| <= 1
    ensures uploaded.Some? ==>
      var f := uploaded.value;
      var sp := SplitPath(localPath, cfg.root, true);
      var l := GetFileObject(cfg, c.(byId := c.byId[f.id := Some(f)]), localPath, false, get, ListFailed);
      && r.calls == l.calls
      && r.caches.byId == l.caches.byId
      && r.caches.byName == (if l.file.None? then c.byName[NameKey(sp.parent, sp.leaf) := f] else c.byName)
      && r.caches.hasDirs == c.hasDirs
  {
    match uploaded
    case None => Normalised(c, None, [])
    case Some(f) =>
      var sp := SplitPath(localPath, cfg.root, true);
      var c1 := c.(byId := c.byId[f.id := Some(f)]);
      var l := GetFileObject(cfg, c1, localPath, false, get, ListFailed);
      var c2 := if l.file.None? then l.caches.(byName := l.caches.byName[NameKey(sp.parent, sp.leaf) := f]) else l.caches;
      Normalised(c2, Some(NormaliseObject(f, Dirname(phpDirname), cfg.useHasDir, c2.hasDirs)), l.calls)
  }

  /**
   * After an upload is normalised, its path is answered from the cache: by
   * whatever the lookup found, or else by the uploaded file itself; a path
   * that ends in the file's id finds the file.
   */
  lemma UploadedIsFound(cfg: Config, c: Caches, f: DriveFile, localPath: string, phpDirname: string, get: GetReply,
                        checkDir: bool, get2: GetReply, list2: ListReply)
    ensures var r := NormaliseUploadedFile(cfg, c, Some(f), localPath, phpDirname, get);
      var again := GetFileObject(cfg, r.caches, localPath, checkDir, get2, list2);
      && again.calls == [] && again.caches == r.caches && again.file.Some?
      && (var sp := SplitPath(localPath, cfg.root, true);
          sp.leaf == f.id ==> again.file == Some(f))
      && (var l := GetFileObject(cfg, c.(byId := c.byId[f.id := Some(f)]), localPath, false, get, ListFailed);
          l.file.None? ==> again.file == Some(f))
  {
    var sp := SplitPath(localPath, cfg.root, true);
    var c1 := c.(byId := c.byId[f.id := Some(f)]);
    var l := GetFileObject(cfg, c1, localPath, false, get, ListFailed);
    var r := NormaliseUploadedFile(cfg, c, Some(f), localPath, phpDirname, get);
    if l.file.Some? {
      FoundIsRemembered(cfg, c1, localPath, false, get, ListFailed, checkDir, get2, list2);
    } else {
      assert CachedHit(r.caches, sp.parent, sp.leaf) == Some(f);
    }
  }
}
