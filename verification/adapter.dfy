/**
 * The adapter object itself: its configuration, fixed by the constructor,
 * and its three caches, which the operations update in place. Every method
 * is proved to leave the caches, and to send the requests, that the
 * value-level definition of the same operation describes; the properties
 * of those definitions are proved next to them.
 */
module Adapter {
  import opened Common
  import opened Paths
  import opened Drive
  import opened Metadata
  import opened Cache
  import opened Visibility
  import opened Requests
  import opened Streams
  import opened Sizing
  import opened Upload
  import opened Commands

  class GoogleDriveAdapter {
    const cfg: Config
    var cacheFileObjects: map<string, Option<DriveFile>>
    var cacheFileObjectsByName: map<string, DriveFile>
    var cacheHasDirs: map<string, bool>

    /** The three caches as one value. */
    function State(): Caches
      reads this
    {
      Caches(cacheFileObjects, cacheFileObjectsByName, cacheHasDirs)
    }

    /**
     * `__construct($service, $root, $options)` with the options already
     * merged over the defaults: a falsy root becomes "root", and a Team
     * Drive id replaces the root "root". The field list for `files.get`
     * gains the additional fetch field when there is one. The caches start empty.
     */
    constructor (root: string, teamDriveId: string, useHasDir: bool, publishType: string, publishRole: string,
                 publishWithLink: bool, appsExportMap: map<string, string>, defaultParams: map<string, Params>,
                 deleteAction: string, additionalFetchField: string)
      ensures cfg == Config(ChooseRoot(root, teamDriveId), useHasDir, publishType, publishRole, publishWithLink,
                            appsExportMap, defaultParams, deleteAction, FetchFieldsGet(additionalFetchField))
      ensures cfg.root != ""
      ensures State() == EmptyCaches
    {
      var r := if Truthy(root) then root else "root";
      if Truthy(teamDriveId) && r == "root" {
        r := teamDriveId;
      }
      cfg := Config(r, useHasDir, publishType, publishRole, publishWithLink,
                    appsExportMap, defaultParams, deleteAction, FetchFieldsGet(additionalFetchField));
      cacheFileObjects, cacheFileObjectsByName, cacheHasDirs := map[], map[], map[];
    }

    method Store(c: Caches)
      modifies this
      ensures State() == c
    {
      cacheFileObjects, cacheFileObjectsByName, cacheHasDirs := c.byId, c.byName, c.hasDirs;
    }

    /** `getFileObject($path, $checkDir)`, answering from the caches first and asking Drive otherwise. */
    method GetFileObject(path: string, checkDir: bool, get: GetReply, list: ListReply)
      returns (file: Option<DriveFile>, calls: seq<Call>)
      modifies this
      ensures var l := Cache.GetFileObject(cfg, old(State()), path, checkDir, get, list);
        State() == l.caches && file == l.file && calls == l.calls
    {
      var sp := SplitPath(path, cfg.root, true);
      var itemId := sp.leaf;
      if itemId in cacheFileObjects && cacheFileObjects[itemId].Some? {
        return cacheFileObjects[itemId], [];
      }
      var key := NameKey(sp.parent, itemId);
      if key in cacheFileObjectsByName {
        return Some(cacheFileObjectsByName[key]), [];
      }
      calls := [GetRequest(cfg, itemId)];
      match get {
        case Failed(code) =>
          if code != 404 {
            return None, calls;
          }
          file := None;
        case Fetched(f) =>
          if checkDir && cfg.useHasDir {
            calls := calls + [HasDirRequest(cfg, itemId)];
            if list.Listed? && f.mimeType == DIRMIME {
              cacheHasDirs := cacheHasDirs[f.id := list.nonEmpty];
            }
          }
          file := Some(f);
      }
      cacheFileObjects := cacheFileObjects[itemId := file];
    }

    /** `clearCache()`. */
    method ClearCache()
      modifies this
      ensures State() == Cleared(old(State()))
    {
      cacheFileObjects := map[];
      cacheHasDirs := map[];
    }

    /** `createDirectory($path)`; `ok` is false where PHP throws `UnableToCreateDirectory`. */
    method CreateDirectory(path: string, created: Option<DriveFile>) returns (ok: bool, calls: seq<Call>)
      modifies this
      ensures Step(State(), ok, calls) == Cache.CreateDirectory(cfg, old(State()), path, created)
    {
      var sp := SplitPath(path, cfg.root, true);
      calls := [CreateFolderRequest(cfg, sp.leaf, sp.parent)];
      if created.None? {
        return false, calls;
      }
      var folder := created.value;
      cacheFileObjectsByName := cacheFileObjectsByName[NameKey(sp.parent, sp.leaf) := folder];
      cacheFileObjects := cacheFileObjects[folder.id := created];
      cacheHasDirs := cacheHasDirs[folder.id := false];
      ok := true;
    }

    /** `normaliseUploadedFile($uploadedFile, $localPath)`; `meta` is `None` where PHP returns false. */
    method NormaliseUploadedFile(uploaded: Option<DriveFile>, localPath: string, phpDirname: string, get: GetReply)
      returns (meta: Option<Metadata>, calls: seq<Call>)
      modifies this
      ensures Normalised(State(), meta, calls) == Cache.NormaliseUploadedFile(cfg, old(State()), uploaded, localPath, phpDirname, get)
    {
      var sp := SplitPath(localPath, cfg.root, true);
      if uploaded.None? {
        return None, [];
      }
      var f := uploaded.value;
      cacheFileObjects := cacheFileObjects[f.id := Some(f)];
      var found;
      found, calls := GetFileObject(localPath, false, get, ListFailed);
      if found.None? {
        cacheFileObjectsByName := cacheFileObjectsByName[NameKey(sp.parent, sp.leaf) := f];
      }
      meta := Some(NormaliseObject(f, Dirname(phpDirname), cfg.useHasDir, cacheHasDirs));
    }

    /** `getRawVisibility($path)`; `vis` is `None` where PHP raises an Error on a null file. */
    method GetRawVisibility(path: string, get: GetReply) returns (vis: Option<Vis>, calls: seq<Call>)
      modifies this
      ensures Seen(State(), vis, calls) == RawVisibility(cfg, old(State()), path, get)
    {
      var file;
      file, calls := GetFileObject(path, false, get, ListFailed);
      if file.None? {
        return None, calls;
      }
      var v := ScanPermissions(file.value.permissions, cfg.publishType, cfg.publishRole);
      vis := Some(v);
    }

    /** `publish($path)`, recording a created permission on the cached DriveFile. */
    method Publish(path: string, get: GetReply, created: Option<string>) returns (ok: bool, calls: seq<Call>)
      modifies this
      ensures Step(State(), ok, calls) == Visibility.Publish(cfg, old(State()), path, get, created)
    {
      var file, found := GetFileObject(path, false, get, ListFailed);
      if file.None? {
        return false, found;
      }
      var f := file.value;
      var vis, scanned := GetRawVisibility(path, get);
      if vis == Some(Public) {
        return true, found + scanned;
      }
      calls := found + scanned + [PublishRequest(cfg, f.id)];
      match created {
        case None =>
          ok := false;
        case Some(permissionId) =>
          var sp := SplitPath(path, cfg.root, true);
          var perms := f.permissions + [Permission(permissionId, cfg.publishType, cfg.publishRole)];
          Store(WithPermissions(State(), sp.parent, sp.leaf, f, perms));
          ok := true;
      }
    }

    /** `unPublish($path)`, leaving on the cached DriveFile only the permissions not deleted. */
    method UnPublish(path: string, get: GetReply, failing: set<string>) returns (ok: bool, calls: seq<Call>)
      modifies this
      ensures Step(State(), ok, calls) == Visibility.UnPublish(cfg, old(State()), path, get, failing)
    {
      var file, found := GetFileObject(path, false, get, ListFailed);
      if file.None? {
        return false, found;
      }
      var f := file.value;
      var deletes, kept;
      deletes, kept, ok := DeleteAnyoneReaders(f.id, f.permissions, failing);
      var sp := SplitPath(path, cfg.root, true);
      Store(WithPermissions(State(), sp.parent, sp.leaf, f, kept));
      calls := found + deletes;
    }

    /** `delete($path)`; `error` names the `UnableToDeleteDirectory` PHP throws. */
    method Delete(path: string, get: GetReply, requestFails: bool) returns (error: Option<DeleteError>, calls: seq<Call>)
      modifies this
      ensures Deleted(State(), error, calls) == Commands.Delete(cfg, old(State()), path, get, requestFails)
    {
      if path == "" || path == "/" {
        return Some(RootRejected), [];
      }
      var prefixed := PrefixPath(cfg.root, path);
      var file;
      file, calls := GetFileObject(prefixed, false, get, ListFailed);
      if file.None? {
        return Some(NotFound), calls;
      }
      if file.value.parents == [] {
        return Some(NoParents), calls;
      }
      var sp := SplitPath(prefixed, cfg.root, true);
      calls := calls + [DeleteRequest(cfg, file.value.parents, sp.parent, sp.leaf)];
      if requestFails {
        return Some(RequestFailed), calls;
      }
      ClearCache();
      error := None;
    }

    /** `copy($source, $destination)`; `ok` is false where the copy throws or the source cannot be read. */
    method Copy(source: string, destination: string, copied: Option<DriveFile>,
                get: GetReply, created: Option<string>, failing: set<string>) returns (ok: bool, calls: seq<Call>)
      modifies this
      ensures Step(State(), ok, calls) == Commands.Copy(cfg, old(State()), source, destination, copied, get, created, failing)
    {
      var src := SplitPath(source, cfg.root, true);
      var dst := SplitPath(destination, cfg.root, true);
      var call := CopyRequest(cfg, src.leaf, dst.parent, dst.leaf);
      if copied.None? {
        return false, [call];
      }
      var f := copied.value;
      cacheFileObjects := cacheFileObjects[f.id := Some(f)];
      cacheFileObjectsByName := cacheFileObjectsByName[NameKey(dst.parent, dst.leaf) := f];
      var matched;
      ok, matched := MatchVisibility(source, CopyTarget(cfg, dst.parent, f.id), get, created, failing);
      calls := [call] + matched;
    }

    /** The second half of `copy`, corrected: give `target` the visibility `source` reads with, and record it in the cache. */
    method MatchVisibility(source: string, target: string, get: GetReply, created: Option<string>, failing: set<string>)
      returns (ok: bool, calls: seq<Call>)
      modifies this
      ensures Step(State(), ok, calls) == Commands.MatchVisibility(cfg, old(State()), source, target, get, created, failing)
    {
      var vis, seen := GetRawVisibility(source, get);
      if vis.None? {
        return false, seen;
      }
      // The result of publishing or unpublishing the copy is ignored.
      var matched, ignored;
      if vis == Some(Public) {
        ignored, matched := Publish(target, get, created);
      } else {
        ignored, matched := UnPublish(target, get, failing);
      }
      ok, calls := true, seen + matched;
    }

    /**
     * `upload($path, $contents)` with string contents: look the path up,
     * create or update the file in one request, and normalise Drive's
     * answer. `reply` is `None` when that request throws: the exception
     * leaves before normalising, so the caches stay as the lookup left them.
     * `get2` is Drive's answer should normalising look the path up again.
     */
    method UploadString(path: string, contents: string, mime: string, guessedMime: string,
                        get: GetReply, reply: Option<DriveFile>, phpDirname: string, get2: GetReply)
      returns (meta: Option<Metadata>, calls: seq<Call>)
      modifies this
      ensures var sp := SplitPath(path, cfg.root, true);
        var l := Cache.GetFileObject(cfg, old(State()), path, false, get, ListFailed);
        var n := Cache.NormaliseUploadedFile(cfg, l.caches, reply, path, phpDirname, get2);
        && State() == n.caches && meta == n.meta
        && calls == l.calls + [EnsureDriveFileExists(cfg, contents, sp.parent, sp.leaf, l.file, mime, guessedMime)] + n.calls
        && (reply.None? ==> State() == l.caches && meta == None)
    {
      var sp := SplitPath(path, cfg.root, true);
      var src, found := GetFileObject(path, false, get, ListFailed);
      var request := EnsureDriveFileExists(cfg, contents, sp.parent, sp.leaf, src, mime, guessedMime);
      var normalised;
      meta, normalised := NormaliseUploadedFile(reply, path, phpDirname, get2);
      calls := found + [request] + normalised;
    }

    /**
     * `upload($path, $contents)` with a stream: look the path up, send the
     * stream in one request or in chunks, and normalise what the upload
     * returns: nothing when Drive throws, and nothing when a chunked upload
     * did not start at the beginning of the stream and so never reaches the
     * size Drive expects.
     */
    method UploadStream(path: string, resource: ByteStream, ini: map<string, string>, memoryUsed: int,
                        mime: string, guessedMime: string, get: GetReply, reply: UploadReply,
                        phpDirname: string, get2: GetReply)
      returns (uploaded: Option<DriveFile>, meta: Option<Metadata>, calls: seq<Call>, chunks: seq<string>)
      requires resource.Valid()
      modifies this, resource
      ensures resource.Valid()
      ensures var chunkSize := DetectChunkSizeBytes(GetIniBytes("memory_limit", "", ini), memoryUsed);
        var whole := |resource.data| <= chunkSize;
        var sp := SplitPath(path, cfg.root, true);
        var l := Cache.GetFileObject(cfg, old(State()), path, false, get, ListFailed);
        var n := Cache.NormaliseUploadedFile(cfg, l.caches, uploaded, path, phpDirname, get2);
        && uploaded == (if reply.Completes? && (whole || old(resource.pos) == 0) then Some(reply.file) else None)
        && State() == n.caches && meta == n.meta
        && (uploaded.None? ==> State() == l.caches && meta == None)
        && calls == l.calls + [EnsureDriveFileExists(cfg, if whole then resource.data[old(resource.pos)..] else "",
                                                     sp.parent, sp.leaf, l.file, mime, guessedMime)] + n.calls
        && (whole ==> chunks == [])
        && (!whole && reply.Completes? && old(resource.pos) == 0 ==> Flatten(chunks) == resource.data)
        && (!whole && reply.Throws? ==> |chunks| <= reply.call + 1)
    {
      var sp := SplitPath(path, cfg.root, true);
      var src, found := GetFileObject(path, false, get, ListFailed);
      var requests;
      requests, chunks, uploaded := UploadResourceToDrive(cfg, resource, ini, memoryUsed, sp.parent, sp.leaf, src, mime, guessedMime, reply);
      var normalised;
      meta, normalised := NormaliseUploadedFile(uploaded, path, phpDirname, get2);
      calls := found + requests + normalised;
    }
  }
}
