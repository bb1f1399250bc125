/**
 * The two commands that combine several steps: `delete` (reject the root,
 * resolve the path, choose between removing a parent edge, trashing and
 * deleting, then clear the cache) and `copy` (copy, remember the copy, and
 * give it the source's visibility).
 */
module Commands {
  import opened Common
  import opened Paths
  import opened Drive
  import opened Api
  import opened Cache
  import opened Visibility

  /** Why `delete` throws `UnableToDeleteDirectory`. */
  datatype DeleteError = RootRejected | NotFound | NoParents | RequestFailed

  /** What `delete` leaves behind: the caches, the exception if any, and the requests sent. */
  datatype Deleted = Deleted(caches: Caches, error: Option<DeleteError>, calls: seq<Call>)

  /**
   * The delete policy for a file with the given parents, reached through
   * `parentId`: with several parents only the edge from `parentId` is
   * removed; with one, the file is deleted for good when `deleteAction` is
   * "delete" and moved to the trash otherwise. The request always targets
   * the file `id` itself.
   */
  function DeleteRequest(cfg: Config, parents: seq<string>, parentId: string, id: string): (call: Call)
    requires parents != []
    ensures call.FilesDelete? || call.FilesUpdate?
    ensures call.fileId == id
    ensures call.FilesDelete? <==> |parents| == 1 && cfg.deleteAction == "delete"
    ensures call.FilesUpdate? ==> call.meta.name.None? && call.meta.parents.None? && call.meta.mimeType.None?
    ensures call.FilesUpdate? ==> (call.meta.trashed == Some(true) <==> |parents| == 1)
    ensures call.FilesUpdate? && |parents| > 1 ==> "removeParents" in call.params && call.params["removeParents"] == parentId
  {
    if |parents| > 1 then
      FilesUpdate(id, NoMeta, ApplyDefaultParams(cfg.defaultParams, map["removeParents" := parentId], "files.update"))
    else if cfg.deleteAction == "delete" then FilesDelete(id)
    else FilesUpdate(id, NoMeta.(trashed := Some(true)), ApplyDefaultParams(cfg.defaultParams, map[], "files.update"))
  }

  /**
   * `delete($path)`: "" and "/" are rejected before anything else; the path
   * is prefixed with the root and looked up; a missing file or one without
   * parents is an error; then the one request of the delete policy is sent
   * (`requestFails` says whether Drive throws), and on success the cache is
   * cleared.
   */
  function Delete(cfg: Config, c: Caches, path: string, get: GetReply, requestFails: bool): (r: Deleted)
    ensures path == "" || path == "/" ==> r == Deleted(c, Some(RootRejected), [])
    ensures r.error.None? ==> r.caches == Cleared(r.caches) && r.calls != []
    ensures r.error.None? <==>
      && path != "" && path != "/" && !requestFails
      && (var l := GetFileObject(cfg, c, PrefixPath(cfg.root, path), false, get, ListFailed);
          l.file.Some? && l.file.value.parents != [])
    ensures r.caches.byName == c.byName
    ensures path != "" && path != "/" ==>
      var prefixed := PrefixPath(cfg.root, path);
      var l := GetFileObject(cfg, c, prefixed, false, get, ListFailed);
      var sp := SplitPath(prefixed, cfg.root, true);
      && (l.file.None? ==> r == Deleted(l.caches, Some(NotFound), l.calls))
      && (l.file.Some? && l.file.value.parents == [] ==> r == Deleted(l.caches, Some(NoParents), l.calls))
      && (l.file.Some? && l.file.value.parents != [] ==>
            && r.calls == l.calls + [DeleteRequest(cfg, l.file.value.parents, sp.parent, sp.leaf)]
            && (requestFails ==> r.caches == l.caches && r.error == Some(RequestFailed))
            && (!requestFails ==> r.caches == Cleared(l.caches)))
  {
    if path == "" || path == "/" then Deleted(c, Some(RootRejected), [])
    else
      var prefixed := PrefixPath(cfg.root, path);
      var l := GetFileObject(cfg, c, prefixed, false, get, ListFailed);
      match l.file
      case None => Deleted(l.caches, Some(NotFound), l.calls)
      case Some(f) =>
        if f.parents == [] then Deleted(l.caches, Some(NoParents), l.calls)
        else
          var sp := SplitPath(prefixed, cfg.root, true);
          var call := DeleteRequest(cfg, f.parents, sp.parent, sp.leaf);
          if requestFails then Deleted(l.caches, Some(RequestFailed), l.calls + [call])
          else Deleted(Cleared(l.caches), None, l.calls + [call])
  }

  /**
   * A file with several parents is never deleted or trashed: deleting it
   * through one path only detaches it from that path's parent.
   */
  lemma MultiParentOnlyDetached(cfg: Config, c: Caches, path: string, get: GetReply, requestFails: bool)
    requires path != "" && path != "/"
    requires var l := GetFileObject(cfg, c, PrefixPath(cfg.root, path), false, get, ListFailed);
      l.file.Some? && |l.file.value.parents| > 1
    ensures var r := Delete(cfg, c, path, get, requestFails);
      var sp := SplitPath(PrefixPath(cfg.root, path), cfg.root, true);
      var last := r.calls[|r.calls| - 1];
      && last.FilesUpdate? && last.fileId == sp.leaf && last.meta.trashed.None?
      && "removeParents" in last.params && last.params["removeParents"] == sp.parent
  {
  }

  /**
   * Because `clearCache` keeps the by-name cache, a file deleted in this
   * connection that is known by name is still found there afterwards,
   * without asking Drive.
   */
  lemma DeletedStillFoundByName(cfg: Config, c: Caches, path: string, get: GetReply, checkDir: bool, get2: GetReply, list2: ListReply)
    requires Delete(cfg, c, path, get, false).error.None?
    requires var sp := SplitPath(PrefixPath(cfg.root, path), cfg.root, true);
      NameKey(sp.parent, sp.leaf) in c.byName
    ensures var after := Delete(cfg, c, path, get, false).caches;
      var sp := SplitPath(PrefixPath(cfg.root, path), cfg.root, true);
      GetFileObject(cfg, after, PrefixPath(cfg.root, path), checkDir, get2, list2)
        == Lookup(after, Some(c.byName[NameKey(sp.parent, sp.leaf)]), [])
  {
    var after := Delete(cfg, c, path, get, false).caches;
    var prefixed := PrefixPath(cfg.root, path);
    var l := GetFileObject(cfg, c, prefixed, false, get, ListFailed);
    ClearedServesOnlyNames(cfg, l.caches, prefixed, checkDir, get2, list2);
  }

  /** `files.copy` of the source id into the destination's parent, under the destination's leaf name. */
  function CopyRequest(cfg: Config, srcId: string, parentId: string, fileName: string): Call {
    FilesCopy(srcId, FileMeta(Some(fileName), Some([parentId]), None, None),
              ApplyDefaultParams(cfg.defaultParams, map["fields" := cfg.fetchFieldsGet], "files.copy"))
  }

  /** The path `copy` gives the new file: its id, under the destination's parent unless that is the root. */
  function CopyTarget(cfg: Config, parentId: string, newId: string): string {
    (if parentId == cfg.root then "" else parentId + "/") + newId
  }

  /**
   * The second half of `copy` as written: read the source's visibility (a
   * source that cannot be found raises an Error, `ok` false) and call
   * `publish` or `unPublish` on the target to match, ignoring their result.
   * Those leave the cached target with its old permissions. Whatever the
   * caches knew before, by id or by name, they still know.
   */
  function MatchVisibilityAsWritten(cfg: Config, c: Caches, source: string, target: string,
                                    get: GetReply, created: Option<string>, failing: set<string>): (r: Step)
    ensures r.caches.byName.Keys == c.byName.Keys && r.caches.byId.Keys >= c.byId.Keys && KeepsObjects(c, r.caches)
    ensures r.ok <==> RawVisibility(cfg, c, source, get).vis.Some?
  {
    var seen := RawVisibility(cfg, c, source, get);
    LookupKeepsKeys(cfg, c, source, get);
    match seen.vis
    case None => Step(seen.caches, false, seen.calls)
    case Some(v) =>
      LookupKeepsKeys(cfg, seen.caches, target, get);
      var s := if v == Public then PublishAsWritten(cfg, seen.caches, target, get, created)
               else UnPublishAsWritten(cfg, seen.caches, target, get, failing);
      Step(s.caches, true, seen.calls + s.calls)
  }

  /**
   * The second half of `copy` with the corrected `publish` and `unPublish`,
   * which record the target's new permissions in the cache. Whatever the
   * caches knew before, by id or by name, they still know, changed at most
   * in its permissions.
   */
  function MatchVisibility(cfg: Config, c: Caches, source: string, target: string,
                           get: GetReply, created: Option<string>, failing: set<string>): (r: Step)
    ensures r.caches.byName.Keys == c.byName.Keys && r.caches.byId.Keys >= c.byId.Keys && KeepsObjects(c, r.caches)
    ensures r.ok <==> RawVisibility(cfg, c, source, get).vis.Some?
  {
    var seen := RawVisibility(cfg, c, source, get);
    LookupKeepsKeys(cfg, c, source, get);
    match seen.vis
    case None => Step(seen.caches, false, seen.calls)
    case Some(v) =>
      PublishKeepsKeys(cfg, seen.caches, target, get, created);
      UnPublishKeepsKeys(cfg, seen.caches, target, get, failing);
      var s := if v == Public then Publish(cfg, seen.caches, target, get, created)
               else UnPublish(cfg, seen.caches, target, get, failing);
      KeepsObjectsTrans(c, seen.caches, s.caches);
      Step(s.caches, true, seen.calls + s.calls)
  }

  /** The caches with a new copy `f` remembered by its id and by its name under its parent. */
  function Remembered(c: Caches, parentId: string, name: string, f: DriveFile): (r: Caches)
    ensures f.id in r.byId && r.byId[f.id] == Some(f)
    ensures NameKey(parentId, name) in r.byName && r.byName[NameKey(parentId, name)] == f
    ensures r.hasDirs == c.hasDirs
  {
    c.(byId := c.byId[f.id := Some(f)], byName := c.byName[NameKey(parentId, name) := f])
  }

  /**
   * `copy($source, $destination)` as written: copy the source into the
   * destination's parent under the destination's name; when Drive answers
   * with the new DriveFile, remember it by id and by name and match its
   * visibility to the source's with `publish`/`unPublish` as written.
   */
  function CopyAsWritten(cfg: Config, c: Caches, source: string, destination: string, copied: Option<DriveFile>,
                         get: GetReply, created: Option<string>, failing: set<string>): (r: Step)
    ensures var dst := SplitPath(destination, cfg.root, true);
      && r.calls != [] && r.calls[0] == CopyRequest(cfg, SplitPath(source, cfg.root, true).leaf, dst.parent, dst.leaf)
      && (copied.None? ==> r.caches == c && !r.ok && |r.calls| == 1)
      && (copied.Some? ==>
            var f := copied.value;
            var key := NameKey(dst.parent, dst.leaf);
            && (r.ok <==> RawVisibility(cfg, Remembered(c, dst.parent, dst.leaf, f), source, get).vis.Some?)
            && f.id in r.caches.byId && r.caches.byId[f.id].Some? && SameButPermissions(f, r.caches.byId[f.id].value)
            && key in r.caches.byName && SameButPermissions(f, r.caches.byName[key]))
  {
    var dst := SplitPath(destination, cfg.root, true);
    var call := CopyRequest(cfg, SplitPath(source, cfg.root, true).leaf, dst.parent, dst.leaf);
    match copied
    case None => Step(c, false, [call])
    case Some(f) =>
      var m := MatchVisibilityAsWritten(cfg, Remembered(c, dst.parent, dst.leaf, f), source,
                                        CopyTarget(cfg, dst.parent, f.id), get, created, failing);
      Step(m.caches, m.ok, [call] + m.calls)
  }

  /**
   * `copy($source, $destination)` with the corrected visibility step: copy
   * the source into the destination's parent under the destination's name;
   * when Drive answers with the new DriveFile, remember it by id and by name
   * and give it the source's visibility under the path made of its id,
   * recording the new permissions in the cache. `copied` is Drive's answer
   * to the copy (`None` when it throws); `get`, `created` and `failing` are
   * Drive's answers to the lookups and permission requests.
   */
  function Copy(cfg: Config, c: Caches, source: string, destination: string, copied: Option<DriveFile>,
                get: GetReply, created: Option<string>, failing: set<string>): (r: Step)
    ensures var dst := SplitPath(destination, cfg.root, true);
      && r.calls != [] && r.calls[0] == CopyRequest(cfg, SplitPath(source, cfg.root, true).leaf, dst.parent, dst.leaf)
      && (copied.None? ==> r.caches == c && !r.ok && |r.calls| == 1)
      && (copied.Some? ==>
            var f := copied.value;
            var key := NameKey(dst.parent, dst.leaf);
            && (r.ok <==> RawVisibility(cfg, Remembered(c, dst.parent, dst.leaf, f), source, get).vis.Some?)
            && f.id in r.caches.byId && r.caches.byId[f.id].Some? && SameButPermissions(f, r.caches.byId[f.id].value)
            && key in r.caches.byName && SameButPermissions(f, r.caches.byName[key]))
  {
    var dst := SplitPath(destination, cfg.root, true);
    var call := CopyRequest(cfg, SplitPath(source, cfg.root, true).leaf, dst.parent, dst.leaf);
    match copied
    case None => Step(c, false, [call])
    case Some(f) =>
      var m := MatchVisibility(cfg, Remembered(c, dst.parent, dst.leaf, f), source,
                               CopyTarget(cfg, dst.parent, f.id), get, created, failing);
      Step(m.caches, m.ok, [call] + m.calls)
  }

  /** The path `copy` builds for the new file ends in the file's id. */
  lemma CopyTargetLeaf(cfg: Config, parentId: string, newId: string)
    requires parentId != "" && newId != "" && '/' !in newId
    ensures SplitPath(CopyTarget(cfg, parentId, newId), cfg.root, true).leaf == newId
  {
    LeafOfJoined(parentId, newId, cfg.root);
    if parentId == cfg.root {
      assert CopyTarget(cfg, parentId, newId) == newId;
    }
  }

  /**
   * A copy reads with its source's visibility: with the default
   * "anyone"/"reader" permission, a copy that Drive gives a fresh id, and
   * permission requests that succeed, the copy's path (its id under the
   * destination's parent) reads public exactly when the source did, from
   * the cache.
   */
  lemma CopyTakesSourceVisibility(cfg: Config, c: Caches, source: string, destination: string, f: DriveFile,
                                  get: GetReply, permissionId: string, get2: GetReply)
    requires cfg.root != "" && cfg.publishType == "anyone" && cfg.publishRole == "reader"
    requires destination != "" && destination != "/"
    requires f.id != "" && '/' !in f.id
    requires var src := SplitPath(source, cfg.root, true);
      var dst := SplitPath(destination, cfg.root, true);
      src.leaf != f.id && NameKey(src.parent, src.leaf) != NameKey(dst.parent, dst.leaf)
    requires RawVisibility(cfg, c, source, get).vis.Some?
    ensures var r := Copy(cfg, c, source, destination, Some(f), get, Some(permissionId), {});
      var dst := SplitPath(destination, cfg.root, true);
      && r.ok
      && RawVisibility(cfg, r.caches, CopyTarget(cfg, dst.parent, f.id), get2)
           == Seen(r.caches, RawVisibility(cfg, c, source, get).vis, [])
  {
    var src := SplitPath(source, cfg.root, true);
    var dst := SplitPath(destination, cfg.root, true);
    var c1 := Remembered(c, dst.parent, dst.leaf, f);
    assert CachedHit(c1, src.parent, src.leaf) == CachedHit(c, src.parent, src.leaf);
    var seen := RawVisibility(cfg, c1, source, get);
    assert seen.vis == RawVisibility(cfg, c, source, get).vis;
    var target := CopyTarget(cfg, dst.parent, f.id);
    CopyTargetLeaf(cfg, dst.parent, f.id);
    var tp := SplitPath(target, cfg.root, true);
    assert CachedHit(seen.caches, tp.parent, tp.leaf) == Some(f);
    MatchCarriesVisibility(cfg, c1, source, target, f, get, permissionId, get2);
  }

  /**
   * Once the target is in the cache, matching its visibility to the
   * source's succeeds and leaves the target reading as the source read.
   */
  lemma MatchCarriesVisibility(cfg: Config, c: Caches, source: string, target: string, f: DriveFile,
                               get: GetReply, permissionId: string, get2: GetReply)
    requires cfg.publishType == "anyone" && cfg.publishRole == "reader"
    requires var seen := RawVisibility(cfg, c, source, get);
      var tp := SplitPath(target, cfg.root, true);
      seen.vis.Some? && CachedHit(seen.caches, tp.parent, tp.leaf) == Some(f)
    ensures var m := MatchVisibility(cfg, c, source, target, get, Some(permissionId), {});
      && m.ok
      && RawVisibility(cfg, m.caches, target, get2) == Seen(m.caches, RawVisibility(cfg, c, source, get).vis, [])
  {
    var seen := RawVisibility(cfg, c, source, get);
    if seen.vis == Some(Public) {
      PublishedReadsPublic(cfg, seen.caches, target, get, Some(permissionId), get2, None);
    } else {
      assert AllDeletable(f.permissions, {});
      UnPublishedReadsPrivate(cfg, seen.caches, target, get, {}, get2);
    }
  }

  /**
   * The code as written loses the copy's new visibility: copying a public
   * source whose copy Drive returns without permissions, with permission
   * requests that succeed, leaves the copy reading PRIVATE from the cache.
   */
  lemma CopyAsWrittenStaysPrivate(cfg: Config, c: Caches, source: string, destination: string, f: DriveFile,
                                  get: GetReply, permissionId: string, get2: GetReply)
    requires cfg.root != ""
    requires destination != "" && destination != "/"
    requires f.id != "" && '/' !in f.id && f.permissions == []
    requires var src := SplitPath(source, cfg.root, true);
      var dst := SplitPath(destination, cfg.root, true);
      src.leaf != f.id && NameKey(src.parent, src.leaf) != NameKey(dst.parent, dst.leaf)
    requires RawVisibility(cfg, c, source, get).vis == Some(Public)
    ensures var r := CopyAsWritten(cfg, c, source, destination, Some(f), get, Some(permissionId), {});
      var dst := SplitPath(destination, cfg.root, true);
      && r.ok
      && RawVisibility(cfg, r.caches, CopyTarget(cfg, dst.parent, f.id), get2) == Seen(r.caches, Some(Private), [])
  {
    var src := SplitPath(source, cfg.root, true);
    var dst := SplitPath(destination, cfg.root, true);
    var c1 := Remembered(c, dst.parent, dst.leaf, f);
    assert CachedHit(c1, src.parent, src.leaf) == CachedHit(c, src.parent, src.leaf);
    var seen := RawVisibility(cfg, c1, source, get);
    assert seen.vis == Some(Public);
    var target := CopyTarget(cfg, dst.parent, f.id);
    CopyTargetLeaf(cfg, dst.parent, f.id);
    var tp := SplitPath(target, cfg.root, true);
    assert CachedHit(seen.caches, tp.parent, tp.leaf) == Some(f);
    assert PublishAsWritten(cfg, seen.caches, target, get, Some(permissionId)).caches == seen.caches;
  }
}
