/**
 * Visibility: `getRawVisibility` reads it off the permissions of the cached
 * DriveFile, `publish` adds the configured public permission, and
 * `unPublish` deletes every "anyone"/"reader" permission. Drive's answers
 * to the permission requests are passed in: the id of the created
 * permission (`None` when `permissions.create` throws), and the ids of the
 * permissions whose deletion throws.
 */
module Visibility {
  import opened Common
  import opened Paths
  import opened Drive
  import opened Cache

  datatype Vis = Public | Private

  /** A permission of the given principal type and role. */
  predicate Grants(p: Permission, permType: string, role: string) {
    p.permType == permType && p.role == role
  }

  /** Some permission matches the `publishPermission` type and role. */
  predicate IsPublic(perms: seq<Permission>, permType: string, role: string) {
    exists i :: 0 <= i < |perms| && Grants(perms[i], permType, role)
  }

  /** The loop of `getRawVisibility`: PUBLIC at the first matching permission, PRIVATE when none matches. */
  method ScanPermissions(perms: seq<Permission>, permType: string, role: string) returns (v: Vis)
    ensures v == Public <==> IsPublic(perms, permType, role)
  {
    v := Private;
    var i := 0;
    while i < |perms|
      invariant 0 <= i <= |perms|
      invariant v == Private
      invariant forall j :: 0 <= j < i ==> !Grants(perms[j], permType, role)
    {
      if perms[i].permType == permType && perms[i].role == role {
        v := Public;
        break;
      }
      i := i + 1;
    }
  }

  /** What `getRawVisibility` leaves behind; `vis` is `None` when the lookup finds nothing and PHP raises an Error. */
  datatype Seen = Seen(caches: Caches, vis: Option<Vis>, calls: seq<Call>)

  /** `getRawVisibility($path)`: look the path up, then scan the found file's permissions. */
  function RawVisibility(cfg: Config, c: Caches, path: string, get: GetReply): (r: Seen)
    ensures var l := GetFileObject(cfg, c, path, false, get, ListFailed);
      && r.caches == l.caches && r.calls == l.calls
      && (r.vis.None? <==> l.file.None?)
      && (r.vis == Some(Public) <==> l.file.Some? && IsPublic(l.file.value.permissions, cfg.publishType, cfg.publishRole))
  {
    var l := GetFileObject(cfg, c, path, false, get, ListFailed);
    match l.file
    case None => Seen(l.caches, None, l.calls)
    case Some(f) => Seen(l.caches, Some(if IsPublic(f.permissions, cfg.publishType, cfg.publishRole) then Public else Private), l.calls)
  }

  /** `permissions.create` of the configured public permission. */
  function PublishRequest(cfg: Config, fileId: string): Call {
    PermissionsCreate(fileId, cfg.publishType, cfg.publishRole, cfg.publishWithLink)
  }

  /**
   * The caches with the object `f` found at (parentId, itemId) replaced by a
   * copy holding `perms`, in whichever cache entries hold it. In PHP the
   * entries share one object, so changing it changes every entry.
   */
  function WithPermissions(c: Caches, parentId: string, itemId: string, f: DriveFile, perms: seq<Permission>): (r: Caches)
    ensures CachedHit(c, parentId, itemId) == Some(f) ==> CachedHit(r, parentId, itemId) == Some(f.(permissions := perms))
    ensures r.hasDirs == c.hasDirs && r.byId.Keys == c.byId.Keys && r.byName.Keys == c.byName.Keys
  {
    var g := f.(permissions := perms);
    var key := NameKey(parentId, itemId);
    Caches(
      if itemId in c.byId && c.byId[itemId] == Some(f) then c.byId[itemId := Some(g)] else c.byId,
      if key in c.byName && c.byName[key] == f then c.byName[key := g] else c.byName,
      c.hasDirs)
  }

  /** Two DriveFiles that differ at most in their permissions. */
  predicate SameButPermissions(a: DriveFile, b: DriveFile) {
    b == a.(permissions := b.permissions)
  }

  /**
   * Every object `c` holds, by id or by name, `r` still holds under the
   * same key, changed at most in its permissions.
   */
  predicate KeepsObjects(c: Caches, r: Caches) {
    && (forall k :: k in c.byId && c.byId[k].Some? ==>
          k in r.byId && r.byId[k].Some? && SameButPermissions(c.byId[k].value, r.byId[k].value))
    && (forall k :: k in c.byName ==> k in r.byName && SameButPermissions(c.byName[k], r.byName[k]))
  }

  lemma KeepsObjectsTrans(a: Caches, b: Caches, c: Caches)
    requires KeepsObjects(a, b) && KeepsObjects(b, c)
    ensures KeepsObjects(a, c)
  {
  }

  /** Rewriting the permissions of the object at a path keeps every object otherwise as it was. */
  lemma WithPermissionsKeepsObjects(c: Caches, parentId: string, itemId: string, f: DriveFile, perms: seq<Permission>)
    ensures KeepsObjects(c, WithPermissions(c, parentId, itemId, f, perms))
  {
  }

  /**
   * Looking a path up forgets no cache key and adds no name, and every
   * object it held it still holds unchanged: a lookup only fills a key that
   * held no object.
   */
  lemma LookupKeepsKeys(cfg: Config, c: Caches, path: string, get: GetReply)
    ensures var l := GetFileObject(cfg, c, path, false, get, ListFailed);
      && l.caches.byName.Keys == c.byName.Keys && l.caches.byId.Keys >= c.byId.Keys
      && KeepsObjects(c, l.caches)
  {
  }

  /**
   * `publish($path)` as written: look the path up; nothing found is false;
   * already public is true with no further request; otherwise ask Drive to
   * create the public permission, true when it does. The cached DriveFile
   * keeps its old permissions.
   */
  function PublishAsWritten(cfg: Config, c: Caches, path: string, get: GetReply, created: Option<string>): (r: Step)
    ensures r.caches == GetFileObject(cfg, c, path, false, get, ListFailed).caches
  {
    var l := GetFileObject(cfg, c, path, false, get, ListFailed);
    match l.file
    case None => Step(l.caches, false, l.calls)
    case Some(f) =>
      var seen := RawVisibility(cfg, l.caches, path, get);
      if seen.vis == Some(Public) then Step(seen.caches, true, l.calls + seen.calls)
      else Step(seen.caches, created.Some?, l.calls + seen.calls + [PublishRequest(cfg, f.id)])
  }

  /**
   * `publish($path)` with the created permission also recorded on the cached
   * DriveFile, so that the cache keeps telling the truth about visibility.
   * Nothing found or an exception is false; an already public file is true
   * without any permission request; otherwise exactly one permission is
   * created for the found file's id.
   */
  function Publish(cfg: Config, c: Caches, path: string, get: GetReply, created: Option<string>): (r: Step)
    ensures var l := GetFileObject(cfg, c, path, false, get, ListFailed);
      && (l.file.None? ==> r == Step(l.caches, false, l.calls))
      && (l.file.Some? && IsPublic(l.file.value.permissions, cfg.publishType, cfg.publishRole) ==>
            r == Step(l.caches, true, l.calls))
      && (l.file.Some? && !IsPublic(l.file.value.permissions, cfg.publishType, cfg.publishRole) ==>
            && r.ok == created.Some?
            && r.calls == l.calls + [PublishRequest(cfg, l.file.value.id)])
    ensures var l := GetFileObject(cfg, c, path, false, get, ListFailed);
      var sp := SplitPath(path, cfg.root, true);
      l.file.Some? && !IsPublic(l.file.value.permissions, cfg.publishType, cfg.publishRole) ==>
        r.caches == (if created.None? then l.caches
                     else WithPermissions(l.caches, sp.parent, sp.leaf, l.file.value,
                                          l.file.value.permissions + [Permission(created.value, cfg.publishType, cfg.publishRole)]))
  {
    var l := GetFileObject(cfg, c, path, false, get, ListFailed);
    match l.file
    case None => Step(l.caches, false, l.calls)
    case Some(f) =>
      var seen := RawVisibility(cfg, l.caches, path, get);
      FoundIsRemembered(cfg, c, path, false, get, ListFailed, false, get, ListFailed);
      if seen.vis == Some(Public) then Step(seen.caches, true, l.calls + seen.calls)
      else
        var calls := l.calls + seen.calls + [PublishRequest(cfg, f.id)];
        match created
        case None => Step(seen.caches, false, calls)
        case Some(permissionId) =>
          var sp := SplitPath(path, cfg.root, true);
          var perms := f.permissions + [Permission(permissionId, cfg.publishType, cfg.publishRole)];
          Step(WithPermissions(seen.caches, sp.parent, sp.leaf, f, perms), true, calls)
  }

  /** Publishing forgets no cache key and adds no name. */
  lemma PublishKeepsKeys(cfg: Config, c: Caches, path: string, get: GetReply, created: Option<string>)
    ensures var r := Publish(cfg, c, path, get, created).caches;
      r.byName.Keys == c.byName.Keys && r.byId.Keys >= c.byId.Keys && KeepsObjects(c, r)
  {
    LookupKeepsKeys(cfg, c, path, get);
    var l := GetFileObject(cfg, c, path, false, get, ListFailed);
    if l.file.Some? && created.Some? {
      var sp := SplitPath(path, cfg.root, true);
      var f := l.file.value;
      var perms := f.permissions + [Permission(created.value, cfg.publishType, cfg.publishRole)];
      WithPermissionsKeepsObjects(l.caches, sp.parent, sp.leaf, f, perms);
      KeepsObjectsTrans(c, l.caches, Publish(cfg, c, path, get, created).caches);
    }
  }

  /**
   * After a successful publish the path reads as public, from the cache,
   * and publishing it again sends no request.
   */
  lemma PublishedReadsPublic(cfg: Config, c: Caches, path: string, get: GetReply, created: Option<string>,
                             get2: GetReply, created2: Option<string>)
    requires Publish(cfg, c, path, get, created).ok
    ensures var after := Publish(cfg, c, path, get, created).caches;
      && RawVisibility(cfg, after, path, get2) == Seen(after, Some(Public), [])
      && Publish(cfg, after, path, get2, created2) == Step(after, true, [])
  {
    var sp := SplitPath(path, cfg.root, true);
    var l := GetFileObject(cfg, c, path, false, get, ListFailed);
    FoundIsRemembered(cfg, c, path, false, get, ListFailed, false, get2, ListFailed);
    var f := l.file.value;
    var after := Publish(cfg, c, path, get, created).caches;
    assert CachedHit(l.caches, sp.parent, sp.leaf) == Some(f);
    if !IsPublic(f.permissions, cfg.publishType, cfg.publishRole) {
      var perms := f.permissions + [Permission(created.value, cfg.publishType, cfg.publishRole)];
      assert Grants(perms[|perms| - 1], cfg.publishType, cfg.publishRole);
      assert CachedHit(after, sp.parent, sp.leaf) == Some(f.(permissions := perms));
    }
  }

  /**
   * The code as written forgets what it published: a private file that is
   * published successfully still reads as private from the cache, and a
   * second publish asks Drive for the same permission again.
   */
  lemma PublishAsWrittenStaysPrivate(cfg: Config, path: string, f: DriveFile, permissionId: string)
    requires f.permissions == []
    ensures var first := PublishAsWritten(cfg, EmptyCaches, path, Fetched(f), Some(permissionId));
      && first.ok
      && RawVisibility(cfg, first.caches, path, Fetched(f)).vis == Some(Private)
      && PublishAsWritten(cfg, first.caches, path, Fetched(f), Some(permissionId)).calls == [PublishRequest(cfg, f.id)]
  {
    var sp := SplitPath(path, cfg.root, true);
    var first := PublishAsWritten(cfg, EmptyCaches, path, Fetched(f), Some(permissionId));
    FoundIsRemembered(cfg, EmptyCaches, path, false, Fetched(f), ListFailed, false, Fetched(f), ListFailed);
    assert CachedHit(first.caches, sp.parent, sp.leaf) == Some(f);
  }

  /** The permissions `unPublish` deletes: type "anyone" with role "reader", whatever the configured template. */
  predicate IsAnyoneReader(p: Permission) {
    p.permType == "anyone" && p.role == "reader"
  }

  /** The permissions of `perms` that `unPublish` deletes, in order. */
  function AnyoneReaders(perms: seq<Permission>): (r: seq<Permission>)
    ensures forall i :: 0 <= i < |r| ==> IsAnyoneReader(r[i]) && r[i] in perms
    ensures forall i :: 0 <= i < |perms| && IsAnyoneReader(perms[i]) ==> perms[i] in r
  {
    if perms == [] then []
    else (if IsAnyoneReader(perms[0]) then [perms[0]] else []) + AnyoneReaders(perms[1..])
  }

  /** The permissions of `perms` that `unPublish` leaves, in order. */
  function Others(perms: seq<Permission>): (r: seq<Permission>)
    ensures forall i :: 0 <= i < |r| ==> !IsAnyoneReader(r[i]) && r[i] in perms
    ensures forall i :: 0 <= i < |perms| && !IsAnyoneReader(perms[i]) ==> perms[i] in r
  {
    if perms == [] then []
    else (if IsAnyoneReader(perms[0]) then [] else [perms[0]]) + Others(perms[1..])
  }

  /** One `permissions.delete` per permission, in order. */
  function DeleteRequests(fileId: string, perms: seq<Permission>): (r: seq<Call>)
    ensures |r| == |perms|
    ensures forall i :: 0 <= i < |r| ==> r[i] == PermissionsDelete(fileId, perms[i].id)
  {
    if perms == [] then [] else [PermissionsDelete(fileId, perms[0].id)] + DeleteRequests(fileId, perms[1..])
  }

  /** No "anyone"/"reader" permission among `perms` is one whose deletion throws. */
  predicate AllDeletable(perms: seq<Permission>, failing: set<string>) {
    forall p :: p in perms && IsAnyoneReader(p) ==> p.id !in failing
  }

  lemma AllDeletableCons(perms: seq<Permission>, failing: set<string>)
    requires perms != []
    ensures AllDeletable(perms, failing) <==>
      (IsAnyoneReader(perms[0]) ==> perms[0].id !in failing) && AllDeletable(perms[1..], failing)
  {
    if (IsAnyoneReader(perms[0]) ==> perms[0].id !in failing) && AllDeletable(perms[1..], failing) {
      forall p | p in perms && IsAnyoneReader(p) ensures p.id !in failing {
        if p != perms[0] { assert p in perms[1..]; }
      }
    }
  }

  /** The requests `unPublish`'s loop sends, the permissions left, and whether no deletion threw. */
  datatype Sweep = Sweep(calls: seq<Call>, kept: seq<Permission>, ok: bool)

  /**
   * The loop of `unPublish`: delete each "anyone"/"reader" permission in
   * turn, stopping at the first deletion that throws. It fails exactly when
   * one of the permissions it deletes is one whose deletion throws, and then
   * that one is the last request sent.
   */
  function SweepAnyoneReaders(fileId: string, perms: seq<Permission>, failing: set<string>): (r: Sweep)
    ensures r.ok <==> AllDeletable(perms, failing)
    ensures !r.ok ==> r.calls != [] && r.calls[|r.calls| - 1].PermissionsDelete? && r.calls[|r.calls| - 1].permissionId in failing
    ensures forall c :: c in r.calls ==> c.PermissionsDelete? && c.fileId == fileId
    decreases |perms|
  {
    if perms == [] then Sweep([], [], true)
    else
      var p := perms[0];
      AllDeletableCons(perms, failing);
      if IsAnyoneReader(p) then
        var call := PermissionsDelete(fileId, p.id);
        if p.id in failing then Sweep([call], perms, false)
        else
          var rest := SweepAnyoneReaders(fileId, perms[1..], failing);
          Sweep([call] + rest.calls, rest.kept, rest.ok)
      else
        var rest := SweepAnyoneReaders(fileId, perms[1..], failing);
        Sweep(rest.calls, [p] + rest.kept, rest.ok)
  }

  /** One step of the sweep: what the first permission contributes, in front of the sweep of the rest. */
  lemma SweepUnfold(fileId: string, perms: seq<Permission>, failing: set<string>)
    requires perms != []
    ensures var r := SweepAnyoneReaders(fileId, perms, failing);
      var rest := SweepAnyoneReaders(fileId, perms[1..], failing);
      var call := PermissionsDelete(fileId, perms[0].id);
      && (!IsAnyoneReader(perms[0]) ==> r == Sweep(rest.calls, [perms[0]] + rest.kept, rest.ok))
      && (IsAnyoneReader(perms[0]) && perms[0].id in failing ==> r == Sweep([call], perms, false))
      && (IsAnyoneReader(perms[0]) && perms[0].id !in failing ==> r == Sweep([call] + rest.calls, rest.kept, rest.ok))
  {
  }

  /** The whole sweep is what has been done so far followed by the sweep of what remains. */
  predicate SweptSoFar(whole: Sweep, calls: seq<Call>, kept: seq<Permission>, rest: Sweep) {
    whole == Sweep(calls + rest.calls, kept + rest.kept, rest.ok)
  }

  /** A permission that is not "anyone"/"reader" is kept, and `SweptSoFar` moves past it. */
  lemma SweepSkips(whole: Sweep, fileId: string, perms: seq<Permission>, i: nat, failing: set<string>,
                   calls: seq<Call>, kept: seq<Permission>)
    requires i < |perms| && !IsAnyoneReader(perms[i])
    requires SweptSoFar(whole, calls, kept, SweepAnyoneReaders(fileId, perms[i..], failing))
    ensures SweptSoFar(whole, calls, kept + [perms[i]], SweepAnyoneReaders(fileId, perms[i + 1..], failing))
  {
    var next := SweepAnyoneReaders(fileId, perms[i + 1..], failing);
    SweepUnfold(fileId, perms[i..], failing);
    assert perms[i..][1..] == perms[i + 1..];
    assert kept + ([perms[i]] + next.kept) == (kept + [perms[i]]) + next.kept;
  }

  /** An "anyone"/"reader" permission whose deletion succeeds adds its request, and `SweptSoFar` moves past it. */
  lemma SweepDeletes(whole: Sweep, fileId: string, perms: seq<Permission>, i: nat, failing: set<string>,
                     calls: seq<Call>, kept: seq<Permission>)
    requires i < |perms| && IsAnyoneReader(perms[i]) && perms[i].id !in failing
    requires SweptSoFar(whole, calls, kept, SweepAnyoneReaders(fileId, perms[i..], failing))
    ensures SweptSoFar(whole, calls + [PermissionsDelete(fileId, perms[i].id)], kept,
                       SweepAnyoneReaders(fileId, perms[i + 1..], failing))
  {
    var call := PermissionsDelete(fileId, perms[i].id);
    var next := SweepAnyoneReaders(fileId, perms[i + 1..], failing);
    SweepUnfold(fileId, perms[i..], failing);
    assert perms[i..][1..] == perms[i + 1..];
    assert calls + ([call] + next.calls) == (calls + [call]) + next.calls;
  }

  /** An "anyone"/"reader" permission whose deletion throws ends the sweep, keeping it and all after it. */
  lemma SweepStops(whole: Sweep, fileId: string, perms: seq<Permission>, i: nat, failing: set<string>,
                   calls: seq<Call>, kept: seq<Permission>)
    requires i < |perms| && IsAnyoneReader(perms[i]) && perms[i].id in failing
    requires SweptSoFar(whole, calls, kept, SweepAnyoneReaders(fileId, perms[i..], failing))
    ensures whole == Sweep(calls + [PermissionsDelete(fileId, perms[i].id)], kept + perms[i..], false)
  {
    SweepUnfold(fileId, perms[i..], failing);
  }

  /**
   * The loop of `unPublish`, step by step: a `permissions.delete` for each
   * "anyone"/"reader" permission in order, leaving the loop at the first
   * one that throws; the permissions not deleted are collected as it goes.
   */
  method DeleteAnyoneReaders(fileId: string, perms: seq<Permission>, failing: set<string>)
    returns (calls: seq<Call>, kept: seq<Permission>, ok: bool)
    ensures Sweep(calls, kept, ok) == SweepAnyoneReaders(fileId, perms, failing)
  {
    calls, kept, ok := [], [], true;
    ghost var whole := SweepAnyoneReaders(fileId, perms, failing);
    var i := 0;
    assert perms[0..] == perms;
    while i < |perms| && ok
      invariant 0 <= i <= |perms|
      invariant ok ==> SweptSoFar(whole, calls, kept, SweepAnyoneReaders(fileId, perms[i..], failing))
      invariant !ok ==> whole == Sweep(calls, kept, false)
    {
      var p := perms[i];
      if IsAnyoneReader(p) {
        if p.id in failing {
          SweepStops(whole, fileId, perms, i, failing, calls, kept);
          calls, kept, ok := calls + [PermissionsDelete(fileId, p.id)], kept + perms[i..], false;
        } else {
          SweepDeletes(whole, fileId, perms, i, failing, calls, kept);
          calls := calls + [PermissionsDelete(fileId, p.id)];
        }
      } else {
        SweepSkips(whole, fileId, perms, i, failing, calls, kept);
        kept := kept + [p];
      }
      i := i + 1;
    }
    if ok {
      assert SweepAnyoneReaders(fileId, perms[i..], failing) == Sweep([], [], true);
      assert calls + [] == calls && kept + [] == kept;
    }
  }

  /**
   * Without a failure the loop deletes exactly the "anyone"/"reader"
   * permissions, in order, and keeps exactly the others, in order.
   */
  lemma {:induction false} SweepDeletesExactly(fileId: string, perms: seq<Permission>, failing: set<string>)
    requires AllDeletable(perms, failing)
    ensures var r := SweepAnyoneReaders(fileId, perms, failing);
      r.calls == DeleteRequests(fileId, AnyoneReaders(perms)) && r.kept == Others(perms)
    decreases |perms|
  {
    if perms != [] {
      AllDeletableCons(perms, failing);
      SweepDeletesExactly(fileId, perms[1..], failing);
      if IsAnyoneReader(perms[0]) {
        assert AnyoneReaders(perms) == [perms[0]] + AnyoneReaders(perms[1..]);
      } else {
        assert AnyoneReaders(perms) == AnyoneReaders(perms[1..]);
      }
    }
  }

  /**
   * `unPublish($path)` as written: look the path up; nothing found is false;
   * otherwise sweep its permissions, true when no deletion threw. The cached
   * DriveFile keeps its old permissions.
   */
  function UnPublishAsWritten(cfg: Config, c: Caches, path: string, get: GetReply, failing: set<string>): (r: Step)
    ensures r.caches == GetFileObject(cfg, c, path, false, get, ListFailed).caches
  {
    var l := GetFileObject(cfg, c, path, false, get, ListFailed);
    match l.file
    case None => Step(l.caches, false, l.calls)
    case Some(f) =>
      var sweep := SweepAnyoneReaders(f.id, f.permissions, failing);
      Step(l.caches, sweep.ok, l.calls + sweep.calls)
  }

  /**
   * `unPublish($path)` with the cached DriveFile keeping only the permissions
   * that were not deleted.
   */
  function UnPublish(cfg: Config, c: Caches, path: string, get: GetReply, failing: set<string>): (r: Step)
    ensures var l := GetFileObject(cfg, c, path, false, get, ListFailed);
      && (l.file.None? ==> r == Step(l.caches, false, l.calls))
      && (l.file.Some? ==>
            var sweep := SweepAnyoneReaders(l.file.value.id, l.file.value.permissions, failing);
            r.ok == sweep.ok && r.calls == l.calls + sweep.calls)
    ensures var l := GetFileObject(cfg, c, path, false, get, ListFailed);
      var sp := SplitPath(path, cfg.root, true);
      l.file.Some? ==>
        r.caches == WithPermissions(l.caches, sp.parent, sp.leaf, l.file.value,
                                    SweepAnyoneReaders(l.file.value.id, l.file.value.permissions, failing).kept)
  {
    var l := GetFileObject(cfg, c, path, false, get, ListFailed);
    match l.file
    case None => Step(l.caches, false, l.calls)
    case Some(f) =>
      var sweep := SweepAnyoneReaders(f.id, f.permissions, failing);
      var sp := SplitPath(path, cfg.root, true);
      Step(WithPermissions(l.caches, sp.parent, sp.leaf, f, sweep.kept), sweep.ok, l.calls + sweep.calls)
  }

  /** Unpublishing forgets no cache key and adds no name. */
  lemma UnPublishKeepsKeys(cfg: Config, c: Caches, path: string, get: GetReply, failing: set<string>)
    ensures var r := UnPublish(cfg, c, path, get, failing).caches;
      r.byName.Keys == c.byName.Keys && r.byId.Keys >= c.byId.Keys && KeepsObjects(c, r)
  {
    LookupKeepsKeys(cfg, c, path, get);
    var l := GetFileObject(cfg, c, path, false, get, ListFailed);
    if l.file.Some? {
      var sp := SplitPath(path, cfg.root, true);
      var f := l.file.value;
      WithPermissionsKeepsObjects(l.caches, sp.parent, sp.leaf, f, SweepAnyoneReaders(f.id, f.permissions, failing).kept);
      KeepsObjectsTrans(c, l.caches, UnPublish(cfg, c, path, get, failing).caches);
    }
  }

  /**
   * With the default "anyone"/"reader" publish permission, a successful
   * unPublish leaves the path reading as private, from the cache.
   */
  lemma UnPublishedReadsPrivate(cfg: Config, c: Caches, path: string, get: GetReply, failing: set<string>, get2: GetReply)
    requires cfg.publishType == "anyone" && cfg.publishRole == "reader"
    requires UnPublish(cfg, c, path, get, failing).ok
    ensures var after := UnPublish(cfg, c, path, get, failing).caches;
      RawVisibility(cfg, after, path, get2) == Seen(after, Some(Private), [])
  {
    var sp := SplitPath(path, cfg.root, true);
    var l := GetFileObject(cfg, c, path, false, get, ListFailed);
    FoundIsRemembered(cfg, c, path, false, get, ListFailed, false, get2, ListFailed);
    var f := l.file.value;
    var sweep := SweepAnyoneReaders(f.id, f.permissions, failing);
    var after := UnPublish(cfg, c, path, get, failing).caches;
    assert CachedHit(l.caches, sp.parent, sp.leaf) == Some(f);
    assert CachedHit(after, sp.parent, sp.leaf) == Some(f.(permissions := sweep.kept));
    SweepDeletesExactly(f.id, f.permissions, failing);
    assert !IsPublic(sweep.kept, cfg.publishType, cfg.publishRole);
  }

  /**
   * The code as written forgets what it unpublished: a public file whose
   * public permission is deleted successfully still reads as public.
   */
  lemma UnPublishAsWrittenStaysPublic(cfg: Config, path: string, f: DriveFile, permissionId: string)
    requires cfg.publishType == "anyone" && cfg.publishRole == "reader"
    requires f.permissions == [Permission(permissionId, "anyone", "reader")]
    ensures var first := UnPublishAsWritten(cfg, EmptyCaches, path, Fetched(f), {});
      && first.ok
      && RawVisibility(cfg, first.caches, path, Fetched(f)).vis == Some(Public)
  {
    var sp := SplitPath(path, cfg.root, true);
    var first := UnPublishAsWritten(cfg, EmptyCaches, path, Fetched(f), {});
    FoundIsRemembered(cfg, EmptyCaches, path, false, Fetched(f), ListFailed, false, Fetched(f), ListFailed);
    assert CachedHit(first.caches, sp.parent, sp.leaf) == Some(f);
    assert Grants(f.permissions[0], cfg.publishType, cfg.publishRole);
  }
}
