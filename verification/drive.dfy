/**
 * The Drive records the adapter handles, the remote calls it issues, and its
 * configuration. The Drive service itself is not modelled: every operation
 * receives the service's replies as parameters and reports, as a sequence of
 * `Call` values, exactly which requests it sent.
 */
module Drive {
  import opened Common

  /** MIME type that marks a Drive folder (`GoogleDriveAdapter::DIRMIME`). */
  const DIRMIME := "application/vnd.google-apps.folder"

  /** `GoogleDriveAdapter::FETCHFIELDS_GET`. */
  const FETCHFIELDS_GET := "id,name,mimeType,modifiedTime,parents,permissions,size,webContentLink,webViewLink"

  /** A Drive permission: principal type ("anyone", "user", ...), role and id. */
  datatype Permission = Permission(id: string, permType: string, role: string)

  /**
   * A DriveFile as fetched with FETCHFIELDS_GET. `size` is absent for
   * folders and Google Apps documents; `modifiedTime` is the timestamp
   * `strtotime` gives for the RFC 3339 text Drive returns.
   */
  datatype DriveFile = DriveFile(
    id: string,
    name: string,
    mimeType: string,
    size: Option<int>,
    modifiedTime: int,
    parents: seq<string>,
    permissions: seq<Permission>)

  /** Optional parameters of one API command (`['fields' => ..., 'q' => ...]`). */
  type Params = map<string, string>

  /** The fields the adapter sets on a `new DriveFile` it sends. */
  datatype FileMeta = FileMeta(
    name: Option<string>,
    parents: Option<seq<string>>,
    mimeType: Option<string>,
    trashed: Option<bool>)

  const NoMeta := FileMeta(None, None, None, None)

  /** One request sent to the Drive API. */
  datatype Call =
    | FilesGet(fileId: string, params: Params)
    | FilesList(params: Params)
    | FilesCreate(meta: FileMeta, params: Params)
    | FilesUpdate(fileId: string, meta: FileMeta, params: Params)
    | FilesDelete(fileId: string)
    | FilesCopy(fileId: string, meta: FileMeta, params: Params)
    | PermissionsCreate(fileId: string, permType: string, role: string, withLink: bool)
    | PermissionsDelete(fileId: string, permissionId: string)

  /**
   * The adapter's settings once constructed: the root id, `useHasDir`, the
   * `publishPermission` template, `appsExportMap`, `defaultParams` per
   * command, `deleteAction` and the field list used for `files.get`.
   */
  datatype Config = Config(
    root: string,
    useHasDir: bool,
    publishType: string,
    publishRole: string,
    publishWithLink: bool,
    appsExportMap: map<string, string>,
    defaultParams: map<string, Params>,
    deleteAction: string,
    fetchFieldsGet: string)

  /**
   * What the constructor guarantees: the root is a non-empty id and the
   * export map keeps its "default" entry.
   */
  predicate ValidConfig(cfg: Config) {
    cfg.root != "" && "default" in cfg.appsExportMap
  }

  /** The root the constructor settles on: `$root` unless falsy, then "root", then the Team Drive id. */
  function ChooseRoot(root: string, teamDriveId: string): (r: string)
    ensures r != ""
    ensures Truthy(root) && root != "root" ==> r == root
    ensures !Truthy(teamDriveId) ==> r == (if Truthy(root) then root else "root")
    ensures Truthy(teamDriveId) && !(Truthy(root) && root != "root") ==> r == teamDriveId
  {
    var r := if Truthy(root) then root else "root";
    if Truthy(teamDriveId) && r == "root" then teamDriveId else r
  }

  /** `fetchfieldsGet`: FETCHFIELDS_GET, extended with `additionalFetchField` when that is truthy. */
  function FetchFieldsGet(additionalFetchField: string): string
  {
    if Truthy(additionalFetchField) then FETCHFIELDS_GET + "," + additionalFetchField else FETCHFIELDS_GET
  }
}
