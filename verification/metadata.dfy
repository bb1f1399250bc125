/**
 * `normaliseObject`: the metadata array the adapter builds from a DriveFile.
 */
module Metadata {
  import opened Common
  import opened Text
  import opened Paths
  import opened Drive

  datatype EntryType = Dir | File

  /**
   * The normalised array: 'name', 'type', 'path', 'filename', 'extension',
   * 'timestamp', and 'mimetype' (files only), 'size', 'hasdir' (folders, with
   * useHasDir only). `None` stands for a key the array does not hold.
   */
  datatype Metadata = Metadata(
    name: string,
    entryType: EntryType,
    path: string,
    filename: string,
    extension: string,
    timestamp: int,
    mimetype: Option<string>,
    size: int,
    hasdir: Option<bool>)

  /**
   * `normaliseObject($object, $dirname)`: folders are recognised by DIRMIME
   * and get size 0; files carry their MIME type and `(int)` size (0 when
   * Drive reports none); the path is `dirname/id`, or the bare id when the
   * dirname is falsy; folders report the cached hasDir flag (false when
   * unknown) when useHasDir is on.
   */
  function NormaliseObject(obj: DriveFile, dirname: string, useHasDir: bool, hasDirs: map<string, bool>): (m: Metadata)
    ensures m.name == obj.name && m.timestamp == obj.modifiedTime
    ensures m.entryType == Dir <==> obj.mimeType == DIRMIME
    ensures m.path == (if Truthy(dirname) then dirname + "/" + obj.id else obj.id)
    ensures m.entryType == Dir ==> m.size == 0 && m.mimetype == None
    ensures m.entryType == File ==> m.mimetype == Some(obj.mimeType) && m.size == (if obj.size.Some? then obj.size.value else 0)
    ensures m.hasdir.Some? <==> (m.entryType == Dir && useHasDir)
    ensures m.hasdir.Some? ==> m.hasdir.value == (obj.id in hasDirs && hasDirs[obj.id])
    ensures '.' !in obj.name ==> m.filename == obj.name && m.extension == ""
    ensures '.' in obj.name ==> m.filename + "." + m.extension == obj.name && '.' !in m.extension
  {
    var parts := SplitFileExtension(obj.name);
    var isDir := obj.mimeType == DIRMIME;
    Metadata(
      obj.name,
      if isDir then Dir else File,
      (if Truthy(dirname) then dirname + "/" else "") + obj.id,
      parts.filename,
      parts.extension,
      obj.modifiedTime,
      if isDir then None else Some(obj.mimeType),
      if isDir then 0 else (if obj.size.Some? then obj.size.value else 0),
      if isDir && useHasDir then Some(obj.id in hasDirs && hasDirs[obj.id]) else None)
  }

  /**
   * The path a normalised entry reports resolves back to the object: split
   * with `getParentId = false` it gives the dirname (the root when the
   * dirname is falsy) and the object's id.
   */
  lemma NormalisedPathResolves(obj: DriveFile, dirname: string, useHasDir: bool, hasDirs: map<string, bool>, root: string)
    requires obj.id != "" && '/' !in obj.id
    requires root != ""
    ensures var m := NormaliseObject(obj, dirname, useHasDir, hasDirs);
      SplitPath(m.path, root, false) == Split(if Truthy(dirname) then dirname else root, obj.id)
  {
    var m := NormaliseObject(obj, dirname, useHasDir, hasDirs);
    if Truthy(dirname) {
      SplitJoinedPath(dirname, obj.id, root);
    } else {
      SplitPathShape(m.path, root, false);
    }
  }
}
