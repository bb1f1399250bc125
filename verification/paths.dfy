/**
 * Path helpers of the adapter (src/GoogleDriveAdapter.php): `splitPath`,
 * `splitFileExtension`, `normalizeDirname` and the static `dirname`, plus the
 * behaviour of Flysystem's `PathPrefixer::prefixPath` that the adapter calls
 * before most of them. Paths are "itemId paths": the segments after the root
 * are Drive object ids, except the leaf of a path being created, which is a
 * new name.
 */
module Paths {
  import opened Text

  /** The pair `[$dirId, $fileId|newName]` that `splitPath` returns. */
  datatype Split = Split(parent: string, leaf: string)

  /** The pair `compact('filename', 'extension')` that `splitFileExtension` returns. */
  datatype FileParts = FileParts(filename: string, extension: string)

  /** An empty directory part is replaced by the configured root. */
  function OrRoot(dir: string, root: string): string {
    if dir == "" then root else dir
  }

  /**
   * `splitPath($path, $getParentId)`: the root path gives ("", root);
   * otherwise the leaf is the last `/`-segment and the parent is either the
   * segment before it (`getParentId`) or all preceding segments joined
   * (`!getParentId`), an empty parent standing for the root.
   */
  function SplitPath(path: string, root: string, getParentId: bool): (r: Split)
    ensures path == "" || path == "/" ==> r == Split("", root)
    ensures path != "" && path != "/" ==> '/' !in r.leaf && (root != "" ==> r.parent != "")
  {
    if path == "" || path == "/" then Split("", root)
    else
      LastPieceNoSep('/', path);
      var parts := Explode('/', path);
      var fileName := parts[|parts| - 1];
      var rest := parts[..|parts| - 1];
      var dirName :=
        if getParentId then (if |rest| > 0 then rest[|rest| - 1] else "")
        else Implode('/', rest);
      Split(OrRoot(dirName, root), fileName)
  }

  /**
   * In either mode a path without `/` is a leaf directly under the root, and
   * a path with `/` has as leaf exactly the text after its last `/`; with
   * `getParentId = false` the parent is exactly the text before that `/`
   * (the root when that text is empty), so parent + "/" + leaf rebuilds the path.
   */
  lemma SplitPathShape(path: string, root: string, getParentId: bool)
    requires path != "" && path != "/"
    ensures var r := SplitPath(path, root, getParentId);
      && ('/' !in path ==> r.leaf == path && r.parent == root)
      && ('/' in path ==>
            && |r.leaf| < |path|
            && path == path[..|path| - |r.leaf| - 1] + "/" + r.leaf
            && (!getParentId ==> r.parent == OrRoot(path[..|path| - |r.leaf| - 1], root)))
  {
    if '/' !in path {
      ExplodeNoSep('/', path);
    } else {
      SplitPathAtLastSlash(path, root, getParentId);
    }
  }

  /** The pieces of a path with `/`: its leaf is the last one and the text before the last `/` is the others joined. */
  lemma SplitPathAtLastSlash(path: string, root: string, getParentId: bool)
    requires '/' in path && path != "/"
    ensures var parts := Explode('/', path);
      var r := SplitPath(path, root, getParentId);
      && |parts| >= 2
      && r.leaf == parts[|parts| - 1]
      && |r.leaf| < |path|
      && path[..|path| - |r.leaf| - 1] == Implode('/', parts[..|parts| - 1])
      && path == path[..|path| - |r.leaf| - 1] + "/" + r.leaf
      && (!getParentId ==> r.parent == OrRoot(Implode('/', parts[..|parts| - 1]), root))
      && (getParentId ==> r.parent == OrRoot(parts[|parts| - 2], root))
  {
    SplitPathOfPieces(path, root, getParentId);
    LastSlashCut(path);
  }

  /** `splitPath` on a path with `/`, read off its pieces. */
  lemma SplitPathOfPieces(path: string, root: string, getParentId: bool)
    requires '/' in path && path != "/"
    ensures var parts := Explode('/', path);
      var r := SplitPath(path, root, getParentId);
      && |parts| >= 2
      && r.leaf == parts[|parts| - 1]
      && (!getParentId ==> r.parent == OrRoot(Implode('/', parts[..|parts| - 1]), root))
      && (getParentId ==> r.parent == OrRoot(parts[|parts| - 2], root))
  {
    var parts := Explode('/', path);
    ExplodeCount('/', path);
    var rest := parts[..|parts| - 1];
    assert rest[|rest| - 1] == parts[|parts| - 2];
    var dirName := if getParentId then rest[|rest| - 1] else Implode('/', rest);
    assert SplitPath(path, root, getParentId) == Split(OrRoot(dirName, root), parts[|parts| - 1]);
  }

  /** Cutting a path just before the `/` that precedes its last piece leaves the other pieces joined. */
  lemma LastSlashCut(path: string)
    requires '/' in path
    ensures var parts := Explode('/', path);
      var leaf := parts[|parts| - 1];
      && |leaf| < |path|
      && path[..|path| - |leaf| - 1] == Implode('/', parts[..|parts| - 1])
      && path == path[..|path| - |leaf| - 1] + "/" + leaf
  {
    var parts := Explode('/', path);
    LastPiece('/', path);
    CutLastSlash(path, Implode('/', parts[..|parts| - 1]), parts[|parts| - 1]);
  }

  /** Cutting a text of the form `q + "/" + leaf` just before its leaf's `/` gives back `q`. */
  lemma CutLastSlash(path: string, q: string, leaf: string)
    requires path == q + "/" + leaf
    ensures |leaf| < |path| && path[..|path| - |leaf| - 1] == q
  {
    assert path[..|q|] == q;
  }

  /**
   * Joining a parent text and a slash-free leaf with `/` and splitting again
   * (`getParentId = false`) gives back the parent and the leaf.
   */
  lemma SplitJoinedPath(dir: string, leaf: string, root: string)
    requires dir != "" && '/' !in leaf
    ensures SplitPath(dir + "/" + leaf, root, false) == Split(dir, leaf)
  {
    var path := dir + "/" + leaf;
    assert path[|dir|] == '/';
    SplitPathShape(path, root, false);
    var r := SplitPath(path, root, false);
    var k := |path| - |r.leaf| - 1;
    assert path[k] == '/';
    assert r.leaf == path[|path| - |leaf|..] == leaf;
    assert path[..k] == dir;
  }

  /** Both modes agree on the leaf, so `dir/leaf` has leaf `leaf` in the default mode too; a bare leaf is its own leaf. */
  lemma LeafOfJoined(dir: string, leaf: string, root: string)
    requires '/' !in leaf && leaf != ""
    ensures dir != "" ==> SplitPath(dir + "/" + leaf, root, true).leaf == leaf
    ensures SplitPath(leaf, root, true).leaf == leaf
  {
    if dir != "" {
      SplitJoinedPath(dir, leaf, root);
      assert SplitPath(dir + "/" + leaf, root, true).leaf == SplitPath(dir + "/" + leaf, root, false).leaf;
    }
    if leaf != "/" {
      SplitPathShape(leaf, root, true);
    }
  }

  /**
   * The immediate parent (`getParentId = true`) of a path is the leaf of its
   * joined parent text: both modes agree on the leaf, and the parent id is
   * the last segment of everything before the last `/`.
   */
  lemma ImmediateParentIsLeafOfPrefix(path: string, root: string)
    requires '/' in path && path != "/"
    ensures |SplitPath(path, root, false).leaf| < |path|
    ensures var joined := SplitPath(path, root, false);
      var q := path[..|path| - |joined.leaf| - 1];
      SplitPath(path, root, true) == Split(OrRoot(SplitPath(q, root, false).leaf, root), joined.leaf)
  {
    var leaf := SplitPath(path, root, false).leaf;
    SplitPathShape(path, root, false);
    var q := path[..|path| - |leaf| - 1];
    ExplodeSnoc('/', path, q, leaf);
    LeafOrRoot(q, root);
    SplitPathOfPieces(path, root, true);
    var parts := Explode('/', path);
    assert parts[|parts| - 2] == Explode('/', q)[|Explode('/', q)| - 1];
  }

  /** The leaf of a path in the default mode stands for the same parent as its last piece. */
  lemma LeafOrRoot(q: string, root: string)
    ensures var e := Explode('/', q);
      OrRoot(SplitPath(q, root, false).leaf, root) == OrRoot(e[|e| - 1], root)
  {
    if q == "" || q == "/" {
      RootPathLastPiece(q);
    } else {
      SplitPathLeaf(q, root);
    }
  }

  /** The root path's last piece is empty. */
  lemma RootPathLastPiece(q: string)
    requires q == "" || q == "/"
    ensures var e := Explode('/', q); e[|e| - 1] == ""
  {
    if q == "/" {
      assert q[0] == '/' && q[1..] == "";
      assert Explode('/', q) == [[]] + Explode('/', "");
    }
  }

  /** Away from the root the leaf is the last piece. */
  lemma SplitPathLeaf(q: string, root: string)
    requires q != "" && q != "/"
    ensures var e := Explode('/', q); SplitPath(q, root, false).leaf == e[|e| - 1]
  {
  }

  /**
   * Flysystem's `PathPrefixer` built on the root: the root without trailing
   * separators, then `/`, then the path without leading separators.
   */
  function PrefixPath(root: string, path: string): (r: string)
    ensures '/' !in root && '\\' !in root && root != "" ==>
      r == root + "/" + TrimLeft(path, {'/', '\\'})
  {
    var base := TrimRight(root, {'/', '\\'});
    var prefix := if base != "" || root == "/" then base + "/" else base;
    prefix + TrimLeft(path, {'/', '\\'})
  }

  /**
   * Prefixing a (non-root, normalised) path with the root does not change
   * what `splitPath` returns in the default mode, which is why the adapter
   * can pass prefixed paths (delete, getMetadata) and unprefixed ones
   * (copy, createDirectory) to the same resolution logic.
   */
  lemma PrefixKeepsSplit(root: string, path: string)
    requires root != "" && '/' !in root && '\\' !in root
    requires path != "" && path[0] != '/' && path[0] != '\\'
    ensures SplitPath(PrefixPath(root, path), root, true) == SplitPath(path, root, true)
  {
    var pp := PrefixPath(root, path);
    assert pp == root + "/" + path by {
      assert TrimLeft(path, {'/', '\\'}) == path;
    }
    var e := Explode('/', path);
    var ep := Explode('/', pp);
    ExplodeAfterPiece('/', root, path);
    assert ep == [root] + e;
    assert pp[|root|] == '/';
    SplitPathOfPieces(pp, root, true);
    ExplodeCount('/', path);
    if |e| == 1 {
      SplitPathShape(path, root, true);
      assert ep[|ep| - 2] == root;
    } else {
      SplitPathOfPieces(path, root, true);
      assert ep[|ep| - 2] == e[|e| - 2];
    }
  }

  /**
   * `splitFileExtension($name)`: a name without `.` has an empty extension;
   * otherwise the extension is what follows the last `.` and
   * filename + "." + extension is the name.
   */
  function SplitFileExtension(name: string): (r: FileParts)
    ensures '.' !in name ==> r.extension == "" && r.filename == name
    ensures '.' in name ==> '.' !in r.extension && r.filename + "." + r.extension == name
  {
    var parts := Explode('.', name);
    ExplodeCount('.', name);
    LastPieceNoSep('.', name);
    if |parts| >= 2 then
      LastPiece('.', name);
      FileParts(Implode('.', parts[..|parts| - 1]), parts[|parts| - 1])
    else
      ExplodeNoSep('.', name);
      FileParts(Implode('.', parts), "")
  }

  /** `normalizeDirname`: PHP `dirname` answers "." for a bare name; the adapter wants "". */
  function NormalizeDirname(dirname: string): (r: string)
    ensures r != "."
    ensures dirname == "." ==> r == ""
    ensures dirname != "." ==> r == dirname
  {
    if dirname == "." then "" else dirname
  }

  /** `str_replace(from, to, s)` for single characters. */
  function ReplaceChar(s: string, from: char, to: char): (r: string)
    ensures |r| == |s|
    ensures forall i :: 0 <= i < |s| ==> r[i] == (if s[i] == from then to else s[i])
  {
    if s == [] then [] else [if s[0] == from then to else s[0]] + ReplaceChar(s[1..], from, to)
  }

  /**
   * The adapter's static `dirname($path)`, given what PHP's `dirname` returned
   * for the path: "." becomes "" and Windows separators become `/`.
   */
  function Dirname(phpDirname: string): (r: string)
    ensures '\\' !in r
    ensures r != "."
    ensures phpDirname == "." ==> r == ""
    ensures phpDirname != "." && '\\' !in phpDirname ==> r == phpDirname
    ensures phpDirname != "." ==> |r| == |phpDirname|
    ensures phpDirname != "." ==>
      forall i :: 0 <= i < |r| ==> r[i] == (if phpDirname[i] == '\\' then '/' else phpDirname[i])
  {
    var r := ReplaceChar(NormalizeDirname(phpDirname), '\\', '/');
    assert r == "." ==> NormalizeDirname(phpDirname) == ".";
    r
  }
}
