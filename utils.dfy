/** `basename` from the UI's small utility file: split a path on "/" and keep the last piece. */
module Utils {
  import opened JsString

  /** `path.split("/").pop()`. */
  function Basename(path: string): string
  {
    Last(Split(path, ['/']))
  }

  /** The base name is the part of the path after its last "/": it holds no "/",
      it ends the path, and the character just before it (if any) is "/". */
  lemma BasenameIsAfterLastSlash(path: string)
    ensures var r := Basename(path);
            && '/' !in r
            && |r| <= |path| && r == path[|path| - |r|..]
            && (|r| < |path| ==> path[|path| - |r| - 1] == '/')
  {
    LastPieceOfCharSplit(path, '/');
  }

  /** A path without "/" is its own base name. */
  lemma BasenameWithoutSlash(path: string)
    requires '/' !in path
    ensures Basename(path) == path
  {
    BasenameIsAfterLastSlash(path);
  }

  /** A path that ends in "/" has the empty base name. */
  lemma BasenameOfDirectory(path: string)
    requires |path| > 0 && path[|path| - 1] == '/'
    ensures Basename(path) == ""
  {
    BasenameIsAfterLastSlash(path);
  }

  /** The documented example. */
  lemma BasenameExample()
    ensures Basename("/path/to/file.txt") == "file.txt"
  {
    var p := "/path/to/file.txt";
    BasenameIsAfterLastSlash(p);
    assert p[8] == '/';
    assert |Basename(p)| == 8;
  }
}
