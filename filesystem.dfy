/**
 * The directory tree the server exposes, as seen by the request handlers.
 * A local path is the list of its segments below the base directory (the
 * base itself is []), and the tree maps each existing path to what is there.
 * The two library helpers the handlers rely on, Flask's `safe_join` and
 * Werkzeug's `secure_filename`, are given as function values together with
 * the properties the handlers take for granted.
 */
module FileSystem {
  import opened Text

  newtype byte = x: int | 0 <= x < 256

  type Path = seq<string>

  /**
   * What exists at a path: a regular file (`os.path.isfile`), a directory
   * (`os.path.isdir`), or something that exists but is neither (a device,
   * a FIFO, a socket).
   */
  datatype Node = File(content: seq<byte>) | Dir | Special

  type Tree = map<Path, Node>

  /** A name that stays in the directory it is joined to: not empty, no separator, not "." or "..". */
  predicate ChildName(n: string)
  {
    n != "" && '/' !in n && n != "." && n != ".."
  }

  /** A path that stays inside the base directory. */
  predicate Contained(p: Path)
  {
    forall i :: 0 <= i < |p| ==> ChildName(p[i])
  }

  function ParentOf(p: Path): Path
    requires p != []
  {
    p[..|p| - 1]
  }

  predicate IsDir(t: Tree, p: Path)
  {
    p in t && t[p].Dir?
  }

  predicate IsFile(t: Tree, p: Path)
  {
    p in t && t[p].File?
  }

  /**
   * The shape every tree has: the base directory exists and is a directory,
   * every entry lies inside it, and every other entry sits in a directory
   * that exists.
   */
  ghost predicate WellFormed(t: Tree)
  {
    && IsDir(t, [])
    && (forall p :: p in t ==> Contained(p))
    && (forall p :: p in t && p != [] ==> IsDir(t, ParentOf(p)))
  }

  /**
   * `safe_join(BASEPATH, filepath)` and `secure_filename(name)`. The first
   * yields None where Flask refuses the path (it raises NotFound).
   */
  datatype Host = Host(safeJoin: string -> Option<Path>, secureFilename: string -> string)

  /**
   * What the handlers take for granted about the two helpers: a joined path
   * never leaves the base directory, and a sanitised file name is either
   * empty or a single name that stays in its directory.
   */
  ghost predicate HostAssumptions(h: Host)
  {
    && (forall s :: h.safeJoin(s).Some? ==> Contained(h.safeJoin(s).value))
    && (forall n :: h.secureFilename(n) == "" || ChildName(h.secureFilename(n)))
  }

  /** Removing a file (`os.remove`) keeps the tree well formed: a file has no entries below it. */
  lemma {:induction false} RemoveFileKeepsWellFormed(t: Tree, p: Path)
    requires WellFormed(t) && IsFile(t, p)
    ensures WellFormed(t - {p})
  {
    var u := t - {p};
    forall q | q in u && q != []
      ensures IsDir(u, ParentOf(q))
    {
      assert IsDir(t, ParentOf(q));
      assert ParentOf(q) != p;
    }
  }

  /**
   * Writing a file (`file.save`) at a new or existing file entry of a directory
   * keeps the tree well formed, and the written path stays inside the base
   * directory.
   */
  lemma {:induction false} WriteFileKeepsWellFormed(t: Tree, dir: Path, name: string, content: seq<byte>)
    requires WellFormed(t) && IsDir(t, dir) && ChildName(name)
    requires dir + [name] !in t || IsFile(t, dir + [name])
    ensures Contained(dir + [name])
    ensures WellFormed(t[dir + [name] := File(content)])
  {
    var p := dir + [name];
    var u := t[p := File(content)];
    assert Contained(dir);
    forall i | 0 <= i < |p| ensures ChildName(p[i]) {
      if i < |dir| {
        assert p[i] == dir[i];
      }
    }
    assert ParentOf(p) == dir;
    forall q | q in u && q != []
      ensures IsDir(u, ParentOf(q))
    {
      if q != p {
        assert IsDir(t, ParentOf(q));
        assert ParentOf(q) != p;
      }
    }
  }
}
