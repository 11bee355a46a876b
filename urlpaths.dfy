/**
 * String logic on the URL path of a request: the `current_path` shown on a
 * listing page, its `parent_path`, and `os.path.dirname` (POSIX flavour),
 * which also chooses where a delete redirects to.
 */
module UrlPaths {
  import opened Text

  predicate StartsWithSlash(s: string)
  {
    |s| > 0 && s[0] == '/'
  }

  predicate EndsWithSlash(s: string)
  {
    |s| > 0 && s[|s| - 1] == '/'
  }

  predicate AllSlashes(s: string)
  {
    forall i :: 0 <= i < |s| ==> s[i] == '/'
  }

  /**
   * `current_path`: the request path with a "/" put in front and at the end
   * unless it already has one there.
   */
  function CurrentPath(filepath: string): (r: string)
    ensures StartsWithSlash(r) && EndsWithSlash(r)
    ensures r == "/" <==> filepath == "" || filepath == "/"
    ensures |filepath| <= |r| <= |filepath| + 2
    ensures StartsWithSlash(filepath) ==> r[..|filepath|] == filepath && AllSlashes(r[|filepath|..])
    ensures !StartsWithSlash(filepath) ==>
              |r| >= |filepath| + 1 && r[1..|filepath| + 1] == filepath && AllSlashes(r[|filepath| + 1..])
    ensures StartsWithSlash(filepath) ==> |r| <= |filepath| + 1
    ensures EndsWithSlash(filepath) ==> |r| <= |filepath| + 1
    ensures StartsWithSlash(filepath) && EndsWithSlash(filepath) ==> r == filepath
  {
    var withLead := if StartsWithSlash(filepath) then filepath else "/" + filepath;
    if EndsWithSlash(withLead) then withLead else withLead + "/"
  }

  /** Normalising an already normalised path leaves it as it is. */
  lemma CurrentPathIdempotent(filepath: string)
    ensures CurrentPath(CurrentPath(filepath)) == CurrentPath(filepath)
  {
  }

  /** `s.rstrip("/")`: every trailing slash removed. */
  function RStripSlashes(s: string): (r: string)
    ensures r <= s && AllSlashes(s[|r|..])
    ensures r == "" || !EndsWithSlash(r)
  {
    if EndsWithSlash(s) then RStripSlashes(s[..|s| - 1]) else s
  }

  /** The length of `s` up to and including its last slash, 0 when it has none. */
  function HeadLength(s: string): (n: nat)
    ensures n <= |s|
    ensures n > 0 ==> s[n - 1] == '/'
    ensures forall i :: n <= i < |s| ==> s[i] != '/'
  {
    if |s| == 0 then 0 else if s[|s| - 1] == '/' then |s| else HeadLength(s[..|s| - 1])
  }

  /**
   * `os.path.dirname(s)`: everything up to the last slash, with trailing
   * slashes removed unless nothing but slashes is left.
   */
  function Dirname(s: string): (r: string)
    ensures r <= s
    ensures r == "" || AllSlashes(r) || !EndsWithSlash(r)
    ensures forall i, j :: |r| <= i < j < |s| && s[i] != '/' ==> s[j] != '/'
    ensures |r| <= HeadLength(s)
    ensures AllSlashes(s[..HeadLength(s)]) ==> r == s[..HeadLength(s)]
  {
    var head := s[..HeadLength(s)];
    if head != "" && !AllSlashes(head) then RStripSlashes(head) else head
  }

  /**
   * `parent_path`: present exactly when the listing is not the root, and then
   * the dirname of the current path with its trailing slashes removed.
   */
  function ParentPath(currentPath: string): (r: Option<string>)
    ensures r.Some? <==> currentPath != "/"
  {
    if currentPath != "/" then Some(Dirname(RStripSlashes(currentPath))) else None
  }

  /** A path segment: non-empty and without a slash. */
  predicate Segment(n: string)
  {
    n != "" && '/' !in n
  }

  /**
   * `dirname` undoes a join: for a directory path that does not end in a
   * slash and a segment, the dirname of "dir/segment" is the directory (and
   * of a bare segment, the empty path).
   */
  lemma {:induction false} DirnameOfJoin(dir: string, name: string)
    requires Segment(name)
    requires dir == "" || !EndsWithSlash(dir)
    ensures Dirname(if dir == "" then name else dir + "/" + name) == dir
  {
    var s := if dir == "" then name else dir + "/" + name;
    var h := HeadLength(s);
    if dir == "" {
      assert forall i :: 0 <= i < |s| ==> s[i] != '/';
      assert h == 0;
    } else {
      assert s[|dir|] == '/';
      assert forall i :: |dir| < i < |s| ==> s[i] == name[i - |dir| - 1];
      assert h == |dir| + 1;
      var head := s[..h];
      assert head == dir + "/";
      assert !AllSlashes(dir) by {
        assert dir[|dir| - 1] != '/';
      }
      assert !AllSlashes(head) by {
        assert forall i :: 0 <= i < |dir| ==> head[i] == dir[i];
      }
      assert RStripSlashes(head) == RStripSlashes(dir);
    }
  }

  /**
   * The parent of the listing "dir/segment/" is "dir", and the parent of a
   * top-level directory "/segment/" is the root "/".
   */
  lemma {:induction false} ParentOfSubdirectory(dir: string, name: string)
    requires Segment(name)
    requires dir == "" || (StartsWithSlash(dir) && !EndsWithSlash(dir))
    ensures ParentPath(dir + "/" + name + "/") == Some(if dir == "" then "/" else dir)
  {
    var c := dir + "/" + name + "/";
    assert RStripSlashes(c) == dir + "/" + name by {
      assert c[..|c| - 1] == dir + "/" + name;
    }
    if dir == "" {
      var s := "/" + name;
      assert s == dir + "/" + name;
      assert s[0] == '/';
      assert forall i :: 1 <= i < |s| ==> s[i] == name[i - 1];
      assert HeadLength(s) == 1;
      assert s[..1] == "/";
    } else {
      DirnameOfJoin(dir, name);
    }
  }

  /** The root listing has no parent entry; "/files/dir1/" has the root as its parent. */
  lemma ListingParentSamples()
    ensures ParentPath(CurrentPath("")) == None
    ensures ParentPath(CurrentPath("dir1")) == Some("/")
    ensures ParentPath(CurrentPath("dir1/")) == Some("/")
  {
    assert CurrentPath("dir1") == "" + "/" + "dir1" + "/";
    assert CurrentPath("dir1/") == "" + "/" + "dir1" + "/";
    assert Segment("dir1") by {
      assert forall i :: 0 <= i < 4 ==> "dir1"[i] != '/';
    }
    ParentOfSubdirectory("", "dir1");
  }

  /** Deleting "dir1/file3" returns to "dir1"; deleting "file1" returns to the root. */
  lemma DeleteRedirectSamples()
    ensures Dirname("dir1/file3") == "dir1"
    ensures Dirname("file1") == ""
  {
    assert "dir1/file3" == "dir1" + "/" + "file3";
    assert Segment("file3") && Segment("file1") by {
      assert forall i :: 0 <= i < 5 ==> "file3"[i] != '/' && "file1"[i] != '/';
    }
    assert !EndsWithSlash("dir1") && "dir1"[0] != '/';
    DirnameOfJoin("dir1", "file3");
    DirnameOfJoin("", "file1");
  }
}
