/**
 * The directory listing of the `files` view: the immediate children of a
 * directory, classified as file (with its size) or directory, anything
 * else dropped, directories first and each group ordered by lower-cased
 * name with Python's stable `list.sort`.
 */
module Listing {
  import opened Text
  import opened FileSystem

  /** One row of the listing page: `{"name", "type": "file", "size"}` or `{"name", "type": "dir"}`. */
  datatype Entry = FileEntry(name: string, size: string) | DirEntry(name: string)

  /** The sort key both groups use: `x["name"].lower()`. */
  function Key(e: Entry): string
  {
    Lower(e.name)
  }

  /**
   * The row the child `name` of `dir` gets, if any: a file shows its size in
   * bytes as a decimal string, a directory shows no size, and anything that
   * is neither (or no longer exists) gets no row.
   */
  function ChildEntry(t: Tree, dir: Path, name: string): (r: Option<Entry>)
    ensures r.Some? ==> r.value.name == name && dir + [name] in t
  {
    var p := dir + [name];
    if p !in t then None
    else match t[p]
      case File(content) => Some(FileEntry(name, NatToDecimal(|content|)))
      case Dir => Some(DirEntry(name))
      case Special => None
  }

  /** What `os.listdir` promises: every child of `dir` is reported, and no name twice. */
  ghost predicate Enumerates(t: Tree, dir: Path, names: seq<string>)
  {
    && (forall i, j :: 0 <= i < j < |names| ==> names[i] != names[j])
    && (forall n :: dir + [n] in t ==> n in names)
  }

  /** The `directories` list the loop builds from `names`, in enumeration order. */
  function DirsOf(t: Tree, dir: Path, names: seq<string>): (r: seq<Entry>)
    ensures forall e :: e in r ==> e.DirEntry? && ChildEntry(t, dir, e.name) == Some(e)
  {
    if names == [] then []
    else
      var n := names[|names| - 1];
      DirsOf(t, dir, names[..|names| - 1]) + (if IsDir(t, dir + [n]) then [DirEntry(n)] else [])
  }

  /** The `files` list the loop builds from `names`, in enumeration order. */
  function FilesOf(t: Tree, dir: Path, names: seq<string>): (r: seq<Entry>)
    ensures forall e :: e in r ==> e.FileEntry? && ChildEntry(t, dir, e.name) == Some(e)
  {
    if names == [] then []
    else
      var n := names[|names| - 1];
      FilesOf(t, dir, names[..|names| - 1])
        + (if IsFile(t, dir + [n]) then [FileEntry(n, NatToDecimal(|t[dir + [n]].content|))] else [])
  }

  /** The rows one enumerated name contributes to the two lists together. */
  function RowsFor(t: Tree, dir: Path, n: string): seq<Entry>
  {
    if ChildEntry(t, dir, n).Some? then [ChildEntry(t, dir, n).value] else []
  }

  lemma ClassifiedStep(t: Tree, dir: Path, names: seq<string>)
    requires names != []
    ensures var init, n := names[..|names| - 1], names[|names| - 1];
            multiset(DirsOf(t, dir, names)) + multiset(FilesOf(t, dir, names))
            == multiset(DirsOf(t, dir, init)) + multiset(FilesOf(t, dir, init)) + multiset(RowsFor(t, dir, n))
  {
  }

  /** One name's rows added to the count of the names before it. */
  lemma ClassifiedCount(t: Tree, dir: Path, init: seq<string>, n: string, before: multiset<Entry>, e: Entry)
    requires n !in init
    requires before[e] == if e.name in init && ChildEntry(t, dir, e.name) == Some(e) then 1 else 0
    ensures (before + multiset(RowsFor(t, dir, n)))[e]
            == if e.name in init + [n] && ChildEntry(t, dir, e.name) == Some(e) then 1 else 0
  {
    assert e.name in init + [n] <==> e.name in init || e.name == n;
    if e.name != n {
      assert multiset(RowsFor(t, dir, n))[e] == 0;
    }
  }

  /**
   * Between them the two lists hold every enumerated child that is a file or
   * a directory exactly once, and nothing else.
   */
  lemma {:induction false} ClassifiedOnce(t: Tree, dir: Path, names: seq<string>)
    requires forall i, j :: 0 <= i < j < |names| ==> names[i] != names[j]
    ensures forall e :: (multiset(DirsOf(t, dir, names)) + multiset(FilesOf(t, dir, names)))[e]
                        == if e.name in names && ChildEntry(t, dir, e.name) == Some(e) then 1 else 0
  {
    if names != [] {
      var init, n := names[..|names| - 1], names[|names| - 1];
      ClassifiedOnce(t, dir, init);
      ClassifiedStep(t, dir, names);
      assert names == init + [n];
      assert n !in init;
      var before := multiset(DirsOf(t, dir, init)) + multiset(FilesOf(t, dir, init));
      forall e
        ensures (before + multiset(RowsFor(t, dir, n)))[e]
                == if e.name in names && ChildEntry(t, dir, e.name) == Some(e) then 1 else 0
      {
        ClassifiedCount(t, dir, init, n, before, e);
      }
    }
  }

  /** Every key is at most every later key. */
  predicate SortedByName(s: seq<Entry>)
  {
    forall i, j :: 0 <= i < j < |s| ==> LexLe(Key(s[i]), Key(s[j]))
  }

  /** One step of the stable sort: `x` goes before the first entry whose key is not smaller. */
  function InsertByName(x: Entry, s: seq<Entry>): (r: seq<Entry>)
    ensures multiset(r) == multiset(s) + multiset{x}
  {
    if s == [] then [x]
    else if LexLe(Key(x), Key(s[0])) then [x] + s
    else
      assert s == [s[0]] + s[1..];
      [s[0]] + InsertByName(x, s[1..])
  }

  /**
   * `lst.sort(key=lambda x: x["name"].lower())`: a stable sort by lower-cased
   * name, written as an insertion sort.
   */
  function SortByName(s: seq<Entry>): (r: seq<Entry>)
    ensures multiset(r) == multiset(s)
  {
    if s == [] then []
    else
      assert s == [s[0]] + s[1..];
      InsertByName(s[0], SortByName(s[1..]))
  }

  /** A sorted list with a first entry no larger than any later one stays sorted. */
  lemma SortedCons(y: Entry, s: seq<Entry>)
    requires SortedByName(s)
    requires forall k :: 0 <= k < |s| ==> LexLe(Key(y), Key(s[k]))
    ensures SortedByName([y] + s)
  {
    var r := [y] + s;
    forall i, j | 0 <= i < j < |r| ensures LexLe(Key(r[i]), Key(r[j])) {
      assert r[j] == s[j - 1];
      if i > 0 {
        assert r[i] == s[i - 1];
      }
    }
  }

  lemma {:induction false} InsertKeepsSorted(x: Entry, s: seq<Entry>)
    requires SortedByName(s)
    ensures SortedByName(InsertByName(x, s))
  {
    if s == [] {
      assert InsertByName(x, s) == [x];
    } else if LexLe(Key(x), Key(s[0])) {
      assert InsertByName(x, s) == [x] + s;
      forall k | 0 <= k < |s| ensures LexLe(Key(x), Key(s[k])) {
        if k > 0 {
          LexLeTrans(Key(x), Key(s[0]), Key(s[k]));
        }
      }
      SortedCons(x, s);
    } else {
      var tail := InsertByName(x, s[1..]);
      assert InsertByName(x, s) == [s[0]] + tail;
      assert SortedByName(s[1..]) by {
        forall i, j | 0 <= i < j < |s[1..]| ensures LexLe(Key(s[1..][i]), Key(s[1..][j])) {
          assert s[1..][i] == s[i + 1] && s[1..][j] == s[j + 1];
        }
      }
      InsertKeepsSorted(x, s[1..]);
      LexLeTotal(Key(x), Key(s[0]));
      forall k | 0 <= k < |tail| ensures LexLe(Key(s[0]), Key(tail[k])) {
        assert tail[k] in multiset(s[1..]) + multiset{x};
        if tail[k] != x {
          var m :| 0 <= m < |s[1..]| && s[1..][m] == tail[k];
          assert s[m + 1] == tail[k];
        }
      }
      SortedCons(s[0], tail);
    }
  }

  /** The sort orders its result by lower-cased name. */
  lemma {:induction false} SortByNameSorted(s: seq<Entry>)
    ensures SortedByName(SortByName(s))
  {
    if s != [] {
      SortByNameSorted(s[1..]);
      InsertKeepsSorted(s[0], SortByName(s[1..]));
    }
  }

  /** The entries of `s` whose key is `k`, in their order in `s`. */
  function WithKey(s: seq<Entry>, k: string): seq<Entry>
  {
    if s == [] then [] else (if Key(s[0]) == k then [s[0]] else []) + WithKey(s[1..], k)
  }

  lemma WithKeyCons(y: Entry, s: seq<Entry>, k: string)
    ensures WithKey([y] + s, k) == (if Key(y) == k then [y] else []) + WithKey(s, k)
  {
    assert ([y] + s)[0] == y && ([y] + s)[1..] == s;
  }

  /** Two entries whose keys are out of order have different keys. */
  lemma NotLeDistinct(a: string, b: string)
    requires !LexLe(a, b)
    ensures a != b
  {
    if a == b {
      LexLeRefl(a);
    }
  }

  /** Moving `x` past an entry of another key does not change the entries of key `k`. */
  lemma WithKeyBehind(x: Entry, y: Entry, s: seq<Entry>, tail: seq<Entry>, k: string)
    requires Key(x) != Key(y)
    requires WithKey(tail, k) == (if Key(x) == k then [x] else []) + WithKey(s, k)
    ensures WithKey([y] + tail, k) == (if Key(x) == k then [x] else []) + WithKey([y] + s, k)
  {
    WithKeyCons(y, tail, k);
    WithKeyCons(y, s, k);
    if Key(y) == k {
      assert Key(x) != k;
    }
  }

  lemma {:induction false} InsertWithKey(x: Entry, s: seq<Entry>, k: string)
    ensures WithKey(InsertByName(x, s), k) == (if Key(x) == k then [x] else []) + WithKey(s, k)
  {
    if s == [] || LexLe(Key(x), Key(s[0])) {
      assert InsertByName(x, s) == [x] + s;
      WithKeyCons(x, s, k);
    } else {
      var tail := InsertByName(x, s[1..]);
      assert InsertByName(x, s) == [s[0]] + tail;
      assert s == [s[0]] + s[1..];
      InsertWithKey(x, s[1..], k);
      NotLeDistinct(Key(x), Key(s[0]));
      WithKeyBehind(x, s[0], s[1..], tail, k);
    }
  }

  /**
   * The sort is stable: the entries sharing a lower-cased name (say "A" and
   * "a") keep the order the directory enumeration gave them.
   */
  lemma {:induction false} SortByNameStable(s: seq<Entry>, k: string)
    ensures WithKey(SortByName(s), k) == WithKey(s, k)
  {
    if s != [] {
      SortByNameStable(s[1..], k);
      InsertWithKey(s[0], SortByName(s[1..]), k);
    }
  }

  /** Two name-ordered permutations of the same rows start with the same row. */
  lemma SortedPermutationHead(a: seq<Entry>, b: seq<Entry>)
    requires a != [] && multiset(a) == multiset(b)
    requires SortedByName(a) && SortedByName(b)
    requires KeysIdentify(a)
    ensures b != [] && a[0] == b[0]
  {
    assert |b| == |multiset(b)| == |a|;
    assert a[0] in multiset(b) && b[0] in multiset(a);
    var k :| 0 <= k < |b| && b[k] == a[0];
    var m :| 0 <= m < |a| && a[m] == b[0];
    if a[0] != b[0] {
      LexLeAntisym(Key(a[0]), Key(b[0]));
      assert false;
    }
  }

  /** Rows that share a lower-cased name are the same row. */
  predicate KeysIdentify(a: seq<Entry>)
  {
    forall i, j :: 0 <= i < |a| && 0 <= j < |a| && Key(a[i]) == Key(a[j]) ==> a[i] == a[j]
  }

  lemma TailKeepsOrder(a: seq<Entry>)
    requires a != [] && SortedByName(a) && KeysIdentify(a)
    ensures SortedByName(a[1..]) && KeysIdentify(a[1..])
  {
    var t := a[1..];
    forall i, j | 0 <= i < j < |t| ensures LexLe(Key(t[i]), Key(t[j])) {
      assert t[i] == a[i + 1] && t[j] == a[j + 1];
    }
    forall i, j | 0 <= i < |t| && 0 <= j < |t| && Key(t[i]) == Key(t[j]) ensures t[i] == t[j] {
      assert t[i] == a[i + 1] && t[j] == a[j + 1];
    }
  }

  lemma SameHeadSameTail(a: seq<Entry>, b: seq<Entry>)
    requires a != [] && b != [] && a[0] == b[0] && multiset(a) == multiset(b)
    ensures multiset(a[1..]) == multiset(b[1..])
  {
    assert a == [a[0]] + a[1..] && b == [b[0]] + b[1..];
    assert multiset(a[1..]) == multiset(a) - multiset{a[0]};
    assert multiset(b[1..]) == multiset(b) - multiset{b[0]};
  }

  /**
   * Two orderings by lower-cased name of the same entries are the same
   * sequence, provided entries that share a lower-cased name are equal.
   */
  lemma {:induction false} SortedPermutationUnique(a: seq<Entry>, b: seq<Entry>)
    requires multiset(a) == multiset(b)
    requires SortedByName(a) && SortedByName(b)
    requires KeysIdentify(a)
    ensures a == b
  {
    if a == [] {
      assert |b| == |multiset(b)| == 0;
    } else {
      SortedPermutationHead(a, b);
      SameHeadSameTail(a, b);
      TailKeepsOrder(a);
      var bb := b;
      assert SortedByName(bb[1..]) by {
        forall i, j | 0 <= i < j < |bb[1..]| ensures LexLe(Key(bb[1..][i]), Key(bb[1..][j])) {
          assert bb[1..][i] == bb[i + 1] && bb[1..][j] == bb[j + 1];
        }
      }
      SortedPermutationUnique(a[1..], b[1..]);
      assert a == [a[0]] + a[1..] && b == [b[0]] + b[1..];
    }
  }

  /** No file row comes before a directory row. */
  predicate DirsFirst(s: seq<Entry>)
  {
    forall i, j :: 0 <= i < |s| && 0 <= j < |s| && s[i].DirEntry? && s[j].FileEntry? ==> i < j
  }

  /** Within the directory rows, and within the file rows, keys never decrease. */
  predicate GroupsSorted(s: seq<Entry>)
  {
    forall i, j :: 0 <= i < j < |s| && s[i].DirEntry? == s[j].DirEntry? ==> LexLe(Key(s[i]), Key(s[j]))
  }

  /** Directory rows first, each group sorted: sorting the two lists separately and concatenating. */
  lemma GroupsOfConcat(sd: seq<Entry>, sf: seq<Entry>)
    requires SortedByName(sd) && SortedByName(sf)
    requires forall k :: 0 <= k < |sd| ==> sd[k].DirEntry?
    requires forall k :: 0 <= k < |sf| ==> sf[k].FileEntry?
    ensures DirsFirst(sd + sf) && GroupsSorted(sd + sf)
  {
    var l := sd + sf;
    assert forall k :: 0 <= k < |l| ==> (l[k].DirEntry? <==> k < |sd|);
    forall i, j | 0 <= i < j < |l| && l[i].DirEntry? == l[j].DirEntry?
      ensures LexLe(Key(l[i]), Key(l[j]))
    {
      if j < |sd| {
        assert l[i] == sd[i] && l[j] == sd[j];
      } else {
        assert l[i] == sf[i - |sd|] && l[j] == sf[j - |sd|];
      }
    }
  }

  lemma ConcatenatedGroups(dirs: seq<Entry>, files: seq<Entry>)
    requires forall e :: e in dirs ==> e.DirEntry?
    requires forall e :: e in files ==> e.FileEntry?
    ensures DirsFirst(SortByName(dirs) + SortByName(files))
    ensures GroupsSorted(SortByName(dirs) + SortByName(files))
  {
    var sd, sf := SortByName(dirs), SortByName(files);
    SortByNameSorted(dirs);
    SortByNameSorted(files);
    forall k | 0 <= k < |sd| ensures sd[k].DirEntry? {
      assert sd[k] in multiset(dirs);
    }
    forall k | 0 <= k < |sf| ensures sf[k].FileEntry? {
      assert sf[k] in multiset(files);
    }
    GroupsOfConcat(sd, sf);
  }

  /**
   * The listing of `dir`: every child that is a file or a directory exactly
   * once and nothing else, directories before files, each group ordered by
   * lower-cased name.
   */
  ghost predicate IsListingOf(t: Tree, dir: Path, listing: seq<Entry>)
  {
    && (forall e :: multiset(listing)[e] == if ChildEntry(t, dir, e.name) == Some(e) then 1 else 0)
    && DirsFirst(listing)
    && GroupsSorted(listing)
  }

  lemma ListingOfEnumeration(t: Tree, dir: Path, names: seq<string>)
    requires Enumerates(t, dir, names)
    ensures IsListingOf(t, dir, SortByName(DirsOf(t, dir, names)) + SortByName(FilesOf(t, dir, names)))
  {
    var dirs, files := DirsOf(t, dir, names), FilesOf(t, dir, names);
    ClassifiedOnce(t, dir, names);
    ConcatenatedGroups(dirs, files);
    var l := SortByName(dirs) + SortByName(files);
    assert multiset(l) == multiset(dirs) + multiset(files);
  }

  /**
   * The listing loop of `files` over the enumeration `names` of `dir`,
   * followed by the two sorts and the two `extend`s.
   */
  method ListDirectory(t: Tree, dir: Path, names: seq<string>) returns (listing: seq<Entry>)
    requires Enumerates(t, dir, names)
    ensures listing == SortByName(DirsOf(t, dir, names)) + SortByName(FilesOf(t, dir, names))
    ensures forall e :: multiset(listing)[e] == if ChildEntry(t, dir, e.name) == Some(e) then 1 else 0
    ensures DirsFirst(listing)
    ensures GroupsSorted(listing)
  {
    var files: seq<Entry> := [];
    var directories: seq<Entry> := [];
    for i := 0 to |names|
      invariant files == FilesOf(t, dir, names[..i])
      invariant directories == DirsOf(t, dir, names[..i])
    {
      var fn := names[i];
      var path := dir + [fn];
      assert names[..i + 1][..i] == names[..i];
      if IsFile(t, path) {
        files := files + [FileEntry(fn, NatToDecimal(|t[path].content|))];
      } else if IsDir(t, path) {
        directories := directories + [DirEntry(fn)];
      }
    }
    assert names[..|names|] == names;
    listing := SortByName(directories) + SortByName(files);
    ListingOfEnumeration(t, dir, names);
  }

  /** No two children of `dir` have names that differ only in case. */
  ghost predicate CaseDistinct(t: Tree, dir: Path)
  {
    forall n, m :: dir + [n] in t && dir + [m] in t && Lower(n) == Lower(m) ==> n == m
  }

  /** Each directory child appears once among the directory rows, and nothing else does. */
  lemma DirRowsOnce(t: Tree, dir: Path, names: seq<string>)
    requires Enumerates(t, dir, names)
    ensures forall e :: multiset(DirsOf(t, dir, names))[e] == if e.DirEntry? && ChildEntry(t, dir, e.name) == Some(e) then 1 else 0
  {
    ClassifiedOnce(t, dir, names);
    forall e ensures multiset(DirsOf(t, dir, names))[e] == if e.DirEntry? && ChildEntry(t, dir, e.name) == Some(e) then 1 else 0 {
      if e.DirEntry? {
        assert e !in FilesOf(t, dir, names);
      } else {
        assert e !in DirsOf(t, dir, names);
      }
    }
  }

  /** Each file child appears once among the file rows, and nothing else does. */
  lemma FileRowsOnce(t: Tree, dir: Path, names: seq<string>)
    requires Enumerates(t, dir, names)
    ensures forall e :: multiset(FilesOf(t, dir, names))[e] == if e.FileEntry? && ChildEntry(t, dir, e.name) == Some(e) then 1 else 0
  {
    ClassifiedOnce(t, dir, names);
    forall e ensures multiset(FilesOf(t, dir, names))[e] == if e.FileEntry? && ChildEntry(t, dir, e.name) == Some(e) then 1 else 0 {
      if e.FileEntry? {
        assert e !in DirsOf(t, dir, names);
      } else {
        assert e !in FilesOf(t, dir, names);
      }
    }
  }

  lemma KeysIdentifyRows(t: Tree, dir: Path, rows: seq<Entry>, a: seq<Entry>)
    requires CaseDistinct(t, dir) && multiset(a) == multiset(rows)
    requires forall e :: e in rows ==> ChildEntry(t, dir, e.name) == Some(e)
    ensures KeysIdentify(a)
  {
    forall i, j | 0 <= i < |a| && 0 <= j < |a| && Key(a[i]) == Key(a[j]) ensures a[i] == a[j] {
      assert a[i] in multiset(rows) && a[j] in multiset(rows);
      assert a[i].name == a[j].name;
    }
  }

  lemma SortedRowsUnique(t: Tree, dir: Path, rows1: seq<Entry>, rows2: seq<Entry>)
    requires CaseDistinct(t, dir) && multiset(rows1) == multiset(rows2)
    requires forall e :: e in rows1 ==> ChildEntry(t, dir, e.name) == Some(e)
    ensures SortByName(rows1) == SortByName(rows2)
  {
    var a, b := SortByName(rows1), SortByName(rows2);
    SortByNameSorted(rows1);
    SortByNameSorted(rows2);
    KeysIdentifyRows(t, dir, rows1, a);
    SortedPermutationUnique(a, b);
  }

  /**
   * The listing does not depend on the order in which the directory is
   * enumerated, as long as no two children's names differ only in case
   * (when they do, `SortByNameStable` says the enumeration order decides).
   */
  lemma ListingIndependentOfOrder(t: Tree, dir: Path, names1: seq<string>, names2: seq<string>)
    requires Enumerates(t, dir, names1) && Enumerates(t, dir, names2)
    requires CaseDistinct(t, dir)
    ensures SortByName(DirsOf(t, dir, names1)) + SortByName(FilesOf(t, dir, names1))
         == SortByName(DirsOf(t, dir, names2)) + SortByName(FilesOf(t, dir, names2))
  {
    DirRowsOnce(t, dir, names1);
    DirRowsOnce(t, dir, names2);
    FileRowsOnce(t, dir, names1);
    FileRowsOnce(t, dir, names2);
    assert multiset(DirsOf(t, dir, names1)) == multiset(DirsOf(t, dir, names2));
    assert multiset(FilesOf(t, dir, names1)) == multiset(FilesOf(t, dir, names2));
    SortedRowsUnique(t, dir, DirsOf(t, dir, names1), DirsOf(t, dir, names2));
    SortedRowsUnique(t, dir, FilesOf(t, dir, names1), FilesOf(t, dir, names2));
  }

  /** The bytes of an ASCII text. */
  function Ascii(s: string): seq<byte>
    requires forall i :: 0 <= i < |s| ==> s[i] as int < 256
  {
    seq(|s|, i requires 0 <= i < |s| => s[i] as int as byte)
  }

  /** The tree the server's own tests start from. */
  function SampleTree(): Tree
  {
    map[
      [] := Dir,
      ["file1"] := File(Ascii("file1content")),
      ["file2"] := File(Ascii("file2content")),
      ["dir1"] := Dir,
      ["dir1", "file3"] := File(Ascii("file3content")),
      ["dir2"] := Dir,
      ["dir2", "file4"] := File(Ascii("file4content"))]
  }

  lemma SampleChildren(n: string)
    requires [] + [n] in SampleTree()
    ensures n == "dir1" || n == "dir2" || n == "file1" || n == "file2"
  {
    assert [] + [n] == [n];
    assert [n] == ["file1"] || [n] == ["file2"] || [n] == ["dir1"] || [n] == ["dir2"];
  }

  lemma SampleCaseDistinct()
    ensures CaseDistinct(SampleTree(), [])
  {
    forall n, m | [] + [n] in SampleTree() && [] + [m] in SampleTree() && Lower(n) == Lower(m)
      ensures n == m
    {
      SampleChildren(n);
      SampleChildren(m);
      assert Lower("dir1")[3] == '1' && Lower("dir2")[3] == '2';
      assert Lower("file1")[4] == '1' && Lower("file2")[4] == '2';
      assert Lower("dir1")[0] == 'd' && Lower("file1")[0] == 'f';
      assert Lower("dir2")[0] == 'd' && Lower("file2")[0] == 'f';
    }
  }

  lemma SampleEnumeration()
    ensures Enumerates(SampleTree(), [], ["dir1", "dir2", "file1", "file2"])
  {
    forall n | [] + [n] in SampleTree() ensures n in ["dir1", "dir2", "file1", "file2"] {
      SampleChildren(n);
    }
  }

  lemma SampleDirRows()
    ensures DirsOf(SampleTree(), [], ["dir1", "dir2", "file1", "file2"]) == [DirEntry("dir1"), DirEntry("dir2")]
  {
    var t, order := SampleTree(), ["dir1", "dir2", "file1", "file2"];
    assert [] + ["dir1"] == ["dir1"] && [] + ["dir2"] == ["dir2"];
    assert [] + ["file1"] == ["file1"] && [] + ["file2"] == ["file2"];
    assert IsDir(t, [] + ["dir1"]) && IsDir(t, [] + ["dir2"]);
    assert !IsDir(t, [] + ["file1"]) && !IsDir(t, [] + ["file2"]);
    assert order[..1] == ["dir1"] && order[..1][..0] == [];
    assert DirsOf(t, [], order[..1]) == [DirEntry("dir1")];
    assert order[..2][..1] == order[..1];
    assert DirsOf(t, [], order[..2]) == [DirEntry("dir1"), DirEntry("dir2")];
    assert order[..3][..2] == order[..2];
    assert DirsOf(t, [], order[..3]) == [DirEntry("dir1"), DirEntry("dir2")];
    assert order[..3] == order[..|order| - 1];
  }

  lemma SampleFileRows()
    ensures FilesOf(SampleTree(), [], ["dir1", "dir2", "file1", "file2"]) == [FileEntry("file1", "12"), FileEntry("file2", "12")]
  {
    var t, order := SampleTree(), ["dir1", "dir2", "file1", "file2"];
    assert [] + ["dir1"] == ["dir1"] && [] + ["dir2"] == ["dir2"];
    assert [] + ["file1"] == ["file1"] && [] + ["file2"] == ["file2"];
    assert !IsFile(t, [] + ["dir1"]) && !IsFile(t, [] + ["dir2"]);
    assert |Ascii("file1content")| == 12 && |Ascii("file2content")| == 12;
    assert NatToDecimal(12) == "12";
    assert order[..1] == ["dir1"] && order[..1][..0] == [];
    assert FilesOf(t, [], order[..1]) == [];
    assert order[..2][..1] == order[..1];
    assert FilesOf(t, [], order[..2]) == [];
    assert order[..3][..2] == order[..2];
    assert FilesOf(t, [], order[..3]) == [FileEntry("file1", "12")];
    assert order[..3] == order[..|order| - 1];
  }

  /** Strings that agree up to position `k` and then differ are ordered by that position. */
  lemma {:induction false} LexLeAtFirstDifference(a: string, b: string, k: nat)
    requires k < |a| && k < |b| && a[..k] == b[..k] && a[k] < b[k]
    ensures LexLe(a, b)
  {
    if k > 0 {
      assert a[1..][..k - 1] == a[..k][1..] && b[1..][..k - 1] == b[..k][1..];
      LexLeAtFirstDifference(a[1..], b[1..], k - 1);
      assert a[0] == a[..k][0];
    }
  }

  lemma LowerOfLowercase(s: string)
    requires forall i :: 0 <= i < |s| ==> !('A' <= s[i] <= 'Z')
    ensures Lower(s) == s
  {
  }

  lemma SortTwo(x: Entry, y: Entry)
    requires LexLe(Key(x), Key(y))
    ensures SortByName([x, y]) == [x, y]
  {
    var s := [x, y];
    assert s[1..] == [y] && s[1..][1..] == [];
    assert SortByName([y]) == [y];
  }

  lemma SampleSorts()
    ensures SortByName([DirEntry("dir1"), DirEntry("dir2")]) == [DirEntry("dir1"), DirEntry("dir2")]
    ensures SortByName([FileEntry("file1", "12"), FileEntry("file2", "12")]) == [FileEntry("file1", "12"), FileEntry("file2", "12")]
  {
    LowerOfLowercase("dir1");
    LowerOfLowercase("dir2");
    LowerOfLowercase("file1");
    LowerOfLowercase("file2");
    LexLeAtFirstDifference("dir1", "dir2", 3);
    LexLeAtFirstDifference("file1", "file2", 4);
    SortTwo(DirEntry("dir1"), DirEntry("dir2"));
    SortTwo(FileEntry("file1", "12"), FileEntry("file2", "12"));
  }

  /**
   * Listing the base directory of that tree gives dir1, dir2, file1, file2 in
   * this order, each file with its 12-byte size, whatever order the
   * directory is enumerated in.
   */
  lemma SampleRootListing(names: seq<string>)
    requires Enumerates(SampleTree(), [], names)
    ensures SortByName(DirsOf(SampleTree(), [], names)) + SortByName(FilesOf(SampleTree(), [], names))
            == [DirEntry("dir1"), DirEntry("dir2"), FileEntry("file1", "12"), FileEntry("file2", "12")]
  {
    SampleEnumeration();
    SampleDirRows();
    SampleFileRows();
    SampleCaseDistinct();
    SampleSorts();
    ListingIndependentOfOrder(SampleTree(), [], names, ["dir1", "dir2", "file1", "file2"]);
  }
}
