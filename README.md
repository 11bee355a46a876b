# quick-fileshare request handling, modelled in Dafny

quick-fileshare is a small Flask application that exposes one directory tree
over HTTP. Clients can browse it, download files, upload files and, if the
policy allows, delete files. This project models the request-handling core of
`quick_fileshare/app.py` and proves properties of it:

- `get_envbool` and the two policy switches it sets at start-up.
- The `current_path` and `parent_path` shown on a listing page, and
  `os.path.dirname`, which also picks where a delete redirects to.
- The directory listing. It classifies each child as a file or a directory
  and drops anything else. Each file's size is rendered with `str`. The two
  groups are sorted by lower-cased name, directories first.
- `delete_file`, `upload_file` and the `files` view. They run against an
  abstract tree held by a `FileShare` object, which the handlers change in
  place.

The tree maps each existing path to a `File(bytes)`, a `Dir` or a `Special`
entry. A path is the list of its segments below the base directory.
`Special` is something that exists but is neither a file nor a directory,
such as a device or a FIFO. Responses are values: `Redirect(filepath)`
stands for `redirect(url_for("files", filepath=...))`, and there are also
`Abort(status)`, `SendFile(path)` and `Render(page)`. `InternalError` stands
for an `OSError` that nothing catches, which Flask answers with HTTP 500.

Two library helpers are not modelled: Flask's `safe_join` and Werkzeug's
`secure_filename`. They are function values held in a `Host`. The properties
the handlers rely on are stated in `HostAssumptions` and required of every
`FileShare`. A joined path never leaves the base directory. A sanitised name
is either empty or a single name with no separator that is not `.` or `..`.
When `safe_join` refuses a path (the Flask version imported here raises
`NotFound`), the model's `safeJoin` returns `None`, and the handlers answer
404 exactly as for a missing path.

Two Python built-ins are modelled in `text.dfy`. `Text.Lower` is `str.lower`, used on the environment values (app.py:18) and for the sort key (app.py:82-83). `Text.LexLe` is Python's `<=` on strings, the order `list.sort` uses on those keys.

Files: `text.dfy` (Option, lower-casing, string order, decimal rendering),
`config.dfy`, `urlpaths.dfy`, `filesystem.dfy`, `listing.dfy`, `server.dfy`.

Where the code and the project's tests disagree, the model
follows the code:

- The code answers 403, not 405, to an upload or a delete refused by the
  read-only or delete policy.
- The code has no check for an upload whose name is taken by a directory.
  `file.save` raises there, so the model answers `InternalError` (500), not 400.
- The code has no CSRF handling, so nothing of it is modelled.

## Model

| member | source | states |
|---|---|---|
| `Config.GetEnvBool` | quick_fileshare/app.py:15-23 | An unset variable gives the boolean default unchanged. A set one is false exactly when it is empty, "0", or "false" in any mix of case. |
| `Config.LowerIsFalse` | quick_fileshare/app.py:17-20 | Lower-casing gives "false" exactly for the 32 case variants of "false". |
| `Config.EnvBoolSamples` | quick_fileshare/app.py:15-23 | "1", "yes", "FALSE1" and "00" read as true; "FaLsE", "0" and "" read as false. |
| `Config.PolicyFromEnv` | quick_fileshare/app.py:27-31 | The server is read-only unless QFS_READONLY is set to a non-false value. It may delete only when QFS_ALLOW_DELETE is set to a non-false value. |
| `UrlPaths.CurrentPath` | quick_fileshare/app.py:55-60 | `current_path` starts and ends with "/". It is "/" exactly for the paths "" and "/". It is the request path, preceded by one "/" when the path lacks one, and followed only by slashes, at most one. A path that already starts, or already ends, with "/" gains at most one character, and one that does both is returned unchanged. |
| `UrlPaths.CurrentPathIdempotent` | quick_fileshare/app.py:55-60 | Normalising a normalised path changes nothing. |
| `UrlPaths.ParentPath` | quick_fileshare/app.py:69-70 | `parent_path` is present exactly when `current_path` is not "/". |
| `UrlPaths.ParentOfSubdirectory` | quick_fileshare/app.py:69-70 | The parent of the listing "dir/name/" is "dir", and the parent of "/name/" is "/". |
| `UrlPaths.ListingParentSamples` | quick_fileshare/app.py:55-70 | The root listing has no parent. The listing of "dir1" or "dir1/" has "/" as its parent. |
| `UrlPaths.RStripSlashes` | quick_fileshare/app.py:70 | `str.rstrip("/")`: the result is a prefix of the input that does not end in "/", and everything removed is slashes. |
| `UrlPaths.Dirname` | quick_fileshare/app.py:70 | `os.path.dirname` keeps a prefix of the path that ends no later than its last slash, so the last component is always dropped. The dropped part is slashes followed by that component. The result ends in "/" only when it is all slashes. A head made only of slashes is kept whole: "/b" gives "/". |
| `UrlPaths.DirnameOfJoin` | quick_fileshare/app.py:105 | `os.path.dirname` undoes a join: the dirname of "dir/name" is "dir", and of a bare name it is "". |
| `UrlPaths.DeleteRedirectSamples` | quick_fileshare/app.py:105 | Deleting "dir1/file3" leads back to "dir1"; deleting "file1" leads back to the root. |
| `Text.NatToDecimal` | quick_fileshare/app.py:77-78 | A size renders as one or more decimal digits without a leading zero. Zero renders as "0", never "". |
| `Text.DecimalRoundTrip` | quick_fileshare/app.py:77-78 | Reading the rendered size back gives the size. |
| `FileSystem.RemoveFileKeepsWellFormed` | quick_fileshare/app.py:104 | Removing a file keeps the tree well formed: the base is a directory, every entry is contained, every entry's parent is a directory. |
| `FileSystem.WriteFileKeepsWellFormed` | quick_fileshare/app.py:113-114 | Saving under a sanitised name in a directory keeps the tree well formed, and the written path stays inside the base directory. |
| `Listing.ChildEntry` | quick_fileshare/app.py:74-80 | A row exists only for an existing child and carries that child's name. |
| `Listing.DirsOf` | quick_fileshare/app.py:72-80 | The `directories` list holds only directory rows of directory children. |
| `Listing.FilesOf` | quick_fileshare/app.py:72-80 | The `files` list holds only file rows of file children, each with the decimal size of the file. |
| `Listing.ClassifiedOnce` | quick_fileshare/app.py:74-80 | For distinct enumerated names, each child that is a file or a directory appears exactly once across the two lists, and nothing else appears. |
| `Listing.InsertByName` | quick_fileshare/app.py:82-83 | One insertion step adds exactly the inserted row. |
| `Listing.SortByName` | quick_fileshare/app.py:82-83 | The sort is a permutation of its input. |
| `Listing.SortByNameSorted` | quick_fileshare/app.py:82-83 | The sorted list never decreases by lower-cased name. |
| `Listing.SortByNameStable` | quick_fileshare/app.py:82-83 | The sort is stable: rows that share a lower-cased name keep their enumeration order. |
| `Text.LexLeTotal` | quick_fileshare/app.py:82-83 | Python's string order compares any two strings. |
| `Text.LexLeTrans` | quick_fileshare/app.py:82-83 | Python's string order is transitive. |
| `Text.LexLeAntisym` | quick_fileshare/app.py:82-83 | Two strings ordered both ways are equal. |
| `Listing.SortedPermutationUnique` | quick_fileshare/app.py:82-83 | Two name-ordered permutations of the same rows are equal when rows sharing a key are equal. |
| `Listing.ListDirectory` | quick_fileshare/app.py:72-86 | The listing holds each file or directory child exactly once and nothing else. Directory rows precede file rows, and each group never decreases by lower-cased name. |
| `Listing.ListingOfEnumeration` | quick_fileshare/app.py:72-86 | Sorting the two lists and concatenating them gives a listing with all three properties above. |
| `Listing.ListingIndependentOfOrder` | quick_fileshare/app.py:72-86 | When no two children's names differ only in case, the listing is the same for every enumeration order. |
| `Listing.SampleRootListing` | quick_fileshare/tests/test_flask_fileshare.py:14-21 | For the tests' tree, the base listing is dir1, dir2, file1 (size "12"), file2 (size "12"), whatever the enumeration order. |
| `Server.FileShare.DeleteFile` | quick_fileshare/app.py:91-105 | Checks run in order: policy (403), then existence (404), then is-a-file (501), and each refusal leaves the tree unchanged. Otherwise exactly that file is removed and the client is redirected to `dirname(filepath)`. |
| `Server.FileShare.UploadFile` | quick_fileshare/app.py:108-115 | With no file or an empty name, nothing changes and the client is redirected to `filepath`. Otherwise the entry `dir/secure_filename(name)` holds exactly the uploaded bytes and no other entry changes, unless the save fails (500, no change). |
| `Server.FileShare.Files` | quick_fileshare/app.py:40-88 | An unresolvable or missing path gives 404 before any verb check. A POST while read-only gives 403 with no change, and otherwise performs the upload. A GET sends a file, or renders the policy, `current_path`, `parent_path` and the listing of a directory, without changing the tree. |

## Left out

- Flask routing, `index`, `render_template`, `send_file`, `url_for` and `redirect` are presentation. So are `app.run` and `main`. Responses are modelled as values.
- The `urlencode` template filter (`quote`) is only used for presentation.
- The internals of `safe_join` and `secure_filename` are library code. Their assumed properties are a precondition (`HostAssumptions`), not proved.
- Real I/O is replaced by the abstract tree: `os.listdir`, `os.path.getsize`, `os.remove` and `file.save`. The enumeration order of `os.listdir` is a parameter. Broken symbolic links, which it lists but which do not exist, may appear in it and are omitted like anything else that is neither file nor directory. Only structural failures become `InternalError`: saving onto a directory or special file, saving below something that is not a directory, an empty sanitised name, or listing something that is not a directory. An `OSError` from missing permissions or a full disk in `os.remove`, `file.save` or `os.listdir` is not modelled.
- Concurrency between requests is not modelled; each handler runs alone on the tree.
- The base directory (`QFS_BASEPATH`, default the working directory) is not modelled; paths are relative to it.
- The delete route accepts only GET in the code. A POST to it is refused by Flask's routing with 405, which is not modelled.
- `Text.Lower`: lower-cases ASCII letters only, while Python's `str.lower` also maps other letters. This makes no difference for recognising "0" and "false". It can change the order of names that contain non-ASCII letters.
- `Server.FileShare.UploadFile`: a sanitised name taken by a device, FIFO or socket is modelled as a failed save (500, no change). What writing into such an entry really does depends on its kind.
