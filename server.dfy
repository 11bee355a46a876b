/**
 * The request handlers of the file-sharing server: `files` (list a
 * directory, send a file, or accept an upload), `delete_file` and
 * `upload_file`. A `FileShare` object holds the exposed tree, which the
 * handlers change in place, together with the policy switches and the two
 * library helpers fixed at start-up. Responses are values; rendering them
 * into HTTP is not part of the model.
 */
module Server {
  import opened Text
  import opened Config
  import opened UrlPaths
  import opened FileSystem
  import opened Listing

  datatype Verb = Get | Post

  /** The `file` field of an upload form: the name the client gave and the bytes. */
  datatype Upload = Upload(filename: string, content: seq<byte>)

  /** The variables handed to the listing template. */
  datatype ListingPage = ListingPage(
    readOnly: bool,
    allowDelete: bool,
    listing: seq<Entry>,
    currentPath: string,
    parentPath: Option<string>)

  datatype Response =
    | Redirect(filepath: string)  // redirect(url_for("files", filepath=filepath))
    | Abort(status: int)          // abort(status)
    | SendFile(path: Path)        // send_file(local_path)
    | Render(page: ListingPage)   // render_template("files.html", ...)
    | InternalError               // an OSError nobody catches: HTTP 500

  /**
   * What `upload_file(dir, filepath)` does to the tree `before`, leaving
   * `after` and answering `r`. No file, or a file without a name, changes
   * nothing and redirects back. Otherwise the bytes are saved under the
   * sanitised name in `dir`; saving fails (and changes nothing) when the
   * sanitised name is empty, when `dir` is not a directory, or when the name
   * is taken by something other than a file. A successful save replaces the
   * whole content of that one entry, and nothing else changes.
   */
  ghost predicate UploadOutcome(before: Tree, after: Tree, host: Host, dir: Path,
                                filepath: string, file: Option<Upload>, r: Response)
  {
    if file.None? || file.value.filename == "" then
      r == Redirect(filepath) && after == before
    else
      var name := host.secureFilename(file.value.filename);
      if name == "" || !IsDir(before, dir) || (dir + [name] in before && !IsFile(before, dir + [name])) then
        r == InternalError && after == before
      else
        r == Redirect(filepath) && after == before[dir + [name] := File(file.value.content)]
  }

  /** The enumeration `names` is that of the directory the request resolves to, if it is one. */
  ghost predicate ListdirOf(t: Tree, resolved: Option<Path>, names: seq<string>)
  {
    resolved.Some? && IsDir(t, resolved.value) ==> Enumerates(t, resolved.value, names)
  }

  class FileShare {
    var tree: Tree
    const policy: Policy
    const host: Host

    ghost predicate Valid()
      reads this
    {
      HostAssumptions(host) && WellFormed(tree)
    }

    constructor (policy: Policy, host: Host, tree: Tree)
      requires HostAssumptions(host) && WellFormed(tree)
      ensures Valid()
      ensures this.policy == policy && this.host == host && this.tree == tree
    {
      this.policy := policy;
      this.host := host;
      this.tree := tree;
    }

    /**
     * `delete_file(filepath)`. The checks run in this order: the policy (403),
     * then existence (404), then that it is a file (501); each refusal leaves
     * the tree as it was. Otherwise exactly that file is removed and the
     * client is sent to the listing of the directory it was in.
     */
    method DeleteFile(filepath: string) returns (r: Response)
      requires Valid()
      modifies this
      ensures Valid()
      ensures policy.readOnly || !policy.allowDelete ==> r == Abort(403) && tree == old(tree)
      ensures var lp := host.safeJoin(filepath);
              !policy.readOnly && policy.allowDelete && (lp.None? || lp.value !in old(tree)) ==>
                r == Abort(404) && tree == old(tree)
      ensures var lp := host.safeJoin(filepath);
              !policy.readOnly && policy.allowDelete && lp.Some? && lp.value in old(tree) && !IsFile(old(tree), lp.value) ==>
                r == Abort(501) && tree == old(tree)
      ensures var lp := host.safeJoin(filepath);
              !policy.readOnly && policy.allowDelete && lp.Some? && IsFile(old(tree), lp.value) ==>
                r == Redirect(Dirname(filepath)) && tree == old(tree) - {lp.value}
    {
      if policy.readOnly || !policy.allowDelete {
        return Abort(403);
      }
      var localPath := host.safeJoin(filepath);
      if localPath.None? || localPath.value !in tree {
        return Abort(404);
      }
      if !IsFile(tree, localPath.value) {
        return Abort(501);
      }
      RemoveFileKeepsWellFormed(tree, localPath.value);
      tree := tree - {localPath.value};
      r := Redirect(Dirname(filepath));
    }

    /**
     * `upload_file(dir, filepath)`, called by `files` for a POST to an
     * existing path while the server is writable.
     */
    method UploadFile(dir: Path, filepath: string, file: Option<Upload>) returns (r: Response)
      requires Valid()
      modifies this
      ensures Valid()
      ensures UploadOutcome(old(tree), tree, host, dir, filepath, file, r)
      ensures r.Redirect? ==> r.filepath == filepath
    {
      if file.None? || file.value.filename == "" {
        return Redirect(filepath);
      }
      var filename := host.secureFilename(file.value.filename);
      if filename == "" || !IsDir(tree, dir) {
        // `os.path.join(dir, "")` names the directory itself, and a path below
        // anything but a directory cannot be opened: `file.save` raises.
        return InternalError;
      }
      var target := dir + [filename];
      if target in tree && !IsFile(tree, target) {
        // `file.save` cannot open a directory or special file for writing.
        return InternalError;
      }
      WriteFileKeepsWellFormed(tree, dir, filename, file.value.content);
      tree := tree[target := File(file.value.content)];
      r := Redirect(filepath);
    }

    /**
     * `files(filepath)`. A path that does not resolve or does not exist is
     * 404 whatever the verb; a POST is then refused with 403 while read-only
     * and otherwise is an upload into that path; a GET sends a file, or lists
     * a directory (`names` is what `os.listdir` reports for it).
     */
    method Files(filepath: string, verb: Verb, file: Option<Upload>, names: seq<string>) returns (r: Response)
      requires Valid()
      requires ListdirOf(tree, host.safeJoin(filepath), names)
      modifies this
      ensures Valid()
      ensures var lp := host.safeJoin(filepath);
              lp.None? || lp.value !in old(tree) ==> r == Abort(404) && tree == old(tree)
      ensures var lp := host.safeJoin(filepath);
              lp.Some? && lp.value in old(tree) && verb == Post && policy.readOnly ==>
                r == Abort(403) && tree == old(tree)
      ensures var lp := host.safeJoin(filepath);
              lp.Some? && lp.value in old(tree) && verb == Post && !policy.readOnly ==>
                UploadOutcome(old(tree), tree, host, lp.value, filepath, file, r)
      ensures var lp := host.safeJoin(filepath);
              lp.Some? && lp.value in old(tree) && verb == Get ==>
                tree == old(tree) &&
                match tree[lp.value]
                case File(_) => r == SendFile(lp.value)
                case Special => r == InternalError
                case Dir =>
                  && r.Render?
                  && r.page.readOnly == policy.readOnly
                  && r.page.allowDelete == policy.allowDelete
                  && r.page.currentPath == CurrentPath(filepath)
                  && r.page.parentPath == ParentPath(CurrentPath(filepath))
                  && r.page.listing == SortByName(DirsOf(tree, lp.value, names)) + SortByName(FilesOf(tree, lp.value, names))
                  && IsListingOf(tree, lp.value, r.page.listing)
    {
      var localPath := host.safeJoin(filepath);
      if localPath.None? || localPath.value !in tree {
        return Abort(404);
      }

      if verb == Post {
        if policy.readOnly {
          return Abort(403);
        }
        r := UploadFile(localPath.value, filepath, file);
        return;
      } else if IsFile(tree, localPath.value) {
        return SendFile(localPath.value);
      }

      var currentPath := CurrentPath(filepath);
      var parentPath := ParentPath(currentPath);
      if !IsDir(tree, localPath.value) {
        // `os.listdir` on something that is not a directory raises.
        return InternalError;
      }
      var listing := ListDirectory(tree, localPath.value, names);
      ListingOfEnumeration(tree, localPath.value, names);
      r := Render(ListingPage(policy.readOnly, policy.allowDelete, listing, currentPath, parentPath));
    }
  }
}
