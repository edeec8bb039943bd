/**
 * `WTVPRequestHandler.return_filepath`: find the static file a request path
 * names under the service directory. Four candidates are tried in a fixed
 * order; every candidate must stay inside the service directory once
 * normalised, and the last candidate that is an existing file wins.
 */
module FilePath {
  import opened Wrappers
  import opened Text

  /** `os.path.normpath` and `os.path.isfile`, which consult the operating system. */
  datatype FileSystem = FileSystem(normpath: string -> string, isfile: string -> bool)

  datatype LookupError =
    | PathEscapes   // IOError: a normalised candidate does not start with the service directory
    | NoSuchFile    // UnboundLocalError: no candidate is a file, so `path` was never assigned

  /**
   * `os.path.join(a, b)` on POSIX: an absolute `b` replaces `a`; otherwise one
   * slash separates them unless `a` is empty or already ends in one.
   */
  function PathJoin(a: string, b: string): (r: string)
    ensures b != [] && b[0] == '/' ==> r == b
    ensures !(b != [] && b[0] == '/') && a != [] && a[|a| - 1] != '/' ==> r == a + "/" + b
  {
    if b != [] && b[0] == '/' then b
    else if a == [] || a[|a| - 1] == '/' then a + b
    else a + "/" + b
  }

  /** `os.path.join(service_dir, 'static', p)`. */
  function StaticPath(dir: string, p: string): string {
    PathJoin(PathJoin(dir, "static"), p)
  }

  /**
   * The four paths `return_filepath` tries, in order: the segments joined by
   * `/`, the same with `.html`, and both again with every `-` turned into `_`.
   */
  function Candidates(dir: string, path: seq<string>): (r: seq<string>)
    ensures |r| == 4
  {
    var joined := JoinAll(path, '/');
    var underscored := ReplaceAll(joined, '-', '_');
    [StaticPath(dir, joined), StaticPath(dir, joined + ".html"),
     StaticPath(dir, underscored), StaticPath(dir, underscored + ".html")]
  }

  /** The candidates lie under `<dir>/static/` when the directory has no trailing slash and the path is relative. */
  lemma CandidateLayout(dir: string, path: seq<string>)
    requires dir != [] && dir[|dir| - 1] != '/'
    requires path != [] && path[0] != [] && path[0][0] != '/'
    ensures Candidates(dir, path)[0] == dir + "/static/" + JoinAll(path, '/')
    ensures Candidates(dir, path)[1] == dir + "/static/" + JoinAll(path, '/') + ".html"
  {
    var joined := JoinAll(path, '/');
    assert joined[0] == path[0][0];
    var st := dir + "/" + "static";
    assert PathJoin(dir, "static") == st;
    assert st[|st| - 1] == 'c';
    assert (joined + ".html")[0] == joined[0];
    assert st + "/" + joined == dir + "/static/" + joined;
    assert st + "/" + (joined + ".html") == dir + "/static/" + joined + ".html";
  }

  /** A path without a dash yields the first two candidates twice. */
  lemma CandidatesWithoutDash(dir: string, path: seq<string>)
    requires '-' !in JoinAll(path, '/')
    ensures Candidates(dir, path)[2] == Candidates(dir, path)[0]
    ensures Candidates(dir, path)[3] == Candidates(dir, path)[1]
  {
    ReplaceAbsent(JoinAll(path, '/'), '-', '_');
  }

  /**
   * The candidate loop from `found` on: a normalised candidate outside `dir`
   * raises at once; a normalised candidate that is a file becomes the answer
   * so far; after the last candidate the answer is returned, or
   * `UnboundLocalError` is raised when there is none.
   */
  function Resolve(fs: FileSystem, dir: string, cands: seq<string>, found: Option<string>): Result<string, LookupError>
    decreases |cands|
  {
    if cands == [] then
      if found.Some? then Ok(found.value) else Err(NoSuchFile)
    else
      var n := fs.normpath(cands[0]);
      if !StartsWith(n, dir) then Err(PathEscapes)
      else Resolve(fs, dir, cands[1..], if fs.isfile(n) then Some(n) else found)
  }

  /** `return_filepath(request)` for `request.service_dir == dir` and `request.path == path`. */
  function ReturnFilepath(fs: FileSystem, dir: string, path: seq<string>): Result<string, LookupError> {
    Resolve(fs, dir, Candidates(dir, path), None)
  }

  /** Every normalised candidate starts with the service directory. */
  predicate Confined(fs: FileSystem, dir: string, cands: seq<string>) {
    forall i :: 0 <= i < |cands| ==> StartsWith(fs.normpath(cands[i]), dir)
  }

  /** Reference definition: the normalised form of the last candidate that is a file. */
  function LastFile(fs: FileSystem, cands: seq<string>): (r: Option<string>)
    decreases |cands|
  {
    if cands == [] then None
    else match LastFile(fs, cands[1..])
      case Some(p) => Some(p)
      case None => if fs.isfile(fs.normpath(cands[0])) then Some(fs.normpath(cands[0])) else None
  }

  /** What the last file is: a candidate that is a file, with no file among the candidates after it. */
  lemma {:induction false} LastFileMeaning(fs: FileSystem, cands: seq<string>)
    ensures LastFile(fs, cands).None? <==> forall i :: 0 <= i < |cands| ==> !fs.isfile(fs.normpath(cands[i]))
    ensures LastFile(fs, cands).Some? ==>
              exists i :: 0 <= i < |cands| && LastFile(fs, cands).value == fs.normpath(cands[i])
                          && fs.isfile(fs.normpath(cands[i]))
                          && forall j :: i < j < |cands| ==> !fs.isfile(fs.normpath(cands[j]))
    decreases |cands|
  {
    if cands != [] {
      var rest := cands[1..];
      LastFileMeaning(fs, rest);
      assert forall i :: 1 <= i < |cands| ==> cands[i] == rest[i - 1];
      if LastFile(fs, rest).Some? {
        var i :| 0 <= i < |rest| && LastFile(fs, rest).value == fs.normpath(rest[i])
                 && fs.isfile(fs.normpath(rest[i]))
                 && forall j :: i < j < |rest| ==> !fs.isfile(fs.normpath(rest[j]));
        assert cands[i + 1] == rest[i];
      }
    }
  }

  /** The candidate loop, stated without the running answer. */
  lemma {:induction false} ResolveMeaning(fs: FileSystem, dir: string, cands: seq<string>, found: Option<string>)
    ensures Resolve(fs, dir, cands, found)
         == if !Confined(fs, dir, cands) then Err(PathEscapes)
            else match LastFile(fs, cands)
              case Some(p) => Ok(p)
              case None => if found.Some? then Ok(found.value) else Err(NoSuchFile)
    decreases |cands|
  {
    if cands != [] {
      var n := fs.normpath(cands[0]);
      ResolveMeaning(fs, dir, cands[1..], if fs.isfile(n) then Some(n) else found);
      assert forall i :: 1 <= i < |cands| ==> cands[i] == cands[1..][i - 1];
      assert Confined(fs, dir, cands) <==> StartsWith(n, dir) && Confined(fs, dir, cands[1..]);
    }
  }

  /**
   * `return_filepath` raises `IOError` exactly when a normalised candidate
   * leaves the service directory; otherwise it returns the last candidate that
   * is a file, and raises `UnboundLocalError` when none is.
   */
  lemma ReturnFilepathMeaning(fs: FileSystem, dir: string, path: seq<string>)
    ensures ReturnFilepath(fs, dir, path) == Err(PathEscapes) <==> !Confined(fs, dir, Candidates(dir, path))
    ensures ReturnFilepath(fs, dir, path) == Err(NoSuchFile) <==>
              Confined(fs, dir, Candidates(dir, path)) && LastFile(fs, Candidates(dir, path)).None?
    ensures ReturnFilepath(fs, dir, path).Ok? ==>
              Confined(fs, dir, Candidates(dir, path)) && ReturnFilepath(fs, dir, path) == Ok(LastFile(fs, Candidates(dir, path)).value)
  {
    ResolveMeaning(fs, dir, Candidates(dir, path), None);
  }

  /** The returned path is a file inside the service directory. */
  lemma ReturnedPathIsConfinedFile(fs: FileSystem, dir: string, path: seq<string>)
    requires ReturnFilepath(fs, dir, path).Ok?
    ensures fs.isfile(ReturnFilepath(fs, dir, path).value)
    ensures StartsWith(ReturnFilepath(fs, dir, path).value, dir)
  {
    var cands := Candidates(dir, path);
    ReturnFilepathMeaning(fs, dir, path);
    LastFileMeaning(fs, cands);
    var i :| 0 <= i < |cands| && LastFile(fs, cands).value == fs.normpath(cands[i]) && fs.isfile(fs.normpath(cands[i]));
  }

  /** `return_filepath(request)`: the loop over the candidates, overwriting `path` whenever one is a file. */
  method ReturnFilePath(fs: FileSystem, dir: string, path: seq<string>) returns (r: Result<string, LookupError>)
    ensures r == ReturnFilepath(fs, dir, path)
  {
    var paths := Candidates(dir, path);
    var found: Option<string> := None;
    for i := 0 to |paths|
      invariant Resolve(fs, dir, paths[i..], found) == Resolve(fs, dir, paths, None)
    {
      assert paths[i..][0] == paths[i] && paths[i..][1..] == paths[i + 1..];
      var normalized := fs.normpath(paths[i]);
      if !StartsWith(normalized, dir) {
        return Err(PathEscapes);
      }
      if fs.isfile(normalized) {
        found := Some(normalized);
      }
    }
    assert paths[|paths|..] == [];
    if found.None? {
      return Err(NoSuchFile);
    }
    return Ok(found.value);
  }
}
