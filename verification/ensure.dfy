/** `File.ensure_file`: make sure a named resource is present locally,
    downloading it (and post-processing it) when it is missing or forced.
    The file system is the set of paths that are existing regular files; a
    download is an action that makes its path exist. */
module Ensure {
  import opened Results
  import opened Locations

  /** The observable effects of one call, in order. */
  datatype Action = Download(url: string, path: string) | PostProcess(path: string)

  /** What a call returns or raises, what it did, and the files afterwards. */
  datatype Outcome = Outcome(result: Result<string, Error>, trace: seq<Action>, files: set<string>)

  /** Python truthiness of the optional URL: `None` and `""` are both false. */
  predicate Truthy(url: Option<string>) {
    url.Some? && url.value != ""
  }

  /** The trace holds exactly one download, of `url` to `path`, first; it is
      followed by the post-processing of `path` exactly when a callback was
      given, and by nothing else. */
  ghost predicate DownloadTrace(trace: seq<Action>, url: string, path: string, postprocess: bool) {
    && |trace| == (if postprocess then 2 else 1)
    && trace[0] == Download(url, path)
    && (postprocess ==> trace[1] == PostProcess(path))
  }

  /** One call of `ensure_file(name, url, force, postprocess=...)` against the
      environment `env` and the existing files `files`; `postprocess` says
      whether a callback was given. */
  function EnsureFile(env: Env, files: set<string>, name: string, url: Option<string>,
                      force: bool, postprocess: bool): (o: Outcome)
    ensures Home !in env ==> o == Outcome(Err(KeyError(Home)), [], files)
    ensures files <= o.files
    ensures o.files <= files + (if o.result.Ok? then {o.result.value} else {})
    ensures o.result.Ok? ==> ResolvePath(env, name) == Ok(o.result.value) && o.result.value in o.files
    ensures o.result.Err? ==> o.trace == [] && o.files == files
    ensures o.trace != [] ==> Truthy(url) && DownloadTrace(o.trace, url.value, o.result.value, postprocess)
  {
    match ResolvePath(env, name)
    case Err(e) => Outcome(Err(e), [], files)
    case Ok(fname) =>
      if fname !in files || force then
        if Truthy(url) then
          var trace := [Download(url.value, fname)] + (if postprocess then [PostProcess(fname)] else []);
          Outcome(Ok(fname), trace, files + {fname})
        else
          Outcome(Err(DoesNotExist(fname)), [], files)
      else
        Outcome(Ok(fname), [], files)
  }

  /** An existing file without `force` is returned as is: nothing is
      downloaded or post-processed and nothing is raised. */
  lemma EnsureFileExisting(env: Env, files: set<string>, name: string, url: Option<string>, postprocess: bool)
    requires ResolvePath(env, name).Ok? && ResolvePath(env, name).value in files
    ensures EnsureFile(env, files, name, url, false, postprocess)
            == Outcome(ResolvePath(env, name), [], files)
  {
  }

  /** A missing or forced file with no usable URL raises "does not exist" for
      the resolved path, and nothing happens. */
  lemma EnsureFileWithoutUrl(env: Env, files: set<string>, name: string, url: Option<string>,
                             force: bool, postprocess: bool)
    requires ResolvePath(env, name).Ok?
    requires ResolvePath(env, name).value !in files || force
    requires !Truthy(url)
    ensures var o := EnsureFile(env, files, name, url, force, postprocess);
            && o.result == Err(DoesNotExist(ResolvePath(env, name).value))
            && o.trace == [] && o.files == files
  {
  }

  /** A missing or forced file with a usable URL is downloaded once to the
      resolved path, then post-processed if a callback was given; the call
      returns that path and the file exists afterwards. With `force` this
      holds whether or not the file already existed. */
  lemma EnsureFileDownloads(env: Env, files: set<string>, name: string, url: Option<string>,
                            force: bool, postprocess: bool)
    requires ResolvePath(env, name).Ok?
    requires ResolvePath(env, name).value !in files || force
    requires Truthy(url)
    ensures var fname := ResolvePath(env, name).value;
            var o := EnsureFile(env, files, name, url, force, postprocess);
            && o.result == Ok(fname)
            && DownloadTrace(o.trace, url.value, fname, postprocess)
            && o.files == files + {fname}
  {
  }

  /** Once a call has succeeded, a second call without `force` finds the file
      and does nothing, whatever URL or callback it is given. */
  lemma EnsureFileIdempotent(env: Env, files: set<string>, name: string, url: Option<string>,
                             force: bool, postprocess: bool, url2: Option<string>, postprocess2: bool)
    requires EnsureFile(env, files, name, url, force, postprocess).result.Ok?
    ensures var o := EnsureFile(env, files, name, url, force, postprocess);
            EnsureFile(env, o.files, name, url2, false, postprocess2) == Outcome(o.result, [], o.files)
  {
  }
}
