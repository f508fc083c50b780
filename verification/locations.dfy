/** Where `File.path` puts a named resource: under `$TEXT_HOME`, or under
    `$HOME/.text` when that variable is unset. */
module Locations {
  import opened Results
  import opened PosixPath

  /** The process environment, passed explicitly. */
  type Env = map<string, string>

  const TextHome: string := "TEXT_HOME"
  const Home: string := "HOME"
  const DefaultDir: string := ".text"

  /** The root as `File.path` computes it. The fallback `$HOME/.text` is the
      default argument of `environ.get`, so Python evaluates it -- and reads
      `environ['HOME']` -- before looking at `TEXT_HOME`. */
  function RootAsWritten(env: Env): (r: Result<string, Error>)
    ensures r.Err? <==> Home !in env
    ensures r.Err? ==> r.error == KeyError(Home)
    ensures r.Ok? && TextHome in env ==> r.value == env[TextHome]
    ensures r.Ok? && TextHome !in env ==> r.value == Join(env[Home], DefaultDir)
  {
    if Home !in env then Err(KeyError(Home))
    else
      var fallback := Join(env[Home], DefaultDir);
      Ok(if TextHome in env then env[TextHome] else fallback)
  }

  /** The root `File.path` evidently means: `$TEXT_HOME` whenever it is set
      (present, even if empty), and `$HOME/.text` only when it is not. */
  function Root(env: Env): (r: Result<string, Error>)
    ensures TextHome in env ==> r == Ok(env[TextHome])
    ensures r.Err? <==> TextHome !in env && Home !in env
    ensures r.Err? ==> r.error == KeyError(Home)
    ensures TextHome !in env && Home in env ==> r == Ok(Join(env[Home], DefaultDir))
  {
    if TextHome in env then Ok(env[TextHome])
    else if Home in env then Ok(Join(env[Home], DefaultDir))
    else Err(KeyError(Home))
  }

  /** `File.path` as written: the root as written joined with `name`. It
      raises `KeyError('HOME')` whenever `HOME` is unset. */
  function ResolvePath(env: Env, name: string): (r: Result<string, Error>)
    ensures r.Err? <==> Home !in env
    ensures r.Err? ==> r.error == KeyError(Home)
    ensures r.Ok? ==> EndsWith(r.value, name)
    ensures r.Ok? && |name| > 0 && name[0] == Sep ==> r.value == name
  {
    match RootAsWritten(env)
    case Ok(root) => Ok(Join(root, name))
    case Err(e) => Err(e)
  }

  /** `File.path` as evidently intended: the intended root joined with `name`. */
  function ResolvePathIntended(env: Env, name: string): (r: Result<string, Error>)
    ensures r.Err? <==> TextHome !in env && Home !in env
    ensures r.Err? ==> r.error == KeyError(Home)
    ensures TextHome in env ==> r == Ok(Join(env[TextHome], name))
  {
    match Root(env)
    case Ok(root) => Ok(Join(root, name))
    case Err(e) => Err(e)
  }

  /** Setting `TEXT_HOME` alone makes the code as written raise, while the
      intended root, and the intended path under it, are `$TEXT_HOME`-based. */
  lemma RootAsWrittenNeedsHome()
    ensures RootAsWritten(map[TextHome := "/data"]) == Err(KeyError(Home))
    ensures ResolvePath(map[TextHome := "/data"], "x") == Err(KeyError(Home))
    ensures Root(map[TextHome := "/data"]) == Ok("/data")
    ensures ResolvePathIntended(map[TextHome := "/data"], "x") == Ok("/data/x")
  {
    var env := map[TextHome := "/data"];
    assert TextHome in env && env[TextHome] == "/data";
    assert "/data"[4] != Sep;
    assert Join("/data", "x") == "/data/x";
  }

  /** Whenever `HOME` is set, the code as written and the intended version
      agree, on the root and on every resolved path. */
  lemma RootAgreesWhenHomeSet(env: Env, name: string)
    requires Home in env
    ensures RootAsWritten(env) == Root(env)
    ensures ResolvePath(env, name) == ResolvePathIntended(env, name)
  {
  }

  /** A relative name lands inside the root directory: the result is the root,
      then a separator (unless the root is empty or already ends with one),
      then the name. */
  lemma ResolvePathInsideRoot(env: Env, name: string)
    requires RootAsWritten(env).Ok?
    requires !(|name| > 0 && name[0] == Sep)
    ensures var root := RootAsWritten(env).value;
            var r := ResolvePath(env, name);
            && r.Ok?
            && |root| <= |r.value| && r.value[..|root|] == root
            && EndsWith(r.value, name)
            && (root != [] ==> |root| <= |r.value| - |name| && r.value[|r.value| - |name| - 1] == Sep)
            && |r.value| == |root| + |name| + (if root == [] || root[|root| - 1] == Sep then 0 else 1)
  {
  }

  /** The resolved path depends on the environment only through `TEXT_HOME`
      and `HOME`. */
  lemma ResolvePathReadsOnlyRootVariables(env1: Env, env2: Env, name: string)
    requires TextHome in env1 <==> TextHome in env2
    requires TextHome in env1 ==> env1[TextHome] == env2[TextHome]
    requires Home in env1 <==> Home in env2
    requires Home in env1 ==> env1[Home] == env2[Home]
    ensures ResolvePath(env1, name) == ResolvePath(env2, name)
  {
  }
}
