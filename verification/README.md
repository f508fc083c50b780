# torchtext file helpers, modelled in Dafny

This project models the decision logic of the `File` helper class in
`torchtext/files.py`: the helpers that locate a named resource under a
configurable home directory, download it when it is missing, and open it with
the reader that its file name selects.

Three rules are modelled, with the file system, the network and the archive
libraries abstracted away:

- **Format classification** (`File.open`). A file name maps to one of the
  readers `Zip`, `Bz2`, `Tar`, `Gzip` or `Plain`. The choice uses the
  `os.path.splitext` extension, except that names ending in `.tar.gz` or
  `.tar.bz2` always open as tar. `splitext` is modelled exactly: the
  extension starts at the last `.` of the final path component, and only
  when a character other than `.` precedes that dot in the component.
- **Path resolution** (`File.path`). The root is `$TEXT_HOME`, or
  `$HOME/.text` when `TEXT_HOME` is unset. The resource name is joined to the
  root with `os.path.join`'s POSIX rule: an absolute name replaces the root,
  and no second `/` is added after a root that already ends in one.
- **Ensure-file** (`File.ensure_file`). This is a pure function over the
  environment and the set of existing files. It returns the result (a path or
  a raised error), the trace of actions performed (`Download(url, path)`,
  `PostProcess(path)`) and the set of files afterwards.

Modules:

- `Results`: `Option`, `Result` and the two exceptions (`KeyError`, `DoesNotExist`).
- `PosixPath`: `rfind`, `endswith`, `splitext` and `join`.
- `Formats`: the reader chosen by `File.open`.
- `Locations`: the root and the resolved path.
- `Ensure`: `ensure_file`.

Parameters stand in for the process environment (a `map<string, string>`),
the file system (the set of path strings naming existing regular files,
compared as plain strings) and the
post-processing callback (a flag saying whether one was given).

Where the code and its docstring differ, the model follows the code. The
docstring of `ensure_file` (torchtext/files.py:52) says files are located in
the `TEXT_HOME` folder. But the
fallback root is the default argument of `environ.get`, so Python evaluates
`environ['HOME']` even when `TEXT_HOME` is set. A missing `HOME` therefore
raises `KeyError` in every case. `ResolvePath` and `EnsureFile` model this
as written; `ResolvePathIntended` is the corrected version (see
"## Findings"). Also, `TEXT_HOME` counts
as set whenever the key is present, even with an empty value. And
`ensure_file` with `force` set and no URL raises "does not exist" even when
the file exists, because the URL test sits inside the `force` branch.

## Model

| member | source | states |
|---|---|---|
| PosixPath.LastIndexOf | torchtext/files.py:86 | the last-occurrence index used by `splitext`: -1 or an index holding the character, with no occurrence after it |
| PosixPath.RFind | torchtext/files.py:86 | a backwards scan that finds the same index as `LastIndexOf` |
| PosixPath.SplitExt | torchtext/files.py:86 | `splitext` returns a root and an extension that concatenate back to the name; the extension is empty or starts with `.` |
| PosixPath.SplitExtCharacterization | torchtext/files.py:86 | the extension is non-empty exactly when some dot is the last dot, has no separator after it and has an ordinary character before it in the same component; the split is at that dot |
| PosixPath.ExtOfSuffix | torchtext/files.py:86 | a name ending in an ordinary character and then `.xyz` (no dots or separators in `xyz`) has extension `.xyz` |
| PosixPath.SplitExtScan | torchtext/files.py:86 | the library's loop (last separator, last dot, skip leading dots) computes the same split as `SplitExt` |
| PosixPath.Join | torchtext/files.py:39 | an absolute name replaces the root; otherwise the result is the root, then one separator only when the root is non-empty and does not already end with one, then the name |
| Formats.TarSuffixExt | torchtext/files.py:86-88 | a name ending in `.tar.gz` has extension `.gz`, and one ending in `.tar.bz2` has `.bz2`, so the override is needed |
| Formats.TarSuffixIsTar | torchtext/files.py:87-88 | every name ending in `.tar.gz` or `.tar.bz2` opens as tar, although its extension is `.gz` or `.bz2` |
| Formats.Classify | torchtext/files.py:86-98 | each reader is chosen exactly when the `splitext` extension names it (gzip and bzip2 only without a tar double suffix, tar also with one); every other extension, empty and upper-case ones included, opens as plain |
| Formats.ClassifyTarExamples | torchtext/files.py:87-88 | `foo.tar.gz` and `data/corpus.tar.bz2` open as tar |
| Formats.ClassifyExtensionExamples | torchtext/files.py:86-98 | only the last dot counts (`a.b.gz` is gzip), `train.zip` is zip, and the comparison is exact (`X.ZIP` is plain) |
| Formats.ClassifyPlainExamples | torchtext/files.py:86-98 | `dir.gz/data`, `.gz` and `noext` have no extension and open as plain |
| Locations.RootAsWritten | torchtext/files.py:38 | as written, the root raises `KeyError('HOME')` exactly when `HOME` is unset, even if `TEXT_HOME` is set; otherwise it is `$TEXT_HOME` when that is set, else `join($HOME, '.text')` |
| Locations.Root | torchtext/files.py:38 | the intended root is `$TEXT_HOME` whenever that key is present; otherwise it is `join($HOME, '.text')`; it raises only when both are unset |
| Locations.RootAsWrittenNeedsHome | torchtext/files.py:38 | with only `TEXT_HOME=/data` set, the root and the path of `x` raise as written, while the intended root is `/data` and the intended path `/data/x` |
| Locations.RootAgreesWhenHomeSet | torchtext/files.py:38-39 | with `HOME` set, the code as written and the intended version agree on the root and on every resolved path |
| Locations.ResolvePath | torchtext/files.py:37-40 | `File.path` raises `KeyError('HOME')` exactly when `HOME` is unset; otherwise the path ends with the name, and is the name itself when the name is absolute |
| Locations.ResolvePathIntended | torchtext/files.py:37-40 | the intended path raises only when both variables are unset, and is `join($TEXT_HOME, name)` whenever `TEXT_HOME` is set |
| Locations.ResolvePathInsideRoot | torchtext/files.py:38-40 | a relative name resolves to exactly the root, then one separator (none when the root is empty or ends with one), then the name, with nothing else in between |
| Locations.ResolvePathReadsOnlyRootVariables | torchtext/files.py:37-40 | the path is determined by the name, `TEXT_HOME` and `HOME` alone |
| Ensure.EnsureFile | torchtext/files.py:62-71 | with `HOME` unset the call raises `KeyError('HOME')` and does nothing; files are only added, and only at the returned path; a returned path is the resolved path and exists afterwards; an error leaves no trace and no change; a non-empty trace means a truthy URL, one download to the returned path first, then the callback if one was given |
| Ensure.EnsureFileExisting | torchtext/files.py:62-71 | an existing file without `force` is returned unchanged, with an empty trace and no error |
| Ensure.EnsureFileWithoutUrl | torchtext/files.py:63-70 | a missing or forced file with a `None` or empty URL raises "does not exist" for the resolved path, and nothing is downloaded or post-processed |
| Ensure.EnsureFileDownloads | torchtext/files.py:63-71 | a missing or forced file (forced: existing or not) with a truthy URL gets exactly one download to the resolved path, then the callback if one was given; the path is returned and exists afterwards |
| Ensure.EnsureFileIdempotent | torchtext/files.py:62-71 | after a successful call, a second call without `force` returns the same path and does nothing |

## Left out

- `download_file` (HTTP GET, chunked write, skipping empty keep-alive chunks): network and file I/O. A download is an action that always succeeds and makes its path exist; transport errors are not modelled.
- `makedirs` and the parent-directory check in `download_file`: file system side effects.
- The archive handles from `zipfile`, `bz2`, `tarfile` and `gzip`, the built-in `open`, and the `mode` argument: foreign library calls. Only the choice of reader is modelled.
- `num_lines`: what it counts depends on each library's iteration semantics.
- Logging in `ensure_file`: it does not affect results.
- The post-processing callback: opaque user code. Only its invocation is recorded. It is assumed to return normally and not to remove the file. If it raised, the source would propagate that error after the download, leaving the file and both actions behind; the model has no such outcome.
- `makedirs('')` failing: with `TEXT_HOME` empty and a name without `/`, the resolved path has no directory part and `download_file` calls `makedirs('')`, which raises. Directory creation is not modelled, so the model reports a successful download there.
- The unused class constant `known_extensions`: no code reads it.
- The exact text of the "does not exist" message: the error carries the resolved path only.
- Path separators other than `/`, as on Windows.
- Path identity: the file system is a set of path strings, and paths are compared as strings. There is no normalisation (`/d/./x`, `/d//x` and `/d/x` are different paths here), no symbolic links and no other aliasing between spellings. `EnsureFile`'s promise that files are added only at the returned path holds under this abstraction.
- Concurrent `ensure_file` calls racing on one destination: the model is sequential.

## Findings

| source | as written | input that shows it | evidently intended | confidence | as-written member | corrected member |
|---|---|---|---|---|---|---|
| torchtext/files.py:38 | `environ.get('TEXT_HOME', path.join(environ['HOME'], '.text'))` evaluates the default argument, and so reads `environ['HOME']`, before the lookup of `TEXT_HOME` | environment with `TEXT_HOME=/data` and no `HOME`: raises `KeyError('HOME')` | root `/data`; `HOME` needed only when `TEXT_HOME` is unset | high that Python raises here; medium that the authors meant otherwise (not executed) | Locations.RootAsWritten, Locations.ResolvePath, Locations.RootAsWrittenNeedsHome | Locations.Root, Locations.ResolvePathIntended, Locations.RootAgreesWhenHomeSet |
