/** Optional values, success-or-failure results and the two exceptions the
    file helpers can raise. */
module Results {

  /** A value that may be absent; used for Python's `None` defaults. */
  datatype Option<+T> = None | Some(value: T)

  /** The outcome of an operation that may raise instead of returning. */
  datatype Result<+T, +E> = Ok(value: T) | Err(error: E)

  /** The exceptions that escape the helpers:
      - `KeyError(key)`: an environment variable read with `environ[key]` is unset;
      - `DoesNotExist(path)`: `ensure_file` found no file and had no URL to fetch it. */
  datatype Error = KeyError(key: string) | DoesNotExist(path: string)
}
