/** Shared vocabulary: optional values, the errors the client surfaces, and string prefix/suffix tests. */
module Common {

  /** A value that may be absent (Python's `None`). */
  datatype Option<+T> = None | Some(value: T)

  /** The `ValueError`s the client raises to its caller. */
  datatype Error =
    | InvalidScheme   // the URL does not start with `http://` or `https://`
    | MissingApiKey   // neither the argument nor the environment supplies a key
    | InvalidUrl      // `urlparse` rejects the start URL

  /** Either a value or the error raised instead of returning it. */
  datatype Result<+T> = Ok(value: T) | Err(error: Error)

  /** Python's `s.startswith(prefix)`. */
  predicate StartsWith(s: string, prefix: string) {
    |prefix| <= |s| && s[..|prefix|] == prefix
  }

  /** Python's `s.endswith(suffix)`. */
  predicate EndsWith(s: string, suffix: string) {
    |suffix| <= |s| && s[|s| - |suffix|..] == suffix
  }
}
