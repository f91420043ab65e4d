/** A value that may be missing: nil, or the second result of a Go map lookup. */
module Options {
  datatype Option<+T> = None | Some(value: T)

  function Find<T>(m: map<string, T>, k: string): Option<T> {
    if k in m then Some(m[k]) else None
  }
}
