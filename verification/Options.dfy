/** An optional value. */
module Options {
  datatype Option<+T> = None | Some(value: T)

  /** What a map holds under a key, if anything. */
  function Find<T>(m: map<string, T>, k: string): Option<T> {
    if k in m then Some(m[k]) else None
  }
}
