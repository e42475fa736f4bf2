/** A value that may be absent, and a call that may fail. */
module Options {

  datatype Option<+T> = None | Some(value: T)

  datatype Result<+T, +E> = Ok(value: T) | Err(error: E)

  function Lookup<K, V>(m: map<K, V>, key: K): Option<V> {
    if key in m then Some(m[key]) else None
  }

  /** A text by name; an absent one reads as empty. */
  function TextAt(m: map<string, string>, name: string): string {
    if name in m then m[name] else ""
  }
}
