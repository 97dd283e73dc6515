/** A value that may be absent, and lookups that may fail. */
module Options {
  datatype Option<+T> = None | Some(value: T)

  /** The entry of a map, or what an absent entry counts as. */
  function GetOr<K, V>(m: map<K, V>, key: K, absent: V): V {
    if key in m then m[key] else absent
  }
}
