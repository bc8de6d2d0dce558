/** The browser's localStorage, seen as a map from keys to string values. */
module Storage {
  import opened Wrappers

  type Store = map<string, string>

  /** localStorage.getItem: the stored string, or None for `null`. */
  function Get(store: Store, key: string): Option<string>
  {
    if key in store then Some(store[key]) else None
  }

  /** JavaScript truthiness of a getItem result: `null` and `""` are falsy. */
  predicate Truthy(v: Option<string>)
  {
    v.Some? && v.value != ""
  }

  /** Boolean.prototype.toString. */
  function BoolString(b: bool): string
  {
    if b then "true" else "false"
  }

}
