/** Optional values: a JavaScript `null` / `undefined` is `None`. */
module Options {

  datatype Option<+T> = None | Some(value: T)

  /** JavaScript truthiness of a nullable string: present and non-empty. */
  predicate Truthy(s: Option<string>) {
    s.Some? && s.value != ""
  }
}
