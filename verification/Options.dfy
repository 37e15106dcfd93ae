/** An optional value: the source's `null`, `undefined` and missing entries. */
module Options {
  datatype Option<+T> = None | Some(value: T)

  /** The source's truth test on a text: absent and empty are the same to it. */
  predicate Truthy(text: Option<string>) {
    text.Some? && text.value != ""
  }
}
