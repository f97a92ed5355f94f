/** Small shared vocabulary: optional values and JavaScript truthiness of optional strings. */
module Base {

  /** A value that may be absent (`undefined` / `null` in the original program). */
  datatype Option<+T> = None | Some(value: T)

  /** `if (s)` on a `string | undefined`: absent and empty strings are falsy. */
  predicate Truthy(s: Option<string>) {
    s.Some? && s.value != ""
  }
}
