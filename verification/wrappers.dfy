/** The optional value shared by every module of the model: `None` stands for
    JavaScript's `null` and `undefined` wherever the code treats the two
    alike, a present value is `Some`. */
module Wrappers {

  datatype Option<+T> = None | Some(value: T)

  /** JavaScript truthiness of an optional string: absent, `null` and `""` are falsy. */
  predicate Truthy(s: Option<string>) {
    s.Some? && s.value != ""
  }
}
