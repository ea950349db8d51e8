/** JavaScript value conventions shared by every module of the model. */
module JsValues {

  /** A JSON field or optional property: `None` stands for `undefined` or `null`. */
  datatype Option<+T> = None | Some(value: T)

  /** The outcome of an async call that either resolves with a value or throws an `Error` carrying a message. */
  datatype Result<+T> = Ok(value: T) | Err(message: string)

  /** JavaScript truthiness of an optional string: `undefined`, `null` and `""` are falsy. */
  predicate Truthy(v: Option<string>)
  {
    v.Some? && v.value != ""
  }
}
