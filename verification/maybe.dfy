/** Optional values and fallible results, used wherever the source has
    `undefined`, an empty field, or a thrown error. */
module Maybe {

  /** A value that may be absent (`undefined` / `null` in the source). */
  datatype Option<+T> = None | Some(value: T)

  /** The outcome of a step that may throw; `Err` carries the error's message. */
  datatype Result<+T> = Ok(value: T) | Err(message: string)
}
