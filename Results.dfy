/** Failure values shared by the model: the exceptions the tool's core can throw,
    turned into ordinary return values. */
module Results {

  datatype Option<+T> = None | Some(value: T)

  /** The exceptions the core raises. `KeyNotFound` is the `ArgumentOutOfRangeException`
      "Key not found" of the key lookup; `ArgumentOutOfRange` is any other
      `ArgumentOutOfRangeException.ThrowIfEqual`; `IndexOutOfRange` is an array index
      running past the end of a line array. */
  datatype Error = KeyNotFound | ArgumentOutOfRange | IndexOutOfRange

  datatype Result<+T> = Ok(value: T) | Err(error: Error)

  /** The result of an operation that produces nothing but may fail. */
  datatype Outcome = Pass | Fail(error: Error)
}
