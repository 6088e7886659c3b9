/**
 * Outcomes of the library's operations: a value, or the Python exception raised.
 */
module Results {
  import opened DictKeys

  datatype Option<T> = None | Some(value: T)

  /** The exceptions the modelled operations raise. A `KeyError` raised by a lookup in the
      attribute index carries the attribute name as a string key. */
  datatype Error =
    | TypeError
    | IndexError
    | KeyError(key: Key)
    | AttributeError(name: string)

  datatype Result<T> = Ok(value: T) | Err(error: Error)
}
