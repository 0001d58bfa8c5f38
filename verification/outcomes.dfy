/** Failure-carrying datatypes shared by the whole model, and the Python
    exceptions the modelled code can raise. */
module Outcomes {

  /** A value that may be missing, such as the result of a dict lookup. */
  datatype Option<+T> = None | Some(value: T)

  /** Either a value or the exception a Python call raised instead. */
  datatype Result<+T, +E> = Success(value: T) | Failure(error: E)

  /** The exceptions that escape the modelled code. `DecodeError` stands
      for `json.JSONDecodeError` and for a `UnicodeDecodeError` raised while
      reading the file; both are `ValueError`s in Python. */
  datatype Raised =
    | KeyError      // dictionary subscript with a missing key
    | IndexError    // list subscript out of range, or `pop` of an empty list
    | TypeError     // subscript of a value that does not support it, or a call with the wrong arity
    | DecodeError   // the file exists but does not hold a JSON document
}
