/** Option and Result values, and the Python exceptions that the
    calendar export can raise, as plain data. */
module Results {

  datatype Option<T> = None | Some(value: T)

  /** The exceptions `get_ical` lets escape, one constructor per kind. */
  datatype Failure =
    | IndexError                 // fewer records than the debug access expects
    | KeyError(key: string)      // a dictionary subscript on a missing key
    | TypeError                  // a subscript on `None`
    | ValueError(input: string)  // a date string `to_datetime` refuses, whatever Python's exception kind

  datatype Result<T> = Ok(value: T) | Err(error: Failure)
}
