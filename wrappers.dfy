/** Option and Result values used across the model.  `Result` stands for a
    Python call that either returns a value or raises; only the exception
    classes the modelled code can actually raise are listed. */
module Wrappers {

  datatype Option<+T> = None | Some(value: T)

  /** Python exception classes that the modelled code can raise. */
  datatype PyError =
    | TypeError       // indexing a `str` with a `str` key
    | AttributeError  // calling `.split` on a list
    | IndexError      // `line.split('"')[3]` on a short line
    | ValueError      // `int(key)` on a non-numeric key
    | KeyError        // `database["wm_classes"]` on a database without it

  datatype Result<+T> = Ok(value: T) | Raise(error: PyError)
}
