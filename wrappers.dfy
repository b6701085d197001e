/** Option and Result, and the Python exceptions the crawl code can raise. */
module Wrappers {

  datatype Option<+T> = None | Some(value: T)

  /** The exceptions raised by the spider's callbacks, named after Python's built-in ones. */
  datatype Exception =
    | EmptySequence          // ValueError: min() / max() arg is an empty sequence
    | InvalidLiteral(text: string)  // ValueError: invalid literal for int()
    | IndexOutOfRange        // IndexError: list index out of range
    | MissingKey(key: string)       // KeyError on a dict or an item

  datatype Result<+T> = Ok(value: T) | Err(error: Exception)
}
