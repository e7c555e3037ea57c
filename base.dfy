/** Option and Result wrappers, and the errors the dashboard's transformations can raise. */
module Base {

  datatype Option<+T> = None | Some(value: T)

  datatype Result<+T, +E> = Ok(value: T) | Err(error: E)

  /** The exceptions of the modelled code that escape to the caller. */
  datatype Error =
    | SearchRaised                      // the article search service raised
    | MissingColumn(column: string)     // a data-frame column lookup raised KeyError
    | MissingKeySegment(key: string)    // `key.split(":")[1]` raised IndexError
    | BadSeenDate(text: string)         // `strptime` raised ValueError
}
