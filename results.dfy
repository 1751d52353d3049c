/** Optional values, results, and the exceptions the library can raise. */
module Results {

  datatype Option<+T> = None | Some(value: T)

  /** The exceptions that escape an operation of the library. */
  datatype Error =
    | InvalidLiteral(text: string)  // int() rejects the text (ValueError)
    | InvalidDate(text: string)     // strptime rejects the timestamp (ValueError)
    | Base64Length                  // one data character more than a multiple of four (binascii.Error)
    | Base64Padding                 // data characters end inside an incomplete quad (binascii.Error)

  datatype Result<+T> = Ok(value: T) | Err(error: Error)
}
