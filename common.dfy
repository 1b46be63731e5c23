/** Shared result types of the tenant splitter model. */
module Common {

  /** An optional value: Python's `None` versus a present value. */
  datatype Option<T> = None | Some(value: T) {
    function GetOr(default: T): T {
      match this
      case Some(v) => v
      case None => default
    }
  }

  /** The two exceptions the attribution core can raise. */
  datatype Error =
    | MalformedDate     // `datetime.strptime` rejects a matched DD/MM/YYYY token
    | IndexOutOfRange   // `lines[i + 1]` read past the last line

  datatype Result<T> = Ok(value: T) | Err(error: Error)
}
