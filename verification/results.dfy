/** Failure-carrying values shared by every module of the model.

    The modelled code signals failure by raising a Python exception; each
    exception kind it can raise on the modelled paths is one `Error` case.
 */
module Results {

  datatype Option<T> = None | Some(value: T)

  datatype Error =
    | KeyError(key: string)   // a dict lookup on a missing key
    | IndexError              // `[0]` on an empty list
    | ZeroDivisionError       // a division by a date window of zero length
    | TypeError               // a call or subscript on a value of the wrong shape
    | AttributeError          // an attribute read on a value that has no such attribute
    | ValueError              // unpacking a sequence of the wrong length
    | PagingNotFinished       // the page budget ran out before a short page came back

  /** A value, or the exception that the source would have raised instead. */
  datatype Result<T> = Ok(value: T) | Err(error: Error) {

    predicate IsFailure() {
      Err?
    }

    function PropagateFailure<U>(): Result<U>
      requires Err?
    {
      Err(error)
    }

    function Extract(): T
      requires Ok?
    {
      value
    }
  }
}
