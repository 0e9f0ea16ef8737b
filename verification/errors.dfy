/**
 * The exception classes of the server (`DNSError` and its four subclasses),
 * each optionally carrying the transaction id and the question bytes from
 * which a contextual error response is built, plus one variant for every
 * exception that is not a `DNSError` (an `IndexError`, an `OSError`, ...).
 * A raised exception becomes the `Err` side of a `Result`.
 */
module Errors {
  import opened Wire

  datatype Option<+T> = None | Some(value: T)

  datatype DnsError =
    | UnknownRecordTypeError(transactionId: Option<Bytes>, question: Option<Bytes>)
    | FormatError(transactionId: Option<Bytes>, question: Option<Bytes>)
    | NoRecordError(transactionId: Option<Bytes>, question: Option<Bytes>)
    | FunctionalityNotImplementedError(transactionId: Option<Bytes>, question: Option<Bytes>)
      /** Any exception outside the `DNSError` hierarchy. */
    | Other

  /** A `FormatError` raised without context, as every resolver raises it. */
  const Malformed: DnsError := FormatError(None, None)

  datatype Result<+T> = Ok(value: T) | Err(error: DnsError) {
    predicate IsFailure() {
      Err?
    }

    function PropagateFailure<U>(): Result<U>
      requires Err?
    {
      Err(error)
    }

    function Extract(): T
      requires Ok?
    {
      value
    }
  }
}
