/**
 * How a JavaScript promise stands once the handler stops looking at it, and
 * what a rejected promise or a `throw` carries.
 */
module Async {
  /** A thrown value; the model keeps only its message. */
  datatype Cause = Cause(message: string)

  /** `Pending` is a promise that never settles (a stalled encoder, say). */
  datatype Promise<+T> = Pending | Fulfilled(value: T) | Rejected(reason: Cause)

  /** The same settlement with the fulfilment value dropped. */
  function Settlement<T>(p: Promise<T>): (s: Promise<()>)
    ensures s.Pending? <==> p.Pending?
    ensures s.Fulfilled? <==> p.Fulfilled?
    ensures p.Rejected? ==> s == Rejected(p.reason)
  {
    match p
    case Pending => Pending
    case Fulfilled(_) => Fulfilled(())
    case Rejected(e) => Rejected(e)
  }
}
