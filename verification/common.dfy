/** Small failure-carrying wrappers shared by every module of the model. */
module Common {

  /** The conventional Some/None datatype, standing for Rust's `Option`. */
  datatype Option<+T> = None | Some(value: T)

  /** Rust's `Result<T, String>`: a value or a human-readable message. */
  datatype Result<+T> = Ok(value: T) | Err(msg: string)

  /** Outcome of one parsing function: a value and the cursor after it, an error and the cursor where it stopped, or an out-of-bounds read. */
  datatype Parsed<+T> =
    | Success(value: T, next: nat)
    | Failure(msg: string, next: nat)
    | Panic(at: nat)

  /** Re-types a non-successful outcome, as `?` does. */
  function Fail<T, U>(r: Parsed<T>): (u: Parsed<U>)
    requires !r.Success?
    ensures u.Failure? == r.Failure? && u.Panic? == r.Panic?
    ensures u.Failure? ==> u.msg == r.msg && u.next == r.next
    ensures u.Panic? ==> u.at == r.at
  {
    match r
    case Failure(m, n) => Failure(m, n)
    case Panic(a) => Panic(a)
  }
}
