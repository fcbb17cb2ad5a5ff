/**
 * Go error values as the read path builds and inspects them: the sentinel
 * `io.EOF`, status codes used as errors, opaque errors, and the two ways
 * `fmt.Errorf` is used — with `%w` (the result unwraps to its cause) and
 * with `%s` (the result only shows the cause's text).
 */
module GoErrors {
  import opened Basics
  import opened Ua

  datatype Error =
    | EndOfStream                               // io.EOF
    | Status(code: StatusCode)                  // a ua.StatusCode returned as an error
    | Plain(text: string)                       // errors.New / fmt.Errorf without a verb on an error
    | Wrapped(prefix: string, cause: Error)     // fmt.Errorf(prefix + ": %w", cause)
    | Described(prefix: string, shown: Error)   // fmt.Errorf(prefix + ": %s", shown.Error())

  /** `errors.Unwrap`: only a `%w` error has a cause. */
  function Unwrap(e: Error): Option<Error>
  {
    match e
    case Wrapped(_, cause) => Some(cause)
    case _ => None
  }

  /** The error followed by everything reachable through `Unwrap`, outermost first. */
  function Chain(e: Error): (c: seq<Error>)
    ensures |c| >= 1 && c[0] == e
  {
    match e
    case Wrapped(_, cause) => [e] + Chain(cause)
    case _ => [e]
  }

  /**
   * `errors.Is(e, target)`. Go compares each link of the chain with `==`;
   * for the sentinel targets the core asks about (io.EOF and status codes)
   * that is the value equality used here.
   */
  predicate Is(e: Error, target: Error)
  {
    target in Chain(e)
  }

  /**
   * `e.Error()`. The text of a status code comes from the protocol
   * library's own table, so it is a parameter.
   */
  function Text(e: Error, statusText: StatusCode -> string): string
  {
    match e
    case EndOfStream => "EOF"
    case Status(code) => statusText(code)
    case Plain(text) => text
    case Wrapped(prefix, cause) => prefix + ": " + Text(cause, statusText)
    case Described(prefix, shown) => prefix + ": " + Text(shown, statusText)
  }

  /**
   * Wrapping with `%w` keeps the cause inspectable: the wrapper unwraps to
   * it, every target the cause matches the wrapper matches too, and the
   * text is the prefix, a colon, and the cause's text.
   */
  lemma WrapKeepsCause(prefix: string, cause: Error, statusText: StatusCode -> string)
    ensures Unwrap(Wrapped(prefix, cause)) == Some(cause)
    ensures forall t :: Is(Wrapped(prefix, cause), t) <==> t == Wrapped(prefix, cause) || Is(cause, t)
    ensures Text(Wrapped(prefix, cause), statusText) == prefix + ": " + Text(cause, statusText)
  {
  }

  /**
   * Describing with `%s` hides the cause: the result unwraps to nothing
   * and matches no target but itself, although its text shows the cause.
   */
  lemma DescribeHidesCause(prefix: string, shown: Error, statusText: StatusCode -> string)
    ensures Unwrap(Described(prefix, shown)) == None
    ensures forall t :: Is(Described(prefix, shown), t) <==> t == Described(prefix, shown)
    ensures Text(Described(prefix, shown), statusText) == prefix + ": " + Text(shown, statusText)
  {
  }
}
