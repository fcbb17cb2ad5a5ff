/**
 * The use-case layer (pkg/opcua/read_variable.go): request and response
 * value objects and `ReadVariableUseCase.Execute`, which delegates to an
 * injected reader and annotates its errors.
 *
 * A reader is a capability `Read(ctx, nodeID) (*ReadVariableResponse, error)`.
 * It is modelled as a state-passing function `(R, string) -> (R, Reply<V>)`:
 * `R` is whatever state the reader carries (a session script, a stub's
 * recorded calls) and `V` is the decoded value type standing for Go's `any`.
 */
module UseCase {
  import opened Basics
  import opened GoErrors

  datatype ReadVariableRequest = ReadVariableRequest(nodeId: string)

  datatype ReadVariableResponse<V> = ReadVariableResponse(value: V)

  /** Go's `(*ReadVariableResponse, error)` pair; either half may be nil. */
  datatype Reply<V> = Reply(response: Option<ReadVariableResponse<V>>, err: Option<Error>)
  {
    /** Exactly one of the two halves is non-nil. */
    predicate Exclusive()
    {
      response.Some? != err.Some?
    }
  }

  datatype ReadVariableUseCase<R> = ReadVariableUseCase(client: R)

  /** The prefix `Execute` puts in front of a reader's error. */
  const FailedToRead := "failed to read variable"

  /** A use case whose `Execute` reads through `reader`. */
  function NewReadVariableUsecase<R>(reader: R): (u: ReadVariableUseCase<R>)
    ensures u.client == reader
  {
    ReadVariableUseCase(reader)
  }

  /** A request for exactly the node id given. */
  function NewReadVariableRequest(nodeId: string): (request: ReadVariableRequest)
    ensures request.nodeId == nodeId
  {
    ReadVariableRequest(nodeId)
  }

  /**
   * One call of the reader on the request's node id, no retry; a reader
   * error is wrapped and the reader's response (if any) dropped, otherwise
   * the reader's reply passes through untouched.
   */
  function Execute<R, V>(read: (R, string) -> (R, Reply<V>), u: ReadVariableUseCase<R>,
                         request: ReadVariableRequest): (out: (ReadVariableUseCase<R>, Reply<V>))
    ensures out.0 == ReadVariableUseCase(read(u.client, request.nodeId).0)
    ensures read(u.client, request.nodeId).1.err.None? ==> out.1 == read(u.client, request.nodeId).1
    ensures read(u.client, request.nodeId).1.err.Some? ==>
              && out.1.response.None?
              && out.1.err.Some?
              && Unwrap(out.1.err.value) == read(u.client, request.nodeId).1.err
              && out.1.err.value.prefix == FailedToRead
  {
    var (client', reply) := read(u.client, request.nodeId);
    if reply.err.Some? then
      (ReadVariableUseCase(client'), Reply(None, Some(Wrapped(FailedToRead, reply.err.value))))
    else
      (ReadVariableUseCase(client'), reply)
  }

  /**
   * The error `Execute` returns is the reader's error behind the prefix:
   * its text is "failed to read variable: " followed by the cause's text,
   * and `errors.Is` still finds everything the cause matches.
   */
  lemma ExecuteWrapsCause<R, V>(read: (R, string) -> (R, Reply<V>), u: ReadVariableUseCase<R>,
                                request: ReadVariableRequest, statusText: Ua.StatusCode -> string)
    requires read(u.client, request.nodeId).1.err.Some?
    ensures var cause := read(u.client, request.nodeId).1.err.value;
            var e := Execute(read, u, request).1.err.value;
            && Text(e, statusText) == FailedToRead + ": " + Text(cause, statusText)
            && forall t :: Is(cause, t) ==> Is(e, t)
  {
  }

  /** A reader that answers both a response and an error loses the response. */
  lemma ExecuteDropsResponseOnError<R, V>(read: (R, string) -> (R, Reply<V>), u: ReadVariableUseCase<R>,
                                          request: ReadVariableRequest)
    requires read(u.client, request.nodeId).1.response.Some?
    requires read(u.client, request.nodeId).1.err.Some?
    ensures Execute(read, u, request).1.response.None?
    ensures Execute(read, u, request).1.Exclusive()
  {
  }

  /**
   * `Execute` never makes a well-formed reply ill-formed: the error path is
   * always exclusive, and the success path is the reader's own reply.
   */
  lemma ExecuteKeepsExclusive<R, V>(read: (R, string) -> (R, Reply<V>), u: ReadVariableUseCase<R>,
                                    request: ReadVariableRequest)
    ensures read(u.client, request.nodeId).1.Exclusive() ==> Execute(read, u, request).1.Exclusive()
    ensures read(u.client, request.nodeId).1.err.Some? ==> Execute(read, u, request).1.Exclusive()
  {
  }

  /** A reader wrapped so that its state also records every node id it is asked for. */
  function Traced<R, V>(read: (R, string) -> (R, Reply<V>)): ((seq<string>, R), string) -> ((seq<string>, R), Reply<V>)
  {
    (s: (seq<string>, R), nodeId: string) =>
      var next := read(s.1, nodeId);
      ((s.0 + [nodeId], next.0), next.1)
  }

  /**
   * A use case built with `NewReadVariableUsecase` over any reader, run on
   * a request built with `NewReadVariableRequest(n)`, asks that reader
   * exactly once and for `n` exactly, and gives back what that one call
   * produced.
   */
  lemma ExecuteCallsReaderOnce<R, V>(read: (R, string) -> (R, Reply<V>), calls: seq<string>, reader: R, n: string)
    ensures var out := Execute(Traced(read), NewReadVariableUsecase((calls, reader)), NewReadVariableRequest(n));
            && out.0.client.0 == calls + [n]
            && out.0.client.1 == read(reader, n).0
            && (read(reader, n).1.err.None? ==> out.1 == read(reader, n).1)
  {
  }
}
