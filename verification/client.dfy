/**
 * The older use case of pkg/opcua/client.go: `ReadVariable(ctx, nodeID)`
 * over an `IClient`, the same pass-through-and-wrap contract as `Execute`
 * but taking the node id directly. It shares the response and reply types
 * with the newer use case.
 */
module LegacyClient {
  import opened Basics
  import opened GoErrors
  import opened UseCase

  datatype LegacyUseCase<R> = LegacyUseCase(client: R)

  /**
   * One call of the client on `nodeId` unchanged; on error a nil response
   * and the error wrapped with "failed to read variable", otherwise the
   * client's reply as it came.
   */
  function ReadVariable<R, V>(read: (R, string) -> (R, Reply<V>), u: LegacyUseCase<R>, nodeId: string)
    : (out: (LegacyUseCase<R>, Reply<V>))
    ensures out.0 == LegacyUseCase(read(u.client, nodeId).0)
    ensures read(u.client, nodeId).1.err.None? ==> out.1 == read(u.client, nodeId).1
    ensures read(u.client, nodeId).1.err.Some? ==>
              && out.1.response.None?
              && out.1.err.Some?
              && Unwrap(out.1.err.value) == read(u.client, nodeId).1.err
              && out.1.err.value.prefix == FailedToRead
  {
    var (client', reply) := read(u.client, nodeId);
    if reply.err != None then
      (LegacyUseCase(client'), Reply(None, Some(Wrapped(FailedToRead, reply.err.value))))
    else
      (LegacyUseCase(client'), reply)
  }

  /**
   * The two use cases agree: `ReadVariable(n)` over a client gives the
   * reply and reader state that `Execute` gives on a request for `n` over
   * the same reader.
   */
  lemma ReadVariableAgreesWithExecute<R, V>(read: (R, string) -> (R, Reply<V>), client: R, nodeId: string)
    ensures var legacy := ReadVariable(read, LegacyUseCase(client), nodeId);
            var current := Execute(read, NewReadVariableUsecase(client), NewReadVariableRequest(nodeId));
            legacy.1 == current.1 && legacy.0.client == current.0.client
  {
  }
}
