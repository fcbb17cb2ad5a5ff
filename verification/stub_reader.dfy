/**
 * The recording test double of pkg/opcua/read_variable_test.go and the
 * regression scenario run against it.
 *
 * The stub's `value any` may be nil, so the stub reads values of type
 * `Option<V>`: `None` is the nil interface value. Go shares the stub
 * between the test and the use case through a pointer; here the use case
 * holds the stub's state and every step hands the updated state on.
 */
module StubReader {
  import opened Basics
  import opened GoErrors
  import opened UseCase

  datatype StubOpcuaReader<V> = StubOpcuaReader(value: Option<V>, err: Option<Error>, nodeIds: seq<string>)

  const StubValueNotSet := "stub value not set"

  /**
   * Record the node id, then answer the "not set" error if neither a value
   * nor an error is configured, and otherwise a response carrying the
   * configured value together with the configured error.
   */
  function StubRead<V>(r: StubOpcuaReader<V>, nodeId: string): (out: (StubOpcuaReader<V>, Reply<Option<V>>))
    ensures out.0 == r.(nodeIds := r.nodeIds + [nodeId])
    ensures out.1.response.Some? || out.1.err.Some?
    ensures r.value.None? && r.err.None? <==> out.1 == Reply(None, Some(Plain(StubValueNotSet)))
    ensures !(r.value.None? && r.err.None?) ==> out.1 == Reply(Some(ReadVariableResponse(r.value)), r.err)
  {
    var r' := r.(nodeIds := r.nodeIds + [nodeId]);
    if r.value.None? && r.err.None? then
      (r', Reply(None, Some(Plain(StubValueNotSet))))
    else
      (r', Reply(Some(ReadVariableResponse(r.value)), r.err))
  }

  /** Configure the value later reads answer; the error and the recorded calls stay as they were. */
  function SetValue<V>(r: StubOpcuaReader<V>, value: Option<V>): (r': StubOpcuaReader<V>)
    ensures r'.value == value && r'.err == r.err && r'.nodeIds == r.nodeIds
  {
    r.(value := value)
  }

  /** Configure the error later reads answer; the value and the recorded calls stay as they were. */
  function SetError<V>(r: StubOpcuaReader<V>, err: Option<Error>): (r': StubOpcuaReader<V>)
    ensures r'.err == err && r'.value == r.value && r'.nodeIds == r.nodeIds
  {
    r.(err := err)
  }

  /** The node ids read so far, oldest first: the recorded list itself. */
  function NodeIDs<V>(r: StubOpcuaReader<V>): (ids: seq<string>)
    ensures |ids| == |r.nodeIds| && forall i :: 0 <= i < |ids| ==> ids[i] == r.nodeIds[i]
  {
    r.nodeIds
  }

  /** The stub after reading each of `ids` in turn. */
  function ReadEach<V>(r: StubOpcuaReader<V>, ids: seq<string>): StubOpcuaReader<V>
    decreases |ids|
  {
    if |ids| == 0 then r else ReadEach(StubRead(r, ids[0]).0, ids[1..])
  }

  /**
   * The recorded list grows by exactly the ids read, in the order read, so
   * its growth equals the number of calls; the configured value and error
   * are untouched.
   */
  lemma {:induction false} StubRecordsCallsInOrder<V>(r: StubOpcuaReader<V>, ids: seq<string>)
    ensures NodeIDs(ReadEach(r, ids)) == NodeIDs(r) + ids
    ensures |NodeIDs(ReadEach(r, ids))| == |NodeIDs(r)| + |ids|
    ensures ReadEach(r, ids).value == r.value && ReadEach(r, ids).err == r.err
    decreases |ids|
  {
    if |ids| > 0 {
      StubRecordsCallsInOrder(StubRead(r, ids[0]).0, ids[1..]);
      assert r.nodeIds + [ids[0]] + ids[1..] == r.nodeIds + ids;
    }
  }

  /**
   * A stub given an error with `SetError` answers a response (carrying
   * whatever value is configured) together with that error; the use case
   * keeps only the wrapped error, and the stub saw one call.
   */
  lemma ExecuteOnFailingStub<V>(r: StubOpcuaReader<V>, e: Error, nodeId: string)
    ensures var out := Execute(StubRead, NewReadVariableUsecase(SetError(r, Some(e))), NewReadVariableRequest(nodeId));
            && out.1 == Reply(None, Some(Wrapped(FailedToRead, e)))
            && NodeIDs(out.0.client) == NodeIDs(r) + [nodeId]
  {
  }

  /**
   * The regression scenario: a fresh stub behind a new use case, its value
   * then set to 42, and one `Execute` on node "ns=2;i=1234". The reply is
   * the value 42 with no error, and the stub recorded exactly that node id
   * once.
   */
  lemma TestReadVariableUsecase()
    ensures var stub: StubOpcuaReader<int> := StubOpcuaReader(None, None, []);
            var usecase := NewReadVariableUsecase(stub);
            var usecase' := usecase.(client := SetValue(usecase.client, Some(42)));
            var out := Execute(StubRead, usecase', ReadVariableRequest("ns=2;i=1234"));
            && out.1.err.None?
            && out.1.response.Some?
            && out.1.response.value.value == Some(42)
            && |NodeIDs(out.0.client)| == 1
            && NodeIDs(out.0.client)[0] == "ns=2;i=1234"
  {
  }
}
