# OPC UA resilient read path — Dafny model

This project models the read path of a small OPC UA client library:

- `GopcuaReader.Read` parses a node id, builds a one-node Read request and
  calls the protocol session's Read in a loop. A bare `io.EOF` while the
  client is not `Closed` is retried. So is any error that `errors.Is` finds
  to be one of the session or secure-channel faults (`BadSessionIdInvalid`,
  `BadSessionNotActivated`, `BadSecureChannelIdInvalid`). Every other
  transport error ends the read with "read failed" wrapping it. After a
  transport success, the first result's status must be `Good` (status code
  0). Otherwise the read fails with "status not OK", without a retry.
- `ReadVariableUseCase.Execute` (and its older twin `ReadVariable`) calls an
  injected reader once. It wraps a reader error with
  "failed to read variable" and passes a success through unchanged.
- `StubOpcuaReader`, the recording test double, and the one regression
  scenario the repository checks against it.

Modules, one per source file or concept:

| file | module | models |
|---|---|---|
| `basics.dfy` | `Basics` | `Option` (Go's nil) and `Result` (a parse outcome) |
| `ua.dfy` | `Ua` | status codes, client connection state, Read request/response shapes |
| `go_errors.dfy` | `GoErrors` | Go error values: `io.EOF`, status codes as errors, `%w` wrapping, `%s` describing, `errors.Unwrap`, `errors.Is`, `Error()` |
| `read_variable.dfy` | `UseCase` | `pkg/opcua/read_variable.go` |
| `gopcua_reader.dfy` | `GopcuaReader` | `GopcuaReader.Read` of `pkg/opcua/ocpua_reader.go` |
| `client.dfy` | `LegacyClient` | `pkg/opcua/client.go` |
| `stub_reader.dfy` | `StubReader` | the stub and test of `pkg/opcua/read_variable_test.go` |

How the model is set up:

- **The session is a script.** It is a finite sequence of attempts. Each
  attempt is the outcome of one session Read (a transport error, or a
  response) paired with the client state observed right after it. `Read`
  returns a `Run`: the requests handed to the session, in order, and how
  the read ended. It can end in one of three ways:
  - `Returned(reply)`: a normal return.
  - `Panicked`: `Results[0]` was taken of a response with no results.
  - `Unsettled`: the script ran out while every attempt was retryable. The
    source would keep looping, because its loop has no bound.
- **Go's `(*Response, error)` pair is a `Reply`.** Both halves are optional,
  so "never both, never neither" is a property to prove, not a given.
- **A reader is a state-passing function** `(R, string) -> (R, Reply<V>)`.
  `V` stands for Go's `any`. The stub is one such reader, and its state is
  its configuration plus its recorded node ids.
- **Parsing is a parameter.** `ua.ParseNodeID` is a function
  `string -> Result<N, Error>`, and `N` is the parsed node id type.

Points of the code's behaviour worth knowing when reading the model:

- **No context checks, no waits.** The loop never consults `ctx`. Its
  `time.After` channels are created and never received from, so retries are
  immediate. The model has no cancellation outcome and no wait.
- **Session faults only as transport errors.** A session or secure-channel
  fault is retried only when the session's Read returns it as an error. The
  same code as the first result's status ends the read at once
  (`ReadStatusNotOKIsFinal`).
- **Bare `io.EOF` only.** The EOF test is `err == io.EOF`, not `errors.Is`.
  An EOF wrapped by another layer is therefore permanent
  (`ReadStopsOnOtherErrors`).

## Model

| member | source | states |
|---|---|---|
| `GoErrors.WrapKeepsCause` | pkg/opcua/read_variable.go:54-56 | a `%w` error unwraps to its cause, matches (via `errors.Is`) everything the cause matches, and reads as prefix, colon, cause text |
| `GoErrors.DescribeHidesCause` | pkg/opcua/ocpua_reader.go:97 | the "status not OK" error, built with `%s`, shows the status text but unwraps to nothing and matches no status code |
| `GopcuaReader.BuildRequest` | pkg/opcua/ocpua_reader.go:54-60 | the request names exactly one node, the given id, with MaxAge 2000 and both timestamps requested |
| `GopcuaReader.Classify` | pkg/opcua/ocpua_reader.go:70-93 | an error is retried exactly when it is a bare EOF with the client not `Closed`, or a session/secure-channel fault sits anywhere on its unwrap chain |
| `GopcuaReader.ClassifyIgnoresStateUnlessEndOfStream` | pkg/opcua/ocpua_reader.go:70-90 | the client state matters only for a bare EOF, and EOF is permanent exactly when the client is `Closed` |
| `GopcuaReader.Settle` | pkg/opcua/ocpua_reader.go:91-100 | an outcome that is not retried always ends the read: a transport error gives "read failed" wrapping it; an answer with no results panics; otherwise exactly one of response or error comes back, a response exactly when the first result has status OK, else "status not OK" showing that status |
| `GopcuaReader.Loop` | pkg/opcua/ocpua_reader.go:62-94 | every request sent is the built request, at least one and at most one per scripted attempt is sent, and a returned reply is never both or neither |
| `GopcuaReader.ReadLoop` | pkg/opcua/ocpua_reader.go:62-94 | the imperative loop (call, break on success, continue on a retryable error, return on anything else) computes the same run as `Loop` |
| `GopcuaReader.Read` | pkg/opcua/ocpua_reader.go:49-101 | a parse failure returns "invalid node id" wrapping the parse error after zero session reads; otherwise every request sent is the one built from the parsed id; no return carries both a response and an error |
| `GopcuaReader.LoopSettlesAtFirstNonRetryable` | pkg/opcua/ocpua_reader.go:62-100 | if attempt k is the first not retried, the loop sends exactly k+1 requests and its result is decided by attempt k alone |
| `GopcuaReader.LoopUnsettledIffAllRetry` | pkg/opcua/ocpua_reader.go:62-94 | the loop keeps going past the script exactly when every scripted attempt is retryable, and it has then used every attempt |
| `GopcuaReader.ReadSendsOneNodeRequest` | pkg/opcua/ocpua_reader.go:54-60 | each request sent asks for exactly one node, the parsed id, with MaxAge 2000 and both timestamps |
| `GopcuaReader.ReadCountsLeadingRetries` | pkg/opcua/ocpua_reader.go:62-94 | with a parsable id, the session is read one more time than the number of leading retryable attempts, and the first attempt not retried decides the result |
| `GopcuaReader.ReadSucceedsOnlyOnOK` | pkg/opcua/ocpua_reader.go:95-100 | a response is returned if and only if the id parses and the first attempt not retried is an answer whose first result has status OK; its value is that result's value |
| `GopcuaReader.ReadEndOfStream` | pkg/opcua/ocpua_reader.go:71-74 | a bare EOF leads to another attempt unless the client is `Closed`; when closed, the read stops after one call with "read failed" wrapping EOF |
| `GopcuaReader.ReadRetriesSessionFaults` | pkg/opcua/ocpua_reader.go:76-89 | a session or secure-channel fault, wrapped any number of times, leads to another attempt whatever the client state |
| `GopcuaReader.ReadStopsOnOtherErrors` | pkg/opcua/ocpua_reader.go:91-92 | any other transport error, a wrapped EOF included, stops the read after one call with "read failed" wrapping it |
| `GopcuaReader.ReadStatusNotOKIsFinal` | pkg/opcua/ocpua_reader.go:95-98 | a non-OK first result status ends the read after that single call, even when the status is a session fault, and the error does not unwrap to the status |
| `GopcuaReader.ReadRecoversFromInactiveSession` | pkg/opcua/ocpua_reader.go:62-100 | two "session not activated" errors and then an OK answer take three calls and return the third answer's value |
| `UseCase.NewReadVariableUsecase` | pkg/opcua/read_variable.go:29-33 | the use case keeps the given reader as the one `Execute` reads through |
| `UseCase.NewReadVariableRequest` | pkg/opcua/read_variable.go:35-39 | the request carries exactly the node id given |
| `UseCase.Execute` | pkg/opcua/read_variable.go:51-58 | one reader call on the request's node id; on a reader error a nil response and an error unwrapping to the cause under "failed to read variable"; otherwise the reader's reply unchanged |
| `UseCase.ExecuteWrapsCause` | pkg/opcua/read_variable.go:54-56 | the use-case error reads "failed to read variable: " plus the cause's text and still matches everything the cause matches |
| `UseCase.ExecuteDropsResponseOnError` | pkg/opcua/read_variable.go:53-56 | a response that comes with an error is discarded, leaving only the error |
| `UseCase.ExecuteKeepsExclusive` | pkg/opcua/read_variable.go:53-57 | the error path always yields exactly one of response or error, and a reader reply with exactly one stays so |
| `UseCase.ExecuteCallsReaderOnce` | pkg/opcua/read_variable.go:29-57 | a use case from `NewReadVariableUsecase(r)` run on `NewReadVariableRequest(n)` calls reader `r` exactly once, with `n` unchanged, and never retries |
| `LegacyClient.ReadVariable` | pkg/opcua/client.go:24-31 | one client call on the node id; on error a nil response and the cause wrapped under "failed to read variable"; otherwise the client's reply unchanged |
| `LegacyClient.ReadVariableAgreesWithExecute` | pkg/opcua/client.go:24-31 | the older `ReadVariable(n)` gives the same reply and reader state as `Execute` on a request for `n` |
| `StubReader.StubRead` | pkg/opcua/read_variable_test.go:16-22 | appends the node id and changes nothing else; answers "stub value not set" exactly when neither value nor error is configured, otherwise the configured value together with the configured error |
| `StubReader.SetValue` | pkg/opcua/read_variable_test.go:24-27 | sets the value later reads answer and leaves the error and the recorded calls unchanged |
| `StubReader.SetError` | pkg/opcua/read_variable_test.go:29-32 | sets the error later reads answer and leaves the value and the recorded calls unchanged |
| `StubReader.NodeIDs` | pkg/opcua/read_variable_test.go:34-37 | returns the recorded node ids element for element, oldest first |
| `StubReader.StubRecordsCallsInOrder` | pkg/opcua/read_variable_test.go:16-37 | after a series of reads, the recorded list is the old list followed by the ids read, in order, so it grows by the number of calls |
| `StubReader.ExecuteOnFailingStub` | pkg/opcua/read_variable_test.go:16-32 | over a stub given an error with `SetError`, `Execute` returns only that error wrapped and the stub records one call |
| `StubReader.TestReadVariableUsecase` | pkg/opcua/read_variable_test.go:43-61 | stub value 42 and `Execute` on "ns=2;i=1234": value 42, no error, exactly one recorded node id equal to "ns=2;i=1234" |

## Left out

- `NewGopcuaReader`, `Connect`, `Close` (pkg/opcua/ocpua_reader.go:24-47): thin wrappers over the protocol library's client lifecycle, with no logic of their own.
- `ua.ParseNodeID` syntax: left to the protocol library and modelled as an arbitrary parse function.
- Session establishment, re-activation and wire encoding: inside the protocol library. The session is the scripted sequence of attempts.
- Context and time: the loop never consults `ctx`, and the `time.After` results are discarded. The model therefore has no cancellation, no deadline and no wait.
- Concurrency: each call is sequential and owns its loop state. Concurrent callers are not modelled.
- Non-termination: when the session keeps returning retryable errors, the source loops forever. The model can only say `Unsettled` once the finite script is used up.
- Using `GopcuaReader` as the reader behind `Execute`: not composed, because a read can panic or not end, and neither outcome is a reply.
- Nil pointers: these are not modelled:
  - a nil request passed to `Execute`;
  - the session's Read returning a nil response together with a nil error, which the read would dereference;
  - a nil `DataValue` as the first result;
  - a nil `Variant` in the first result. The decoded value is an opaque `V`.
- `GoErrors.Is`: compares by value. That matches Go's `==` for the sentinel targets the core asks about (io.EOF, status codes). It does not model `Is` methods or multi-error `Unwrap() []error`.
- `GoErrors.Text`: a status code's text comes from the protocol library's table, so it is a parameter.
- Duplicate declarations: client.go re-declares `ReadVariableResponse` and `ReadVariableUseCase` in the same package as read_variable.go. The model keeps the two use cases in separate modules, but they share one response/reply type.
- `ReadValueID` fields other than the node id: the read leaves `AttributeID`, `IndexRange` and `DataEncoding` at their zero values, and the model keeps only the node id.
- `MaxAge`: a float64 in the protocol library, modelled as a `real`.
- Server bootstrap, CLI programs, message-broker service and plugin registration (cmd/, pkg/nats/): outside the read path.
