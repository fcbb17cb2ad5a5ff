/**
 * `GopcuaReader.Read` (pkg/opcua/ocpua_reader.go): parse the node id, build
 * a one-node Read request, then call the session's Read in a loop until an
 * outcome that is not one of the known recoverable ones arrives.
 *
 * The session is a finite script of attempts. Attempt `i` is what the
 * `i`-th call of the session's Read produced together with the state the
 * client reports just after it. The waits between attempts have no effect
 * (their channels are never received from) and the context is never
 * consulted, so neither appears. When every scripted attempt is
 * recoverable the loop would go on asking; the run then ends `Unsettled`.
 */
module GopcuaReader {
  import opened Basics
  import opened Ua
  import opened GoErrors
  import opened UseCase

  /** What one call of the session's Read produced. */
  datatype Transport<V> = Failed(err: Error) | Answered(response: ReadResponse<V>)

  /** One scripted call: its outcome and the client state observed after it. */
  datatype Attempt<V> = Attempt(outcome: Transport<V>, state: ConnState)

  datatype Verdict = Retry | Permanent

  /** How a run of `Read` ends. */
  datatype End<V> =
    | Returned(reply: Reply<V>)
    | Panicked      // Results[0] of a response with no results
    | Unsettled     // the script ran out while every attempt was recoverable

  /** The requests handed to the session, in order, and how the run ended. */
  datatype Run<N, V> = Run(sent: seq<ReadRequest<N>>, end: End<V>)

  /** Session and secure-channel faults the protocol library recovers from on the next call. */
  const SessionFaults: set<StatusCode> :=
    {StatusBadSessionIDInvalid, StatusBadSessionNotActivated, StatusBadSecureChannelIDInvalid}

  /** The request sent for a parsed node id: that node only, MaxAge 2000, both timestamps. */
  function BuildRequest<N>(id: N): (req: ReadRequest<N>)
    ensures |req.nodesToRead| == 1 && req.nodesToRead[0].nodeId == id
    ensures req.maxAge == 2000.0 && req.timestampsToReturn == Both
  {
    ReadRequest(2000.0, [ReadValueID(id)], Both)
  }

  /** A session fault anywhere on the error's unwrap chain. */
  ghost predicate SessionFault(err: Error)
  {
    exists c :: c in SessionFaults && Status(c) in Chain(err)
  }

  /**
   * The retry switch: `io.EOF` itself (compared with `==`, so not a wrapped
   * one) unless the client is closed, or anything `errors.Is` finds to be
   * one of the three session faults, whatever the client state.
   */
  function Classify(err: Error, state: ConnState): (v: Verdict)
    ensures v == Retry <==> (err == EndOfStream && state != Closed) || SessionFault(err)
  {
    if err == EndOfStream && state != Closed then Retry
    else if Is(err, Status(StatusBadSessionIDInvalid)) then Retry
    else if Is(err, Status(StatusBadSessionNotActivated)) then Retry
    else if Is(err, Status(StatusBadSecureChannelIDInvalid)) then Retry
    else Permanent
  }

  /** Only transport errors are ever retried; a response always ends the loop. */
  predicate Retryable<V>(a: Attempt<V>)
  {
    a.outcome.Failed? && Classify(a.outcome.err, a.state) == Retry
  }

  /** How the loop ends on an attempt that is not retried. */
  function Settle<V>(outcome: Transport<V>): (e: End<V>)
    ensures !e.Unsettled?
    ensures e.Returned? ==> e.reply.Exclusive()
    ensures e.Panicked? <==> outcome.Answered? && |outcome.response.results| == 0
    ensures outcome.Failed? ==> e == Returned(Reply(None, Some(Wrapped("read failed", outcome.err))))
    ensures outcome.Answered? && |outcome.response.results| > 0 && outcome.response.results[0].status != StatusOK ==>
              e == Returned(Reply(None, Some(Described("status not OK", Status(outcome.response.results[0].status)))))
    ensures e.Returned? && e.reply.response.Some? <==>
              outcome.Answered? && |outcome.response.results| > 0 && outcome.response.results[0].status == StatusOK
  {
    match outcome
    case Failed(err) => Returned(Reply(None, Some(Wrapped("read failed", err))))
    case Answered(resp) =>
      if |resp.results| == 0 then Panicked
      else if resp.results[0].status != StatusOK then
        Returned(Reply(None, Some(Described("status not OK", Status(resp.results[0].status)))))
      else
        Returned(Reply(Some(ReadVariableResponse(resp.results[0].value)), None))
  }

  /** `n` copies of one request. */
  function Repeat<N>(req: ReadRequest<N>, n: nat): (s: seq<ReadRequest<N>>)
    ensures |s| == n && forall i :: 0 <= i < n ==> s[i] == req
  {
    seq(n, _ => req)
  }

  /** The retry loop over the scripted session. */
  function Loop<N, V>(req: ReadRequest<N>, script: seq<Attempt<V>>): (run: Run<N, V>)
    ensures forall i :: 0 <= i < |run.sent| ==> run.sent[i] == req
    ensures 1 <= |run.sent| <= |script| || (script == [] && run == Run([], Unsettled))
    ensures run.end.Returned? ==> run.end.reply.Exclusive()
    decreases |script|
  {
    if |script| == 0 then Run([], Unsettled)
    else if Retryable(script[0]) then
      var rest := Loop(req, script[1..]);
      Run([req] + rest.sent, rest.end)
    else
      Run([req], Settle(script[0].outcome))
  }

  /** The whole read: parse guard, request construction, retry loop. */
  function Read<N, V>(parse: string -> Result<N, Error>, nodeId: string, script: seq<Attempt<V>>): (run: Run<N, V>)
    ensures parse(nodeId).Err? ==> run == Run([], Returned(Reply(None, Some(Wrapped("invalid node id", parse(nodeId).error)))))
    ensures parse(nodeId).Ok? ==> forall i :: 0 <= i < |run.sent| ==> run.sent[i] == BuildRequest(parse(nodeId).value)
    ensures run.end.Returned? ==> run.end.reply.Exclusive()
  {
    match parse(nodeId)
    case Err(e) => Run([], Returned(Reply(None, Some(Wrapped("invalid node id", e)))))
    case Ok(id) => Loop(BuildRequest(id), script)
  }

  /**
   * The loop as the source writes it: call, leave on success, otherwise
   * either go round again or return the wrapped error.
   */
  method ReadLoop<N, V>(req: ReadRequest<N>, script: seq<Attempt<V>>) returns (sent: seq<ReadRequest<N>>, end: End<V>)
    ensures Run(sent, end) == Loop(req, script)
  {
    sent := [];
    var i := 0;
    while i < |script|
      invariant 0 <= i <= |script|
      invariant sent == Repeat(req, i)
      invariant Loop(req, script) == Run(sent + Loop(req, script[i..]).sent, Loop(req, script[i..]).end)
    {
      var attempt := script[i];
      sent := sent + [req];
      match attempt.outcome {
        case Answered(resp) =>
          end := Settle(attempt.outcome);
          assert Loop(req, script[i..]) == Run([req], end);
          return;
        case Failed(err) =>
          if Classify(err, attempt.state) == Permanent {
            end := Returned(Reply(None, Some(Wrapped("read failed", err))));
            assert Loop(req, script[i..]) == Run([req], end);
            return;
          }
      }
      assert script[i..][1..] == script[i + 1..];
      i := i + 1;
    }
    end := Unsettled;
  }

  /** Attempt `k` is the first one that is not retried. */
  ghost predicate FirstSettling<V>(script: seq<Attempt<V>>, k: nat)
  {
    k < |script| && !Retryable(script[k]) && forall j :: 0 <= j < k ==> Retryable(script[j])
  }

  /**
   * The loop issues one read per leading recoverable attempt plus one for
   * the first attempt that is not recoverable, and that attempt alone
   * decides the result.
   */
  lemma {:induction false} LoopSettlesAtFirstNonRetryable<N, V>(req: ReadRequest<N>, script: seq<Attempt<V>>, k: nat)
    requires FirstSettling(script, k)
    ensures Loop(req, script) == Run(Repeat(req, k + 1), Settle(script[k].outcome))
  {
    if k > 0 {
      assert FirstSettling(script[1..], k - 1) by {
        forall j | 0 <= j < k - 1 ensures Retryable(script[1..][j]) {
          assert script[1..][j] == script[j + 1];
        }
      }
      LoopSettlesAtFirstNonRetryable(req, script[1..], k - 1);
      assert [req] + Repeat(req, k) == Repeat(req, k + 1);
    }
  }

  /** The loop runs out of script exactly when every scripted attempt is recoverable, having used them all. */
  lemma {:induction false} LoopUnsettledIffAllRetry<N, V>(req: ReadRequest<N>, script: seq<Attempt<V>>)
    ensures Loop(req, script).end.Unsettled? <==> forall j :: 0 <= j < |script| ==> Retryable(script[j])
    ensures Loop(req, script).end.Unsettled? ==> Loop(req, script).sent == Repeat(req, |script|)
    decreases |script|
  {
    if |script| > 0 {
      LoopUnsettledIffAllRetry(req, script[1..]);
      assert forall j :: 0 <= j < |script| - 1 ==> script[1..][j] == script[j + 1];
      if Retryable(script[0]) {
        assert [req] + Repeat(req, |script| - 1) == Repeat(req, |script|);
        assert (forall j :: 0 <= j < |script| ==> Retryable(script[j])) <==>
               (forall j :: 0 <= j < |script| - 1 ==> Retryable(script[1..][j])) by {
          if forall j :: 0 <= j < |script| - 1 ==> Retryable(script[1..][j]) {
            forall j | 0 <= j < |script| ensures Retryable(script[j]) {
              if j > 0 { assert Retryable(script[1..][j - 1]); }
            }
          }
        }
      }
    }
  }

  /** Every request handed to the session names exactly the parsed node, with MaxAge 2000 and both timestamps. */
  lemma ReadSendsOneNodeRequest<N, V>(parse: string -> Result<N, Error>, nodeId: string, script: seq<Attempt<V>>)
    requires parse(nodeId).Ok?
    ensures forall r :: r in Read(parse, nodeId, script).sent ==>
              && |r.nodesToRead| == 1
              && r.nodesToRead[0].nodeId == parse(nodeId).value
              && r.maxAge == 2000.0
              && r.timestampsToReturn == Both
  {
  }

  /**
   * With a parsable node id, the number of session reads is one more than
   * the number of leading recoverable attempts, and the result is decided
   * by the first attempt that is not recoverable.
   */
  lemma ReadCountsLeadingRetries<N, V>(parse: string -> Result<N, Error>, nodeId: string, script: seq<Attempt<V>>, k: nat)
    requires parse(nodeId).Ok?
    requires FirstSettling(script, k)
    ensures |Read(parse, nodeId, script).sent| == k + 1
    ensures Read(parse, nodeId, script).end == Settle(script[k].outcome)
  {
    LoopSettlesAtFirstNonRetryable(BuildRequest(parse(nodeId).value), script, k);
  }

  /**
   * A response comes back exactly when the node id parses and the first
   * attempt that is not recoverable is an answer whose first result has
   * status OK; its value is that result's value.
   */
  lemma ReadSucceedsOnlyOnOK<N, V>(parse: string -> Result<N, Error>, nodeId: string, script: seq<Attempt<V>>)
    ensures var run := Read(parse, nodeId, script);
            run.end.Returned? && run.end.reply.response.Some? <==>
              parse(nodeId).Ok? &&
              exists k: nat :: FirstSettling(script, k) && script[k].outcome.Answered?
                          && |script[k].outcome.response.results| > 0
                          && script[k].outcome.response.results[0].status == StatusOK
    ensures var run := Read(parse, nodeId, script);
            run.end.Returned? && run.end.reply.response.Some? ==>
              exists k: nat :: FirstSettling(script, k) && script[k].outcome.Answered?
                          && |script[k].outcome.response.results| > 0
                          && run.end.reply.response.value.value == script[k].outcome.response.results[0].value
  {
    var run := Read(parse, nodeId, script);
    if parse(nodeId).Ok? {
      var req := BuildRequest(parse(nodeId).value);
      if forall j :: 0 <= j < |script| ==> Retryable(script[j]) {
        LoopUnsettledIffAllRetry(req, script);
        assert forall k: nat :: !FirstSettling(script, k);
      } else {
        var k :| 0 <= k < |script| && !Retryable(script[k]);
        k := FirstIndex(script, k);
        LoopSettlesAtFirstNonRetryable(req, script, k);
        assert forall k': nat :: FirstSettling(script, k') ==> k' == k;
      }
    }
  }

  /** The first attempt that is not recoverable, given that some attempt at or before `k` is not. */
  lemma {:induction false} FirstIndex<V>(script: seq<Attempt<V>>, k: nat) returns (first: nat)
    requires k < |script| && !Retryable(script[k])
    ensures first <= k && FirstSettling(script, first)
    decreases k
  {
    if forall j :: 0 <= j < k ==> Retryable(script[j]) {
      first := k;
    } else {
      var j :| 0 <= j < k && !Retryable(script[j]);
      first := FirstIndex(script, j);
    }
  }

  /**
   * A bare `io.EOF` is retried unless the client reports `Closed`; with the
   * client closed it ends the read after one call with "read failed"
   * wrapping the EOF.
   */
  lemma ReadEndOfStream<N, V>(parse: string -> Result<N, Error>, nodeId: string, script: seq<Attempt<V>>)
    requires parse(nodeId).Ok?
    requires |script| > 0 && script[0].outcome == Failed(EndOfStream)
    ensures var run := Read(parse, nodeId, script);
            var rest := Read(parse, nodeId, script[1..]);
            if script[0].state != Closed then run == Run([BuildRequest(parse(nodeId).value)] + rest.sent, rest.end)
            else run == Run([BuildRequest(parse(nodeId).value)], Returned(Reply(None, Some(Wrapped("read failed", EndOfStream)))))
  {
  }

  /** An error that unwraps to a session or secure-channel fault is retried whatever the client state. */
  lemma ReadRetriesSessionFaults<N, V>(parse: string -> Result<N, Error>, nodeId: string, script: seq<Attempt<V>>,
                                       code: StatusCode, prefixes: seq<string>)
    requires parse(nodeId).Ok?
    requires code in SessionFaults
    requires |script| > 0 && script[0].outcome == Failed(WrapAll(prefixes, Status(code)))
    ensures var rest := Read(parse, nodeId, script[1..]);
            Read(parse, nodeId, script) == Run([BuildRequest(parse(nodeId).value)] + rest.sent, rest.end)
  {
    WrapAllReaches(prefixes, Status(code));
  }

  /** `err` wrapped with `%w` once per prefix, the last prefix outermost. */
  function WrapAll(prefixes: seq<string>, err: Error): Error
  {
    if |prefixes| == 0 then err else Wrapped(prefixes[|prefixes| - 1], WrapAll(prefixes[..|prefixes| - 1], err))
  }

  lemma {:induction false} WrapAllReaches(prefixes: seq<string>, err: Error)
    ensures err in Chain(WrapAll(prefixes, err))
    decreases |prefixes|
  {
    if |prefixes| > 0 {
      WrapAllReaches(prefixes[..|prefixes| - 1], err);
    }
  }

  /**
   * Any other transport error (including an `io.EOF` wrapped by someone)
   * stops the loop at the first call with "read failed" wrapping it.
   */
  lemma ReadStopsOnOtherErrors<N, V>(parse: string -> Result<N, Error>, nodeId: string, script: seq<Attempt<V>>, err: Error)
    requires parse(nodeId).Ok?
    requires |script| > 0 && script[0].outcome == Failed(err)
    requires err != EndOfStream && !SessionFault(err)
    ensures Read(parse, nodeId, script) ==
              Run([BuildRequest(parse(nodeId).value)], Returned(Reply(None, Some(Wrapped("read failed", err)))))
  {
  }

  /**
   * A non-OK status in the first result ends the read after that one call,
   * even when the status is one of the session faults the loop retries as
   * transport errors; the error shows the status but does not unwrap to it.
   */
  lemma ReadStatusNotOKIsFinal<N, V>(parse: string -> Result<N, Error>, nodeId: string, script: seq<Attempt<V>>)
    requires parse(nodeId).Ok?
    requires |script| > 0 && script[0].outcome.Answered?
    requires |script[0].outcome.response.results| > 0
    requires script[0].outcome.response.results[0].status != StatusOK
    ensures var run := Read(parse, nodeId, script);
            var code := script[0].outcome.response.results[0].status;
            && |run.sent| == 1
            && run.end == Returned(Reply(None, Some(Described("status not OK", Status(code)))))
            && !Is(run.end.reply.err.value, Status(code))
  {
  }

  /**
   * Two "session not activated" transport errors followed by an OK answer
   * take three calls, and the value is the one from the third.
   */
  lemma ReadRecoversFromInactiveSession<N, V>(parse: string -> Result<N, Error>, nodeId: string, state: ConnState, v: V)
    requires parse(nodeId).Ok?
    ensures var fault := Attempt(Failed(Status(StatusBadSessionNotActivated)), state);
            var ok: Attempt<V> := Attempt(Answered(ReadResponse([DataValue(StatusOK, v)])), state);
            var run := Read(parse, nodeId, [fault, fault, ok]);
            && |run.sent| == 3
            && run.end == Returned(Reply(Some(ReadVariableResponse(v)), None))
  {
    var fault := Attempt(Failed(Status(StatusBadSessionNotActivated)), state);
    var ok: Attempt<V> := Attempt(Answered(ReadResponse([DataValue(StatusOK, v)])), state);
    assert Status(StatusBadSessionNotActivated) in Chain(Status(StatusBadSessionNotActivated));
    assert FirstSettling([fault, fault, ok], 2);
    ReadCountsLeadingRetries(parse, nodeId, [fault, fault, ok], 2);
  }

  /** Outside a bare `io.EOF`, the client state plays no part in the retry decision. */
  lemma ClassifyIgnoresStateUnlessEndOfStream(err: Error, s1: ConnState, s2: ConnState)
    ensures err != EndOfStream ==> Classify(err, s1) == Classify(err, s2)
    ensures Classify(EndOfStream, s1) == Permanent <==> s1 == Closed
  {
  }
}
