/**
 * The few OPC UA protocol values the read path touches: status codes, the
 * client connection state, and the shapes of a Read service request and
 * response (section 5.10.2 of OPC UA Part 4, status code values from the
 * status code table of OPC UA Part 6).
 */
module Ua {

  /** A 32-bit OPC UA status code. */
  newtype StatusCode = x: int | 0 <= x < 0x1_0000_0000

  const StatusOK: StatusCode := 0
  const StatusBadSecureChannelIDInvalid: StatusCode := 0x8022_0000
  const StatusBadSessionIDInvalid: StatusCode := 0x8025_0000
  const StatusBadSessionNotActivated: StatusCode := 0x8027_0000

  /** The client's connection state as its `State()` accessor reports it. */
  datatype ConnState = Closed | Connected | Connecting | Disconnected | Reconnecting

  /** Which timestamps the server is asked to return with each value. */
  datatype TimestampsToReturn = Source | Server | Both | Neither | Invalid

  /** One node to read; `N` is the parsed node identifier. */
  datatype ReadValueID<N> = ReadValueID(nodeId: N)

  /** A Read service request (MaxAge is a double in milliseconds). */
  datatype ReadRequest<N> = ReadRequest(
    maxAge: real,
    nodesToRead: seq<ReadValueID<N>>,
    timestampsToReturn: TimestampsToReturn)

  /** One result of a Read: its status and the decoded value `V`. */
  datatype DataValue<V> = DataValue(status: StatusCode, value: V)

  /** A Read service response: one result per requested node, as the server sends it. */
  datatype ReadResponse<V> = ReadResponse(results: seq<DataValue<V>>)
}
