/** Machine integers, byte strings and the error vocabulary shared by the
    session-orchestration layer of the fair-exchange node. */
module Types {

  /** Go's `uint8`, the wire width of a mode code. */
  newtype uint8 = x: int | 0 <= x < 0x100

  /** Go's `uint64`, the width of a session identifier. */
  newtype uint64 = x: int | 0 <= x < 0x1_0000_0000_0000_0000

  /** Go's `int64`, the width of prices and expiry times. */
  newtype int64 = x: int | -0x8000_0000_0000_0000 <= x < 0x8000_0000_0000_0000

  /** An opaque byte blob (`[]byte`). */
  type Bytes = seq<uint8>

  datatype Option<+T> = None | Some(value: T)

  /** The distinct errors the connection layer reports. */
  datatype Failure =
    | InvalidMode                       // modeToInt: tuple not listed
    | InvalidNetMode(code: uint8)       // modeFromInt / BobCreateSess: unknown code
    | RecvSessionRequestFailed          // no session request frame
    | SessionIdNotZero                  // initiating request carried an ID
    | ParseExtraInfoFailed              // ExtraInfo is not a request-extra record
    | PrepareTxFailed                   // preAliceTx refused the request
    | ConvertSessionIdFailed            // session ID string is not base-16 uint64
    | ConvertModeFailed                 // mode tuple does not encode
    | SendSessionAckFailed
    | RecvSessionAckFailed
    | SessionIdMismatch(got: uint64, expected: uint64)
    | DecodeMerkleRootFailed            // Bob's bulletin root is not hex
    | SendSessionRequestFailed
    | TransportFailed                   // a relay frame could not be sent or received
    | ParseReceiptFailed
    | ReadFileFailed(path: string)
    | SaveFileFailed(path: string)

  /** A Go `error` return: nil or one failure. */
  datatype Outcome = Pass | Fail(failure: Failure)

  /** A value-or-error return. */
  datatype Result<+T> = Ok(value: T) | Err(failure: Failure)
}
