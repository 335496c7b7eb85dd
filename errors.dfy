/**
 * The failures an RFB connection can report.  The exception classes of
 * `RFBEndpoint` (rfb.py:735-740) appear here under their own names; the
 * assertion failures of the source, which Python reports as
 * `AssertionError`, are split by whose fault they are.
 */
module Errors {
  import opened Wrappers
  import opened BigEndian

  datatype RfbError =
    | Closed                                   // an operation on a closed connection
    | EndOfStream                              // the server's stream ended inside a record
    | BadFormat                                // version string not `RFB ddd.ddd\n`
    | BadVersion                               // protocol version not supported
    | BadSecType(serverReason: Option<seq<byte>>)  // security type None refused or not offered
    | FailedHandshake                          // RFB 3.8 offer without security type None
    | ServerError(reason: seq<byte>)           // RFB 3.8 SecurityResult was nonzero
    | NotYetImplemented                        // no callback registered for what arrived
    | ProtocolViolation                        // unknown message type or encoding on the wire
    | InvalidArgument                          // a caller passed a type or button outside the allowed set
    | KeyError                                 // a callback table has no entry for what arrived
    | IndexError                               // `writevarlist` looked at the first element of an empty list
}
