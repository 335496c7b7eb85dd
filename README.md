# A verified model of the RFB client of `rfb.py`

`rfb.py` is a small client for the Remote Framebuffer protocol (RFB, the
protocol of VNC, RFC 6143). This project models its core in Dafny and proves
properties of it:

- **`ProtocolEndpoint`** is the record layer over one TCP connection. It
  reads and writes `struct`-style big-endian records, length-prefixed
  strings and count-prefixed lists.
- **`RFBHandshake` and `RFBInitialize`** set up the connection:
  - the ProtocolVersion exchange;
  - the security handshake of versions 3.3, 3.7 and 3.8, with security
    type None only;
  - ClientInit and ServerInit.
- **`RFBEndpoint`** sends the six client messages. It keeps callback tables
  per server message type and per rectangle encoding, reads server messages
  with their rectangles, and waits for a message of a given type.
- **`RemoteScreen`** keeps a picture of the server's desktop up to date
  through the Raw, CopyRect and cursor callbacks. It also sends keys,
  pointer events and cut text.

The modules follow the layers of the program:

| file | module | what it holds |
|---|---|---|
| `wrappers.dfy` | `Wrappers` | `Option` and `Result`, and two facts about concatenation |
| `big_endian.dfy` | `BigEndian` | bytes, big-endian unsigned integers, the signed 32-bit `l` code |
| `errors.dfy` | `Errors` | the failures the client reports |
| `wire.dfy` | `Wire` | format descriptors; `struct.pack`/`unpack`; strings and lists; every record descriptor of the protocol; pure readers returning what they decoded and the input left |
| `protocol.dfy` | `Protocol` | class `ProtocolEndpoint` over a socket modelled as `input` (what the server sent, unread) and `output` (everything the client wrote); each method is proved against the `Wire` function describing it |
| `messages.dfy` | `Messages` | the pixel format record; client and server messages with encoders and decoders; round trips; the button mask; the `sendKey` event order |
| `handshake.dfy` | `Setup` | the set-up conversation as pure functions of the server's bytes |
| `dispatch.dfy` | `Dispatch` | pure specification of `readMessage`, `RFBreadFrameBufferUpdate` and `waitForServerMessage`, callback tables and the calls made |
| `endpoint.dfy` | `Rfb` | class `RfbEndpoint`: the same steps run over its `ProtocolEndpoint`, each proved against `Setup` and `Dispatch` |
| `grid.dfy` | `Grids` | the PIL image operations the screen uses, as functions on pixel grids |
| `screen.dfy` | `Screen` | class `RemoteScreen` over an `array2` of pixels |

Callbacks are opaque handler identifiers. When a read calls a callback, the
endpoint appends an `Invocation(handler, args)` to its `invoked` log. The
screen plays the calls addressed to its own handlers, in order, once the read
is over. The screen's callbacks touch only the screen, never the endpoint, so
the resulting picture is the one the source draws during the read.

The network, the clock and PIL are not modelled as such. The socket is the
pair of byte sequences above. A connection "to a host" is an endpoint whose
server will send a given byte string. The image is a grid of RGBX pixels.

## Model

| member | source | states |
|---|---|---|
| BigEndian.FromToBE | rfb.py:408-414 | an unsigned value packed big-endian into `width` bytes unpacks to itself |
| BigEndian.ToFromBE | rfb.py:396-406 | every byte string is the big-endian packing of the value it unpacks to, so unpacking loses nothing |
| BigEndian.BitsRoundTrip | rfb.py:565 | the `l` code's two's-complement mapping is a bijection between signed 32-bit values and 32-bit patterns; non-negative values keep their pattern |
| Wire.DecodePackField | rfb.py:472-478 | a value a field can hold is decoded back from the bytes packed for it |
| Wire.Pack | rfb.py:472-478 | a packed record has exactly `calcsize` bytes; no alignment padding under `>` |
| Wire.Decode | rfb.py:420-435 | every decoded value fits its field, so decoded records can be packed again |
| Wire.DecodePack | rfb.py:420-478 | unpacking a packed record gives back the values packed |
| Wire.TakeBytes | rfb.py:396-406 | a read of `n` bytes succeeds exactly when `n` bytes are there; it then consumes exactly those bytes, otherwise it fails with end of stream and consumes nothing |
| Wire.TakeFields | rfb.py:420-435 | a record read succeeds exactly when `calcsize` bytes are there, yields values that fit the descriptor and leaves the input after the record |
| Wire.TakeFieldsPack | rfb.py:429-435 | a record written by `writeargs` is read back by `readlist`, and nothing after it is consumed |
| Wire.TakeString | rfb.py:460-470 | a string read consumes the length record, then the string's own bytes, in that order |
| Wire.PackString | rfb.py:498-507 | `writestring` writes the length record followed by the bytes themselves |
| Wire.TakeStringPack | rfb.py:460-470 | `readstring` reads back exactly what `writestring` wrote, whatever follows |
| Wire.DecodeList | rfb.py:437-458 | a list body of `n` records decodes to `n` elements, each fitting the element descriptor |
| Wire.PackAll | rfb.py:480-496 | the flattened elements take `count × calcsize(element)` bytes |
| Wire.DecodeListPackAll | rfb.py:437-496 | elements packed back to back decode to the same list |
| Wire.TakeList | rfb.py:437-458 | a successful list read consumes the count record and exactly count element records, each element fitting its descriptor |
| Wire.TakeListAsWritten | rfb.py:437-458 | the reader as written agrees with `TakeList`, except that a non-empty list of several-field elements comes back empty |
| Wire.ListAsWrittenOneField | rfb.py:437-458 | for one-field elements (the security types, the encodings) the reader as written is correct |
| Wire.PackList | rfb.py:480-496 | a list takes the count record plus `count × calcsize(element)` bytes |
| Wire.PackListAsWritten | rfb.py:480-496 | `writevarlist` as written writes the intended bytes but fails with an index error exactly when the list is empty |
| Wire.PackListParts | rfb.py:480-496 | the list's bytes are the count record followed by the flattened elements, the two pieces `writevarlist` writes (a one-step unfolding, kept as the link the endpoint's write proofs use) |
| Wire.TakeListPack | rfb.py:437-458 | `readvarlist` (corrected) reads back every list `writevarlist` writes, and nothing after it |
| Wire.PixelFormatSize | rfb.py:530 | the pixel format record is 16 bytes, its three pad bytes included |
| Protocol.ProtocolEndpoint.constructor | rfb.py:386-391 | a new connection is open and has written nothing |
| Protocol.ProtocolEndpoint.Close | rfb.py:393-394 | the connection is closed and its streams are untouched |
| Protocol.ProtocolEndpoint.Receive | rfb.py:396-406 | the receive loop returns exactly the next `n` bytes and consumes them, or fails consuming nothing; a closed connection reads nothing |
| Protocol.ProtocolEndpoint.Send | rfb.py:408-414 | the send loop appends exactly the given bytes to the output, or nothing on a closed connection |
| Protocol.ProtocolEndpoint.ReadFields | rfb.py:420-435 | `readele`/`readlist` read and consume exactly what `TakeFields` describes |
| Protocol.ProtocolEndpoint.ReadString | rfb.py:460-470 | `readstring` reads and consumes exactly what `TakeString` describes |
| Protocol.ProtocolEndpoint.ReadList | rfb.py:437-458 | `readvarlist` reads and consumes exactly what `TakeList` describes |
| Protocol.ProtocolEndpoint.WriteFields | rfb.py:472-478 | `writeargs` appends exactly the packed record |
| Protocol.ProtocolEndpoint.WriteString | rfb.py:498-507 | `writestring` appends exactly the length record and the bytes |
| Protocol.ProtocolEndpoint.WriteList | rfb.py:480-496 | `writevarlist` appends exactly the count and the flattened elements |
| Messages.PixelFormatOf | rfb.py:665-669 | regrouping the ten record values into a pixel format is undone by flattening it again |
| Messages.PixelFormatValues | rfb.py:793-794 | the values `setPixelFormat` writes always fit the PixelFormat descriptor |
| Messages.TakePixelFormat | rfb.py:665-669 | reading a pixel format succeeds exactly when 16 bytes are there, and consumes exactly those |
| Messages.PixelFormatRoundTrip | rfb.py:665-669 | a pixel format as written by `setPixelFormat` is read back unchanged by `RFBInitialize`'s reader |
| Messages.RawSizeIs | rfb.py:691 | a Raw or cursor payload has `w × h × bpp / 8` bytes |
| Messages.MaskSizeIs | rfb.py:698 | a cursor bitmask has `h` rows of `(w + 7) / 8` bytes |
| Messages.EncodeClient | rfb.py:791-822 | every client message starts with its ClientMessageType byte, followed by its body |
| Messages.SetPixelFormatBody | rfb.py:791-794 | the SetPixelFormat body is 19 bytes: three pad bytes, then the 16-byte pixel format |
| Messages.SetEncodingsBody | rfb.py:797-799 | the SetEncodings body is 3 bytes plus 4 per encoding |
| Messages.UpdateRequestBody | rfb.py:801-804 | the FramebufferUpdateRequest body is 9 bytes |
| Messages.KeyEventBody | rfb.py:806-808 | the KeyEvent body is 7 bytes |
| Messages.PointerEventBody | rfb.py:810-818 | the PointerEvent body is 5 bytes |
| Messages.CutTextBody | rfb.py:820-822 | the ClientCutText body is 7 bytes followed by the text itself |
| Messages.SetPixelFormatRecords | rfb.py:791-794 | a SetPixelFormat message is the three records `setPixelFormat` writes, in order (a one-step unfolding, kept as the link the endpoint's write proofs use) |
| Messages.SetEncodingsRecords | rfb.py:797-799 | a SetEncodings message is the type record, then the list `writevarlist` writes (a one-step unfolding, kept as the link the endpoint's write proofs use) |
| Messages.UpdateRequestRecords | rfb.py:801-804 | a FramebufferUpdateRequest is the type record, then the request record (a one-step unfolding, kept as the link the endpoint's write proofs use) |
| Messages.KeyEventRecords | rfb.py:806-808 | a KeyEvent is the type record, then the key record (a one-step unfolding, kept as the link the endpoint's write proofs use) |
| Messages.PointerEventRecords | rfb.py:817-818 | a PointerEvent is the type record, then the pointer record (a one-step unfolding, kept as the link the endpoint's write proofs use) |
| Messages.CutTextRecords | rfb.py:820-822 | a ClientCutText is the type record, then the text with its U32 length (a one-step unfolding, kept as the link the endpoint's write proofs use) |
| Messages.ClientRoundTrip | rfb.py:791-822 | a server reading the client's bytes gets back every well-formed client message exactly, and nothing after it is consumed |
| Messages.SetPixelFormatRoundTrip | rfb.py:787-795 | the SetPixelFormat body decodes to the pixel format sent |
| Messages.SetEncodingsRoundTrip | rfb.py:797-799 | the SetEncodings body decodes to the encodings sent, in order |
| Messages.UpdateRequestRoundTrip | rfb.py:801-804 | the update request body decodes to the flag and region sent |
| Messages.KeyEventRoundTrip | rfb.py:806-808 | the KeyEvent body decodes to the flag and keysym sent |
| Messages.PointerEventRoundTrip | rfb.py:810-818 | the PointerEvent body decodes to the mask and position sent |
| Messages.CutTextRoundTrip | rfb.py:820-822 | the ClientCutText body decodes to the text sent |
| Messages.MaskOfPressed | rfb.py:813-816 | in the button mask, bit `i` is set if and only if button `i` is in the list |
| Messages.ButtonMask | rfb.py:810-816 | the mask loop succeeds exactly when every button is in 0..7; it then gives the mask of the listed buttons, otherwise an invalid-argument error |
| Messages.SetBit | rfb.py:816 | or-ing in `1 << b` presses button `b` and leaves the other buttons as they were |
| Messages.Presses | rfb.py:964-968 | pressing keys gives one key-down event per key, in the same order |
| Messages.ReleasesReversed | rfb.py:969-973 | releasing keys gives one key-up event per key, last key first |
| Messages.SendKeyNested | rfb.py:963-973 | `sendKey`'s events are properly nested: presses first, then releases; the k-th event from the end releases the key the k-th event pressed; the key itself is the innermost pair |
| Messages.Nested | rfb.py:963-973 | the same nesting for any list of modifiers around a key |
| Messages.TakeRect | rfb.py:684-699 | a rectangle read yields a rectangle whose payload has the size its header and the pixel format dictate, and consumes exactly the header and that payload; it fails only at end of stream or on an unknown encoding |
| Messages.TakePayload | rfb.py:689-699 | a payload read yields a payload of the encoding asked for, with the sizes `w`, `h` and `bpp` dictate |
| Messages.PayloadRoundTrip | rfb.py:689-699 | every payload that fits its rectangle is read back exactly |
| Messages.RectRoundTrip | rfb.py:684-699 | every rectangle as the server sends it is read back exactly, and nothing after it is consumed |
| Messages.FramebufferUpdateBody | rfb.py:681-683 | a FramebufferUpdate body is the 3-byte header followed by the rectangles |
| Messages.ColourMapBody | rfb.py:709-711 | a SetColourMapEntries body is 5 bytes plus 6 per colour |
| Messages.EncodeServer | rfb.py:858-861 | every server message starts with its type byte, followed by its body |
| Messages.Colours | rfb.py:711 | the decoded colour triples are exactly the elements read |
| Messages.TakeColourMap | rfb.py:709-714 | a successful read is a SetColourMapEntries message and consumes no more than the input |
| Messages.TakeServerCutText | rfb.py:722-725 | a successful read is a ServerCutText message |
| Messages.ColourMapRoundTrip | rfb.py:709-714 | with the corrected list reader, a SetColourMapEntries body is read back with its first colour and every colour |
| Messages.ColourListAsWrittenEmpty | rfb.py:437-458 | as written, a colour list of one colour or more reads as no colours, while the corrected reader reads back every colour |
| Messages.NoEncodingsAsWrittenFails | rfb.py:480-496 | as written, `setEncodings()` with no encodings writes a list that reads back as empty, and then fails |
| Messages.ServerCutTextRoundTrip | rfb.py:722-725 | a ServerCutText body is read back as the text sent |
| Setup.ThreeDigits | rfb.py:597 | `%03d` gives three decimal digits |
| Setup.ThreeDigitsRoundTrip | rfb.py:591-597 | a number printed with `%03d` is read back by `int` as itself |
| Setup.DigitsRoundTrip | rfb.py:591-592 | three digits read by `int` and printed with `%03d` are the same digits |
| Setup.VersionBytes | rfb.py:597 | the version reply is 12 bytes |
| Setup.VersionRoundTrip | rfb.py:587-597 | every version string the client writes passes the client's own check and reads back as the numbers written |
| Setup.VersionStringDetermined | rfb.py:587-592 | every string that passes the check is the one its two numbers print as |
| Setup.Negotiate | rfb.py:593-596 | a version is refused exactly when the major is below 3, or when it is 3.x with x ≤ 8 and not 3, 7 or 8; otherwise the minor is kept, or capped at 8 |
| Setup.SecurityTypes | rfb.py:613 | the offered types are the one-byte elements of the list, in order |
| Setup.WithReason | rfb.py:615-617 | a refusal always fails |
| Setup.SecurityV33 | rfb.py:603-606 | the corrected 3.3 step of the Findings row, not used by the handshake: the type is read as the standard's U32, and the step succeeds only with None, consuming exactly those 4 bytes |
| Setup.SecurityV33AsWritten | rfb.py:600-606 | the 3.3 step the handshake runs: the client writes nothing, and the step succeeds exactly when the first byte is 1 (None), consuming that byte alone |
| Setup.SecurityList | rfb.py:609-646 | in 3.7 and 3.8 only type None is chosen, and the client writes nothing or its single choice byte |
| Setup.SecurityResult | rfb.py:645-646 | the 3.8 verdict step has already written the choice of None, and succeeds only with None |
| Setup.Security | rfb.py:599-650 | the security handshake succeeds only in 3.3, 3.7 or 3.8, and only with type None; the client writes nothing, or only the choice byte; 3.3 reads the type as one byte |
| Setup.Version | rfb.py:584-597 | the exchange succeeds exactly when the server's 12 bytes are a well-formed, accepted version; the client then answers with 3 and the negotiated minor; on failure it writes nothing |
| Setup.Initialize | rfb.py:654-674 | initialisation always writes the shared flag 1 |
| Setup.InitializeFormat | rfb.py:665-674 | ServerInit's second part is read only after the shared flag has been written |
| Setup.SecuritySucceeds | rfb.py:599-648 | a server offering type None gets it, and all of its offer is consumed; in 3.3 the offer is the single byte 1 the code reads |
| Setup.SecurityListSucceeds | rfb.py:613-644 | with None on offer, 3.7 is done after the choice, and 3.8 goes on to read the verdict |
| Setup.SecurityRefused | rfb.py:618-641 | an offer without None is refused, with BadSecType in 3.7 and FailedHandshake in 3.8 |
| Setup.WithReasonPack | rfb.py:615-617 | the error of a refusal carries exactly the reason string the server sent |
| Setup.SecurityNoTypes | rfb.py:614-617 | an empty offer is refused with BadSecType carrying the server's reason |
| Setup.SecurityResultFailed | rfb.py:645-646 | a non-zero 3.8 result is refused with ServerError carrying the server's reason |
| Setup.HandshakeSucceeds | rfb.py:580-650 | with any accepted server version and an offer of None, the handshake ends in 3 and the negotiated minor with type None, writes the version reply and the choice, and consumes exactly what the server sent; a 3.3 server's choice is the one byte the code reads |
| Setup.HandshakeOutcome | rfb.py:580-650 | the client writes anything if and only if the server's version is well formed and accepted; success always means 3.3, 3.7 or 3.8 with type None, never above the server's minor |
| Setup.InitializeRoundTrip | rfb.py:654-674 | initialisation reads back exactly the ServerInit the server sent (size, pixel format, name) after writing the shared flag |
| Setup.Connection | rfb.py:754-758 | a connection succeeds only when the handshake does; its output is then the handshake's followed by the shared flag |
| Setup.ConnectionSucceeds | rfb.py:754-758 | a server that accepts the version, offers None and sends its ServerInit gives that version and that framebuffer, and nothing after it is consumed |
| Setup.SecurityV33AsWrittenRefusesNone | rfb.py:603-606 | a 3.3 server choosing None as the standard's U32 is refused as written, but accepted when the type is read as a U32 |
| Dispatch.Calls | rfb.py:703-704 | each registered callback is called once with the arguments, in registration order |
| Dispatch.Lookup | rfb.py:701-702 | the callbacks are found exactly when some are registered; a key never registered raises KeyError, an empty list NotYetImplemented |
| Dispatch.NextRect | rfb.py:684-704 | a rectangle read yields one rectangle that fits, whose encoding has callbacks, and exactly their calls; a failure makes no calls |
| Dispatch.ReadRects | rfb.py:683-704 | reading rectangles never consumes more than the input |
| Dispatch.ReadRectsOk | rfb.py:683-704 | a successful read of `n` rectangles yields `n` rectangles, each fitting and having callbacks, and exactly their calls in order |
| Dispatch.ReadUpdate | rfb.py:680-704 | a successful FramebufferUpdate read is handled: every rectangle has callbacks and they are exactly the calls made |
| Dispatch.ReadBody | rfb.py:728-731 | the reader chosen by the type byte yields a message of that type |
| Dispatch.ReadOther | rfb.py:860-866 | a non-update message is parsed, then each callback of its type is called with it, in order; a failure makes no calls |
| Dispatch.ReadMessage | rfb.py:855-867 | a successful read consumes at least the type byte, yields a message of that type, and makes exactly the calls of its callbacks |
| Dispatch.Wait | rfb.py:869-876 | a successful wait reads messages until, and including, the first of the awaited type, and makes every call of every message read |
| Dispatch.NextRectRoundTrip | rfb.py:684-704 | a rectangle that fits and has callbacks is read back with exactly its calls |
| Dispatch.ReadRectsRoundTrip | rfb.py:683-704 | every list of fitting, handled rectangles is read back whole, with the calls of each in turn |
| Dispatch.UpdateRoundTrip | rfb.py:680-704 | a FramebufferUpdate body is read back whole |
| Dispatch.ReadMessageTag | rfb.py:858-861 | after the type byte, a message is read by the reader its type selects |
| Dispatch.BodyRoundTrip | rfb.py:709-725 | the SetColourMapEntries, Bell and ServerCutText bodies are read back by their readers |
| Dispatch.ReadMessageRoundTrip | rfb.py:855-867 | a server message is read back whole, each of its callbacks is called once in registration order, and nothing after it is consumed |
| Dispatch.ReadMessageUnhandled | rfb.py:862-864 | a message whose type has no callbacks is parsed, then refused, and no callback runs |
| Dispatch.ReadMessageUnknownType | rfb.py:858-859 | a type byte past ServerCutText is refused after consuming only that byte |
| Dispatch.WaitRoundTrip | rfb.py:869-876 | waiting reads exactly up to and including the first message of the awaited type, making every call of every message read |
| Dispatch.WaitLast | rfb.py:869-873 | a message of the awaited type ends the wait |
| Dispatch.WaitCons | rfb.py:873-876 | a message of another type is handled and the wait goes on |
| Dispatch.Register | rfb.py:838 | registering appends the callback under its key and changes no other key |
| Dispatch.RegisterCallsLast | rfb.py:825-838 | a callback registered for a message type runs after the earlier ones on every message of that type, and the type is then handled |
| Dispatch.RegisterRectCallsLast | rfb.py:840-852 | a callback registered for an encoding runs after the earlier ones on every rectangle of that encoding |
| Rfb.RfbEndpoint.RunHandshake | rfb.py:580-650 | `RFBHandshake` over the connection reads, writes and decides exactly as `Setup.Handshake` says |
| Rfb.RfbEndpoint.RunVersion | rfb.py:584-597 | the version exchange over the connection agrees with `Setup.Version` |
| Rfb.RfbEndpoint.RunSecurity | rfb.py:599-650 | the security handshake over the connection agrees with `Setup.Security` |
| Rfb.RfbEndpoint.SecurityStepV33 | rfb.py:600-606 | the 3.3 step reads the one-byte `SecType` and agrees with `Setup.SecurityV33AsWritten` |
| Rfb.RfbEndpoint.SecurityStepList | rfb.py:609-646 | the 3.7/3.8 step agrees with `Setup.SecurityList` |
| Rfb.RfbEndpoint.SecurityStepResult | rfb.py:645-646 | the 3.8 verdict agrees with `Setup.SecurityResult` |
| Rfb.RfbEndpoint.ReadRefusal | rfb.py:615-617 | the reason of a refusal is read as `Setup.WithReason` says |
| Rfb.RfbEndpoint.RunInitialize | rfb.py:654-674 | `RFBInitialize` over the connection agrees with `Setup.Initialize` |
| Rfb.RfbEndpoint.RunInitializeFormat | rfb.py:665-674 | the rest of ServerInit is read as `Setup.InitializeFormat` says |
| Rfb.RfbEndpoint.ReadPixelFormat | rfb.py:665-669 | the pixel format record is read as `TakePixelFormat` says, and nothing is written |
| Rfb.RfbEndpoint.RunSetup | rfb.py:756-758 | the handshake, then the initialisation, agree with `Setup.Connection` |
| Rfb.RfbEndpoint.Connect | rfb.py:754-763 | connecting succeeds exactly when `Setup.Connection` does, with its error otherwise; the new endpoint holds the session and ServerInit read, has written exactly the set-up bytes, and has no callbacks yet |
| Rfb.RfbEndpoint.Establish | rfb.py:754-761 | on an open connection, the set-up agrees with `Setup.Connection`; when it fails the connection is closed before the error is returned, and when it succeeds the endpoint holds what was read and has no callbacks |
| Rfb.RfbEndpoint.SetPixelFormat | rfb.py:787-795 | the SetPixelFormat message is written and the endpoint reads pixels in the new format from then on; nothing else changes |
| Rfb.RfbEndpoint.SetEncodings | rfb.py:797-799 | the SetEncodings message is written; a list too long for its U16 count fails after the type byte |
| Rfb.RfbEndpoint.UpdateFrameBuffer | rfb.py:801-804 | the FramebufferUpdateRequest for the region is written |
| Rfb.RfbEndpoint.KeyEvent | rfb.py:806-808 | the KeyEvent is written |
| Rfb.RfbEndpoint.PointerEvent | rfb.py:810-818 | with buttons in 0..7 the PointerEvent with their mask is written; otherwise nothing is written and the call is refused |
| Rfb.RfbEndpoint.ClientCutText | rfb.py:820-822 | the ClientCutText message is written; a text too long for its U32 length fails after the type byte |
| Rfb.RfbEndpoint.RegisterMessageCallback | rfb.py:825-838 | only SetColourMapEntries, Bell and ServerCutText accept callbacks; the new one joins the end of its type's list |
| Rfb.RfbEndpoint.RegisterRectangleCallback | rfb.py:840-852 | only Raw, CopyRect and the cursor accept callbacks; the new one joins the end of its encoding's list |
| Rfb.RfbEndpoint.Invoke | rfb.py:703-704 | the callbacks are called with the arguments, in order, and the log grows by exactly those calls |
| Rfb.RfbEndpoint.ReadPayload | rfb.py:689-699 | a payload is read as `TakePayload` says, in the current pixel format |
| Rfb.RfbEndpoint.ReadRect | rfb.py:684-699 | a rectangle is read as `TakeRect` says |
| Rfb.RfbEndpoint.ReadRectangles | rfb.py:683-704 | the rectangle loop reads, and calls, exactly what `Dispatch.ReadRects` says, including the calls made before a failure |
| Rfb.RfbEndpoint.ReadFrameBufferUpdate | rfb.py:680-706 | `RFBreadFrameBufferUpdate` reads and calls exactly what `Dispatch.ReadUpdate` says |
| Rfb.RfbEndpoint.ReadSetColourMapEntries | rfb.py:709-714 | `RFBreadSetColourMapEntries` reads exactly what `TakeColourMap` says |
| Rfb.RfbEndpoint.ReadServerCutText | rfb.py:722-725 | `RFBreadServerCutText` reads exactly what `TakeServerCutText` says |
| Rfb.RfbEndpoint.ReadMessageBody | rfb.py:728-731 | the reader `RFBMessageHandlers` selects agrees with `Dispatch.ReadBody` |
| Rfb.RfbEndpoint.ReadOtherMessage | rfb.py:860-866 | a non-update message and its callbacks agree with `Dispatch.ReadOther` |
| Rfb.RfbEndpoint.ReadMessage | rfb.py:855-867 | `readMessage` reads, consumes and calls exactly what `Dispatch.ReadMessage` says, and writes nothing; a closed connection reads nothing |
| Rfb.RfbEndpoint.WaitForServerMessage | rfb.py:869-876 | the wait loop reads and calls exactly what `Dispatch.Wait` says, and writes nothing |
| Grids.Blank | rfb.py:899 | a new image has the framebuffer's size |
| Grids.Crop | rfb.py:951 | a crop is as wide and high as its box |
| Grids.Paste | rfb.py:924 | pasting keeps the image's shape |
| Grids.FromBuffer | rfb.py:923 | a buffer image has the rectangle's size |
| Grids.RawPasteExact | rfb.py:918-924 | a Raw rectangle overwrites exactly its box, with the buffer's pixels in row order, and no pixel outside it |
| Grids.CopyRectSnapshot | rfb.py:926-928 | the corrected CopyRect fills the destination box with the source box of the picture as it was before, even where the boxes overlap, and changes no pixel outside the box |
| Grids.CopyRectAsWrittenInPlace | rfb.py:926-928 | when source and destination coincide, the code as written agrees with the corrected copy |
| Grids.CopyRectAsWrittenOverwrites | rfb.py:927 | on a 3×1 picture, a 1×1 copy as written also overwrites the pixel after the box |
| Grids.CropPixels | rfb.py:951 | a cropped box holds the picture's pixels at the same offsets, and black beyond the picture |
| Grids.PasteShape | rfb.py:924 | pasting keeps the picture `w` wide and `h` high |
| Screen.ReplayAppend | rfb.py:949-950 | playing the call log in two parts draws the same as playing it whole, so the screen may catch up after every read |
| Screen.ReplayShape | rfb.py:918-938 | the picture keeps its size whatever the callbacks draw |
| Screen.CursorLeavesPicture | rfb.py:930-932 | a cursor rectangle changes the cursor and never the picture or the cut text |
| Screen.ScreenTables | rfb.py:902-906 | on a fresh endpoint, the screen's registrations leave exactly Bell and ServerCutText, and Raw, CopyRect and the cursor, each with its one handler |
| Screen.When | rfb.py:964-973 | a modifier line of `sendKey` sends only its key's event, and only when its flag is set |
| Screen.ModifierEvents | rfb.py:964-973 | the modifier presses and releases are those of the conditions, line by line |
| Screen.SendKeyOrder | rfb.py:963-973 | `sendKey`'s events are the modifier presses, the key down and up, then the modifier releases |
| Screen.RemoteScreen.Over | rfb.py:899 | a new screen shows a black picture of the framebuffer's size, with no cursor and no cut text |
| Screen.RemoteScreen.PasteGrid | rfb.py:924 | pasting in place leaves the array equal to the pasted grid |
| Screen.RemoteScreen.HandleRawRect | rfb.py:918-924 | the Raw rectangle's buffer is pasted at its position |
| Screen.RemoteScreen.HandleCopyRect | rfb.py:926-928 | the source box, cut from the old picture, is pasted at the destination |
| Screen.RemoteScreen.HandlePseudoCursor | rfb.py:930-932 | the cursor's image and mask are replaced |
| Screen.RemoteScreen.HandleCutText | rfb.py:937-938 | the server's cut text is replaced |
| Screen.RemoteScreen.Play | rfb.py:918-938 | one logged call changes the screen as its callback does |
| Screen.RemoteScreen.PlayAll | rfb.py:918-938 | the logged calls change the screen as their callbacks do, in the order made |
| Screen.RemoteScreen.PressKey | rfb.py:953-956 | a key-down event is written |
| Screen.RemoteScreen.ReleaseKey | rfb.py:958-961 | a key-up event for the same keysym is written |
| Screen.RemoteScreen.PressModifiers | rfb.py:964-967 | the presses of the modifiers asked for are written in `sendKey`'s order |
| Screen.RemoteScreen.ReleaseModifiers | rfb.py:970-973 | the releases are written in the reverse order |
| Screen.RemoteScreen.SendKey | rfb.py:963-973 | exactly `sendKey`'s properly nested events are written |
| Screen.RemoteScreen.MoveMouse | rfb.py:975-979 | a pointer event with no button held is written |
| Screen.RemoteScreen.PressMouse | rfb.py:981-990 | with buttons in 0..7 the pointer event with their mask is written; otherwise nothing is written |
| Screen.RemoteScreen.ClickMouse | rfb.py:998-1000 | the press at (x, y) is written, then a move there with no button held |
| Screen.RemoteScreen.DragMouse | rfb.py:992-996 | presses at the start and at the end are written, then a move to the end with no button held |
| Screen.RemoteScreen.SendCutText | rfb.py:1005-1008 | the ClientCutText is written, and the text is remembered as sent only once it has gone out |
| Screen.RemoteScreen.Close | rfb.py:914-915 | the screen's connection is closed |
| Screen.RemoteScreen.AwaitUpdate | rfb.py:909 | messages are read until a FramebufferUpdate has been read, and the picture then shows every call those reads made |
| Screen.RemoteScreen.GetSubImage | rfb.py:945-951 | an incremental update of the box is asked for, messages are read and drawn until an update, and the box is cut from the picture |
| Screen.RemoteScreen.Attach | rfb.py:890-908 | the format becomes RGBX, the screen's callbacks are added after any existing ones, the opening requests are written, and the screen starts black at the framebuffer's size |
| Screen.RemoteScreen.Prepare | rfb.py:890-906 | the RGBX format is set and written, then the callbacks are registered |
| Screen.RemoteScreen.RequestPicture | rfb.py:907-908 | the screen's encodings, then the whole picture, are asked for |
| Screen.RemoteScreen.RegisterHandlers | rfb.py:902-906 | Bell and ServerCutText, then Raw, CopyRect and the cursor, each get the screen's handler at the end of their lists |
| Screen.RemoteScreen.Start | rfb.py:889-912 | on a fresh endpoint, the screen is attached and the first update read and drawn; a failed read closes the connection and reports its error |
| Screen.RemoteScreen.Open | rfb.py:885-912 | opening a screen fails exactly as the set-up or the first wait does; on success the endpoint has written the set-up bytes and the opening requests, holds exactly the screen's callbacks, and the picture shows the first update over a black screen |

## Left out

- The network: a connection is the bytes the server will send and the bytes the client has written. The host and port (`5900 + display`) are not modelled.
- Blocking: `__simpleread` waits for ever when the server's stream ends inside a record. The model fails with `EndOfStream` instead, consuming nothing.
- The debug level, every `print` to standard error, `show()`, and the debug file `__handleRawRect` writes.
- PIL is abstracted. An image is a grid of four-byte RGBX pixels, indexed `[x][y]`. `crop` fills with black outside the image. `paste` clips at the image's edges. A buffer shorter than the image gives black pixels. The cursor mask is kept as its raw bytes, not as a 1-bit image. `Image.fromstring` is treated like `frombuffer`.
- `getFBSize`, `getPixelFormat`, `getName` and `getCutText` return fields. Here those are fields of the classes, read directly; there is no member for them.
- `__handleBell` does nothing, so Bell calls draw nothing and the screen has no method for it.
- Integer arguments out of range for their `struct` field (`struct.error`) are excluded by the parameter types (`u16`, `u32`, `i32`, `byte`). Lengths and counts are an exception: a text or list too long for its field gives `InvalidArgument` after the type byte, as the source fails after writing it.
- Exceptions are results. A failed assertion becomes `InvalidArgument` when the caller passed a bad type or button. It becomes `ProtocolViolation` when the server sent an unknown message type or encoding.
- Calls on a closed connection return `Closed`; in the source the socket raises.
- Several source lines would crash when reached, and the model gives them their evident meaning:
  - the undefined `BadSecType` at rfb.py:616 and 619 is taken as `RFBEndpoint.BadSecType`;
  - the format string at rfb.py:650 is taken as naming the version;
  - `readMessage` looks up `self.callbacks[serverMessageType]` (rfb.py:863), which is taken as `self.mcallbacks[messagetype]`;
  - `clientCutText` and `sendCutText` write the text with `writeargs` (rfb.py:822, 1006-1007), which is taken as `writestring`, on the endpoint;
  - `getName` returns `rfbe.fbname`, which is taken as its own field;
  - `dragMouse` calls `e.pressMouse` and `e.movemouse` (rfb.py:994-996), which are taken as the screen's own `pressMouse(from)` and `clickMouse(to)`; the model therefore writes a press at the start, then a press at the end (what `clickMouse` does first), then a move to the end with no button;
  - `releaseKey` sends `KeySyms[keysym]` (rfb.py:961), which is taken as the keysym given;
  - `sendKey`'s modifier lines pass `self` twice (rfb.py:964-973), which is taken as one argument.
- Dispatch.Lookup: a message or encoding with no callbacks raises `KeyError` when the key was never registered, and `NotYetImplemented` when its list is empty, as the code does. The `NoHandler` exception that `registerMessageCallback`'s docstring promises is never raised.
- Rfb.RfbEndpoint.ReadMessage: returns the message read, where the source returns only its type; the type is `ServerTag` of the result.
- Rfb.RfbEndpoint.WaitForServerMessage: returns the messages read, where the source returns nothing.
- Wire.TakeString: `readstring` returns a 1-tuple holding the string; the model returns the string.
- Messages.ButtonMask: `pressMouse` only asserts that the mask fits a byte. A negative button raises in Python's shift, so both methods accept exactly the buttons 0..7.
- Screen.RemoteScreen.PlayAll: the screen draws the calls of a read once the read is over, not during it. The callbacks touch only the screen, so the picture is the same.
- Screen.RemoteScreen.Attach: the screen's image is made after the opening requests are written, where the source makes it before registering callbacks. Nothing can tell the two apart.
- Screen.RemoteScreen.Open: on a failed first wait the connection is closed, but the contract cannot name the endpoint, which is discarded.
- Screen.ScreenFormat: `__init__` changes the endpoint's own pixel format object in place, so the endpoint holds the new format even before `setPixelFormat` stores it. The model builds a new value, and `SetPixelFormat` stores it.
- The `serverCutText` field (set by the server's cut text) and `cuttext` (set by `sendCutText`, read by `getCutText`) stay separate, as in the source.
- Payload sizes are defined as repeated addition (`Product`), connected to multiplication by a lemma, to keep proofs small.
- The step methods `ReadNextRect`, `ReadOneRect`, `ReadAwaited`, `KeyIf`, `Store` and `SendSetPixelFormat` are pieces of the loops and sequences above, split off for proof. They have no counterpart of their own in the source.
- Protocol.ProtocolEndpoint.ReadList: reads every element back, the corrected `readvarlist` of the Findings row. As written (rfb.py:450-458), the source returns an empty tuple for any non-empty list of multi-field elements; `Wire.TakeListAsWritten` models that.
- Wire.TakeList: the corrected `readvarlist`, for the same reason; `ReadList` is proved against it.
- Messages.TakeColourMap: returns every colour the server sent, where the source as written returns no colours for a non-empty list (rfb.py:450-458); `Rfb.RfbEndpoint.ReadSetColourMapEntries` follows it.
- Protocol.ProtocolEndpoint.WriteList: an empty list is written as the count 0 alone and succeeds, the corrected `writevarlist` of the Findings row. As written, the source writes the count and then raises `IndexError` at rfb.py:493; `Wire.PackListAsWritten` models that.
- Rfb.RfbEndpoint.SetEncodings: with no encodings it writes the message with a count of 0 and succeeds, where the source raises `IndexError` after the count (rfb.py:493).
- Screen.RemoteScreen.HandleCopyRect: copies the box `(srcx, srcy, srcx+w, srcy+h)`, the corrected box of the Findings row. The source crops `(srcx, srcy, x+w, y+h)` at rfb.py:927; `Grids.CopyRectAsWritten` models that.
- Screen.Draw: draws a CopyRect rectangle with the corrected box, like `HandleCopyRect`.
- The security type VNC authentication (`VncAuthExchange`, rfb.py:525) is never chosen by the client and is not modelled.

## Findings

| source | as written | input that shows it | evidently intended | confidence | as-written member | corrected member |
|---|---|---|---|---|---|---|
| rfb.py:437-458 | `readvarlist` cuts the flat values into elements only when their count is not the element count. It then drops the pieces and returns the flat tuple it has emptied | a SetColourMapEntries list of one colour `(1, 2, 3)` reads as no colours | every element read back, as a tuple of its fields | high; not executed | Messages.ColourListAsWrittenEmpty | Messages.ColourMapRoundTrip |
| rfb.py:480-496 | `writevarlist` looks at `eles[0]` after writing the count, so an empty list fails | `setEncodings()` with no encodings writes the count 0 and raises IndexError | an empty list written as the count 0 alone | high; not executed | Messages.NoEncodingsAsWrittenFails | Wire.TakeListPack |
| rfb.py:926-928 | `__handleCopyRect` crops the box `(srcx, srcy, x+w, y+h)`, ending at the destination's far corner | a 3×1 picture A B C with a 1×1 copy from (0, 0) to (1, 0) becomes A A B, not A A C | the box `(srcx, srcy, srcx+w, srcy+h)` | high; not executed | Grids.CopyRectAsWrittenOverwrites | Grids.CopyRectSnapshot |
| rfb.py:603 | in version 3.3 the security type is read as one byte (`SecType = ">B"`), where section 7.1.2 of RFC 6143 (appendix A.1 for 3.3) sends a U32 | a 3.3 server choosing None sends `0 0 0 1`; the first byte 0 is refused | the security type read as a U32 | medium; not executed | Setup.SecurityV33AsWrittenRefusesNone | Setup.SecurityV33 |

The first three corrections are what the rest of the model uses (see "## Left out"). The fourth is not: the handshake keeps the code's one-byte read (`Setup.SecurityV33AsWritten`), so that every handshake lemma states what rfb.py does. The corrected U32 reader is defined and proved beside it.
