/**
 * Reading server messages and calling the callbacks registered for them
 * (`readMessage`, `waitForServerMessage` and the `RFBread*` readers,
 * rfb.py:680-731 and 825-876), as pure functions of the bytes that
 * arrive.  Callbacks are named by opaque handler ids; a read records
 * every call it makes, in order, as an `Invocation`.
 */
module Dispatch {
  import opened Wrappers
  import opened BigEndian
  import opened Errors
  import opened Wire
  import opened Messages

  type HandlerId = nat

  /** The callbacks registered per message type or per rectangle encoding, in registration order. */
  type Table = map<int, seq<HandlerId>>

  /** What a callback is called with: one rectangle, or a whole non-update message. */
  datatype Args = RectArgs(rect: Rect) | MessageArgs(message: ServerMessage)

  datatype Invocation = Invocation(handler: HandlerId, args: Args)

  /** What a read produced, the calls it made (also those before a failure) and the input left. */
  datatype Outcome<+T> = Outcome(result: Result<T, RfbError>, calls: seq<Invocation>, rest: seq<byte>)

  /** The message types that take callbacks, and the encodings that do. */
  const MessageTypes: set<int> := {1, 2, 3}
  const RectEncodings: set<int> := {RawEncoding, CopyRectEncoding, CursorEncoding}

  /** The callbacks registered under `key`, none when the key is absent. */
  function Registered(table: Table, key: int): seq<HandlerId>
  {
    if key in table then table[key] else []
  }

  /** Every callback of `handlers` called once with `args`, in order. */
  function Calls(handlers: seq<HandlerId>, args: Args): (r: seq<Invocation>)
    ensures |r| == |handlers|
    ensures forall k :: 0 <= k < |r| ==> r[k] == Invocation(handlers[k], args)
  {
    if handlers == [] then []
    else [Invocation(handlers[0], args)] + Calls(handlers[1..], args)
  }

  /**
   * The callbacks to call for `key`: a key never registered raises
   * KeyError (the dictionary lookup), an empty list NotYetImplemented.
   */
  function Lookup(table: Table, key: int): (r: Result<seq<HandlerId>, RfbError>)
    ensures r.Ok? <==> Registered(table, key) != []
    ensures r.Ok? ==> r.value == Registered(table, key)
    ensures r.Err? ==> r.error == if key in table then NotYetImplemented else KeyError
  {
    if key !in table then Err(KeyError)
    else if table[key] == [] then Err(NotYetImplemented)
    else Ok(table[key])
  }

  /** The calls a rectangle update makes: each rectangle's callbacks, rectangle by rectangle. */
  function RectCalls(rs: seq<Rect>, rcallbacks: Table): seq<Invocation>
  {
    if rs == [] then []
    else Calls(Registered(rcallbacks, EncodingOf(rs[0].payload)), RectArgs(rs[0])) + RectCalls(rs[1..], rcallbacks)
  }

  /** The calls a message makes, given the callback tables. */
  function CallsFor(m: ServerMessage, mcallbacks: Table, rcallbacks: Table): seq<Invocation>
  {
    if m.FramebufferUpdate? then RectCalls(m.rects, rcallbacks)
    else Calls(Registered(mcallbacks, ServerTag(m)), MessageArgs(m))
  }

  /** Every rectangle's encoding, or the message's type, has callbacks. */
  predicate Handled(m: ServerMessage, mcallbacks: Table, rcallbacks: Table)
  {
    if m.FramebufferUpdate? then
      forall k :: 0 <= k < |m.rects| ==> Registered(rcallbacks, EncodingOf(m.rects[k].payload)) != []
    else Registered(mcallbacks, ServerTag(m)) != []
  }

  /**
   * What a successful read of `n` rectangles promises: `n` rectangles,
   * each fitting the pixel size and each with callbacks, and exactly
   * their calls, in order.
   */
  predicate RectsRead(o: Outcome<seq<Rect>>, n: nat, bpp: nat, rcallbacks: Table)
  {
    o.result.Ok? ==>
      && |o.result.value| == n && o.calls == RectCalls(o.result.value, rcallbacks)
      && forall k :: 0 <= k < n ==>
           RectFits(o.result.value[k], bpp) && Registered(rcallbacks, EncodingOf(o.result.value[k].payload)) != []
  }

  /**
   * One rectangle of a FramebufferUpdate and the calls of its encoding's
   * callbacks; an encoding nobody registered for stops the update.
   */
  function NextRect(inp: seq<byte>, bpp: nat, rcallbacks: Table): (r: Outcome<seq<Rect>>)
    ensures |r.rest| <= |inp|
    ensures r.result.Err? ==> r.calls == []
    ensures r.result.Ok? ==>
      && |r.result.value| == 1 && RectFits(r.result.value[0], bpp)
      && Registered(rcallbacks, EncodingOf(r.result.value[0].payload)) != []
      && r.calls == Calls(Registered(rcallbacks, EncodingOf(r.result.value[0].payload)), RectArgs(r.result.value[0]))
  {
    var t := TakeRect(inp, bpp);
    match t.outcome
    case Err(e) => Outcome(Err(e), [], t.rest)
    case Ok(rect) =>
      match Lookup(rcallbacks, EncodingOf(rect.payload))
      case Err(e) => Outcome(Err(e), [], t.rest)
      case Ok(hs) => Outcome(Ok([rect]), Calls(hs, RectArgs(rect)), t.rest)
  }

  /**
   * `n` rectangles of a FramebufferUpdate; the callbacks of each run
   * before the next one is read, so a later failure leaves them made.
   */
  function ReadRects(n: nat, inp: seq<byte>, bpp: nat, rcallbacks: Table): (r: Outcome<seq<Rect>>)
    ensures |r.rest| <= |inp|
  {
    if n == 0 then Outcome(Ok([]), [], inp)
    else
      var s := NextRect(inp, bpp, rcallbacks);
      if s.result.Err? then s
      else Then(s.result.value, s.calls, ReadRects(n - 1, s.rest, bpp, rcallbacks))
  }

  /** One rectangle read, then `n - 1` more, is `n` rectangles read. */
  lemma RectsReadThen(one: Outcome<seq<Rect>>, more: Outcome<seq<Rect>>, n: nat, bpp: nat, rcallbacks: Table)
    requires n > 0 && one.result.Ok? && |one.result.value| == 1
    requires RectFits(one.result.value[0], bpp)
    requires Registered(rcallbacks, EncodingOf(one.result.value[0].payload)) != []
    requires one.calls == Calls(Registered(rcallbacks, EncodingOf(one.result.value[0].payload)), RectArgs(one.result.value[0]))
    requires RectsRead(more, n - 1, bpp, rcallbacks)
    ensures RectsRead(Then(one.result.value, one.calls, more), n, bpp, rcallbacks)
  {
    if more.result.Ok? {
      var rect := one.result.value[0];
      var rs := one.result.value + more.result.value;
      assert one.result.value == [rect];
      assert rs[0] == rect && rs[1..] == more.result.value;
      forall k | 0 <= k < n
        ensures RectFits(rs[k], bpp) && Registered(rcallbacks, EncodingOf(rs[k].payload)) != []
      {
        if k > 0 {
          assert rs[k] == more.result.value[k - 1];
        }
      }
    }
  }

  /** A read of `left + 1` rectangles is one rectangle, then a read of `left`. */
  lemma ReadRectsUnfold(k: nat, left: nat, inp: seq<byte>, bpp: nat, rcallbacks: Table)
    requires k == left + 1
    ensures var s := NextRect(inp, bpp, rcallbacks);
      ReadRects(k, inp, bpp, rcallbacks)
        == if s.result.Err? then s else Then(s.result.value, s.calls, ReadRects(left, s.rest, bpp, rcallbacks))
  {
  }

  /** Every read of `n` rectangles keeps the promise of `RectsRead`. */
  lemma {:induction false} ReadRectsOk(n: nat, inp: seq<byte>, bpp: nat, rcallbacks: Table)
    ensures RectsRead(ReadRects(n, inp, bpp, rcallbacks), n, bpp, rcallbacks)
  {
    if n > 0 {
      var s := NextRect(inp, bpp, rcallbacks);
      var left := n - 1;
      ReadRectsUnfold(n, left, inp, bpp, rcallbacks);
      if s.result.Ok? {
        ReadRectsOk(left, s.rest, bpp, rcallbacks);
        RectsReadThen(s, ReadRects(left, s.rest, bpp, rcallbacks), n, bpp, rcallbacks);
      }
    }
  }

  /** `RFBreadFrameBufferUpdate`: the rectangle count, then the rectangles. */
  function ReadUpdate(inp: seq<byte>, bpp: nat, rcallbacks: Table): (r: Outcome<ServerMessage>)
    ensures |r.rest| <= |inp|
    ensures r.result.Ok? ==>
      && r.result.value.FramebufferUpdate?
      && r.calls == CallsFor(r.result.value, map[], rcallbacks)
      && Handled(r.result.value, map[], rcallbacks)
  {
    var h := TakeFields(FrameBufferHeader, inp);
    match h.outcome
    case Err(e) => Outcome(Err(e), [], h.rest)
    case Ok(vs) =>
      var rs := ReadRects(vs[1], h.rest, bpp, rcallbacks);
      ReadRectsOk(vs[1], h.rest, bpp, rcallbacks);
      match rs.result
      case Err(e) => Outcome(Err(e), rs.calls, rs.rest)
      case Ok(rects) => Outcome(Ok(FramebufferUpdate(rects)), rs.calls, rs.rest)
  }

  /** The body of a message of type 1, 2 or 3 (`RFBMessageHandlers`). */
  function ReadBody(tag: int, inp: seq<byte>): (r: Taken<ServerMessage>)
    requires tag in MessageTypes
    ensures r.outcome.Ok? ==> ServerTag(r.outcome.value) == tag && |r.rest| <= |inp|
  {
    if tag == 1 then TakeColourMap(inp)
    else if tag == 2 then Taken(Ok(Bell), inp)
    else TakeServerCutText(inp)
  }

  /** A message of type 1, 2 or 3: parsed first, then handed to each of its callbacks. */
  function ReadOther(tag: int, inp: seq<byte>, mcallbacks: Table): (r: Outcome<ServerMessage>)
    requires tag in MessageTypes
    ensures |r.rest| <= |inp|
    ensures r.result.Ok? ==>
      && ServerTag(r.result.value) == tag
      && r.calls == Calls(Registered(mcallbacks, tag), MessageArgs(r.result.value))
      && Handled(r.result.value, mcallbacks, map[])
    ensures r.result.Err? ==> r.calls == []
  {
    var b := ReadBody(tag, inp);
    match b.outcome
    case Err(e) => Outcome(Err(e), [], b.rest)
    case Ok(m) =>
      match Lookup(mcallbacks, tag)
      case Err(e) => Outcome(Err(e), [], b.rest)
      case Ok(hs) => Outcome(Ok(m), Calls(hs, MessageArgs(m)), b.rest)
  }

  /**
   * `readMessage`: the type byte, then the message; a type past
   * ServerCutText fails the source's assertion.
   */
  function ReadMessage(inp: seq<byte>, bpp: nat, mcallbacks: Table, rcallbacks: Table): (r: Outcome<ServerMessage>)
    ensures r.result.Ok? ==> |r.rest| < |inp|
    ensures r.result.Ok? ==> 1 <= |inp| && ServerTag(r.result.value) == inp[0]
    ensures r.result.Ok? ==>
      && r.calls == CallsFor(r.result.value, mcallbacks, rcallbacks)
      && Handled(r.result.value, mcallbacks, rcallbacks)
  {
    var t := TakeFields(ServerMessageType, inp);
    match t.outcome
    case Err(e) => Outcome(Err(e), [], t.rest)
    case Ok(vs) =>
      var tag := vs[0];
      if tag == 0 then ReadUpdate(t.rest, bpp, rcallbacks)
      else if tag in MessageTypes then ReadOther(tag, t.rest, mcallbacks)
      else Outcome(Err(ProtocolViolation), [], t.rest)
  }

  /** The calls a sequence of messages makes, message by message. */
  function AllCalls(ms: seq<ServerMessage>, mcallbacks: Table, rcallbacks: Table): seq<Invocation>
  {
    if ms == [] then [] else CallsFor(ms[0], mcallbacks, rcallbacks) + AllCalls(ms[1..], mcallbacks, rcallbacks)
  }

  /**
   * `waitForServerMessage`: messages are read, and their callbacks
   * called, until one of type `messageType` has been handled.
   */
  function Wait(messageType: int, inp: seq<byte>, bpp: nat, mcallbacks: Table, rcallbacks: Table): (r: Outcome<seq<ServerMessage>>)
    decreases |inp|, 1
    ensures r.result.Ok? ==> WaitedFor(messageType, r.result.value)
    ensures r.result.Ok? ==> r.calls == AllCalls(r.result.value, mcallbacks, rcallbacks)
  {
    WaitAfter(messageType, inp, ReadMessage(inp, bpp, mcallbacks, rcallbacks), bpp, mcallbacks, rcallbacks)
  }

  /** The last message is of the awaited type, and none before it is. */
  predicate WaitedFor(messageType: int, ms: seq<ServerMessage>)
  {
    && |ms| >= 1 && ServerTag(ms[|ms| - 1]) == messageType
    && forall k :: 0 <= k < |ms| - 1 ==> ServerTag(ms[k]) != messageType
  }

  /** The wait once message `m` has been read from `inp`. */
  function WaitAfter(messageType: int, inp: seq<byte>, m: Outcome<ServerMessage>, bpp: nat, mcallbacks: Table, rcallbacks: Table)
    : (r: Outcome<seq<ServerMessage>>)
    requires m.result.Ok? ==> |m.rest| < |inp| && m.calls == CallsFor(m.result.value, mcallbacks, rcallbacks)
    decreases |inp|, 0
    ensures r.result.Ok? ==> WaitedFor(messageType, r.result.value)
    ensures r.result.Ok? ==> r.calls == AllCalls(r.result.value, mcallbacks, rcallbacks)
  {
    match m.result
    case Err(e) => Outcome(Err(e), m.calls, m.rest)
    case Ok(msg) =>
      if ServerTag(msg) == messageType then Outcome(Ok([msg]), m.calls, m.rest)
      else
        var w := Wait(messageType, m.rest, bpp, mcallbacks, rcallbacks);
        match w.result
        case Err(e) => Outcome(Err(e), m.calls + w.calls, w.rest)
        case Ok(ms) =>
          assert ([msg] + ms)[1..] == ms;
          Outcome(Ok([msg] + ms), m.calls + w.calls, w.rest)
  }

  // ---- Reading back what a server sends ----

  /** A rectangle that fits and has callbacks is read back with exactly its calls. */
  lemma NextRectRoundTrip(rect: Rect, bpp: nat, rcallbacks: Table, rest: seq<byte>)
    requires RectFits(rect, bpp) && Registered(rcallbacks, EncodingOf(rect.payload)) != []
    ensures NextRect(EncodeRect(rect) + rest, bpp, rcallbacks)
      == Outcome(Ok([rect]), Calls(Registered(rcallbacks, EncodingOf(rect.payload)), RectArgs(rect)), rest)
  {
    RectRoundTrip(rect, bpp, rest);
  }

  lemma {:induction false} ReadRectsRoundTrip(rs: seq<Rect>, bpp: nat, rcallbacks: Table, rest: seq<byte>)
    requires forall k :: 0 <= k < |rs| ==> RectFits(rs[k], bpp)
    requires forall k :: 0 <= k < |rs| ==> Registered(rcallbacks, EncodingOf(rs[k].payload)) != []
    ensures ReadRects(|rs|, EncodeRects(rs) + rest, bpp, rcallbacks) == Outcome(Ok(rs), RectCalls(rs, rcallbacks), rest)
  {
    if rs != [] {
      var more := rs[1..];
      var tail := EncodeRects(more) + rest;
      var inp := EncodeRect(rs[0]) + tail;
      EncodeRectsCons(rs, rest);
      NextRectRoundTrip(rs[0], bpp, rcallbacks, tail);
      ReadRectsUnfold(|rs|, |more|, inp, bpp, rcallbacks);
      ReadRectsRoundTrip(more, bpp, rcallbacks, rest);
      Uncons(rs);
    }
  }

  /** The first rectangle's bytes, then the others', then what follows. */
  lemma EncodeRectsCons(rs: seq<Rect>, rest: seq<byte>)
    requires rs != []
    ensures EncodeRects(rs) + rest == EncodeRect(rs[0]) + (EncodeRects(rs[1..]) + rest)
  {
    Appended(EncodeRect(rs[0]), EncodeRects(rs[1..]), rest);
  }

  lemma UpdateRoundTrip(rs: seq<Rect>, bpp: nat, rcallbacks: Table, rest: seq<byte>)
    requires |rs| < 0x1_0000
    requires forall k :: 0 <= k < |rs| ==> RectFits(rs[k], bpp)
    requires forall k :: 0 <= k < |rs| ==> Registered(rcallbacks, EncodingOf(rs[k].payload)) != []
    ensures ReadUpdate(FramebufferUpdateBody(rs) + rest, bpp, rcallbacks)
      == Outcome(Ok(FramebufferUpdate(rs)), RectCalls(rs, rcallbacks), rest)
  {
    var head, tail := Pack(FrameBufferHeader, [0, |rs|]), EncodeRects(rs) + rest;
    assert FramebufferUpdateBody(rs) == head + EncodeRects(rs);
    Appended(head, EncodeRects(rs), rest);
    TakeFieldsPack(FrameBufferHeader, [0, |rs|], tail);
    ReadRectsRoundTrip(rs, bpp, rcallbacks, rest);
  }

  /** A message's bytes are its type byte, then its body. */
  lemma MessageBytes(m: ServerMessage, rest: seq<byte>)
    requires ServerEncodable(m)
    ensures EncodeServer(m) + rest == Pack(ServerMessageType, [ServerTag(m)]) + (ServerBody(m) + rest)
  {
  }

  /** After its type byte, a message is read by the reader its type selects. */
  lemma ReadMessageTag(tag: byte, body: seq<byte>, bpp: nat, mcallbacks: Table, rcallbacks: Table)
    ensures ReadMessage(Pack(ServerMessageType, [tag]) + body, bpp, mcallbacks, rcallbacks)
      == if tag == 0 then ReadUpdate(body, bpp, rcallbacks)
         else if tag in MessageTypes then ReadOther(tag, body, mcallbacks)
         else Outcome(Err(ProtocolViolation), [], body)
  {
    TakeFieldsPack(ServerMessageType, [tag], body);
  }

  lemma BodyRoundTrip(m: ServerMessage, rest: seq<byte>)
    requires !m.FramebufferUpdate? && ServerEncodable(m)
    ensures ReadBody(ServerTag(m), ServerBody(m) + rest) == Taken(Ok(m), rest)
  {
    match m
    case SetColourMapEntries(first, cs) => ColourMapRoundTrip(first, cs, rest);
    case Bell =>
    case ServerCutText(t) => ServerCutTextRoundTrip(t, rest);
  }

  /**
   * A message as the server sends it is read back whole, its callbacks
   * are each called once in registration order, and nothing after it is
   * consumed.
   */
  lemma ReadMessageRoundTrip(m: ServerMessage, bpp: nat, mcallbacks: Table, rcallbacks: Table, rest: seq<byte>)
    requires ServerWellFormed(m, bpp) && Handled(m, mcallbacks, rcallbacks)
    ensures ReadMessage(EncodeServer(m) + rest, bpp, mcallbacks, rcallbacks)
      == Outcome(Ok(m), CallsFor(m, mcallbacks, rcallbacks), rest)
  {
    MessageBytes(m, rest);
    ReadMessageTag(ServerTag(m), ServerBody(m) + rest, bpp, mcallbacks, rcallbacks);
    if m.FramebufferUpdate? {
      UpdateRoundTrip(m.rects, bpp, rcallbacks, rest);
    } else {
      BodyRoundTrip(m, rest);
    }
  }

  /** A message whose type has no callbacks is parsed, then refused: no callback runs. */
  lemma ReadMessageUnhandled(m: ServerMessage, bpp: nat, mcallbacks: Table, rcallbacks: Table, rest: seq<byte>)
    requires ServerEncodable(m) && !m.FramebufferUpdate? && Registered(mcallbacks, ServerTag(m)) == []
    ensures ReadMessage(EncodeServer(m) + rest, bpp, mcallbacks, rcallbacks)
      == Outcome(Err(if ServerTag(m) in mcallbacks then NotYetImplemented else KeyError), [], rest)
  {
    MessageBytes(m, rest);
    ReadMessageTag(ServerTag(m), ServerBody(m) + rest, bpp, mcallbacks, rcallbacks);
    BodyRoundTrip(m, rest);
  }

  /** A type byte past ServerCutText is refused after consuming only that byte. */
  lemma ReadMessageUnknownType(tag: byte, bpp: nat, mcallbacks: Table, rcallbacks: Table, rest: seq<byte>)
    requires tag >= 4
    ensures ReadMessage([tag] + rest, bpp, mcallbacks, rcallbacks) == Outcome(Err(ProtocolViolation), [], rest)
  {
    ReadMessageTag(tag, rest, bpp, mcallbacks, rcallbacks);
    assert Pack(ServerMessageType, [tag]) == [tag];
  }

  /** The bytes of several server messages, one after another, and then `rest`. */
  function Sent(ms: seq<ServerMessage>, rest: seq<byte>): seq<byte>
    requires forall k :: 0 <= k < |ms| ==> ServerEncodable(ms[k])
  {
    if ms == [] then rest
    else EncodeServer(ms[0]) + Sent(ms[1..], rest)
  }

  /** A message the server may send and the client has callbacks for. */
  predicate Readable(m: ServerMessage, bpp: nat, mcallbacks: Table, rcallbacks: Table)
  {
    ServerWellFormed(m, bpp) && Handled(m, mcallbacks, rcallbacks)
  }

  /** What a wait for `ms` requires holds of its messages after the first. */
  lemma WaitTail(messageType: int, ms: seq<ServerMessage>, bpp: nat, mcallbacks: Table, rcallbacks: Table)
    requires |ms| > 1 && WaitedFor(messageType, ms)
    requires forall k :: 0 <= k < |ms| ==> ServerEncodable(ms[k])
    requires forall k :: 0 <= k < |ms| ==> Readable(ms[k], bpp, mcallbacks, rcallbacks)
    ensures WaitedFor(messageType, ms[1..])
    ensures forall k :: 0 <= k < |ms[1..]| ==> ServerEncodable(ms[1..][k])
    ensures forall k :: 0 <= k < |ms[1..]| ==> Readable(ms[1..][k], bpp, mcallbacks, rcallbacks)
  {
  }

  /** A message of the awaited type ends the wait. */
  lemma WaitLast(messageType: int, m: ServerMessage, rest: seq<byte>, bpp: nat, mcallbacks: Table, rcallbacks: Table)
    requires ServerEncodable(m) && Readable(m, bpp, mcallbacks, rcallbacks) && ServerTag(m) == messageType
    ensures Wait(messageType, EncodeServer(m) + rest, bpp, mcallbacks, rcallbacks)
      == Outcome(Ok([m]), AllCalls([m], mcallbacks, rcallbacks), rest)
  {
    var inp := EncodeServer(m) + rest;
    ReadMessageRoundTrip(m, bpp, mcallbacks, rcallbacks, rest);
    assert Wait(messageType, inp, bpp, mcallbacks, rcallbacks)
      == WaitAfter(messageType, inp, Outcome(Ok(m), CallsFor(m, mcallbacks, rcallbacks), rest), bpp, mcallbacks, rcallbacks);
    assert AllCalls([m], mcallbacks, rcallbacks) == CallsFor(m, mcallbacks, rcallbacks) + AllCalls([], mcallbacks, rcallbacks);
  }

  /** A message not of the awaited type, then a wait that succeeds. */
  lemma WaitCons(messageType: int, ms: seq<ServerMessage>, tail: seq<byte>, rest: seq<byte>,
                 bpp: nat, mcallbacks: Table, rcallbacks: Table)
    requires |ms| >= 1 && ServerTag(ms[0]) != messageType
    requires ServerEncodable(ms[0]) && Readable(ms[0], bpp, mcallbacks, rcallbacks)
    requires Wait(messageType, tail, bpp, mcallbacks, rcallbacks) == Outcome(Ok(ms[1..]), AllCalls(ms[1..], mcallbacks, rcallbacks), rest)
    ensures Wait(messageType, EncodeServer(ms[0]) + tail, bpp, mcallbacks, rcallbacks)
      == Outcome(Ok(ms), AllCalls(ms, mcallbacks, rcallbacks), rest)
  {
    var m, inp := ms[0], EncodeServer(ms[0]) + tail;
    ReadMessageRoundTrip(m, bpp, mcallbacks, rcallbacks, tail);
    assert Wait(messageType, inp, bpp, mcallbacks, rcallbacks)
      == WaitAfter(messageType, inp, Outcome(Ok(m), CallsFor(m, mcallbacks, rcallbacks), tail), bpp, mcallbacks, rcallbacks);
    Uncons(ms);
  }

  /**
   * Waiting for a type reads exactly up to and including the first
   * message of that type, making every call of every message read.
   */
  lemma {:induction false} WaitRoundTrip(messageType: int, ms: seq<ServerMessage>, bpp: nat,
                                         mcallbacks: Table, rcallbacks: Table, rest: seq<byte>)
    requires WaitedFor(messageType, ms)
    requires forall k :: 0 <= k < |ms| ==> ServerEncodable(ms[k])
    requires forall k :: 0 <= k < |ms| ==> Readable(ms[k], bpp, mcallbacks, rcallbacks)
    ensures Wait(messageType, Sent(ms, rest), bpp, mcallbacks, rcallbacks)
      == Outcome(Ok(ms), AllCalls(ms, mcallbacks, rcallbacks), rest)
  {
    if |ms| == 1 {
      WaitSingle(messageType, ms, bpp, mcallbacks, rcallbacks, rest);
    } else {
      WaitTail(messageType, ms, bpp, mcallbacks, rcallbacks);
      WaitRoundTrip(messageType, ms[1..], bpp, mcallbacks, rcallbacks, rest);
      WaitMore(messageType, ms, bpp, mcallbacks, rcallbacks, rest);
    }
  }

  /** The wait for a single message of the awaited type. */
  lemma WaitSingle(messageType: int, ms: seq<ServerMessage>, bpp: nat, mcallbacks: Table, rcallbacks: Table, rest: seq<byte>)
    requires |ms| == 1 && ServerTag(ms[0]) == messageType
    requires ServerEncodable(ms[0]) && Readable(ms[0], bpp, mcallbacks, rcallbacks)
    ensures Wait(messageType, Sent(ms, rest), bpp, mcallbacks, rcallbacks)
      == Outcome(Ok(ms), AllCalls(ms, mcallbacks, rcallbacks), rest)
  {
    var m := ms[0];
    assert ms == [m] && ms[1..] == [];
    WaitLast(messageType, m, rest, bpp, mcallbacks, rcallbacks);
  }

  /** A message not of the awaited type in front of a wait that succeeds. */
  lemma WaitMore(messageType: int, ms: seq<ServerMessage>, bpp: nat, mcallbacks: Table, rcallbacks: Table, rest: seq<byte>)
    requires |ms| > 1 && ServerTag(ms[0]) != messageType
    requires forall k :: 0 <= k < |ms| ==> ServerEncodable(ms[k])
    requires ServerEncodable(ms[0]) && Readable(ms[0], bpp, mcallbacks, rcallbacks)
    requires Wait(messageType, Sent(ms[1..], rest), bpp, mcallbacks, rcallbacks)
      == Outcome(Ok(ms[1..]), AllCalls(ms[1..], mcallbacks, rcallbacks), rest)
    ensures Wait(messageType, Sent(ms, rest), bpp, mcallbacks, rcallbacks)
      == Outcome(Ok(ms), AllCalls(ms, mcallbacks, rcallbacks), rest)
  {
    WaitCons(messageType, ms, Sent(ms[1..], rest), rest, bpp, mcallbacks, rcallbacks);
  }

  // ---- Registering callbacks ----

  /** `setdefault(key, []).append(h)`: `h` joins the end of the callbacks under `key`. */
  function Register(table: Table, key: int, h: HandlerId): (r: Table)
    ensures key in r && Registered(r, key) == Registered(table, key) + [h]
    ensures forall k :: k != key ==> Registered(r, k) == Registered(table, k)
    ensures r.Keys == table.Keys + {key}
  {
    table[key := Registered(table, key) + [h]]
  }

  /**
   * A callback registered for a message type runs after those registered
   * before it, on every message of that type, and the type is then handled.
   */
  lemma RegisterCallsLast(m: ServerMessage, mcallbacks: Table, rcallbacks: Table, h: HandlerId)
    requires !m.FramebufferUpdate?
    ensures CallsFor(m, Register(mcallbacks, ServerTag(m), h), rcallbacks)
      == CallsFor(m, mcallbacks, rcallbacks) + [Invocation(h, MessageArgs(m))]
    ensures Handled(m, Register(mcallbacks, ServerTag(m), h), rcallbacks)
  {
    var hs := Registered(mcallbacks, ServerTag(m));
    assert Calls(hs + [h], MessageArgs(m)) == Calls(hs, MessageArgs(m)) + [Invocation(h, MessageArgs(m))];
  }

  /** The same holds of a rectangle and the callbacks of its encoding. */
  lemma RegisterRectCallsLast(rect: Rect, rcallbacks: Table, h: HandlerId)
    ensures RectCalls([rect], Register(rcallbacks, EncodingOf(rect.payload), h))
      == RectCalls([rect], rcallbacks) + [Invocation(h, RectArgs(rect))]
  {
    var hs := Registered(rcallbacks, EncodingOf(rect.payload));
    assert Calls(hs + [h], RectArgs(rect)) == Calls(hs, RectArgs(rect)) + [Invocation(h, RectArgs(rect))];
    assert RectCalls([rect], rcallbacks) == Calls(hs, RectArgs(rect)) + RectCalls([], rcallbacks);
  }

  // ---- Reading step by step ----

  /** A read of `o`, after `done` was read and `calls` made. */
  function Then<T>(done: seq<T>, calls: seq<Invocation>, o: Outcome<seq<T>>): Outcome<seq<T>>
  {
    Outcome(if o.result.Ok? then Ok(done + o.result.value) else o.result, calls + o.calls, o.rest)
  }

  /** Two reads in a row are one read of both. */
  lemma ThenThen<T>(a: seq<T>, c: seq<Invocation>, b: seq<T>, d: seq<Invocation>, o: Outcome<seq<T>>)
    ensures Then(a, c, Then(b, d, o)) == Then(a + b, c + d, o)
  {
    assert c + (d + o.calls) == c + d + o.calls;
    if o.result.Ok? {
      assert a + (b + o.result.value) == a + b + o.result.value;
    }
  }

  /**
   * A read of `k` rectangles from `inp`, after `rects` were read and
   * `calls` made, one rectangle further on: `one` and `after` are what
   * `NextRect` read and left, and `rects'`, `calls'` and `left` the state
   * that follows.  The read ends at the first rectangle that cannot be
   * read or has no callbacks.
   */
  lemma ReadRectsFrom(total: Outcome<seq<Rect>>, rects: seq<Rect>, calls: seq<Invocation>, k: nat, inp: seq<byte>,
                      bpp: nat, rcallbacks: Table, one: Result<seq<Rect>, RfbError>, after: seq<byte>,
                      rects': seq<Rect>, calls': seq<Invocation>, left: nat)
    requires total == Then(rects, calls, ReadRects(k, inp, bpp, rcallbacks)) && left + 1 == k
    requires one == NextRect(inp, bpp, rcallbacks).result && after == NextRect(inp, bpp, rcallbacks).rest
    requires one.Ok? ==> rects' == rects + one.value && calls' == calls + NextRect(inp, bpp, rcallbacks).calls
    ensures one.Err? ==> total == Outcome(one, calls, after)
    ensures one.Ok? ==> total == Then(rects', calls', ReadRects(left, after, bpp, rcallbacks))
  {
    var s := NextRect(inp, bpp, rcallbacks);
    ReadRectsUnfold(k, left, inp, bpp, rcallbacks);
    if s.result.Ok? {
      ThenThen(rects, calls, s.result.value, s.calls, ReadRects(left, s.rest, bpp, rcallbacks));
    } else {
      assert calls + s.calls == calls;
    }
  }

  /** Calls made, then more: the log grows by both in turn. */
  lemma CallsThen(before: seq<Invocation>, calls: seq<Invocation>, more: seq<Invocation>)
    ensures before + calls + more == before + (calls + more)
  {
  }

  /** Nothing read before a read leaves it as it is. */
  lemma ThenNothing<T>(o: Outcome<seq<T>>)
    ensures Then([], [], o) == o
  {
    if o.result.Ok? {
      assert [] + o.result.value == o.result.value;
    }
    assert [] + o.calls == o.calls;
  }

  /** Once no rectangle is left to read, the read is what came before. */
  lemma ReadRectsDone(total: Outcome<seq<Rect>>, rects: seq<Rect>, calls: seq<Invocation>, inp: seq<byte>,
                      bpp: nat, rcallbacks: Table)
    requires total == Then(rects, calls, ReadRects(0, inp, bpp, rcallbacks))
    ensures total == Outcome(Ok(rects), calls, inp)
  {
    assert rects + [] == rects && calls + [] == calls;
  }

  /** A wait is its first message, then what follows from it. */
  lemma WaitRead(messageType: int, inp: seq<byte>, bpp: nat, mcallbacks: Table, rcallbacks: Table)
    ensures var m := ReadMessage(inp, bpp, mcallbacks, rcallbacks);
      && (m.result.Ok? ==> |m.rest| < |inp| && m.calls == CallsFor(m.result.value, mcallbacks, rcallbacks))
      && Wait(messageType, inp, bpp, mcallbacks, rcallbacks) == WaitAfter(messageType, inp, m, bpp, mcallbacks, rcallbacks)
  {
  }

  /**
   * A wait for `messageType` from `inp`, after `done` were read and
   * `calls` made, one message `m` further on, with `done'` and `calls'`
   * the state that follows.  A failure ends the wait, and so does a
   * message of the type.
   */
  lemma WaitFrom(messageType: int, total: Outcome<seq<ServerMessage>>, done: seq<ServerMessage>, calls: seq<Invocation>,
                 inp: seq<byte>, bpp: nat, mcallbacks: Table, rcallbacks: Table,
                 m: Outcome<ServerMessage>, done': seq<ServerMessage>, calls': seq<Invocation>)
    requires m.result.Ok? ==> |m.rest| < |inp| && m.calls == CallsFor(m.result.value, mcallbacks, rcallbacks)
    requires total == Then(done, calls, WaitAfter(messageType, inp, m, bpp, mcallbacks, rcallbacks))
    requires calls' == calls + m.calls
    requires m.result.Ok? ==> done' == done + [m.result.value]
    ensures m.result.Err? ==> total == Outcome(Err(m.result.error), calls', m.rest)
    ensures m.result.Ok? && ServerTag(m.result.value) == messageType ==> total == Outcome(Ok(done'), calls', m.rest)
    ensures m.result.Ok? && ServerTag(m.result.value) != messageType ==>
      total == Then(done', calls', Wait(messageType, m.rest, bpp, mcallbacks, rcallbacks))
  {
    if m.result.Ok? && ServerTag(m.result.value) != messageType {
      WaitAfterStep(messageType, inp, m, bpp, mcallbacks, rcallbacks);
      ThenThen(done, calls, [m.result.value], m.calls, Wait(messageType, m.rest, bpp, mcallbacks, rcallbacks));
    }
  }

  /** A message not of the awaited type, then the wait goes on from what follows it. */
  lemma WaitAfterStep(messageType: int, inp: seq<byte>, m: Outcome<ServerMessage>, bpp: nat,
                      mcallbacks: Table, rcallbacks: Table)
    requires m.result.Ok? ==> |m.rest| < |inp| && m.calls == CallsFor(m.result.value, mcallbacks, rcallbacks)
    requires m.result.Ok? && ServerTag(m.result.value) != messageType
    ensures WaitAfter(messageType, inp, m, bpp, mcallbacks, rcallbacks)
      == Then([m.result.value], m.calls, Wait(messageType, m.rest, bpp, mcallbacks, rcallbacks))
  {
  }
}
