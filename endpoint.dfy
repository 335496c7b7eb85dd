/**
 * `RFBEndpoint` (rfb.py:733-876) together with the set-up it runs on
 * connecting (`RFBHandshake`, `RFBInitialize`, rfb.py:580-678).  The
 * endpoint owns one `ProtocolEndpoint`; every method is proved to read
 * and write exactly what the pure descriptions in `Handshake`,
 * `Messages` and `Dispatch` say.
 */
module Rfb {
  import opened Wrappers
  import opened BigEndian
  import opened Errors
  import opened Wire
  import opened Messages
  import opened Protocol
  import opened Setup
  import opened Dispatch

  class RfbEndpoint {
    const sock: ProtocolEndpoint
    var major: nat
    var minor: nat
    var sectype: nat
    var fbWidth: u16
    var fbHeight: u16
    var fbFormat: PixelFormat
    var fbName: seq<byte>
    var mcallbacks: Table
    var rcallbacks: Table
    /** Every callback call made so far, in order. */
    var invoked: seq<Invocation>

    constructor Over(sock: ProtocolEndpoint)
      ensures this.sock == sock && mcallbacks == map[] && rcallbacks == map[] && invoked == []
    {
      this.sock := sock;
      major, minor, sectype := 0, 0, 0;
      fbWidth, fbHeight := 0, 0;
      fbFormat := PixelFormat(0, 0, 0, 0, (0, 0, 0), (0, 0, 0));
      fbName := [];
      mcallbacks, rcallbacks := map[], map[];
      invoked := [];
    }

    // ---- Handshake ----

    /** `RFBHandshake`: the version exchange, then the security handshake. */
    method RunHandshake() returns (r: Result<Session, RfbError>)
      requires !sock.closed
      modifies sock
      ensures var h := Handshake(old(sock.input));
        r == h.outcome && sock.input == h.rest && sock.output == old(sock.output) + h.written && !sock.closed
    {
      var m := RunVersion();
      if m.Err? {
        return Err(m.error);
      }
      var t := RunSecurity(m.value);
      if t.Err? {
        return Err(t.error);
      }
      return Ok(Session(3, m.value, t.value));
    }

    /** The server's version string, and the client's answer when it is accepted. */
    method RunVersion() returns (r: Result<nat, RfbError>)
      requires !sock.closed
      modifies sock
      ensures var e := Version(old(sock.input));
        r == e.outcome && sock.input == e.rest && sock.output == old(sock.output) + e.written && !sock.closed
    {
      var v := sock.Receive(VersionLength);
      if v.Err? {
        return Err(v.error);
      }
      var s := v.value;
      if !IsVersionString(s) {
        return Err(BadFormat);
      }
      var negotiated := Negotiate(MajorOf(s), MinorOf(s));
      if negotiated.Err? {
        return Err(negotiated.error);
      }
      var w := sock.Send(VersionBytes(3, negotiated.value));
      return Ok(negotiated.value);
    }

    /** The security handshake of the negotiated minor version. */
    method RunSecurity(m: nat) returns (r: Result<nat, RfbError>)
      requires !sock.closed
      modifies sock
      ensures var e := Security(m, old(sock.input));
        r == e.outcome && sock.input == e.rest && sock.output == old(sock.output) + e.written && !sock.closed
    {
      if m == 3 {
        r := SecurityStepV33();
      } else if m == 7 || m == 8 {
        r := SecurityStepList(m);
      } else {
        r := Err(BadVersion);
      }
    }

    /** Version 3.3: the type the server chose, one byte. */
    method SecurityStepV33() returns (r: Result<nat, RfbError>)
      requires !sock.closed
      modifies sock
      ensures var e := SecurityV33AsWritten(old(sock.input));
        r == e.outcome && sock.input == e.rest && sock.output == old(sock.output) + e.written && !sock.closed
    {
      var t := sock.ReadFields(SecType);
      if t.Err? {
        return Err(t.error);
      }
      if t.value[0] != SecTypeNone {
        return Err(BadSecType(None));
      }
      return Ok(SecTypeNone);
    }

    /** Versions 3.7 and 3.8: the offered list, the choice of None, and in 3.8 the verdict. */
    method SecurityStepList(m: nat) returns (r: Result<nat, RfbError>)
      requires !sock.closed && (m == 7 || m == 8)
      modifies sock
      ensures var e := SecurityList(m, old(sock.input));
        r == e.outcome && sock.input == e.rest && sock.output == old(sock.output) + e.written && !sock.closed
    {
      var l := sock.ReadList(SecTypes);
      if l.Err? {
        return Err(l.error);
      }
      var types := SecurityTypes(l.value);
      if types == [] {
        r := ReadRefusal(NoSecurityTypes);
        return;
      }
      if SecTypeNone !in types {
        return Err(if m == 7 then BadSecType(None) else FailedHandshake);
      }
      if m == 7 {
        var w := sock.WriteFields(SecType, [SecTypeNone]);
        return Ok(SecTypeNone);
      }
      r := SecurityStepResult();
    }

    /** Version 3.8 after the choice: the server's verdict. */
    method SecurityStepResult() returns (r: Result<nat, RfbError>)
      requires !sock.closed
      modifies sock
      ensures var e := SecurityResult(old(sock.input));
        r == e.outcome && sock.input == e.rest && sock.output == old(sock.output) + e.written && !sock.closed
    {
      var w := sock.WriteFields(SecType, [SecTypeNone]);
      var res := sock.ReadFields(SecResult);
      if res.Err? {
        return Err(res.error);
      }
      if res.value[0] != 0 {
        r := ReadRefusal(SecurityFailed);
        return;
      }
      return Ok(SecTypeNone);
    }

    /** The reason string that follows a refusal, raised as the refusal's error. */
    method ReadRefusal(k: Refusal) returns (r: Result<nat, RfbError>)
      requires !sock.closed
      modifies sock
      ensures var e := WithReason(old(sock.input), k);
        r == e.outcome && sock.input == e.rest && sock.output == old(sock.output) && !sock.closed
    {
      var s := sock.ReadString(FailureReason);
      if s.Err? {
        return Err(s.error);
      }
      return Err(RefusalError(k, s.value));
    }
  
    // ---- Initialisation ----

    /** `RFBInitialize`: ask to share the desktop, then read ServerInit. */
    method RunInitialize() returns (r: Result<ServerInit, RfbError>)
      requires !sock.closed
      modifies sock
      ensures var e := Initialize(old(sock.input));
        r == e.outcome && sock.input == e.rest && sock.output == old(sock.output) + e.written && !sock.closed
    {
      var w := sock.WriteFields(ClientInit, [1]);
      assert Pack(ClientInit, [1]) == [1];
      var size := sock.ReadFields(ServerInit1);
      if size.Err? {
        return Err(size.error);
      }
      r := RunInitializeFormat(size.value[0], size.value[1]);
    }

    /** The rest of ServerInit: the pixel format, then the desktop's name. */
    method RunInitializeFormat(width: u16, height: u16) returns (r: Result<ServerInit, RfbError>)
      requires !sock.closed
      modifies sock
      ensures var e := InitializeFormat(width, height, old(sock.input));
        r == e.outcome && sock.input == e.rest && sock.output == old(sock.output) && !sock.closed
    {
      var pf := ReadPixelFormat();
      if pf.Err? {
        return Err(pf.error);
      }
      var name := sock.ReadString(ServerInit2);
      if name.Err? {
        return Err(name.error);
      }
      return Ok(ServerInit(width, height, pf.value, name.value));
    }

    /** `readlist(PixelFormat)` and the record built from its values. */
    method ReadPixelFormat() returns (r: Result<PixelFormat, RfbError>)
      requires !sock.closed
      modifies sock
      ensures Taken(r, sock.input) == TakePixelFormat(old(sock.input))
      ensures sock.output == old(sock.output) && !sock.closed
    {
      PixelFormatSize();
      var vs := sock.ReadFields(Wire.PixelFormat);
      if vs.Err? {
        return Err(vs.error);
      }
      return Ok(PixelFormatOf(vs.value));
    }

    /** The handshake, then the initialisation when the handshake succeeds. */
    method RunSetup() returns (r: Result<(Session, ServerInit), RfbError>)
      requires !sock.closed
      modifies sock
      ensures var c := Connection(old(sock.input));
        r == c.outcome && sock.input == c.rest && sock.output == old(sock.output) + c.written && !sock.closed
    {
      var h := RunHandshake();
      if h.Err? {
        return Err(h.error);
      }
      var i := RunInitialize();
      if i.Err? {
        return Err(i.error);
      }
      return Ok((h.value, i.value));
    }

    /** What the handshake and the initialisation learned, kept in the fields. */
    method Store(session: Session, si: ServerInit)
      modifies this
      ensures Session(major, minor, sectype) == session
      ensures ServerInit(fbWidth, fbHeight, fbFormat, fbName) == si
      ensures mcallbacks == old(mcallbacks) && rcallbacks == old(rcallbacks) && invoked == old(invoked)
    {
      major, minor, sectype := session.major, session.minor, session.sectype;
      fbWidth, fbHeight, fbFormat, fbName := si.width, si.height, si.format, si.name;
    }

    /**
     * `RFBEndpoint.__init__`: connect to a server that will send
     * `serverBytes`, run the handshake and the initialisation, closing
     * the connection if either fails; no callbacks are registered yet.
     */
    static method Connect(serverBytes: seq<byte>) returns (r: Result<RfbEndpoint, RfbError>)
      ensures var c := Connection(serverBytes);
        r.Ok? <==> c.outcome.Ok?
      ensures var c := Connection(serverBytes);
        r.Err? ==> r.error == c.outcome.error
      ensures r.Ok? ==>
        var e := r.value;
        var c := Connection(serverBytes);
        && fresh(e) && fresh(e.sock)
        && c.outcome.value == (Session(e.major, e.minor, e.sectype), ServerInit(e.fbWidth, e.fbHeight, e.fbFormat, e.fbName))
        && e.sock.input == c.rest && e.sock.output == c.written && !e.sock.closed
        && e.mcallbacks == map[] && e.rcallbacks == map[] && e.invoked == []
    {
      var sock := new ProtocolEndpoint(serverBytes);
      r := Establish(sock);
    }

    /**
     * The set-up `RFBEndpoint.__init__` runs on an open connection: an
     * endpoint over it when the handshake and the initialisation
     * succeed; otherwise the connection is closed before the error is
     * returned.
     */
    static method Establish(sock: ProtocolEndpoint) returns (r: Result<RfbEndpoint, RfbError>)
      requires !sock.closed
      modifies sock
      ensures var c := Connection(old(sock.input));
        && sock.input == c.rest && sock.output == old(sock.output) + c.written
        && (r.Ok? <==> c.outcome.Ok?)
        && (r.Err? ==> r.error == c.outcome.error && sock.closed)
        && (r.Ok? ==>
              var e := r.value;
              && fresh(e) && e.sock == sock && !sock.closed
              && c.outcome.value == (Session(e.major, e.minor, e.sectype), ServerInit(e.fbWidth, e.fbHeight, e.fbFormat, e.fbName))
              && e.mcallbacks == map[] && e.rcallbacks == map[] && e.invoked == [])
    {
      var e := new RfbEndpoint.Over(sock);
      var c := e.RunSetup();
      if c.Err? {
        sock.Close();
        return Err(c.error);
      }
      e.Store(c.value.0, c.value.1);
      return Ok(e);
    }

    // ---- Client-to-server messages ----

    /**
     * `setPixelFormat`: the type byte, three pad bytes, the format; the
     * endpoint then reads pixels in that format.
     */
    method SetPixelFormat(pf: PixelFormat) returns (r: Result<(), RfbError>)
      modifies this`fbFormat, sock
      ensures sock.input == old(sock.input) && sock.closed == old(sock.closed)
      ensures sock.closed ==> r == Err(Closed) && sock.output == old(sock.output) && fbFormat == old(fbFormat)
      ensures !sock.closed ==>
        && r == Ok(())
        && sock.output == old(sock.output) + EncodeClient(ClientMessage.SetPixelFormat(pf))
        && fbFormat == pf
      ensures Session(major, minor, sectype) == old(Session(major, minor, sectype))
      ensures fbWidth == old(fbWidth) && fbHeight == old(fbHeight) && fbName == old(fbName)
      ensures mcallbacks == old(mcallbacks) && rcallbacks == old(rcallbacks) && invoked == old(invoked)
    {
      r := SendSetPixelFormat(pf);
      if r.Ok? {
        fbFormat := pf;
      }
    }

    /** The three records of a SetPixelFormat message. */
    method SendSetPixelFormat(pf: PixelFormat) returns (r: Result<(), RfbError>)
      modifies sock
      ensures sock.input == old(sock.input) && sock.closed == old(sock.closed)
      ensures sock.closed ==> r == Err(Closed) && sock.output == old(sock.output)
      ensures !sock.closed ==>
        r == Ok(()) && sock.output == old(sock.output) + EncodeClient(ClientMessage.SetPixelFormat(pf))
    {
      var vs := PixelFormatValues(pf);
      SetPixelFormatRecords(pf);
      ghost var p1 := Pack(ClientMessageType, [0]);
      ghost var p2 := Pack(SetPixelFormatPadding, [0, 0, 0]);
      Appended(sock.output, p1, p2);
      Appended(sock.output, p1 + p2, Pack(Wire.PixelFormat, vs));
      r := sock.WriteFields(ClientMessageType, [0]);
      if r.Ok? {
        r := sock.WriteFields(SetPixelFormatPadding, [0, 0, 0]);
        r := sock.WriteFields(Wire.PixelFormat, vs);
      }
    }

    /**
     * `setEncodings`: the type byte, then the list.  A list too long for
     * its U16 count fails once the type byte is out.
     */
    method SetEncodings(es: seq<i32>) returns (r: Result<(), RfbError>)
      modifies sock
      ensures sock.input == old(sock.input) && sock.closed == old(sock.closed)
      ensures sock.closed ==> r == Err(Closed) && sock.output == old(sock.output)
      ensures !sock.closed && |es| < 0x1_0000 ==>
        r == Ok(()) && sock.output == old(sock.output) + EncodeClient(ClientMessage.SetEncodings(es))
      ensures !sock.closed && |es| >= 0x1_0000 ==>
        r == Err(InvalidArgument) && sock.output == old(sock.output) + [ClientTag(ClientMessage.SetEncodings(es))]
    {
      ghost var before := sock.output;
      r := sock.WriteFields(ClientMessageType, [2]);
      if r.Ok? {
        if |es| >= 0x1_0000 {
          return Err(InvalidArgument);
        }
        var ss := Singletons(es);
        SetEncodingsRecords(es);
        Appended(before, Pack(ClientMessageType, [2]), PackList(Wire.SetEncodings, ss));
        r := sock.WriteList(Wire.SetEncodings, ss);
      }
    }

    /** `updateFrameBuffer`: ask for the region, incrementally or in full. */
    method UpdateFrameBuffer(x: u16, y: u16, width: u16, height: u16, inc: bool) returns (r: Result<(), RfbError>)
      modifies sock
      ensures sock.input == old(sock.input) && sock.closed == old(sock.closed)
      ensures sock.closed ==> r == Err(Closed) && sock.output == old(sock.output)
      ensures !sock.closed ==>
        r == Ok(()) && sock.output == old(sock.output) + EncodeClient(FramebufferUpdateRequest(inc, x, y, width, height))
    {
      var vs := [Flag(inc), x, y, width, height];
      UpdateRequestRecords(inc, x, y, width, height);
      Appended(sock.output, Pack(ClientMessageType, [3]), Pack(FrameBufferUpdateReq, vs));
      r := sock.WriteFields(ClientMessageType, [3]);
      if r.Ok? {
        r := sock.WriteFields(FrameBufferUpdateReq, vs);
      }
    }

    /** `keyEvent`: a key goes down or up. */
    method KeyEvent(keysym: u32, down: bool) returns (r: Result<(), RfbError>)
      modifies sock
      ensures sock.input == old(sock.input) && sock.closed == old(sock.closed)
      ensures sock.closed ==> r == Err(Closed) && sock.output == old(sock.output)
      ensures !sock.closed ==>
        r == Ok(()) && sock.output == old(sock.output) + EncodeClient(ClientMessage.KeyEvent(down, keysym))
    {
      var vs := [Flag(down), 0, 0, keysym];
      KeyEventRecords(down, keysym);
      Appended(sock.output, Pack(ClientMessageType, [4]), Pack(Wire.KeyEvent, vs));
      r := sock.WriteFields(ClientMessageType, [4]);
      if r.Ok? {
        r := sock.WriteFields(Wire.KeyEvent, vs);
      }
    }

    /**
     * `pointerEvent`: the buttons held become a mask (a button outside
     * 0..7 is refused before anything is written), then the event.
     */
    method PointerEvent(x: u16, y: u16, buttons: seq<int>) returns (r: Result<(), RfbError>)
      modifies sock
      ensures sock.input == old(sock.input) && sock.closed == old(sock.closed)
      ensures !ValidButtons(buttons) ==> r == Err(InvalidArgument) && sock.output == old(sock.output)
      ensures ValidButtons(buttons) && sock.closed ==> r == Err(Closed) && sock.output == old(sock.output)
      ensures ValidButtons(buttons) && !sock.closed ==>
        r == Ok(()) && sock.output == old(sock.output) + EncodeClient(ClientMessage.PointerEvent(MaskOf(buttons) as byte, x, y))
    {
      var mask := ButtonMask(buttons);
      if mask.Err? {
        return Err(mask.error);
      }
      var vs := [mask.value as byte, x, y];
      PointerEventRecords(mask.value as byte, x, y);
      Appended(sock.output, Pack(ClientMessageType, [5]), Pack(Wire.PointerEvent, vs));
      r := sock.WriteFields(ClientMessageType, [5]);
      if r.Ok? {
        r := sock.WriteFields(Wire.PointerEvent, vs);
      }
    }

    /**
     * `clientCutText`: the type byte, then the text with its U32 length;
     * a text too long for the length fails once the type byte is out.
     */
    method ClientCutText(text: seq<byte>) returns (r: Result<(), RfbError>)
      modifies sock
      ensures sock.input == old(sock.input) && sock.closed == old(sock.closed)
      ensures sock.closed ==> r == Err(Closed) && sock.output == old(sock.output)
      ensures !sock.closed && |text| < TwoTo32 ==>
        r == Ok(()) && sock.output == old(sock.output) + EncodeClient(ClientMessage.ClientCutText(text))
      ensures !sock.closed && |text| >= TwoTo32 ==>
        r == Err(InvalidArgument) && sock.output == old(sock.output) + [ClientTag(ClientMessage.ClientCutText(text))]
    {
      ghost var before := sock.output;
      r := sock.WriteFields(ClientMessageType, [6]);
      if r.Ok? {
        if |text| >= TwoTo32 {
          return Err(InvalidArgument);
        }
        CutTextRecords(text);
        Appended(before, Pack(ClientMessageType, [6]), PackString(CutText, text));
        r := sock.WriteString(CutText, text);
      }
    }

    // ---- Callback registration ----

    /**
     * `registerMessageCallback`: `h` is called, after the callbacks
     * registered before it, on every message of the type; only
     * SetColourMapEntries, Bell and ServerCutText take callbacks.
     */
    method RegisterMessageCallback(messageType: int, h: HandlerId) returns (r: Result<(), RfbError>)
      modifies this`mcallbacks
      ensures messageType in MessageTypes ==> r == Ok(()) && mcallbacks == Register(old(mcallbacks), messageType, h)
      ensures messageType !in MessageTypes ==> r == Err(InvalidArgument) && mcallbacks == old(mcallbacks)
    {
      if messageType !in MessageTypes {
        return Err(InvalidArgument);
      }
      mcallbacks := mcallbacks[messageType := Registered(mcallbacks, messageType) + [h]];
      return Ok(());
    }

    /**
     * `registerRectangeCallback`: `h` is called, after the callbacks
     * registered before it, on every rectangle of the encoding; only Raw,
     * CopyRect and the cursor pseudo-encoding take callbacks.
     */
    method RegisterRectangleCallback(encoding: int, h: HandlerId) returns (r: Result<(), RfbError>)
      modifies this`rcallbacks
      ensures encoding in RectEncodings ==> r == Ok(()) && rcallbacks == Register(old(rcallbacks), encoding, h)
      ensures encoding !in RectEncodings ==> r == Err(InvalidArgument) && rcallbacks == old(rcallbacks)
    {
      if encoding !in RectEncodings {
        return Err(InvalidArgument);
      }
      rcallbacks := rcallbacks[encoding := Registered(rcallbacks, encoding) + [h]];
      return Ok(());
    }

    // ---- Server-to-client messages ----

    /** Each of `handlers` called with `args`, in order. */
    method Invoke(handlers: seq<HandlerId>, args: Args)
      modifies this`invoked
      ensures invoked == old(invoked) + Calls(handlers, args)
    {
      for j := 0 to |handlers|
        invariant invoked == old(invoked) + Calls(handlers[..j], args)
      {
        assert Calls(handlers[..j + 1], args) == Calls(handlers[..j], args) + [Invocation(handlers[j], args)];
        invoked := invoked + [Invocation(handlers[j], args)];
      }
      assert handlers[..|handlers|] == handlers;
    }

    /** A rectangle's payload, read as its encoding says. */
    method ReadPayload(enc: int, w: u16, h: u16) returns (r: Result<Payload, RfbError>)
      requires !sock.closed
      modifies sock
      ensures Taken(r, sock.input) == TakePayload(enc, w, h, fbFormat.bpp, old(sock.input))
      ensures sock.output == old(sock.output) && !sock.closed
    {
      if enc == RawEncoding {
        var px := sock.Receive(RawSize(w, h, fbFormat.bpp));
        if px.Err? {
          return Err(px.error);
        }
        return Ok(Raw(px.value));
      } else if enc == CopyRectEncoding {
        SizeFromFrontSize(FrameBufferCopyRect);
        var src := sock.ReadFields(FrameBufferCopyRect);
        if src.Err? {
          return Err(src.error);
        }
        return Ok(CopyRect(src.value[0], src.value[1]));
      } else if enc == CursorEncoding {
        var px := sock.Receive(RawSize(w, h, fbFormat.bpp));
        if px.Err? {
          return Err(px.error);
        }
        var mask := sock.Receive(MaskSize(w, h));
        if mask.Err? {
          return Err(mask.error);
        }
        return Ok(Cursor(px.value, mask.value));
      }
      return Err(ProtocolViolation);
    }

    /** One rectangle: its header, then its payload. */
    method ReadRect() returns (r: Result<Rect, RfbError>)
      requires !sock.closed
      modifies sock
      ensures Taken(r, sock.input) == TakeRect(old(sock.input), fbFormat.bpp)
      ensures sock.output == old(sock.output) && !sock.closed
    {
      SizeFromFrontSize(FrameBufferRectangleHeader);
      var hd := sock.ReadFields(FrameBufferRectangleHeader);
      if hd.Err? {
        return Err(hd.error);
      }
      var p := ReadPayload(hd.value[4], hd.value[2], hd.value[3]);
      if p.Err? {
        return Err(p.error);
      }
      return Ok(Rect(hd.value[0], hd.value[1], hd.value[2], hd.value[3], p.value));
    }

    /**
     * `RFBreadFrameBufferUpdate`'s loop: `n` rectangles, the callbacks of
     * each called before the next is read.
     */
    method ReadRectangles(n: nat) returns (r: Result<seq<Rect>, RfbError>)
      requires !sock.closed
      modifies sock, this`invoked
      ensures var o := ReadRects(n, old(sock.input), fbFormat.bpp, rcallbacks);
        r == o.result && sock.input == o.rest && invoked == old(invoked) + o.calls
      ensures sock.output == old(sock.output) && !sock.closed
    {
      var bpp := fbFormat.bpp;
      ghost var rc := rcallbacks;
      ghost var before := invoked;
      ghost var total := ReadRects(n, sock.input, bpp, rc);
      ghost var calls: seq<Invocation> := [];
      var rects: seq<Rect> := [];
      var k := n;
      ThenNothing(total);
      while k > 0
        invariant total == Then(rects, calls, ReadRects(k, sock.input, bpp, rc))
        invariant invoked == before + calls
        invariant sock.output == old(sock.output) && !sock.closed
      {
        var one;
        one, rects, calls, k := ReadNextRect(total, rects, calls, k, bpp, rc, before);
        if one.Err? {
          return Err(one.error);
        }
      }
      ReadRectsDone(total, rects, calls, sock.input, bpp, rc);
      return Ok(rects);
    }

    /**
     * One turn of that loop: a rectangle, then its encoding's callbacks.
     * Of the whole read `total`, `rects` were read and `calls` made, with
     * `k` rectangles to come; the loop's next state is returned, and
     * `one` is what this turn read.
     */
    method ReadNextRect(ghost total: Outcome<seq<Rect>>, rects: seq<Rect>, ghost calls: seq<Invocation>, k: nat,
                        bpp: nat, ghost rc: Table, ghost before: seq<Invocation>)
      returns (one: Result<seq<Rect>, RfbError>, rects': seq<Rect>, ghost calls': seq<Invocation>, k': nat)
      requires !sock.closed && k > 0 && bpp == fbFormat.bpp && rc == rcallbacks
      requires total == Then(rects, calls, ReadRects(k, sock.input, bpp, rc))
      requires invoked == before + calls
      modifies sock, this`invoked
      ensures one.Err? ==> total == Outcome(one, calls, sock.input) && invoked == before + calls
      ensures one.Ok? ==> total == Then(rects', calls', ReadRects(k', sock.input, bpp, rc)) && k' < k
      ensures one.Ok? ==> invoked == before + calls'
      ensures sock.output == old(sock.output) && !sock.closed
    {
      ghost var inp := sock.input;
      one := ReadOneRect(bpp, rc);
      if one.Err? {
        ReadRectsFrom(total, rects, calls, k, inp, bpp, rc, one, sock.input, rects, calls, k - 1);
        return one, rects, calls, k;
      }
      rects', calls', k' := rects + one.value, calls + NextRect(inp, bpp, rc).calls, k - 1;
      ReadRectsFrom(total, rects, calls, k, inp, bpp, rc, one, sock.input, rects', calls', k');
      CallsThen(before, calls, NextRect(inp, bpp, rc).calls);
    }

    /** A rectangle, then its encoding's callbacks, as `NextRect` describes. */
    method ReadOneRect(bpp: nat, ghost rc: Table) returns (r: Result<seq<Rect>, RfbError>)
      requires !sock.closed && bpp == fbFormat.bpp && rc == rcallbacks
      modifies sock, this`invoked
      ensures r == NextRect(old(sock.input), bpp, rc).result
      ensures sock.input == NextRect(old(sock.input), bpp, rc).rest
      ensures invoked == old(invoked) + NextRect(old(sock.input), bpp, rc).calls
      ensures sock.output == old(sock.output) && !sock.closed
    {
      var rect := ReadRect();
      if rect.Err? {
        return Err(rect.error);
      }
      var hs := Lookup(rcallbacks, EncodingOf(rect.value.payload));
      if hs.Err? {
        return Err(hs.error);
      }
      Invoke(hs.value, RectArgs(rect.value));
      r := Ok([rect.value]);
    }

    /** `RFBreadFrameBufferUpdate`: the rectangle count, then the rectangles. */
    method ReadFrameBufferUpdate() returns (r: Result<ServerMessage, RfbError>)
      requires !sock.closed
      modifies sock, this`invoked
      ensures var o := Dispatch.ReadUpdate(old(sock.input), fbFormat.bpp, rcallbacks);
        r == o.result && sock.input == o.rest && invoked == old(invoked) + o.calls
      ensures sock.output == old(sock.output) && !sock.closed
    {
      var h := sock.ReadFields(FrameBufferHeader);
      if h.Err? {
        return Err(h.error);
      }
      var rs := ReadRectangles(h.value[1]);
      if rs.Err? {
        return Err(rs.error);
      }
      return Ok(FramebufferUpdate(rs.value));
    }

    /** `RFBreadSetColourMapEntries`: the first colour, then the colour list. */
    method ReadSetColourMapEntries() returns (r: Result<ServerMessage, RfbError>)
      requires !sock.closed
      modifies sock
      ensures Taken(r, sock.input) == TakeColourMap(old(sock.input))
      ensures sock.output == old(sock.output) && !sock.closed
    {
      var f := sock.ReadFields(SetColourMapEntries1);
      if f.Err? {
        return Err(f.error);
      }
      var l := sock.ReadList(SetColourMapEntries2);
      if l.Err? {
        return Err(l.error);
      }
      return Ok(SetColourMapEntries(f.value[1], Colours(l.value)));
    }

    /** `RFBreadServerCutText`. */
    method ReadServerCutText() returns (r: Result<ServerMessage, RfbError>)
      requires !sock.closed
      modifies sock
      ensures Taken(r, sock.input) == TakeServerCutText(old(sock.input))
      ensures sock.output == old(sock.output) && !sock.closed
    {
      var s := sock.ReadString(CutText);
      if s.Err? {
        return Err(s.error);
      }
      return Ok(ServerCutText(s.value));
    }

    /** The reader `RFBMessageHandlers` names for a type other than FramebufferUpdate; Bell has no body. */
    method ReadMessageBody(tag: int) returns (r: Result<ServerMessage, RfbError>)
      requires !sock.closed && tag in MessageTypes
      modifies sock
      ensures Taken(r, sock.input) == ReadBody(tag, old(sock.input))
      ensures sock.output == old(sock.output) && !sock.closed
    {
      if tag == 1 {
        r := ReadSetColourMapEntries();
      } else if tag == 2 {
        r := Ok(Bell);
      } else {
        r := ReadServerCutText();
      }
    }

    /** A message of type 1, 2 or 3: its body, then each of its type's callbacks. */
    method ReadOtherMessage(tag: int) returns (r: Result<ServerMessage, RfbError>)
      requires !sock.closed && tag in MessageTypes
      modifies sock, this`invoked
      ensures var o := ReadOther(tag, old(sock.input), mcallbacks);
        r == o.result && sock.input == o.rest && invoked == old(invoked) + o.calls
      ensures sock.output == old(sock.output) && !sock.closed
    {
      var b := ReadMessageBody(tag);
      if b.Err? {
        return Err(b.error);
      }
      var hs := Lookup(mcallbacks, tag);
      if hs.Err? {
        return Err(hs.error);
      }
      Invoke(hs.value, MessageArgs(b.value));
      return Ok(b.value);
    }

    /**
     * `readMessage`: the type byte, then the message and its callbacks.
     * The message read is returned; on a closed connection nothing is read.
     */
    method ReadMessage() returns (r: Result<ServerMessage, RfbError>)
      modifies sock, this`invoked
      ensures old(sock.closed) ==> r == Err(Closed) && sock.input == old(sock.input) && invoked == old(invoked)
      ensures !old(sock.closed) ==>
        var o := Dispatch.ReadMessage(old(sock.input), fbFormat.bpp, mcallbacks, rcallbacks);
        r == o.result && sock.input == o.rest && invoked == old(invoked) + o.calls
      ensures sock.output == old(sock.output) && sock.closed == old(sock.closed)
    {
      if sock.closed {
        return Err(Closed);
      }
      var t := sock.ReadFields(ServerMessageType);
      if t.Err? {
        return Err(t.error);
      }
      var tag := t.value[0];
      if tag == 0 {
        r := ReadFrameBufferUpdate();
      } else if tag in MessageTypes {
        r := ReadOtherMessage(tag);
      } else {
        r := Err(ProtocolViolation);
      }
    }

    /**
     * `waitForServerMessage`: messages are read, and their callbacks
     * called, until one of type `messageType` has been handled.  The
     * messages read are returned.
     */
    method WaitForServerMessage(messageType: int) returns (r: Result<seq<ServerMessage>, RfbError>)
      modifies sock, this`invoked
      ensures old(sock.closed) ==> r == Err(Closed) && sock.input == old(sock.input) && invoked == old(invoked)
      ensures !old(sock.closed) ==>
        var o := Wait(messageType, old(sock.input), fbFormat.bpp, mcallbacks, rcallbacks);
        r == o.result && sock.input == o.rest && invoked == old(invoked) + o.calls
      ensures sock.output == old(sock.output) && sock.closed == old(sock.closed)
    {
      if sock.closed {
        return Err(Closed);
      }
      ghost var total := Wait(messageType, sock.input, fbFormat.bpp, mcallbacks, rcallbacks);
      ghost var before := invoked;
      ghost var calls: seq<Invocation> := [];
      var done: seq<ServerMessage> := [];
      ThenNothing(total);
      while true
        invariant total == Then(done, calls, Wait(messageType, sock.input, fbFormat.bpp, mcallbacks, rcallbacks))
        invariant invoked == before + calls
        invariant !sock.closed && sock.output == old(sock.output)
        decreases |sock.input|
      {
        var more;
        r, more, done, calls := ReadAwaited(messageType, total, done, calls, before);
        if !more {
          return;
        }
      }
    }

    /**
     * One turn of that loop: a message and its callbacks.  Of the whole
     * wait `total`, `done` were read and `calls` made; `more` says whether
     * the wait goes on, with `done'` and `calls'` its next state.
     */
    method ReadAwaited(messageType: int, ghost total: Outcome<seq<ServerMessage>>, done: seq<ServerMessage>,
                       ghost calls: seq<Invocation>, ghost before: seq<Invocation>)
      returns (r: Result<seq<ServerMessage>, RfbError>, more: bool, done': seq<ServerMessage>, ghost calls': seq<Invocation>)
      requires !sock.closed
      requires total == Then(done, calls, Wait(messageType, sock.input, fbFormat.bpp, mcallbacks, rcallbacks))
      requires invoked == before + calls
      modifies sock, this`invoked
      ensures !more ==> total == Outcome(r, calls', sock.input)
      ensures more ==>
        |sock.input| < old(|sock.input|)
        && total == Then(done', calls', Wait(messageType, sock.input, fbFormat.bpp, mcallbacks, rcallbacks))
      ensures invoked == before + calls'
      ensures !sock.closed && sock.output == old(sock.output)
    {
      ghost var inp := sock.input;
      ghost var o := Dispatch.ReadMessage(inp, fbFormat.bpp, mcallbacks, rcallbacks);
      WaitRead(messageType, inp, fbFormat.bpp, mcallbacks, rcallbacks);
      var m := ReadMessage();
      calls' := calls + o.calls;
      CallsThen(before, calls, o.calls);
      if m.Err? {
        WaitFrom(messageType, total, done, calls, inp, fbFormat.bpp, mcallbacks, rcallbacks, o, done, calls');
        return Err(m.error), false, done, calls';
      }
      done' := done + [m.value];
      WaitFrom(messageType, total, done, calls, inp, fbFormat.bpp, mcallbacks, rcallbacks, o, done', calls');
      more := ServerTag(m.value) != messageType;
      r := Ok(done');
    }
  }
}
