/**
 * `RemoteScreen` (rfb.py:878-1008): a picture of the server's desktop,
 * kept up to date by the rectangle callbacks the screen registers on its
 * `RFBEndpoint`, and helpers that send keys, pointer events and cut text.
 *
 * The endpoint records each callback call in its `invoked` log; the
 * screen plays the calls addressed to its own handlers in the order they
 * were made, once the read that made them is over.  The callbacks touch
 * only the screen, never the endpoint, so the picture comes out as it
 * would had each been drawn during the read.
 */
module Screen {
  import opened Wrappers
  import opened BigEndian
  import opened Errors
  import opened Messages
  import opened Protocol
  import opened Dispatch
  import opened Rfb
  import opened Grids
  import Setup

  // ---- The screen's callbacks ----

  const BellHandler: HandlerId := 0
  const CutTextHandler: HandlerId := 1
  const RawHandler: HandlerId := 2
  const CopyRectHandler: HandlerId := 3
  const CursorHandler: HandlerId := 4

  /** What the screen shows and remembers: the picture, the cursor's image and mask, the server's cut text. */
  datatype View = View(grid: Grid, cursorImage: Option<Grid>, cursorMask: Option<seq<byte>>, serverCutText: seq<byte>)

  /** A new screen `w` pixels wide and `h` high: black, with no cursor and no cut text. */
  function Initial(w: nat, h: nat): View
  {
    View(Blank(w, h), None, None, [])
  }

  /**
   * One callback call: a Raw rectangle is pasted, a CopyRect rectangle
   * copied within the picture, a cursor rectangle replaces the cursor, a
   * ServerCutText message replaces the cut text, and the Bell callback, or
   * a handler that is not the screen's, changes nothing.
   */
  function Draw(v: View, c: Invocation): View
  {
    match c.args
    case RectArgs(Rect(x, y, w, h, p)) =>
      if c.handler == RawHandler && p.Raw? then v.(grid := Paste(v.grid, FromBuffer(p.pixels, w, h), x, y))
      else if c.handler == CopyRectHandler && p.CopyRect? then v.(grid := CopyRectGrid(v.grid, x, y, w, h, p.srcX, p.srcY))
      else if c.handler == CursorHandler && p.Cursor? then
        v.(cursorImage := Some(FromBuffer(p.pixels, w, h)), cursorMask := Some(p.mask))
      else v
    case MessageArgs(m) =>
      if c.handler == CutTextHandler && m.ServerCutText? then v.(serverCutText := m.text) else v
  }

  /** The calls played one after another, first call first. */
  function Replay(v: View, calls: seq<Invocation>): View
  {
    if calls == [] then v else Draw(Replay(v, calls[..|calls| - 1]), calls[|calls| - 1])
  }

  /** Playing a log in two parts is playing it whole: the screen may catch up after every read. */
  lemma {:induction false} ReplayAppend(v: View, a: seq<Invocation>, b: seq<Invocation>)
    ensures Replay(v, a + b) == Replay(Replay(v, a), b)
  {
    if b != [] {
      var n := |b| - 1;
      assert (a + b)[..|a + b| - 1] == a + b[..n];
      assert (a + b)[|a + b| - 1] == b[n];
      ReplayAppend(v, a, b[..n]);
    } else {
      assert a + b == a;
    }
  }

  /** The picture keeps its size whatever is drawn. */
  lemma {:induction false} ReplayShape(v: View, calls: seq<Invocation>, w: nat, h: nat)
    requires IsGrid(v.grid, w, h)
    ensures IsGrid(Replay(v, calls).grid, w, h)
  {
    if calls != [] {
      var u := Replay(v, calls[..|calls| - 1]);
      ReplayShape(v, calls[..|calls| - 1], w, h);
      var c := calls[|calls| - 1];
      if c.args.RectArgs? {
        var r := c.args.rect;
        if c.handler == RawHandler && r.payload.Raw? {
          PasteShape(u.grid, FromBuffer(r.payload.pixels, r.w, r.h), r.x, r.y, w, h);
        } else if c.handler == CopyRectHandler && r.payload.CopyRect? {
          PasteShape(u.grid, Crop(u.grid, r.payload.srcX, r.payload.srcY, r.payload.srcX + r.w, r.payload.srcY + r.h), r.x, r.y, w, h);
        }
      }
    }
  }

  /** A cursor rectangle changes the cursor and nothing else: never the picture. */
  lemma CursorLeavesPicture(v: View, c: Invocation)
    requires c.args.RectArgs? && c.args.rect.payload.Cursor?
    ensures Draw(v, c).grid == v.grid && Draw(v, c).serverCutText == v.serverCutText
    ensures c.handler == CursorHandler ==>
      Draw(v, c).cursorImage == Some(FromBuffer(c.args.rect.payload.pixels, c.args.rect.w, c.args.rect.h))
      && Draw(v, c).cursorMask == Some(c.args.rect.payload.mask)
  {
  }

  // ---- Opening a screen ----

  /** The callbacks of a screen's endpoint once it is open. */
  const ScreenMessageCallbacks: Table := map[2 := [BellHandler], 3 := [CutTextHandler]]
  const ScreenRectCallbacks: Table := map[RawEncoding := [RawHandler], CopyRectEncoding := [CopyRectHandler], CursorEncoding := [CursorHandler]]

  /** The server's format, turned into 32-bit true colour with the bytes in RGBX order. */
  function ScreenFormat(pf: PixelFormat): PixelFormat
  {
    pf.(bpp := 32, depth := 24, trueColour := 1, rgbMax := (255, 255, 255), rgbShift := (24, 16, 8))
  }

  /** The bytes of several client messages, one after another. */
  function EncodeClients(ms: seq<ClientMessage>): seq<byte>
    requires forall k :: 0 <= k < |ms| ==> WellFormed(ms[k])
  {
    if ms == [] then [] else EncodeClient(ms[0]) + EncodeClients(ms[1..])
  }

  /** One more message, at the end. */
  lemma {:induction false} EncodeClientsSnoc(ms: seq<ClientMessage>, m: ClientMessage)
    requires forall k :: 0 <= k < |ms| ==> WellFormed(ms[k])
    requires WellFormed(m)
    ensures EncodeClients(ms + [m]) == EncodeClients(ms) + EncodeClient(m)
  {
    if ms == [] {
      assert [m][1..] == [];
    } else {
      assert (ms + [m])[1..] == ms[1..] + [m];
      EncodeClientsSnoc(ms[1..], m);
    }
  }

  /** The encodings a screen asks for: Raw, CopyRect and the cursor. */
  const ScreenEncodings: seq<i32> := [RawEncoding as i32, CopyRectEncoding as i32, CursorEncoding as i32]

  /** What a new screen asks of the server: its pixel format, its encodings, the whole picture. */
  function OpeningBytes(pf: PixelFormat, w: u16, h: u16): seq<byte>
  {
    EncodeClient(SetPixelFormat(ScreenFormat(pf)))
    + EncodeClient(SetEncodings(ScreenEncodings))
    + EncodeClient(FramebufferUpdateRequest(false, 0, 0, w, h))
  }

  /** A fresh endpoint's callbacks, once the screen has registered its own. */
  lemma ScreenTables()
    ensures Register(Register(map[], 2, BellHandler), 3, CutTextHandler) == ScreenMessageCallbacks
    ensures Register(Register(Register(map[], RawEncoding, RawHandler), CopyRectEncoding, CopyRectHandler), CursorEncoding, CursorHandler)
      == ScreenRectCallbacks
  {
    assert [] + [BellHandler] == [BellHandler] && [] + [CutTextHandler] == [CutTextHandler];
    assert Register(map[], 2, BellHandler) == map[2 := [BellHandler]];
    assert [] + [RawHandler] == [RawHandler] && [] + [CopyRectHandler] == [CopyRectHandler] && [] + [CursorHandler] == [CursorHandler];
    assert Register(map[], RawEncoding, RawHandler) == map[RawEncoding := [RawHandler]];
    assert Register(map[RawEncoding := [RawHandler]], CopyRectEncoding, CopyRectHandler)
      == map[RawEncoding := [RawHandler], CopyRectEncoding := [CopyRectHandler]];
  }

  // ---- Key and pointer events ----

  /** The key event `sendKey` sends for a modifier when the flag is set. */
  function When(on: bool, down: bool, keysym: u32): (r: seq<ClientMessage>)
    ensures forall k :: 0 <= k < |r| ==> r[k] == KeyEvent(down, keysym)
  {
    if on then [KeyEvent(down, keysym)] else []
  }

  /** Presses of `a + b` are the presses of `a`, then of `b`. */
  lemma {:induction false} PressesAppend(a: seq<u32>, b: seq<u32>)
    ensures Presses(a + b) == Presses(a) + Presses(b)
  {
    if a != [] {
      assert (a + b)[1..] == a[1..] + b;
      PressesAppend(a[1..], b);
    }
  }

  /** Releases of `a + b`, last first, are those of `b`, then of `a`. */
  lemma {:induction false} ReleasesAppend(a: seq<u32>, b: seq<u32>)
    ensures ReleasesReversed(a + b) == ReleasesReversed(b) + ReleasesReversed(a)
  {
    if a != [] {
      assert (a + b)[1..] == a[1..] + b;
      ReleasesAppend(a[1..], b);
    }
  }

  /** The presses `sendKey` sends for the modifiers asked for, in its order. */
  function ModifierPresses(shift: bool, ctrl: bool, option: bool, cmd: bool): seq<ClientMessage>
  {
    When(shift, true, ShiftL) + When(ctrl, true, ControlL) + When(option, true, AltL) + When(cmd, true, MetaL)
  }

  /** The releases `sendKey` sends for the modifiers asked for, in its order. */
  function ModifierReleases(shift: bool, ctrl: bool, option: bool, cmd: bool): seq<ClientMessage>
  {
    When(cmd, false, MetaL) + When(option, false, AltL) + When(ctrl, false, ControlL) + When(shift, false, ShiftL)
  }

  /** One modifier, pressed and released. */
  lemma OneModifier(on: bool, k: u32)
    ensures Presses(if on then [k] else []) == When(on, true, k)
    ensures ReleasesReversed(if on then [k] else []) == When(on, false, k)
  {
  }

  /** The modifiers, pressed and released, one condition at a time. */
  lemma ModifierEvents(shift: bool, ctrl: bool, option: bool, cmd: bool)
    ensures Presses(Modifiers(shift, ctrl, option, cmd)) == ModifierPresses(shift, ctrl, option, cmd)
    ensures ReleasesReversed(Modifiers(shift, ctrl, option, cmd)) == ModifierReleases(shift, ctrl, option, cmd)
  {
    var s: seq<u32> := if shift then [ShiftL] else [];
    var c: seq<u32> := if ctrl then [ControlL] else [];
    var o: seq<u32> := if option then [AltL] else [];
    var m: seq<u32> := if cmd then [MetaL] else [];
    assert Modifiers(shift, ctrl, option, cmd) == s + c + o + m;
    OneModifier(shift, ShiftL);
    OneModifier(ctrl, ControlL);
    OneModifier(option, AltL);
    OneModifier(cmd, MetaL);
    PressesAppend(s, c);
    PressesAppend(s + c, o);
    PressesAppend(s + c + o, m);
    var rs, rc, ro, rm := When(shift, false, ShiftL), When(ctrl, false, ControlL), When(option, false, AltL), When(cmd, false, MetaL);
    ReleasesAppend(s, c);
    ReleasesAppend(s + c, o);
    Appended(ro, rc, rs);
    ReleasesAppend(s + c + o, m);
    Appended(rm, ro + rc, rs);
    Appended(rm, ro, rc);
  }

  /** `sendKey`'s events, condition by condition as it sends them. */
  lemma SendKeyOrder(keysym: u32, shift: bool, ctrl: bool, option: bool, cmd: bool)
    ensures SendKeyEvents(keysym, shift, ctrl, option, cmd)
      == ModifierPresses(shift, ctrl, option, cmd) + [KeyEvent(true, keysym), KeyEvent(false, keysym)]
         + ModifierReleases(shift, ctrl, option, cmd)
  {
    ModifierEvents(shift, ctrl, option, cmd);
  }

  /** The picture held in an array, as a grid. */
  function Snapshot(img: array2<Pixel>): (g: Grid)
    reads img
    ensures IsGrid(g, img.Length0, img.Length1)
    ensures forall a, b :: 0 <= a < img.Length0 && 0 <= b < img.Length1 ==> g[a][b] == img[a, b]
  {
    seq(img.Length0, a requires 0 <= a < img.Length0 reads img =>
      seq(img.Length1, b requires 0 <= b < img.Length1 reads img => img[a, b]))
  }

  class RemoteScreen {
    const endpoint: RfbEndpoint
    /** `self.image`: pixel (x, y) is `image[x, y]`. */
    const image: array2<Pixel>
    var cursorImage: Option<Grid>
    var cursorMask: Option<seq<byte>>
    var serverCutText: seq<byte>
    /** The text this client last sent with `sendCutText`. */
    var cuttext: seq<byte>

    /** What the screen shows and remembers now. */
    function Current(): View
      reads this, image
    {
      View(Snapshot(image), cursorImage, cursorMask, serverCutText)
    }

    /** A screen over `e`, `w` pixels wide and `h` high, black. */
    constructor Over(e: RfbEndpoint, w: nat, h: nat)
      ensures endpoint == e && fresh(image) && image.Length0 == w && image.Length1 == h
      ensures Current() == Initial(w, h) && cuttext == []
    {
      endpoint := e;
      image := new Pixel[w, h]((a, b) => Black);
      cursorImage, cursorMask := None, None;
      serverCutText, cuttext := [], [];
      new;
      GridsEqual(Snapshot(image), Blank(w, h), w, h);
    }

    // ---- Drawing ----

    /** `paste(src, (x, y))` done in place: only the pixels under `src` are written. */
    method PasteGrid(src: Grid, x: nat, y: nat)
      modifies image
      ensures Snapshot(image) == Paste(old(Snapshot(image)), src, x, y)
    {
      ghost var g0 := Snapshot(image);
      var a1 := if x + Width(src) < image.Length0 then x + Width(src) else image.Length0;
      var b1 := if y + Height(src) < image.Length1 then y + Height(src) else image.Length1;
      var a := x;
      while a < a1
        invariant x <= a && (a <= a1 || a == x)
        invariant forall a', b' :: 0 <= a' < image.Length0 && 0 <= b' < image.Length1 ==>
          image[a', b'] == if x <= a' < a && y <= b' < b1 then At(src, a' - x, b' - y) else g0[a'][b']
      {
        var b := y;
        while b < b1
          invariant y <= b && (b <= b1 || b == y)
          invariant forall a', b' :: 0 <= a' < image.Length0 && 0 <= b' < image.Length1 ==>
            image[a', b'] == if (x <= a' < a && y <= b' < b1) || (a' == a && y <= b' < b) then At(src, a' - x, b' - y) else g0[a'][b']
        {
          image[a, b] := At(src, a - x, b - y);
          b := b + 1;
        }
        a := a + 1;
      }
      GridsEqual(Snapshot(image), Paste(g0, src, x, y), image.Length0, image.Length1);
    }

    /** `__handleRawRect`: the buffer, as an RGBX image `w` wide and `h` high, pasted at (x, y). */
    method HandleRawRect(x: u16, y: u16, w: u16, h: u16, data: seq<byte>)
      modifies image
      ensures Snapshot(image) == Paste(old(Snapshot(image)), FromBuffer(data, w, h), x, y)
    {
      PasteGrid(FromBuffer(data, w, h), x, y);
    }

    /** `__handleCopyRect`, with the source box ending at (srcx + w, srcy + h): a copy of it pasted at (x, y). */
    method HandleCopyRect(x: u16, y: u16, w: u16, h: u16, srcx: u16, srcy: u16)
      modifies image
      ensures Snapshot(image) == CopyRectGrid(old(Snapshot(image)), x, y, w, h, srcx, srcy)
    {
      var block := Crop(Snapshot(image), srcx, srcy, srcx + w, srcy + h);
      PasteGrid(block, x, y);
    }

    /** `__handlePseudoCursor`: the cursor's image and mask are replaced. */
    method HandlePseudoCursor(hotx: u16, hoty: u16, w: u16, h: u16, data: seq<byte>, bitmask: seq<byte>)
      modifies this`cursorImage, this`cursorMask
      ensures cursorImage == Some(FromBuffer(data, w, h)) && cursorMask == Some(bitmask)
    {
      cursorImage := Some(FromBuffer(data, w, h));
      cursorMask := Some(bitmask);
    }

    /** `__handleCutText`. */
    method HandleCutText(text: seq<byte>)
      modifies this`serverCutText
      ensures serverCutText == text
    {
      serverCutText := text;
    }

    /** One logged call, handed to the callback it names. */
    method Play(c: Invocation)
      modifies this, image
      ensures Current() == Draw(old(Current()), c) && cuttext == old(cuttext)
    {
      match c.args
      case RectArgs(Rect(x, y, w, h, p)) =>
        if c.handler == RawHandler && p.Raw? {
          HandleRawRect(x, y, w, h, p.pixels);
        } else if c.handler == CopyRectHandler && p.CopyRect? {
          HandleCopyRect(x, y, w, h, p.srcX, p.srcY);
        } else if c.handler == CursorHandler && p.Cursor? {
          HandlePseudoCursor(x, y, w, h, p.pixels, p.mask);
        }
      case MessageArgs(m) =>
        if c.handler == CutTextHandler && m.ServerCutText? {
          HandleCutText(m.text);
        }
    }

    /** The calls of a read, played in the order they were made. */
    method PlayAll(calls: seq<Invocation>)
      modifies this, image
      ensures Current() == Replay(old(Current()), calls) && cuttext == old(cuttext)
    {
      for k := 0 to |calls|
        invariant Current() == Replay(old(Current()), calls[..k]) && cuttext == old(cuttext)
      {
        Play(calls[k]);
        assert calls[..k + 1][..k] == calls[..k];
      }
      assert calls[..|calls|] == calls;
    }

    // ---- Keys, the pointer and cut text ----

    /** `pressKey`. */
    method PressKey(keysym: u32) returns (r: Result<(), RfbError>)
      modifies endpoint.sock
      ensures endpoint.sock.input == old(endpoint.sock.input) && endpoint.sock.closed == old(endpoint.sock.closed)
      ensures endpoint.sock.closed ==> r == Err(Closed) && endpoint.sock.output == old(endpoint.sock.output)
      ensures !endpoint.sock.closed ==>
        r == Ok(()) && endpoint.sock.output == old(endpoint.sock.output) + EncodeClient(KeyEvent(true, keysym))
    {
      r := endpoint.KeyEvent(keysym, true);
    }

    /** `releaseKey`, releasing the key given. */
    method ReleaseKey(keysym: u32) returns (r: Result<(), RfbError>)
      modifies endpoint.sock
      ensures endpoint.sock.input == old(endpoint.sock.input) && endpoint.sock.closed == old(endpoint.sock.closed)
      ensures endpoint.sock.closed ==> r == Err(Closed) && endpoint.sock.output == old(endpoint.sock.output)
      ensures !endpoint.sock.closed ==>
        r == Ok(()) && endpoint.sock.output == old(endpoint.sock.output) + EncodeClient(KeyEvent(false, keysym))
    {
      r := endpoint.KeyEvent(keysym, false);
    }

    /**
     * One line of `sendKey`: when `on`, the key goes down or up.  `sent`
     * are the events sent since the output was `start`.
     */
    method KeyIf(on: bool, down: bool, keysym: u32, ghost start: seq<byte>, ghost sent: seq<ClientMessage>)
      returns (ghost sent': seq<ClientMessage>)
      requires !endpoint.sock.closed && (forall k :: 0 <= k < |sent| ==> WellFormed(sent[k]))
      requires endpoint.sock.output == start + EncodeClients(sent)
      modifies endpoint.sock
      ensures sent' == sent + When(on, down, keysym) && (forall k :: 0 <= k < |sent'| ==> WellFormed(sent'[k]))
      ensures endpoint.sock.output == start + EncodeClients(sent')
      ensures endpoint.sock.input == old(endpoint.sock.input) && !endpoint.sock.closed
    {
      sent' := sent;
      if on {
        var r := endpoint.KeyEvent(keysym, down);
        EncodeClientsSnoc(sent, KeyEvent(down, keysym));
        Appended(start, EncodeClients(sent), EncodeClient(KeyEvent(down, keysym)));
        sent' := sent + [KeyEvent(down, keysym)];
      }
    }

    /** `sendKey`'s presses of the modifiers asked for. */
    method PressModifiers(shift: bool, ctrl: bool, option: bool, cmd: bool, ghost start: seq<byte>, ghost sent: seq<ClientMessage>)
      returns (ghost sent': seq<ClientMessage>)
      requires !endpoint.sock.closed && (forall k :: 0 <= k < |sent| ==> WellFormed(sent[k]))
      requires endpoint.sock.output == start + EncodeClients(sent)
      modifies endpoint.sock
      ensures sent' == sent + ModifierPresses(shift, ctrl, option, cmd) && (forall k :: 0 <= k < |sent'| ==> WellFormed(sent'[k]))
      ensures endpoint.sock.output == start + EncodeClients(sent')
      ensures endpoint.sock.input == old(endpoint.sock.input) && !endpoint.sock.closed
    {
      sent' := KeyIf(shift, true, ShiftL, start, sent);
      sent' := KeyIf(ctrl, true, ControlL, start, sent');
      sent' := KeyIf(option, true, AltL, start, sent');
      sent' := KeyIf(cmd, true, MetaL, start, sent');
      Appended(sent, When(shift, true, ShiftL), When(ctrl, true, ControlL));
      Appended(sent, When(shift, true, ShiftL) + When(ctrl, true, ControlL), When(option, true, AltL));
      Appended(sent, When(shift, true, ShiftL) + When(ctrl, true, ControlL) + When(option, true, AltL), When(cmd, true, MetaL));
    }

    /** `sendKey`'s releases of the modifiers asked for, last pressed first. */
    method ReleaseModifiers(shift: bool, ctrl: bool, option: bool, cmd: bool, ghost start: seq<byte>, ghost sent: seq<ClientMessage>)
      returns (ghost sent': seq<ClientMessage>)
      requires !endpoint.sock.closed && (forall k :: 0 <= k < |sent| ==> WellFormed(sent[k]))
      requires endpoint.sock.output == start + EncodeClients(sent)
      modifies endpoint.sock
      ensures sent' == sent + ModifierReleases(shift, ctrl, option, cmd) && (forall k :: 0 <= k < |sent'| ==> WellFormed(sent'[k]))
      ensures endpoint.sock.output == start + EncodeClients(sent')
      ensures endpoint.sock.input == old(endpoint.sock.input) && !endpoint.sock.closed
    {
      sent' := KeyIf(cmd, false, MetaL, start, sent);
      sent' := KeyIf(option, false, AltL, start, sent');
      sent' := KeyIf(ctrl, false, ControlL, start, sent');
      sent' := KeyIf(shift, false, ShiftL, start, sent');
      Appended(sent, When(cmd, false, MetaL), When(option, false, AltL));
      Appended(sent, When(cmd, false, MetaL) + When(option, false, AltL), When(ctrl, false, ControlL));
      Appended(sent, When(cmd, false, MetaL) + When(option, false, AltL) + When(ctrl, false, ControlL), When(shift, false, ShiftL));
    }

    /**
     * `sendKey`: the modifiers asked for go down (shift, ctrl, option,
     * cmd), the key goes down and up, and the modifiers come up in the
     * reverse order.
     */
    method SendKey(keysym: u32, shift: bool, ctrl: bool, option: bool, cmd: bool) returns (r: Result<(), RfbError>)
      modifies endpoint.sock
      ensures endpoint.sock.input == old(endpoint.sock.input) && endpoint.sock.closed == old(endpoint.sock.closed)
      ensures endpoint.sock.closed ==> r == Err(Closed) && endpoint.sock.output == old(endpoint.sock.output)
      ensures !endpoint.sock.closed ==>
        r == Ok(()) && endpoint.sock.output == old(endpoint.sock.output) + EncodeClients(SendKeyEvents(keysym, shift, ctrl, option, cmd))
    {
      if endpoint.sock.closed {
        return Err(Closed);
      }
      ghost var start := endpoint.sock.output;
      assert start == start + EncodeClients([]);
      ghost var sent := PressModifiers(shift, ctrl, option, cmd, start, []);
      ghost var downs := sent;
      assert downs == ModifierPresses(shift, ctrl, option, cmd);
      sent := KeyIf(true, true, keysym, start, sent);
      sent := KeyIf(true, false, keysym, start, sent);
      Appended(downs, [KeyEvent(true, keysym)], [KeyEvent(false, keysym)]);
      assert [KeyEvent(true, keysym)] + [KeyEvent(false, keysym)] == [KeyEvent(true, keysym), KeyEvent(false, keysym)];
      assert sent == downs + [KeyEvent(true, keysym), KeyEvent(false, keysym)];
      sent := ReleaseModifiers(shift, ctrl, option, cmd, start, sent);
      SendKeyOrder(keysym, shift, ctrl, option, cmd);
      assert sent == SendKeyEvents(keysym, shift, ctrl, option, cmd);
      return Ok(());
    }

    /** `moveMouse`: a pointer event with no button held. */
    method MoveMouse(x: u16, y: u16) returns (r: Result<(), RfbError>)
      modifies endpoint.sock
      ensures endpoint.sock.input == old(endpoint.sock.input) && endpoint.sock.closed == old(endpoint.sock.closed)
      ensures endpoint.sock.closed ==> r == Err(Closed) && endpoint.sock.output == old(endpoint.sock.output)
      ensures !endpoint.sock.closed ==>
        r == Ok(()) && endpoint.sock.output == old(endpoint.sock.output) + EncodeClient(PointerEvent(0, x, y))
    {
      r := endpoint.PointerEvent(x, y, []);
    }

    /** `pressMouse`: a pointer event with `buttons` held; a button outside 0..7 fails before anything is sent. */
    method PressMouse(x: u16, y: u16, buttons: seq<int>) returns (r: Result<(), RfbError>)
      modifies endpoint.sock
      ensures endpoint.sock.input == old(endpoint.sock.input) && endpoint.sock.closed == old(endpoint.sock.closed)
      ensures !ValidButtons(buttons) ==> r == Err(InvalidArgument) && endpoint.sock.output == old(endpoint.sock.output)
      ensures ValidButtons(buttons) && endpoint.sock.closed ==> r == Err(Closed) && endpoint.sock.output == old(endpoint.sock.output)
      ensures ValidButtons(buttons) && !endpoint.sock.closed ==>
        r == Ok(()) && endpoint.sock.output == old(endpoint.sock.output) + EncodeClient(PointerEvent(MaskOf(buttons) as byte, x, y))
    {
      r := endpoint.PointerEvent(x, y, buttons);
    }

    /** `clickMouse`: the buttons pressed at (x, y), then the pointer moved there with none held. */
    method ClickMouse(x: u16, y: u16, buttons: seq<int>) returns (r: Result<(), RfbError>)
      modifies endpoint.sock
      ensures endpoint.sock.input == old(endpoint.sock.input) && endpoint.sock.closed == old(endpoint.sock.closed)
      ensures !ValidButtons(buttons) ==> r == Err(InvalidArgument) && endpoint.sock.output == old(endpoint.sock.output)
      ensures ValidButtons(buttons) && endpoint.sock.closed ==> r == Err(Closed) && endpoint.sock.output == old(endpoint.sock.output)
      ensures ValidButtons(buttons) && !endpoint.sock.closed ==>
        r == Ok(()) && endpoint.sock.output == old(endpoint.sock.output)
          + EncodeClients([PointerEvent(MaskOf(buttons) as byte, x, y), PointerEvent(0, x, y)])
    {
      ghost var start := endpoint.sock.output;
      r := PressMouse(x, y, buttons);
      if r.Ok? {
        ghost var press := EncodeClient(PointerEvent(MaskOf(buttons) as byte, x, y));
        r := MoveMouse(x, y);
        EncodeClientsSnoc([PointerEvent(MaskOf(buttons) as byte, x, y)], PointerEvent(0, x, y));
        Appended(start, press, EncodeClient(PointerEvent(0, x, y)));
      }
    }

    /**
     * `dragMouse`: the buttons pressed at the start and at the end, then
     * the pointer moved to the end with none held.
     */
    method DragMouse(fromx: u16, fromy: u16, tox: u16, toy: u16, buttons: seq<int>) returns (r: Result<(), RfbError>)
      modifies endpoint.sock
      ensures endpoint.sock.input == old(endpoint.sock.input) && endpoint.sock.closed == old(endpoint.sock.closed)
      ensures !ValidButtons(buttons) ==> r == Err(InvalidArgument) && endpoint.sock.output == old(endpoint.sock.output)
      ensures ValidButtons(buttons) && endpoint.sock.closed ==> r == Err(Closed) && endpoint.sock.output == old(endpoint.sock.output)
      ensures ValidButtons(buttons) && !endpoint.sock.closed ==>
        r == Ok(()) && endpoint.sock.output == old(endpoint.sock.output)
          + EncodeClients([PointerEvent(MaskOf(buttons) as byte, fromx, fromy), PointerEvent(MaskOf(buttons) as byte, tox, toy),
                           PointerEvent(0, tox, toy)])
    {
      ghost var start := endpoint.sock.output;
      r := PressMouse(fromx, fromy, buttons);
      if r.Ok? {
        ghost var press := EncodeClient(PointerEvent(MaskOf(buttons) as byte, fromx, fromy));
        // the press and the move at the end are `clickMouse`'s
        r := ClickMouse(tox, toy, buttons);
        ghost var rest := [PointerEvent(MaskOf(buttons) as byte, tox, toy), PointerEvent(0, tox, toy)];
        assert [PointerEvent(MaskOf(buttons) as byte, fromx, fromy)] + rest
          == [PointerEvent(MaskOf(buttons) as byte, fromx, fromy), PointerEvent(MaskOf(buttons) as byte, tox, toy), PointerEvent(0, tox, toy)];
        Appended(start, press, EncodeClients(rest));
      }
    }

    /**
     * `sendCutText`: the text goes out as a ClientCutText message and is
     * remembered as the text last sent, once it has gone out.
     */
    method SendCutText(text: seq<byte>) returns (r: Result<(), RfbError>)
      modifies endpoint.sock, this`cuttext
      ensures endpoint.sock.input == old(endpoint.sock.input) && endpoint.sock.closed == old(endpoint.sock.closed)
      ensures endpoint.sock.closed ==> r == Err(Closed) && endpoint.sock.output == old(endpoint.sock.output)
      ensures !endpoint.sock.closed && |text| < TwoTo32 ==>
        r == Ok(()) && endpoint.sock.output == old(endpoint.sock.output) + EncodeClient(ClientCutText(text))
      ensures !endpoint.sock.closed && |text| >= TwoTo32 ==>
        r == Err(InvalidArgument) && endpoint.sock.output == old(endpoint.sock.output) + [ClientTag(ClientCutText(text))]
      ensures cuttext == if r.Ok? then text else old(cuttext)
    {
      r := endpoint.ClientCutText(text);
      if r.Ok? {
        cuttext := text;
      }
    }

    /** `close`: the connection is closed. */
    method Close()
      modifies endpoint.sock
      ensures endpoint.sock.closed
      ensures endpoint.sock.input == old(endpoint.sock.input) && endpoint.sock.output == old(endpoint.sock.output)
    {
      endpoint.sock.Close();
    }

    // ---- Reading the screen ----

    /**
     * `waitForServerMessage(FrameBufferUpdate)` on the screen's endpoint:
     * messages are read until a FramebufferUpdate has been, and the calls
     * the reads made are drawn.
     */
    method AwaitUpdate() returns (r: Result<(), RfbError>)
      modifies this, image, endpoint.sock, endpoint`invoked
      ensures endpoint.sock.closed == old(endpoint.sock.closed) && endpoint.sock.output == old(endpoint.sock.output)
      ensures old(endpoint.sock.closed) ==>
        r == Err(Closed) && endpoint.sock.input == old(endpoint.sock.input)
        && endpoint.invoked == old(endpoint.invoked) && Current() == old(Current())
      ensures !old(endpoint.sock.closed) ==>
        var o := Wait(0, old(endpoint.sock.input), endpoint.fbFormat.bpp, endpoint.mcallbacks, endpoint.rcallbacks);
        && endpoint.sock.input == o.rest
        && endpoint.invoked == old(endpoint.invoked) + o.calls
        && Current() == Replay(old(Current()), o.calls)
        && r == if o.result.Ok? then Ok(()) else Err(o.result.error)
      ensures cuttext == old(cuttext)
    {
      var n := |endpoint.invoked|;
      var m := endpoint.WaitForServerMessage(0);
      PlayAll(endpoint.invoked[n..]);
      r := if m.Ok? then Ok(()) else Err(m.error);
    }

    /**
     * `getSubImage`: an incremental update of the box is asked for, messages
     * are read (and their calls drawn) until a FramebufferUpdate has been,
     * and the box is cut from the picture.
     */
    method GetSubImage(x: u16, y: u16, w: u16, h: u16) returns (r: Result<Grid, RfbError>)
      modifies this, image, endpoint.sock, endpoint`invoked
      ensures endpoint.sock.closed == old(endpoint.sock.closed)
      ensures old(endpoint.sock.closed) ==>
        r == Err(Closed) && endpoint.sock.input == old(endpoint.sock.input) && endpoint.sock.output == old(endpoint.sock.output)
        && endpoint.invoked == old(endpoint.invoked) && Current() == old(Current())
      ensures !old(endpoint.sock.closed) ==>
        var o := Wait(0, old(endpoint.sock.input), endpoint.fbFormat.bpp, endpoint.mcallbacks, endpoint.rcallbacks);
        && endpoint.sock.output == old(endpoint.sock.output) + EncodeClient(FramebufferUpdateRequest(true, x, y, w, h))
        && endpoint.sock.input == o.rest
        && endpoint.invoked == old(endpoint.invoked) + o.calls
        && Current() == Replay(old(Current()), o.calls)
        && r == if o.result.Ok? then Ok(Crop(Snapshot(image), x, y, x + w, y + h)) else Err(o.result.error)
      ensures cuttext == old(cuttext)
    {
      var u := endpoint.UpdateFrameBuffer(x, y, w, h, true);
      if u.Err? {
        return Err(u.error);
      }
      var m := AwaitUpdate();
      if m.Err? {
        return Err(m.error);
      }
      r := Ok(Crop(Snapshot(image), x, y, x + w, y + h));
    }

    // ---- Opening a screen ----

    /**
     * The body of `RemoteScreen.__init__` once the endpoint is connected:
     * the format becomes RGBX, a black picture of the framebuffer's size is
     * made, the screen's callbacks are registered (Bell and ServerCutText,
     * then Raw, CopyRect and the cursor), those encodings are asked for and
     * so is the whole picture.
     */
    static method Attach(e: RfbEndpoint) returns (s: RemoteScreen)
      requires !e.sock.closed
      modifies e`fbFormat, e`mcallbacks, e`rcallbacks, e.sock
      ensures fresh(s) && fresh(s.image) && s.endpoint == e
      ensures s.Current() == Initial(old(e.fbWidth), old(e.fbHeight)) && s.cuttext == []
      ensures e.sock.input == old(e.sock.input) && !e.sock.closed
      ensures e.sock.output == old(e.sock.output) + OpeningBytes(old(e.fbFormat), old(e.fbWidth), old(e.fbHeight))
      ensures e.fbFormat == ScreenFormat(old(e.fbFormat))
      ensures e.mcallbacks == Register(Register(old(e.mcallbacks), 2, BellHandler), 3, CutTextHandler)
      ensures e.rcallbacks ==
        Register(Register(Register(old(e.rcallbacks), RawEncoding, RawHandler), CopyRectEncoding, CopyRectHandler), CursorEncoding, CursorHandler)
      ensures e.invoked == old(e.invoked)
    {
      var w, h := e.fbWidth, e.fbHeight;
      Prepare(e);
      RequestPicture(e, old(e.sock.output), old(e.fbFormat));
      // the picture is made after the requests are written, which nothing can tell apart
      s := new RemoteScreen.Over(e, w, h);
    }

    /** The RGBX format set on `e`, then the screen's callbacks registered. */
    static method Prepare(e: RfbEndpoint)
      requires !e.sock.closed
      modifies e`fbFormat, e`mcallbacks, e`rcallbacks, e.sock
      ensures e.sock.input == old(e.sock.input) && !e.sock.closed
      ensures e.sock.output == old(e.sock.output) + EncodeClient(SetPixelFormat(ScreenFormat(old(e.fbFormat))))
      ensures e.fbFormat == ScreenFormat(old(e.fbFormat))
      ensures e.fbWidth == old(e.fbWidth) && e.fbHeight == old(e.fbHeight)
      ensures e.mcallbacks == Register(Register(old(e.mcallbacks), 2, BellHandler), 3, CutTextHandler)
      ensures e.rcallbacks ==
        Register(Register(Register(old(e.rcallbacks), RawEncoding, RawHandler), CopyRectEncoding, CopyRectHandler), CursorEncoding, CursorHandler)
      ensures e.invoked == old(e.invoked)
    {
      var ok := e.SetPixelFormat(ScreenFormat(e.fbFormat));
      RegisterHandlers(e);
    }

    /**
     * The screen's encodings asked for, then the whole picture: with the
     * SetPixelFormat request already written after `before`, the opening
     * requests are complete.
     */
    static method RequestPicture(e: RfbEndpoint, ghost before: seq<byte>, ghost pf: PixelFormat)
      requires !e.sock.closed && e.sock.output == before + EncodeClient(SetPixelFormat(ScreenFormat(pf)))
      modifies e.sock
      ensures e.sock.input == old(e.sock.input) && !e.sock.closed
      ensures e.sock.output == before + OpeningBytes(pf, e.fbWidth, e.fbHeight)
    {
      ghost var a, b, c := EncodeClient(SetPixelFormat(ScreenFormat(pf))), EncodeClient(SetEncodings(ScreenEncodings)),
        EncodeClient(FramebufferUpdateRequest(false, 0, 0, e.fbWidth, e.fbHeight));
      var ok := e.SetEncodings(ScreenEncodings);
      ok := e.UpdateFrameBuffer(0, 0, e.fbWidth, e.fbHeight, false);
      Appended(before, a, b);
      Appended(before, a + b, c);
    }

    /** The screen's callbacks registered on `e`: Bell and ServerCutText, then Raw, CopyRect and the cursor. */
    static method RegisterHandlers(e: RfbEndpoint)
      modifies e`mcallbacks, e`rcallbacks
      ensures e.mcallbacks == Register(Register(old(e.mcallbacks), 2, BellHandler), 3, CutTextHandler)
      ensures e.rcallbacks ==
        Register(Register(Register(old(e.rcallbacks), RawEncoding, RawHandler), CopyRectEncoding, CopyRectHandler), CursorEncoding, CursorHandler)
    {
      var ok := e.RegisterMessageCallback(2, BellHandler);
      ok := e.RegisterMessageCallback(3, CutTextHandler);
      ok := e.RegisterRectangleCallback(RawEncoding, RawHandler);
      ok := e.RegisterRectangleCallback(CopyRectEncoding, CopyRectHandler);
      ok := e.RegisterRectangleCallback(CursorEncoding, CursorHandler);
    }

    /**
     * The screen attached to a freshly connected endpoint, and the first
     * FramebufferUpdate read and drawn; when reading fails the connection
     * is closed.
     */
    static method Start(e: RfbEndpoint) returns (r: Result<RemoteScreen, RfbError>)
      requires !e.sock.closed && e.mcallbacks == map[] && e.rcallbacks == map[] && e.invoked == []
      modifies e`fbFormat, e`mcallbacks, e`rcallbacks, e`invoked, e.sock
      ensures var o := Wait(0, old(e.sock.input), 32, ScreenMessageCallbacks, ScreenRectCallbacks);
        && (o.result.Err? ==> r == Err(o.result.error) && e.sock.closed)
        && (o.result.Ok? ==>
              && r.Ok? && fresh(r.value) && fresh(r.value.image) && r.value.endpoint == e
              && e.sock.output == old(e.sock.output) + OpeningBytes(old(e.fbFormat), old(e.fbWidth), old(e.fbHeight))
              && e.sock.input == o.rest && !e.sock.closed
              && e.fbFormat == ScreenFormat(old(e.fbFormat))
              && e.mcallbacks == ScreenMessageCallbacks && e.rcallbacks == ScreenRectCallbacks
              && e.invoked == o.calls
              && r.value.Current() == Replay(Initial(old(e.fbWidth), old(e.fbHeight)), o.calls)
              && r.value.cuttext == [])
    {
      var s := Attach(e);
      ScreenTables();
      var m := s.AwaitUpdate();
      if m.Err? {
        s.Close();
        return Err(m.error);
      }
      return Ok(s);
    }

    /**
     * `RemoteScreen(host)`: connect, attach the screen, and read until the
     * first FramebufferUpdate has been drawn; on failure after connecting
     * the connection is closed.
     */
    static method Open(serverBytes: seq<byte>) returns (r: Result<RemoteScreen, RfbError>)
      ensures var c := Setup.Connection(serverBytes);
        c.outcome.Err? ==> r == Err(c.outcome.error)
      ensures var c := Setup.Connection(serverBytes);
        c.outcome.Ok? ==>
          var si := c.outcome.value.1;
          var o := Wait(0, c.rest, 32, ScreenMessageCallbacks, ScreenRectCallbacks);
          && (o.result.Err? ==> r == Err(o.result.error))
          && (o.result.Ok? ==>
                && r.Ok? && fresh(r.value) && fresh(r.value.endpoint) && fresh(r.value.image)
                && r.value.endpoint.sock.output == c.written + OpeningBytes(si.format, si.width, si.height)
                && r.value.endpoint.sock.input == o.rest && !r.value.endpoint.sock.closed
                && r.value.endpoint.fbFormat == ScreenFormat(si.format)
                && r.value.endpoint.mcallbacks == ScreenMessageCallbacks && r.value.endpoint.rcallbacks == ScreenRectCallbacks
                && r.value.endpoint.invoked == o.calls
                && r.value.Current() == Replay(Initial(si.width, si.height), o.calls)
                && r.value.cuttext == [])
    {
      var c := RfbEndpoint.Connect(serverBytes);
      if c.Err? {
        return Err(c.error);
      }
      r := Start(c.value);
    }
  }
}
