/**
 * The RFB messages the client exchanges after initialisation: the pixel
 * format record (section 7.4 of RFC 6143), the six client-to-server
 * messages (section 7.5), the rectangles of a FramebufferUpdate
 * (sections 7.6.1, 7.7.1, 7.7.2 and 7.8.1) and the four server-to-client
 * messages (section 7.6).  Encoders give the exact bytes the client
 * writes; each has a decoder beside it, and the round trips are proved.
 */
module Messages {
  import opened Wrappers
  import opened BigEndian
  import opened Errors
  import opened Wire

  // ---- Pixel format ----

  /** `(bpp, depth, bigendian, truecolorp, rgbmax, rgbshift)`, as `RFBInitialize` builds it. */
  datatype PixelFormat = PixelFormat(
    bpp: byte, depth: byte, bigEndian: byte, trueColour: byte,
    rgbMax: (u16, u16, u16), rgbShift: (byte, byte, byte))

  /** The ten values of a pixel format record in wire order. */
  function PixelFormatValues(pf: PixelFormat): (vs: seq<int>)
    ensures Conforms(Wire.PixelFormat, vs)
  {
    [pf.bpp, pf.depth, pf.bigEndian, pf.trueColour,
     pf.rgbMax.0, pf.rgbMax.1, pf.rgbMax.2,
     pf.rgbShift.0, pf.rgbShift.1, pf.rgbShift.2, 0, 0, 0]
  }

  /** The record regrouped: four scalars, then the maxima and the shifts as triples. */
  function PixelFormatOf(vs: seq<int>): (pf: PixelFormat)
    requires Conforms(Wire.PixelFormat, vs)
    ensures PixelFormatValues(pf) == vs
  {
    PixelFormat(vs[0], vs[1], vs[2], vs[3], (vs[4], vs[5], vs[6]), (vs[7], vs[8], vs[9]))
  }

  /** The 16-byte pixel format record, three trailing pad bytes included. */
  function EncodePixelFormat(pf: PixelFormat): (r: seq<byte>)
    ensures |r| == 16
  {
    PixelFormatSize();
    Pack(Wire.PixelFormat, PixelFormatValues(pf))
  }

  /** Read a pixel format record: 16 bytes, or fail having consumed nothing. */
  function TakePixelFormat(inp: seq<byte>): (r: Taken<PixelFormat>)
    ensures r.outcome.Ok? <==> 16 <= |inp|
    ensures r.outcome.Ok? ==> r.rest == inp[16..]
    ensures r.outcome.Err? ==> r.outcome.error == EndOfStream && r.rest == inp
  {
    PixelFormatSize();
    var t := TakeFields(Wire.PixelFormat, inp);
    match t.outcome
    case Err(e) => Taken(Err(e), t.rest)
    case Ok(vs) => Taken(Ok(PixelFormatOf(vs)), t.rest)
  }

  lemma PixelFormatRoundTrip(pf: PixelFormat, rest: seq<byte>)
    ensures TakePixelFormat(EncodePixelFormat(pf) + rest) == Taken(Ok(pf), rest)
  {
    TakeFieldsPack(Wire.PixelFormat, PixelFormatValues(pf), rest);
  }

  /**
   * `a * b` as repeated addition.  Payload sizes are products of header
   * fields; defined recursively, a size is unfolded only where a proof
   * asks for it, and `ProductIsTimes` connects it to `*`.
   */
  function Product(a: nat, b: nat): nat
  {
    if b == 0 then 0 else Product(a, b - 1) + a
  }

  lemma {:induction false} ProductIsTimes(a: nat, b: nat)
    ensures Product(a, b) == a * b
  {
    if b > 0 {
      ProductIsTimes(a, b - 1);
      assert a * b == a * (b - 1) + a;
    }
  }

  /** Bytes of a Raw payload or a cursor image, `w * h * bpp / 8` (`RawSizeIs`). */
  function RawSize(w: nat, h: nat, bpp: nat): nat
  {
    Product(Product(w, h), bpp) / 8
  }

  /** Bytes of a cursor bitmask: `h` rows, each padded to whole bytes (`MaskSizeIs`). */
  function MaskSize(w: nat, h: nat): nat
  {
    Product((w + 7) / 8, h)
  }

  lemma RawSizeIs(w: nat, h: nat, bpp: nat)
    ensures RawSize(w, h, bpp) == w * h * bpp / 8
  {
    ProductIsTimes(w, h);
    ProductIsTimes(w * h, bpp);
  }

  lemma MaskSizeIs(w: nat, h: nat)
    ensures MaskSize(w, h) == ((w + 7) / 8) * h
  {
    ProductIsTimes((w + 7) / 8, h);
  }

  // ---- Client-to-server messages ----

  datatype ClientMessage =
    | SetPixelFormat(pf: PixelFormat)
    | SetEncodings(encodings: seq<i32>)
    | FramebufferUpdateRequest(incremental: bool, x: u16, y: u16, w: u16, h: u16)
    | KeyEvent(down: bool, keysym: u32)
    | PointerEvent(buttonMask: byte, x: u16, y: u16)
    | ClientCutText(text: seq<byte>)

  /** The lists and strings fit their count and length fields. */
  predicate WellFormed(m: ClientMessage)
  {
    match m
    case SetEncodings(es) => |es| < 0x1_0000
    case ClientCutText(t) => |t| < TwoTo32
    case _ => true
  }

  /** The ClientMessageType byte that opens each message. */
  function ClientTag(m: ClientMessage): byte
  {
    match m
    case SetPixelFormat(_) => 0
    case SetEncodings(_) => 2
    case FramebufferUpdateRequest(_, _, _, _, _) => 3
    case KeyEvent(_, _) => 4
    case PointerEvent(_, _, _) => 5
    case ClientCutText(_) => 6
  }

  function Flag(b: bool): byte { if b then 1 else 0 }

  /** Each encoding as a one-value element of the SetEncodings list. */
  function Singletons(es: seq<i32>): (r: seq<seq<int>>)
    ensures |r| == |es|
    ensures forall k :: 0 <= k < |r| ==> r[k] == [es[k] as int] && Conforms(Wire.SetEncodings.elem, r[k])
  {
    if es == [] then [] else [[es[0] as int]] + Singletons(es[1..])
  }

  /** The type byte that opens every client message. */
  function TypeByte(tag: byte): (r: seq<byte>)
    ensures r == [tag]
  {
    Pack(ClientMessageType, [tag])
  }

  /** `setPixelFormat`'s body: three pad bytes, then the pixel format record. */
  function SetPixelFormatBody(pf: PixelFormat): (r: seq<byte>)
    ensures |r| == 19 && r[3..] == EncodePixelFormat(pf)
  {
    SizeFromFrontSize(SetPixelFormatPadding);
    Pack(SetPixelFormatPadding, [0, 0, 0]) + EncodePixelFormat(pf)
  }

  /** `setEncodings`' body: a pad byte, the count, one `>l` per encoding. */
  function SetEncodingsBody(es: seq<i32>): (r: seq<byte>)
    requires |es| < 0x1_0000
    ensures |r| == 3 + 4 * |es|
  {
    SizeFromFrontSize(Wire.SetEncodings.count);
    SizeFromFrontSize(Wire.SetEncodings.elem);
    PackList(Wire.SetEncodings, Singletons(es))
  }

  /** `updateFrameBuffer`'s body: the incremental flag, then the region. */
  function UpdateRequestBody(inc: bool, x: u16, y: u16, w: u16, h: u16): (r: seq<byte>)
    ensures |r| == 9
  {
    SizeFromFrontSize(FrameBufferUpdateReq);
    Pack(FrameBufferUpdateReq, [Flag(inc), x, y, w, h])
  }

  /** `keyEvent`'s body: the down flag, two pad bytes, the keysym. */
  function KeyEventBody(down: bool, keysym: u32): (r: seq<byte>)
    ensures |r| == 7
  {
    SizeFromFrontSize(Wire.KeyEvent);
    Pack(Wire.KeyEvent, [Flag(down), 0, 0, keysym])
  }

  /** `pointerEvent`'s body: the button mask, then the position. */
  function PointerEventBody(mask: byte, x: u16, y: u16): (r: seq<byte>)
    ensures |r| == 5
  {
    SizeFromFrontSize(Wire.PointerEvent);
    Pack(Wire.PointerEvent, [mask, x, y])
  }

  /** `clientCutText`'s body: three pad bytes, the length, the text. */
  function CutTextBody(text: seq<byte>): (r: seq<byte>)
    requires |text| < TwoTo32
    ensures |r| == 7 + |text| && r[7..] == text
  {
    SizeFromFrontSize(CutText);
    PackString(CutText, text)
  }

  /** The message body written after the type byte. */
  function ClientBody(m: ClientMessage): seq<byte>
    requires WellFormed(m)
  {
    match m
    case SetPixelFormat(pf) => SetPixelFormatBody(pf)
    case SetEncodings(es) => SetEncodingsBody(es)
    case FramebufferUpdateRequest(inc, x, y, w, h) => UpdateRequestBody(inc, x, y, w, h)
    case KeyEvent(down, keysym) => KeyEventBody(down, keysym)
    case PointerEvent(mask, x, y) => PointerEventBody(mask, x, y)
    case ClientCutText(text) => CutTextBody(text)
  }

  /** The bytes the client writes for `m`: the type byte, then the body. */
  function EncodeClient(m: ClientMessage): (r: seq<byte>)
    requires WellFormed(m)
    ensures |r| >= 1 && r[0] == ClientTag(m) && r[1..] == ClientBody(m)
  {
    TypeByte(ClientTag(m)) + ClientBody(m)
  }

  /** The server's reading of a client message: the partner of `EncodeClient`. */
  function TakeClientMessage(inp: seq<byte>): (r: Taken<ClientMessage>)
  {
    var t := TakeFields(ClientMessageType, inp);
    match t.outcome
    case Err(e) => Taken(Err(e), t.rest)
    case Ok(tag) => TakeClientBody(tag[0], t.rest)
  }

  function TakeClientBody(tag: int, inp: seq<byte>): (r: Taken<ClientMessage>)
  {
    if tag == 0 then TakeSetPixelFormat(inp)
    else if tag == 2 then TakeSetEncodings(inp)
    else if tag == 3 then TakeUpdateRequest(inp)
    else if tag == 4 then TakeKeyEvent(inp)
    else if tag == 5 then TakePointerEvent(inp)
    else if tag == 6 then TakeCutText(inp)
    else Taken(Err(ProtocolViolation), inp)
  }

  function TakeSetPixelFormat(inp: seq<byte>): (r: Taken<ClientMessage>)
  {
    var p := TakeFields(SetPixelFormatPadding, inp);
    if p.outcome.Err? then Taken(Err(p.outcome.error), p.rest)
    else
      var f := TakePixelFormat(p.rest);
      match f.outcome
      case Err(e) => Taken(Err(e), f.rest)
      case Ok(pf) => Taken(Ok(SetPixelFormat(pf)), f.rest)
  }

  function TakeSetEncodings(inp: seq<byte>): (r: Taken<ClientMessage>)
  {
    var l := TakeList(Wire.SetEncodings, inp);
    match l.outcome
    case Err(e) => Taken(Err(e), l.rest)
    case Ok(es) => Taken(Ok(SetEncodings(Encodings(es))), l.rest)
  }

  /** The encodings of a decoded SetEncodings list, one per one-value element. */
  function Encodings(es: seq<seq<int>>): (r: seq<i32>)
    requires forall k :: 0 <= k < |es| ==> |es[k]| == 1 && IsI32(es[k][0])
    ensures |r| == |es| && forall k :: 0 <= k < |es| ==> r[k] as int == es[k][0]
  {
    seq(|es|, k requires 0 <= k < |es| => es[k][0] as i32)
  }

  function TakeUpdateRequest(inp: seq<byte>): (r: Taken<ClientMessage>)
  {
    var v := TakeFields(FrameBufferUpdateReq, inp);
    match v.outcome
    case Err(e) => Taken(Err(e), v.rest)
    case Ok(vs) => Taken(Ok(FramebufferUpdateRequest(vs[0] != 0, vs[1], vs[2], vs[3], vs[4])), v.rest)
  }

  function TakeKeyEvent(inp: seq<byte>): (r: Taken<ClientMessage>)
  {
    var v := TakeFields(Wire.KeyEvent, inp);
    match v.outcome
    case Err(e) => Taken(Err(e), v.rest)
    case Ok(vs) => Taken(Ok(KeyEvent(vs[0] != 0, vs[3])), v.rest)
  }

  function TakePointerEvent(inp: seq<byte>): (r: Taken<ClientMessage>)
  {
    var v := TakeFields(Wire.PointerEvent, inp);
    match v.outcome
    case Err(e) => Taken(Err(e), v.rest)
    case Ok(vs) => Taken(Ok(PointerEvent(vs[0], vs[1], vs[2])), v.rest)
  }

  function TakeCutText(inp: seq<byte>): (r: Taken<ClientMessage>)
  {
    var s := TakeString(CutText, inp);
    match s.outcome
    case Err(e) => Taken(Err(e), s.rest)
    case Ok(text) => Taken(Ok(ClientCutText(text)), s.rest)
  }

  /** Each client message is its type byte followed by the records its method writes. */
  lemma SetPixelFormatRecords(pf: PixelFormat)
    ensures EncodeClient(SetPixelFormat(pf))
      == Pack(ClientMessageType, [0]) + Pack(SetPixelFormatPadding, [0, 0, 0]) + Pack(Wire.PixelFormat, PixelFormatValues(pf))
  {
  }

  lemma SetEncodingsRecords(es: seq<i32>)
    requires |es| < 0x1_0000
    ensures EncodeClient(SetEncodings(es)) == Pack(ClientMessageType, [2]) + PackList(Wire.SetEncodings, Singletons(es))
  {
  }

  lemma UpdateRequestRecords(inc: bool, x: u16, y: u16, w: u16, h: u16)
    ensures Conforms(FrameBufferUpdateReq, [Flag(inc), x, y, w, h])
    ensures EncodeClient(FramebufferUpdateRequest(inc, x, y, w, h))
      == Pack(ClientMessageType, [3]) + Pack(FrameBufferUpdateReq, [Flag(inc), x, y, w, h])
  {
  }

  lemma KeyEventRecords(down: bool, keysym: u32)
    ensures Conforms(Wire.KeyEvent, [Flag(down), 0, 0, keysym])
    ensures EncodeClient(KeyEvent(down, keysym)) == Pack(ClientMessageType, [4]) + Pack(Wire.KeyEvent, [Flag(down), 0, 0, keysym])
  {
  }

  lemma PointerEventRecords(mask: byte, x: u16, y: u16)
    ensures Conforms(Wire.PointerEvent, [mask, x, y])
    ensures EncodeClient(PointerEvent(mask, x, y)) == Pack(ClientMessageType, [5]) + Pack(Wire.PointerEvent, [mask, x, y])
  {
  }

  lemma CutTextRecords(text: seq<byte>)
    requires |text| < TwoTo32
    ensures EncodeClient(ClientCutText(text)) == Pack(ClientMessageType, [6]) + PackString(CutText, text)
  {
  }

  /** Every client message is read back exactly, whatever follows it. */
  lemma ClientRoundTrip(m: ClientMessage, rest: seq<byte>)
    requires WellFormed(m)
    ensures TakeClientMessage(EncodeClient(m) + rest) == Taken(Ok(m), rest)
  {
    var body := ClientBody(m);
    assert EncodeClient(m) + rest == TypeByte(ClientTag(m)) + (body + rest);
    TakeFieldsPack(ClientMessageType, [ClientTag(m)], body + rest);
    BodyRoundTrip(m, rest);
  }

  lemma BodyRoundTrip(m: ClientMessage, rest: seq<byte>)
    requires WellFormed(m)
    ensures TakeClientBody(ClientTag(m), ClientBody(m) + rest) == Taken(Ok(m), rest)
  {
    match m
    case SetPixelFormat(pf) => SetPixelFormatRoundTrip(pf, rest);
    case SetEncodings(es) => SetEncodingsRoundTrip(es, rest);
    case FramebufferUpdateRequest(inc, x, y, w, h) => UpdateRequestRoundTrip(inc, x, y, w, h, rest);
    case KeyEvent(down, keysym) => KeyEventRoundTrip(down, keysym, rest);
    case PointerEvent(mask, x, y) => PointerEventRoundTrip(mask, x, y, rest);
    case ClientCutText(text) => CutTextRoundTrip(text, rest);
  }

  lemma UpdateRequestRoundTrip(inc: bool, x: u16, y: u16, w: u16, h: u16, rest: seq<byte>)
    ensures TakeUpdateRequest(UpdateRequestBody(inc, x, y, w, h) + rest)
         == Taken(Ok(FramebufferUpdateRequest(inc, x, y, w, h)), rest)
  {
    TakeFieldsPack(FrameBufferUpdateReq, [Flag(inc), x, y, w, h], rest);
  }

  lemma KeyEventRoundTrip(down: bool, keysym: u32, rest: seq<byte>)
    ensures TakeKeyEvent(KeyEventBody(down, keysym) + rest) == Taken(Ok(KeyEvent(down, keysym)), rest)
  {
    TakeFieldsPack(Wire.KeyEvent, [Flag(down), 0, 0, keysym], rest);
  }

  lemma PointerEventRoundTrip(mask: byte, x: u16, y: u16, rest: seq<byte>)
    ensures TakePointerEvent(PointerEventBody(mask, x, y) + rest) == Taken(Ok(PointerEvent(mask, x, y)), rest)
  {
    TakeFieldsPack(Wire.PointerEvent, [mask, x, y], rest);
  }

  lemma CutTextRoundTrip(text: seq<byte>, rest: seq<byte>)
    requires |text| < TwoTo32
    ensures TakeCutText(CutTextBody(text) + rest) == Taken(Ok(ClientCutText(text)), rest)
  {
    TakeStringPack(CutText, text, rest);
  }

  lemma SetPixelFormatRoundTrip(pf: PixelFormat, rest: seq<byte>)
    ensures TakeSetPixelFormat(SetPixelFormatBody(pf) + rest) == Taken(Ok(SetPixelFormat(pf)), rest)
  {
    var inp := SetPixelFormatBody(pf) + rest;
    assert inp == Pack(SetPixelFormatPadding, [0, 0, 0]) + (EncodePixelFormat(pf) + rest);
    TakeFieldsPack(SetPixelFormatPadding, [0, 0, 0], EncodePixelFormat(pf) + rest);
    PixelFormatRoundTrip(pf, rest);
  }

  lemma SetEncodingsRoundTrip(es: seq<i32>, rest: seq<byte>)
    requires |es| < 0x1_0000
    ensures TakeSetEncodings(SetEncodingsBody(es) + rest) == Taken(Ok(SetEncodings(es)), rest)
  {
    var ss := Singletons(es);
    TakeListPack(Wire.SetEncodings, ss, rest);
    assert Encodings(ss) == es;
  }

  // ---- Pointer buttons ----

  /** Bit `i` of a PointerEvent button mask: button `i` is down. */
  predicate Pressed(mask: bv8, i: nat)
    requires i < 8
  {
    (mask >> i) & 1 == 1
  }

  /** The buttons all lie in 0..7, as `pointerEvent` asserts. */
  predicate ValidButtons(buttons: seq<int>)
  {
    forall k :: 0 <= k < |buttons| ==> 0 <= buttons[k] < 8
  }

  /** The mask with the bit of every listed button or-ed in, first to last. */
  function MaskOf(buttons: seq<int>): (mask: bv8)
    requires ValidButtons(buttons)
  {
    if buttons == [] then 0 else MaskOf(buttons[..|buttons| - 1]) | (1 << buttons[|buttons| - 1])
  }

  /** A button is down in the mask exactly when it is listed. */
  lemma {:induction false} MaskOfPressed(buttons: seq<int>)
    requires ValidButtons(buttons)
    ensures forall i :: 0 <= i < 8 ==> (Pressed(MaskOf(buttons), i) <==> i in buttons)
  {
    if buttons != [] {
      var init := buttons[..|buttons| - 1];
      var b := buttons[|buttons| - 1];
      assert buttons == init + [b];
      MaskOfPressed(init);
      SetBit(MaskOf(init), b);
      forall i | 0 <= i < 8
        ensures Pressed(MaskOf(buttons), i) <==> i in buttons
      {
        assert i in buttons <==> i in init || i == b;
      }
    }
  }

  /**
   * The button mask of `pointerEvent`: bit `i` set for each button `i`
   * in the list; a button outside 0..7 fails the source's assertion.
   */
  method ButtonMask(buttons: seq<int>) returns (r: Result<bv8, RfbError>)
    ensures r.Ok? <==> ValidButtons(buttons)
    ensures r.Err? ==> r.error == InvalidArgument
    ensures r.Ok? ==> r.value == MaskOf(buttons)
  {
    var mask: bv8 := 0;
    for k := 0 to |buttons|
      invariant ValidButtons(buttons[..k])
      invariant mask == MaskOf(buttons[..k])
    {
      var b := buttons[k];
      if !(0 <= b < 8) {
        assert !ValidButtons(buttons) by {
          assert buttons[k] == b;
        }
        return Err(InvalidArgument);
      }
      assert buttons[..k + 1][..k] == buttons[..k];
      mask := mask | (1 << b);
    }
    assert buttons[..|buttons|] == buttons;
    return Ok(mask);
  }

  /** Or-ing in bit `b` presses button `b` and leaves the others as they were. */
  lemma SetBit(mask: bv8, b: nat)
    requires b < 8
    ensures forall i :: 0 <= i < 8 ==> (Pressed(mask | (1 << b), i) <==> Pressed(mask, i) || i == b)
  {
  }

  // ---- Key event sequences ----

  const ShiftL: u32 := 0xFFE1
  const ControlL: u32 := 0xFFE3
  const MetaL: u32 := 0xFFE7
  const AltL: u32 := 0xFFE9

  /** The modifiers `sendKey` holds down, in the order it presses them. */
  function Modifiers(shift: bool, ctrl: bool, option: bool, cmd: bool): seq<u32>
  {
    (if shift then [ShiftL] else []) + (if ctrl then [ControlL] else [])
    + (if option then [AltL] else []) + (if cmd then [MetaL] else [])
  }

  function Presses(keys: seq<u32>): (r: seq<ClientMessage>)
    ensures |r| == |keys| && forall k :: 0 <= k < |r| ==> r[k] == KeyEvent(true, keys[k])
  {
    if keys == [] then [] else [KeyEvent(true, keys[0])] + Presses(keys[1..])
  }

  /** Releases of `keys`, last key first. */
  function ReleasesReversed(keys: seq<u32>): (r: seq<ClientMessage>)
    ensures |r| == |keys| && forall k :: 0 <= k < |r| ==> r[k] == KeyEvent(false, keys[|keys| - 1 - k])
  {
    if keys == [] then [] else ReleasesReversed(keys[1..]) + [KeyEvent(false, keys[0])]
  }

  /** The KeyEvents `sendKey` writes: modifiers down, key down and up, modifiers up. */
  function SendKeyEvents(keysym: u32, shift: bool, ctrl: bool, option: bool, cmd: bool): seq<ClientMessage>
  {
    var mods := Modifiers(shift, ctrl, option, cmd);
    Presses(mods) + [KeyEvent(true, keysym), KeyEvent(false, keysym)] + ReleasesReversed(mods)
  }

  /**
   * The events are properly nested: the first half are presses, the second
   * half releases, and the k-th event from the end releases the key the
   * k-th event pressed; the key itself is the innermost pair.
   */
  lemma SendKeyNested(keysym: u32, shift: bool, ctrl: bool, option: bool, cmd: bool)
    ensures var evs := SendKeyEvents(keysym, shift, ctrl, option, cmd);
      var n := |Modifiers(shift, ctrl, option, cmd)|;
      && |evs| == 2 * n + 2
      && evs[n] == KeyEvent(true, keysym) && evs[n + 1] == KeyEvent(false, keysym)
      && forall k :: 0 <= k < |evs| ==>
           evs[k].KeyEvent? && evs[k].down == (k <= n)
           && evs[k].keysym == evs[|evs| - 1 - k].keysym
  {
    Nested(Modifiers(shift, ctrl, option, cmd), keysym);
  }

  lemma Nested(mods: seq<u32>, keysym: u32)
    ensures var evs := Presses(mods) + [KeyEvent(true, keysym), KeyEvent(false, keysym)] + ReleasesReversed(mods);
      var n := |mods|;
      && |evs| == 2 * n + 2
      && evs[n] == KeyEvent(true, keysym) && evs[n + 1] == KeyEvent(false, keysym)
      && forall k :: 0 <= k < |evs| ==>
           evs[k].KeyEvent? && evs[k].down == (k <= n)
           && evs[k].keysym == evs[|evs| - 1 - k].keysym
  {
    var n := |mods|;
    var ps, key, rs := Presses(mods), [KeyEvent(true, keysym), KeyEvent(false, keysym)], ReleasesReversed(mods);
    var evs := ps + key + rs;
    ThreePartIndex(ps, key, rs, n);
    ThreePartIndex(ps, key, rs, n + 1);
    forall k | 0 <= k < |evs|
      ensures evs[k].KeyEvent? && evs[k].down == (k <= n) && evs[k].keysym == evs[|evs| - 1 - k].keysym
    {
      ThreePartIndex(ps, key, rs, k);
      ThreePartIndex(ps, key, rs, |evs| - 1 - k);
    }
  }

  /** The element at `k` of three sequences laid end to end, found in the part that holds it. */
  lemma ThreePartIndex<T>(a: seq<T>, b: seq<T>, c: seq<T>, k: int)
    requires 0 <= k < |a| + |b| + |c|
    ensures (a + b + c)[k] == if k < |a| then a[k] else if k < |a| + |b| then b[k - |a|] else c[k - |a| - |b|]
  {
  }

  // ---- Rectangles of a FramebufferUpdate ----

  const RawEncoding: int := 0
  const CopyRectEncoding: int := 1
  const CursorEncoding: int := -239

  datatype Payload =
    | Raw(pixels: seq<byte>)
    | CopyRect(srcX: u16, srcY: u16)
    | Cursor(pixels: seq<byte>, mask: seq<byte>)

  /** A rectangle update as the callbacks receive it: header fields, then the payload. */
  datatype Rect = Rect(x: u16, y: u16, w: u16, h: u16, payload: Payload)

  function EncodingOf(p: Payload): int
  {
    match p
    case Raw(_) => RawEncoding
    case CopyRect(_, _) => CopyRectEncoding
    case Cursor(_, _) => CursorEncoding
  }

  /** The payload has the sizes the header and the pixel format dictate. */
  predicate RectFits(r: Rect, bpp: nat)
  {
    match r.payload
    case Raw(px) => |px| == RawSize(r.w, r.h, bpp)
    case CopyRect(_, _) => true
    case Cursor(px, mask) => |px| == RawSize(r.w, r.h, bpp) && |mask| == MaskSize(r.w, r.h)
  }

  /** Bytes of payload after the 12-byte header. */
  function PayloadSize(r: Rect, bpp: nat): nat
  {
    match r.payload
    case Raw(_) => RawSize(r.w, r.h, bpp)
    case CopyRect(_, _) => 4
    case Cursor(_, _) => RawSize(r.w, r.h, bpp) + MaskSize(r.w, r.h)
  }

  /** The payload bytes that follow a rectangle header. */
  function EncodePayload(p: Payload): seq<byte>
  {
    match p
    case Raw(px) => px
    case CopyRect(sx, sy) => Pack(FrameBufferCopyRect, [sx, sy])
    case Cursor(px, mask) => px + mask
  }

  /** A rectangle as the server sends it: the header `>HHHHl`, then the payload. */
  function EncodeRect(r: Rect): seq<byte>
  {
    Pack(FrameBufferRectangleHeader, [r.x, r.y, r.w, r.h, EncodingOf(r.payload)]) + EncodePayload(r.payload)
  }

  /**
   * One rectangle of a FramebufferUpdate: the header, the encoding
   * checked, then exactly the payload that encoding carries.
   */
  function TakeRect(inp: seq<byte>, bpp: nat): (r: Taken<Rect>)
    ensures r.outcome.Ok? ==> RectFits(r.outcome.value, bpp)
    ensures r.outcome.Ok? ==> |inp| == 12 + PayloadSize(r.outcome.value, bpp) + |r.rest|
    ensures r.outcome.Ok? ==> r.rest == inp[12 + PayloadSize(r.outcome.value, bpp)..]
    ensures r.outcome.Err? ==> r.outcome.error in {EndOfStream, ProtocolViolation}
  {
    SizeFromFrontSize(FrameBufferRectangleHeader);
    var hd := TakeFields(FrameBufferRectangleHeader, inp);
    match hd.outcome
    case Err(e) => Taken(Err(e), hd.rest)
    case Ok(vs) =>
      var p := TakePayload(vs[4], vs[2], vs[3], bpp, hd.rest);
      match p.outcome
      case Err(e) => Taken(Err(e), p.rest)
      case Ok(payload) => Taken(Ok(Rect(vs[0], vs[1], vs[2], vs[3], payload)), p.rest)
  }

  /** The payload of a `w` by `h` rectangle in encoding `enc`; an unknown encoding fails the source's assertion. */
  function TakePayload(enc: int, w: u16, h: u16, bpp: nat, inp: seq<byte>): (r: Taken<Payload>)
    ensures r.outcome.Ok? ==> EncodingOf(r.outcome.value) == enc
    ensures r.outcome.Ok? ==> RectFits(Rect(0, 0, w, h, r.outcome.value), bpp)
    ensures r.outcome.Ok? ==>
      var n := PayloadSize(Rect(0, 0, w, h, r.outcome.value), bpp);
      n <= |inp| && r.rest == inp[n..]
    ensures r.outcome.Err? ==> r.outcome.error in {EndOfStream, ProtocolViolation}
  {
    if enc == RawEncoding then
      var p := TakeBytes(RawSize(w, h, bpp), inp);
      match p.outcome
      case Err(e) => Taken(Err(e), p.rest)
      case Ok(px) => Taken(Ok(Raw(px)), p.rest)
    else if enc == CopyRectEncoding then
      SizeFromFrontSize(FrameBufferCopyRect);
      var p := TakeFields(FrameBufferCopyRect, inp);
      match p.outcome
      case Err(e) => Taken(Err(e), p.rest)
      case Ok(src) => Taken(Ok(CopyRect(src[0], src[1])), p.rest)
    else if enc == CursorEncoding then
      var p := TakeBytes(RawSize(w, h, bpp), inp);
      match p.outcome
      case Err(e) => Taken(Err(e), p.rest)
      case Ok(px) =>
        var m := TakeBytes(MaskSize(w, h), p.rest);
        match m.outcome
        case Err(e) => Taken(Err(e), m.rest)
        case Ok(mask) => Taken(Ok(Cursor(px, mask)), m.rest)
    else Taken(Err(ProtocolViolation), inp)
  }

  lemma PayloadRoundTrip(p: Payload, w: u16, h: u16, bpp: nat, rest: seq<byte>)
    requires RectFits(Rect(0, 0, w, h, p), bpp)
    ensures TakePayload(EncodingOf(p), w, h, bpp, EncodePayload(p) + rest) == Taken(Ok(p), rest)
  {
    match p
    case Raw(px) =>
    case CopyRect(sx, sy) => TakeFieldsPack(FrameBufferCopyRect, [sx, sy], rest);
    case Cursor(px, mask) =>
      assert EncodePayload(p) + rest == px + (mask + rest);
  }

  lemma RectRoundTrip(r: Rect, bpp: nat, rest: seq<byte>)
    requires RectFits(r, bpp)
    ensures TakeRect(EncodeRect(r) + rest, bpp) == Taken(Ok(r), rest)
  {
    var hv := [r.x as int, r.y as int, r.w as int, r.h as int, EncodingOf(r.payload)];
    var body := EncodePayload(r.payload);
    assert EncodeRect(r) + rest == Pack(FrameBufferRectangleHeader, hv) + (body + rest);
    TakeFieldsPack(FrameBufferRectangleHeader, hv, body + rest);
    PayloadRoundTrip(r.payload, r.w, r.h, bpp, rest);
  }

  // ---- Server-to-client messages ----

  type Colour = (u16, u16, u16)

  function ColourOf(e: seq<int>): Colour
    requires Conforms(SetColourMapEntries2.elem, e)
  {
    (e[0], e[1], e[2])
  }

  function ColourValues(c: Colour): (e: seq<int>)
    ensures Conforms(SetColourMapEntries2.elem, e) && ColourOf(e) == c
  {
    [c.0, c.1, c.2]
  }

  datatype ServerMessage =
    | FramebufferUpdate(rects: seq<Rect>)
    | SetColourMapEntries(firstColour: u16, colours: seq<Colour>)
    | Bell
    | ServerCutText(text: seq<byte>)

  function ServerTag(m: ServerMessage): byte
  {
    match m
    case FramebufferUpdate(_) => 0
    case SetColourMapEntries(_, _) => 1
    case Bell => 2
    case ServerCutText(_) => 3
  }

  /** Counts and lengths fit their fields. */
  predicate ServerEncodable(m: ServerMessage)
  {
    match m
    case FramebufferUpdate(rs) => |rs| < 0x1_0000
    case SetColourMapEntries(_, cs) => |cs| < 0x1_0000
    case Bell => true
    case ServerCutText(t) => |t| < TwoTo32
  }

  /** Encodable, and every rectangle's payload fits the pixel format. */
  predicate ServerWellFormed(m: ServerMessage, bpp: nat)
  {
    ServerEncodable(m) && (m.FramebufferUpdate? ==> forall k :: 0 <= k < |m.rects| ==> RectFits(m.rects[k], bpp))
  }

  function EncodeRects(rs: seq<Rect>): seq<byte>
  {
    if rs == [] then [] else EncodeRect(rs[0]) + EncodeRects(rs[1..])
  }

  /** A FramebufferUpdate's body: a pad byte, the rectangle count, the rectangles. */
  function FramebufferUpdateBody(rs: seq<Rect>): (r: seq<byte>)
    requires |rs| < 0x1_0000
    ensures |r| >= 3 && r[3..] == EncodeRects(rs)
  {
    SizeFromFrontSize(FrameBufferHeader);
    Pack(FrameBufferHeader, [0, |rs|]) + EncodeRects(rs)
  }

  function ColourList(cs: seq<Colour>): (r: seq<seq<int>>)
    ensures |r| == |cs|
    ensures forall k :: 0 <= k < |r| ==> r[k] == ColourValues(cs[k]) && Conforms(SetColourMapEntries2.elem, r[k])
  {
    seq(|cs|, k requires 0 <= k < |cs| => ColourValues(cs[k]))
  }

  /** A SetColourMapEntries body: a pad byte, the first colour, the count, the `>HHH` triples. */
  function ColourMapBody(first: u16, cs: seq<Colour>): (r: seq<byte>)
    requires |cs| < 0x1_0000
    ensures |r| == 5 + 6 * |cs|
  {
    SizeFromFrontSize(SetColourMapEntries1);
    SizeFromFrontSize(SetColourMapEntries2.count);
    SizeFromFrontSize(SetColourMapEntries2.elem);
    Pack(SetColourMapEntries1, [0, first]) + PackList(SetColourMapEntries2, ColourList(cs))
  }

  /** The message body written after the type byte; ServerCutText is laid out as ClientCutText. */
  function ServerBody(m: ServerMessage): seq<byte>
    requires ServerEncodable(m)
  {
    match m
    case FramebufferUpdate(rs) => FramebufferUpdateBody(rs)
    case SetColourMapEntries(first, cs) => ColourMapBody(first, cs)
    case Bell => []
    case ServerCutText(t) => CutTextBody(t)
  }

  /** The bytes a server sends for `m`; the reader in `Dispatch` is its partner. */
  function EncodeServer(m: ServerMessage): (r: seq<byte>)
    requires ServerEncodable(m)
    ensures |r| >= 1 && r[0] == ServerTag(m) && r[1..] == ServerBody(m)
  {
    Pack(ServerMessageType, [ServerTag(m)]) + ServerBody(m)
  }

  /** The colours of a decoded SetColourMapEntries list. */
  function Colours(es: seq<seq<int>>): (r: seq<Colour>)
    requires forall k :: 0 <= k < |es| ==> Conforms(SetColourMapEntries2.elem, es[k])
    ensures |r| == |es| && forall k :: 0 <= k < |es| ==> ColourValues(r[k]) == es[k]
  {
    var r := seq(|es|, k requires 0 <= k < |es| => ColourOf(es[k]));
    assert forall k :: 0 <= k < |es| ==> ColourValues(r[k]) == es[k] by {
      forall k | 0 <= k < |es|
        ensures ColourValues(r[k]) == es[k]
      {
        assert Conforms(SetColourMapEntries2.elem, es[k]);
        assert |es[k]| == 3;
      }
    }
    r
  }

  /** `RFBreadSetColourMapEntries`: the first colour, then the colour list. */
  function TakeColourMap(inp: seq<byte>): (r: Taken<ServerMessage>)
    ensures r.outcome.Ok? ==> r.outcome.value.SetColourMapEntries? && |r.rest| <= |inp|
  {
    var f := TakeFields(SetColourMapEntries1, inp);
    match f.outcome
    case Err(e) => Taken(Err(e), f.rest)
    case Ok(vs) =>
      var l := TakeList(SetColourMapEntries2, f.rest);
      match l.outcome
      case Err(e) => Taken(Err(e), l.rest)
      case Ok(es) => Taken(Ok(SetColourMapEntries(vs[1], Colours(es))), l.rest)
  }

  /** `RFBreadServerCutText`. */
  function TakeServerCutText(inp: seq<byte>): (r: Taken<ServerMessage>)
    ensures r.outcome.Ok? ==> r.outcome.value.ServerCutText? && |r.rest| <= |inp|
  {
    var s := TakeString(CutText, inp);
    match s.outcome
    case Err(e) => Taken(Err(e), s.rest)
    case Ok(text) => Taken(Ok(ServerCutText(text)), s.rest)
  }

  lemma ColourMapRoundTrip(first: u16, cs: seq<Colour>, rest: seq<byte>)
    requires |cs| < 0x1_0000
    ensures TakeColourMap(ColourMapBody(first, cs) + rest) == Taken(Ok(SetColourMapEntries(first, cs)), rest)
  {
    var head, list := Pack(SetColourMapEntries1, [0, first]), PackList(SetColourMapEntries2, ColourList(cs));
    assert ColourMapBody(first, cs) == head + list;
    Appended(head, list, rest);
    TakeFieldsPack(SetColourMapEntries1, [0, first], list + rest);
    TakeListPack(SetColourMapEntries2, ColourList(cs), rest);
    assert Colours(ColourList(cs)) == cs;
  }

  /**
   * As written, `readvarlist` reads a SetColourMapEntries list of one
   * colour or more as no colours at all, where `TakeList` reads back every
   * colour.
   */
  lemma ColourListAsWrittenEmpty(cs: seq<Colour>, rest: seq<byte>)
    requires 0 < |cs| < 0x1_0000
    ensures var b := PackList(SetColourMapEntries2, ColourList(cs)) + rest;
      && TakeListAsWritten(SetColourMapEntries2, b) == Taken(Ok([]), rest)
      && TakeList(SetColourMapEntries2, b) == Taken(Ok(ColourList(cs)), rest)
  {
    TakeListPack(SetColourMapEntries2, ColourList(cs), rest);
  }

  /**
   * As written, `writevarlist` given no encodings writes a SetEncodings
   * list that reads back as the empty list, and still fails.
   */
  lemma NoEncodingsAsWrittenFails(rest: seq<byte>)
    ensures var w := PackListAsWritten(Wire.SetEncodings, Singletons([]));
      && w.1 == Err(IndexError)
      && TakeList(Wire.SetEncodings, w.0 + rest) == Taken(Ok([]), rest)
  {
    TakeListPack(Wire.SetEncodings, Singletons([]), rest);
  }

  lemma ServerCutTextRoundTrip(text: seq<byte>, rest: seq<byte>)
    requires |text| < TwoTo32
    ensures TakeServerCutText(CutTextBody(text) + rest) == Taken(Ok(ServerCutText(text)), rest)
  {
    TakeStringPack(CutText, text, rest);
  }
}
