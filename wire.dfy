/**
 * The binary channel's record layer: `struct`-style format descriptors
 * (all big-endian), packing and unpacking of fixed records, of
 * length-prefixed byte strings and of count-prefixed lists, and the
 * descriptors of every RFB record the client reads or writes.
 *
 * Readers are pure: each takes the unread input and returns what it
 * decoded (or why it failed) together with the input that remains.
 */
module Wire {
  import opened Wrappers
  import opened BigEndian
  import opened Errors

  /** One field of a `struct` descriptor: `B`, `H`, `L`, `l` and the pad byte `x`. */
  datatype Field = U8 | U16 | U32 | I32 | Pad

  /** A count-prefixed list: the descriptor of the count, and that of one element. */
  datatype ListFormat = ListFormat(count: seq<Field>, elem: seq<Field>)

  function Width(f: Field): nat
  {
    match f
    case U8 => 1
    case U16 => 2
    case U32 => 4
    case I32 => 4
    case Pad => 1
  }

  /** `struct.calcsize` of a big-endian descriptor: no alignment padding. */
  function Size(fmt: seq<Field>): nat
  {
    if fmt == [] then 0 else Size(fmt[..|fmt| - 1]) + Width(fmt[|fmt| - 1])
  }

  /** The same sum taken from the front, as `Pack` and `Decode` walk a descriptor. */
  lemma {:induction false} SizeFirst(fmt: seq<Field>)
    requires fmt != []
    ensures Size(fmt) == Width(fmt[0]) + Size(fmt[1..])
  {
    var n := |fmt|;
    if n > 1 {
      var init := fmt[..n - 1];
      SizeFirst(init);
      assert init[1..] == fmt[1..][..n - 2];
    } else {
      assert fmt[1..] == [];
    }
  }

  /** The sum from the front, spelled out, for working out the sizes of fixed descriptors. */
  function SizeFromFront(fmt: seq<Field>): nat
  {
    if fmt == [] then 0 else Width(fmt[0]) + SizeFromFront(fmt[1..])
  }

  lemma {:induction false} SizeFromFrontSize(fmt: seq<Field>)
    ensures SizeFromFront(fmt) == Size(fmt)
  {
    if fmt != [] {
      SizeFirst(fmt);
      SizeFromFrontSize(fmt[1..]);
    }
  }

  /**
   * `v` is representable in field `f`.  A pad byte stands in the value
   * list as a 0 placeholder, where `struct` leaves it out.
   */
  predicate Holds(f: Field, v: int)
  {
    match f
    case U8 => 0 <= v < 0x100
    case U16 => 0 <= v < 0x1_0000
    case U32 => 0 <= v < TwoTo32
    case I32 => IsI32(v)
    case Pad => v == 0
  }

  /** `vs` are values `struct.pack` accepts for `fmt`, one per field. */
  predicate Conforms(fmt: seq<Field>, vs: seq<int>)
  {
    |vs| == |fmt| && forall i :: 0 <= i < |vs| ==> Holds(fmt[i], vs[i])
  }

  /** A descriptor of a length or count: pad bytes, then one unsigned field. */
  predicate LengthFormat(fmt: seq<Field>)
  {
    && |fmt| >= 1
    && fmt[|fmt| - 1] in {U8, U16, U32}
    && forall i :: 0 <= i < |fmt| - 1 ==> fmt[i] == Pad
  }

  /** The values of a length record carrying `n`. */
  function LengthValues(fmt: seq<Field>, n: nat): (vs: seq<int>)
    requires |fmt| >= 1
    ensures |vs| == |fmt| && vs[|fmt| - 1] == n
    ensures forall i :: 0 <= i < |fmt| - 1 ==> vs[i] == 0
  {
    seq(|fmt| - 1, _ => 0) + [n]
  }

  function PackField(f: Field, v: int): (r: seq<byte>)
    requires Holds(f, v)
    ensures |r| == Width(f)
  {
    PowersOf256();
    if f == I32 then ToBE(I32ToBits(v), 4)
    else if f == Pad then [0]
    else ToBE(v, Width(f))
  }

  /** A field's value; a pad byte's content is ignored. */
  function DecodeField(f: Field, b: seq<byte>): (v: int)
    requires |b| == Width(f)
    ensures Holds(f, v)
  {
    PowersOf256();
    if f == I32 then BitsToI32(FromBE(b))
    else if f == Pad then 0
    else FromBE(b)
  }

  lemma DecodePackField(f: Field, v: int)
    requires Holds(f, v)
    ensures DecodeField(f, PackField(f, v)) == v
  {
    PowersOf256();
    if f == I32 {
      FromToBE(I32ToBits(v), 4);
    } else if f != Pad {
      FromToBE(v, Width(f));
    }
  }

  /** `struct.pack(fmt, *vs)`; a pad byte is written as zero. */
  function Pack(fmt: seq<Field>, vs: seq<int>): (r: seq<byte>)
    requires Conforms(fmt, vs)
    ensures |r| == Size(fmt)
  {
    if fmt == [] then [] else SizeFirst(fmt); PackField(fmt[0], vs[0]) + Pack(fmt[1..], vs[1..])
  }

  /** `struct.unpack(fmt, b)` on exactly `calcsize(fmt)` bytes. */
  function Decode(fmt: seq<Field>, b: seq<byte>): (vs: seq<int>)
    requires |b| == Size(fmt)
    ensures Conforms(fmt, vs)
  {
    if fmt == [] then []
    else
      SizeFirst(fmt);
      var w := Width(fmt[0]);
      [DecodeField(fmt[0], b[..w])] + Decode(fmt[1..], b[w..])
  }

  lemma {:induction false} DecodePack(fmt: seq<Field>, vs: seq<int>)
    requires Conforms(fmt, vs)
    ensures Decode(fmt, Pack(fmt, vs)) == vs
  {
    if fmt != [] {
      var b := Pack(fmt, vs);
      var w := Width(fmt[0]);
      SizeFirst(fmt);
      assert b[..w] == PackField(fmt[0], vs[0]);
      assert b[w..] == Pack(fmt[1..], vs[1..]);
      DecodePackField(fmt[0], vs[0]);
      DecodePack(fmt[1..], vs[1..]);
    }
  }

  // ---- Readers over the unread input ----

  /** What a read produced, and the input left unread after it. */
  datatype Taken<+T> = Taken(outcome: Result<T, RfbError>, rest: seq<byte>)

  /** Read exactly `n` bytes, or fail having consumed nothing. */
  function TakeBytes(n: nat, inp: seq<byte>): (r: Taken<seq<byte>>)
    ensures r.outcome.Ok? <==> n <= |inp|
    ensures r.outcome.Ok? ==> inp == r.outcome.value + r.rest && |r.outcome.value| == n
    ensures r.outcome.Err? ==> r.outcome.error == EndOfStream && r.rest == inp
  {
    if |inp| < n then Taken(Err(EndOfStream), inp) else Taken(Ok(inp[..n]), inp[n..])
  }

  /** Read one record of descriptor `fmt` (`readlist`; `readele` when it has one value). */
  function TakeFields(fmt: seq<Field>, inp: seq<byte>): (r: Taken<seq<int>>)
    ensures r.outcome.Ok? <==> Size(fmt) <= |inp|
    ensures r.outcome.Ok? ==> Conforms(fmt, r.outcome.value) && r.rest == inp[Size(fmt)..]
    ensures r.outcome.Err? ==> r.outcome.error == EndOfStream && r.rest == inp
  {
    var t := TakeBytes(Size(fmt), inp);
    match t.outcome
    case Err(e) => Taken(Err(e), t.rest)
    case Ok(b) => Taken(Ok(Decode(fmt, b)), t.rest)
  }

  lemma TakeFieldsPack(fmt: seq<Field>, vs: seq<int>, rest: seq<byte>)
    requires Conforms(fmt, vs)
    ensures TakeFields(fmt, Pack(fmt, vs) + rest) == Taken(Ok(vs), rest)
  {
    var b := Pack(fmt, vs);
    assert (b + rest)[..Size(fmt)] == b;
    assert (b + rest)[Size(fmt)..] == rest;
    DecodePack(fmt, vs);
  }

  /** `readstring`: a length in descriptor `lenFmt`, then that many bytes. */
  function TakeString(lenFmt: seq<Field>, inp: seq<byte>): (r: Taken<seq<byte>>)
    requires LengthFormat(lenFmt)
    ensures r.outcome.Ok? ==>
      Size(lenFmt) <= |inp| && inp[Size(lenFmt)..] == r.outcome.value + r.rest
  {
    var t := TakeFields(lenFmt, inp);
    match t.outcome
    case Err(e) => Taken(Err(e), t.rest)
    case Ok(vs) => TakeBytes(vs[|vs| - 1], t.rest)
  }

  /** `writestring`: the length in descriptor `lenFmt`, then the bytes themselves. */
  function PackString(lenFmt: seq<Field>, s: seq<byte>): (r: seq<byte>)
    requires LengthFormat(lenFmt) && Holds(lenFmt[|lenFmt| - 1], |s|)
    ensures |r| == Size(lenFmt) + |s| && r[Size(lenFmt)..] == s
  {
    Pack(lenFmt, LengthValues(lenFmt, |s|)) + s
  }

  lemma TakeStringPack(lenFmt: seq<Field>, s: seq<byte>, rest: seq<byte>)
    requires LengthFormat(lenFmt) && Holds(lenFmt[|lenFmt| - 1], |s|)
    ensures TakeString(lenFmt, PackString(lenFmt, s) + rest) == Taken(Ok(s), rest)
  {
    var lv := LengthValues(lenFmt, |s|);
    assert PackString(lenFmt, s) + rest == Pack(lenFmt, lv) + (s + rest);
    TakeFieldsPack(lenFmt, lv, s + rest);
  }

  /** `n` consecutive elements of descriptor `elem`, each as the tuple of its values. */
  function DecodeList(elem: seq<Field>, n: nat, b: seq<byte>): (r: seq<seq<int>>)
    requires |b| == n * Size(elem)
    ensures |r| == n
    ensures forall k :: 0 <= k < n ==> Conforms(elem, r[k])
  {
    if n == 0 then []
    else
      assert |b[Size(elem)..]| == (n - 1) * Size(elem);
      [Decode(elem, b[..Size(elem)])] + DecodeList(elem, n - 1, b[Size(elem)..])
  }

  /** The elements packed one after another, tuples flattened (`writevarlist`'s body). */
  function PackAll(elem: seq<Field>, es: seq<seq<int>>): (r: seq<byte>)
    requires forall k :: 0 <= k < |es| ==> Conforms(elem, es[k])
    ensures |r| == |es| * Size(elem)
  {
    if es == [] then []
    else
      var n, z := |es|, Size(elem);
      assert n * z == z + (n - 1) * z;
      Pack(elem, es[0]) + PackAll(elem, es[1..])
  }

  lemma {:induction false} DecodeListPackAll(elem: seq<Field>, es: seq<seq<int>>)
    requires forall k :: 0 <= k < |es| ==> Conforms(elem, es[k])
    ensures DecodeList(elem, |es|, PackAll(elem, es)) == es
  {
    if es != [] {
      var b := PackAll(elem, es);
      assert b[..Size(elem)] == Pack(elem, es[0]);
      assert b[Size(elem)..] == PackAll(elem, es[1..]);
      DecodePack(elem, es[0]);
      DecodeListPackAll(elem, es[1..]);
    }
  }

  /** `readvarlist`: a count, then exactly count element records, read in one piece. */
  function TakeList(lf: ListFormat, inp: seq<byte>): (r: Taken<seq<seq<int>>>)
    requires LengthFormat(lf.count)
    ensures r.outcome.Ok? ==> forall k :: 0 <= k < |r.outcome.value| ==> Conforms(lf.elem, r.outcome.value[k])
    ensures r.outcome.Ok? ==>
      |inp| == Size(lf.count) + |r.outcome.value| * Size(lf.elem) + |r.rest|
  {
    var t := TakeFields(lf.count, inp);
    match t.outcome
    case Err(e) => Taken(Err(e), t.rest)
    case Ok(vs) =>
      var n: nat := vs[|vs| - 1];
      var body := TakeBytes(n * Size(lf.elem), t.rest);
      match body.outcome
      case Err(e) => Taken(Err(e), body.rest)
      case Ok(b) => Taken(Ok(DecodeList(lf.elem, n, b)), body.rest)
  }

  /**
   * `readvarlist` as written (rfb.py:437-458).  The decoded values come
   * back flat; when there is not exactly one per element they are cut into
   * pieces, but the pieces are then dropped and the emptied flat tuple is
   * returned, so a list of several-field elements reads as no elements.
   * (List element descriptors carry no pad bytes, so an element yields
   * `|lf.elem|` values.)
   */
  function TakeListAsWritten(lf: ListFormat, inp: seq<byte>): (r: Taken<seq<seq<int>>>)
    requires LengthFormat(lf.count)
    ensures var l := TakeList(lf, inp);
      r == if l.outcome.Ok? && |l.outcome.value| * |lf.elem| != |l.outcome.value| then Taken(Ok([]), l.rest) else l
  {
    var t := TakeFields(lf.count, inp);
    match t.outcome
    case Err(e) => Taken(Err(e), t.rest)
    case Ok(vs) =>
      var n: nat := vs[|vs| - 1];
      var body := TakeBytes(n * Size(lf.elem), t.rest);
      match body.outcome
      case Err(e) => Taken(Err(e), body.rest)
      case Ok(b) => Taken(Ok(if n * |lf.elem| == n then DecodeList(lf.elem, n, b) else []), body.rest)
  }

  /** With one field per element, as in every list but the colour map, the two readers agree. */
  lemma ListAsWrittenOneField(lf: ListFormat, inp: seq<byte>)
    requires LengthFormat(lf.count) && |lf.elem| == 1
    ensures TakeListAsWritten(lf, inp) == TakeList(lf, inp)
  {
  }

  /** `writevarlist`: the count, then every element, flattened. */
  function PackList(lf: ListFormat, es: seq<seq<int>>): (r: seq<byte>)
    requires LengthFormat(lf.count) && Holds(lf.count[|lf.count| - 1], |es|)
    requires forall k :: 0 <= k < |es| ==> Conforms(lf.elem, es[k])
    ensures |r| == Size(lf.count) + |es| * Size(lf.elem)
  {
    Pack(lf.count, LengthValues(lf.count, |es|)) + PackAll(lf.elem, es)
  }

  /**
   * `writevarlist` as written (rfb.py:480-496): the bytes it writes and
   * how it ends.  The count goes out first; an empty list then fails on
   * `eles[0]` although nothing is left to write.
   */
  function PackListAsWritten(lf: ListFormat, es: seq<seq<int>>): (r: (seq<byte>, Result<(), RfbError>))
    requires LengthFormat(lf.count) && Holds(lf.count[|lf.count| - 1], |es|)
    requires forall k :: 0 <= k < |es| ==> Conforms(lf.elem, es[k])
    ensures r.0 == PackList(lf, es)
    ensures r.1.Ok? <==> es != []
    ensures r.1.Err? ==> r.1.error == IndexError
  {
    var count := Pack(lf.count, LengthValues(lf.count, |es|));
    if es == [] then (count, Err(IndexError))
    else (count + PackAll(lf.elem, es), Ok(()))
  }

  /** `writevarlist` writes the count record and the elements as two pieces. */
  lemma PackListParts(lf: ListFormat, es: seq<seq<int>>)
    requires LengthFormat(lf.count) && Holds(lf.count[|lf.count| - 1], |es|)
    requires forall k :: 0 <= k < |es| ==> Conforms(lf.elem, es[k])
    ensures PackList(lf, es) == Pack(lf.count, LengthValues(lf.count, |es|)) + PackAll(lf.elem, es)
  {
  }

  lemma TakeListPack(lf: ListFormat, es: seq<seq<int>>, rest: seq<byte>)
    requires LengthFormat(lf.count) && Holds(lf.count[|lf.count| - 1], |es|)
    requires forall k :: 0 <= k < |es| ==> Conforms(lf.elem, es[k])
    ensures TakeList(lf, PackList(lf, es) + rest) == Taken(Ok(es), rest)
  {
    var body := PackAll(lf.elem, es);
    var lv := LengthValues(lf.count, |es|);
    assert PackList(lf, es) + rest == Pack(lf.count, lv) + (body + rest);
    TakeFieldsPack(lf.count, lv, body + rest);
    var n: nat := lv[|lv| - 1];
    assert n * Size(lf.elem) == |body|;
    TakeBytesPrefix(body, rest);
    DecodeListPackAll(lf.elem, es);
  }

  lemma TakeBytesPrefix(b: seq<byte>, rest: seq<byte>)
    ensures TakeBytes(|b|, b + rest) == Taken(Ok(b), rest)
  {
    assert (b + rest)[..|b|] == b;
    assert (b + rest)[|b|..] == rest;
  }

  // ---- Record descriptors of the RFB protocol ----

  const VersionLength: nat := 12                    // `>12s`
  const SecTypes := ListFormat([U8], [U8])
  const SecType: seq<Field> := [U8]
  const FailureReason: seq<Field> := [U32]
  const SecResult: seq<Field> := [U32]
  const ClientInit: seq<Field> := [U8]
  const ServerInit1: seq<Field> := [U16, U16]
  const PixelFormat: seq<Field> := [U8, U8, U8, U8, U16, U16, U16, U8, U8, U8, Pad, Pad, Pad]
  const ServerInit2: seq<Field> := [U32]
  const ClientMessageType: seq<Field> := [U8]
  const SetEncodings := ListFormat([Pad, U16], [I32])
  const FrameBufferUpdateReq: seq<Field> := [U8, U16, U16, U16, U16]
  const KeyEvent: seq<Field> := [U8, Pad, Pad, U32]
  const PointerEvent: seq<Field> := [U8, U16, U16]
  const CutText: seq<Field> := [Pad, Pad, Pad, U32]
  const ServerMessageType: seq<Field> := [U8]
  const FrameBufferHeader: seq<Field> := [Pad, U16]
  const FrameBufferRectangleHeader: seq<Field> := [U16, U16, U16, U16, I32]
  const FrameBufferCopyRect: seq<Field> := [U16, U16]
  const SetColourMapEntries1: seq<Field> := [Pad, U16]
  const SetColourMapEntries2 := ListFormat([U16], [U16, U16, U16])
  const SetPixelFormatPadding: seq<Field> := [Pad, Pad, Pad]   // the `"xxx"` of setPixelFormat

  /** `calcsize` of the pixel format record. */
  lemma PixelFormatSize()
    ensures Size(PixelFormat) == 16
  {
    SizeFromFrontSize(PixelFormat);
  }
}
