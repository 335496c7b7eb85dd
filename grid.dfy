/**
 * The picture `RemoteScreen` keeps (rfb.py:878-1008), as values.  The
 * source holds a PIL image in RGBX mode; here an image is a grid of
 * opaque four-byte pixels, indexed `g[x][y]` like the array it is kept
 * in, and the PIL operations the screen uses (`Image.new`, `crop`,
 * `paste`, `frombuffer`) are functions on grids.
 */
module Grids {
  import opened BigEndian

  /** An RGBX pixel, its four bytes as they arrive on the wire. */
  datatype Pixel = Pixel(r: byte, g: byte, b: byte, x: byte)

  /** What `Image.new` fills with, and what `crop` yields outside the image. */
  const Black := Pixel(0, 0, 0, 0)

  /** Columns of pixels: `g[x][y]` is the pixel at (x, y). */
  type Grid = seq<seq<Pixel>>

  /** `g` is `w` pixels wide and `h` high. */
  predicate IsGrid(g: Grid, w: nat, h: nat)
  {
    |g| == w && forall a :: 0 <= a < w ==> |g[a]| == h
  }

  function Width(g: Grid): nat
  {
    |g|
  }

  function Height(g: Grid): nat
  {
    if g == [] then 0 else |g[0]|
  }

  /** The pixel at (a, b), black off the image. */
  function At(g: Grid, a: int, b: int): Pixel
  {
    if 0 <= a < |g| && 0 <= b < |g[a]| then g[a][b] else Black
  }

  /** The length of the span from `lo` to `hi`; nothing when it is inverted. */
  function Span(lo: int, hi: int): nat
  {
    if hi <= lo then 0 else hi - lo
  }

  /** `Image.new("RGBX", (w, h))`. */
  function Blank(w: nat, h: nat): (g: Grid)
    ensures IsGrid(g, w, h)
  {
    seq(w, _ => seq(h, _ => Black))
  }

  /** `crop((l, t, r, b))`: a copy of the box, black where it leaves the image. */
  function Crop(g: Grid, l: int, t: int, r: int, b: int): (c: Grid)
    ensures IsGrid(c, Span(l, r), Span(t, b))
  {
    seq(Span(l, r), i => seq(Span(t, b), j => At(g, l + i, t + j)))
  }

  /** The pixel at (a, b) once `src` is pasted at (x, y). */
  function PastePixel(g: Grid, src: Grid, x: int, y: int, a: nat, b: nat): Pixel
    requires a < |g| && b < |g[a]|
  {
    if x <= a < x + Width(src) && y <= b < y + Height(src) then At(src, a - x, b - y) else g[a][b]
  }

  /** `paste(src, (x, y))`: `src` laid over the image from (x, y), cut off at its edges. */
  function Paste(g: Grid, src: Grid, x: int, y: int): (r: Grid)
    ensures |r| == |g| && forall a :: 0 <= a < |g| ==> |r[a]| == |g[a]|
  {
    seq(|g|, a requires 0 <= a < |g| => seq(|g[a]|, b requires 0 <= b < |g[a]| => PastePixel(g, src, x, y, a, b)))
  }

  /** The pixel at (i, j) of a `w`-pixel-wide RGBX buffer, rows one after another. */
  function BufferPixel(data: seq<byte>, w: nat, i: nat, j: nat): Pixel
  {
    var o := 4 * (j * w + i);
    if o + 4 <= |data| then Pixel(data[o], data[o + 1], data[o + 2], data[o + 3]) else Black
  }

  /** `Image.frombuffer("RGBX", (w, h), data, "raw", "RGBX", 0, 1)`. */
  function FromBuffer(data: seq<byte>, w: nat, h: nat): (g: Grid)
    ensures IsGrid(g, w, h)
  {
    seq(w, i requires 0 <= i < w => seq(h, j requires 0 <= j < h => BufferPixel(data, w, i, j)))
  }

  /** A CopyRect rectangle, as its callback should draw it: the source box is cut from the picture before the paste. */
  function CopyRectGrid(g: Grid, x: nat, y: nat, w: nat, h: nat, srcx: nat, srcy: nat): Grid
  {
    Paste(g, Crop(g, srcx, srcy, srcx + w, srcy + h), x, y)
  }

  /**
   * `__handleCopyRect` as written (rfb.py:926-928): the box is closed at
   * the destination's far corner, so the pasted block has the wrong size
   * unless source and destination coincide.
   */
  function CopyRectAsWritten(g: Grid, x: nat, y: nat, w: nat, h: nat, srcx: nat, srcy: nat): Grid
  {
    Paste(g, Crop(g, srcx, srcy, x + w, y + h), x, y)
  }

  /** Two grids of the same shape with the same pixels are the same. */
  lemma GridsEqual(g: Grid, g': Grid, w: nat, h: nat)
    requires IsGrid(g, w, h) && IsGrid(g', w, h)
    requires forall a, b :: 0 <= a < w && 0 <= b < h ==> g[a][b] == g'[a][b]
    ensures g == g'
  {
    assert forall a :: 0 <= a < w ==> g[a] == g'[a];
  }

  /** Pasting keeps the image's shape. */
  lemma PasteShape(g: Grid, src: Grid, x: int, y: int, w: nat, h: nat)
    requires IsGrid(g, w, h)
    ensures IsGrid(Paste(g, src, x, y), w, h)
  {
  }

  /**
   * A Raw rectangle overwrites exactly the `w`×`h` box at (x, y), with
   * the buffer's pixels in row order, and no pixel outside it.
   */
  lemma RawPasteExact(g: Grid, data: seq<byte>, x: nat, y: nat, w: nat, h: nat)
    ensures var r := Paste(g, FromBuffer(data, w, h), x, y);
      forall a, b :: 0 <= a < |g| && 0 <= b < |g[a]| ==>
        r[a][b] == if x <= a < x + w && y <= b < y + h then BufferPixel(data, w, a - x, b - y) else g[a][b]
  {
  }

  /**
   * A CopyRect rectangle copies from the picture as it was before the
   * copy: every pixel of the destination box takes the pixel at the same
   * offset in the source box of the old picture, even where the two boxes
   * overlap, and no pixel outside the box changes.
   */
  lemma CopyRectSnapshot(g: Grid, x: nat, y: nat, w: nat, h: nat, srcx: nat, srcy: nat)
    ensures var r := CopyRectGrid(g, x, y, w, h, srcx, srcy);
      forall a, b :: 0 <= a < |g| && 0 <= b < |g[a]| ==>
        r[a][b] == if x <= a < x + w && y <= b < y + h then At(g, srcx + (a - x), srcy + (b - y)) else g[a][b]
  {
  }

  /** When source and destination coincide, the code as written agrees with the intended copy. */
  lemma CopyRectAsWrittenInPlace(g: Grid, x: nat, y: nat, w: nat, h: nat)
    ensures CopyRectAsWritten(g, x, y, w, h, x, y) == CopyRectGrid(g, x, y, w, h, x, y)
  {
  }

  /**
   * A 3×1 picture A B C and a 1×1 CopyRect from (0, 0) to (1, 0): the
   * copy should give A A C, but the box as written is 2 pixels wide and
   * also overwrites C with B.
   */
  lemma CopyRectAsWrittenOverwrites()
    ensures var A, B, C := Pixel(1, 0, 0, 0), Pixel(2, 0, 0, 0), Pixel(3, 0, 0, 0);
      && CopyRectGrid([[A], [B], [C]], 1, 0, 1, 1, 0, 0) == [[A], [A], [C]]
      && CopyRectAsWritten([[A], [B], [C]], 1, 0, 1, 1, 0, 0) == [[A], [A], [B]]
  {
    var A, B, C := Pixel(1, 0, 0, 0), Pixel(2, 0, 0, 0), Pixel(3, 0, 0, 0);
    var g := [[A], [B], [C]];
    GridsEqual(CopyRectGrid(g, 1, 0, 1, 1, 0, 0), [[A], [A], [C]], 3, 1);
    GridsEqual(CopyRectAsWritten(g, 1, 0, 1, 1, 0, 0), [[A], [A], [B]], 3, 1);
  }

  /** A cropped box holds the picture's pixels at the same offsets, black beyond its edges. */
  lemma CropPixels(g: Grid, x: int, y: int, w: nat, h: nat)
    ensures var c := Crop(g, x, y, x + w, y + h);
      IsGrid(c, w, h) && forall i, j :: 0 <= i < w && 0 <= j < h ==> c[i][j] == At(g, x + i, y + j)
  {
  }
}
