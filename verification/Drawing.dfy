/**
 * What a drawing call means, pixel by pixel, in the caller's coordinates. Nothing here knows about bytes,
 * masks, clipping or canvas offsets: each call either leaves a pixel alone or gives it a value.
 */
module Drawing {
  import opened Bits

  /** The monochrome pen: `lit` is "colour is not BLACK", `transparent` is CANVAS_MODE_TRANSPARENT. */
  datatype Pen = Pen(lit: bool, transparent: bool)

  datatype Op =
    | Clear
    | PutPixel(x: int, y: int)
    | HLine(x1: int, y1: int, x2: int)
    | VLine(x1: int, y1: int, y2: int)
    | FillRect(x1: int, y1: int, x2: int, y2: int)
    | Line(x1: int, y1: int, x2: int, y2: int)
    | Bitmap(x: int, y: int, w: nat, h: nat, bits: seq<bv8>)
    | XBitmap(x: int, y: int, w: nat, h: nat, bits: seq<bv8>)
    | SetPen(pen: Pen)

  predicate Between(a: int, v: int, b: int) {
    a <= v <= b || b <= v <= a
  }

  /** Pixel (i, j) of a bitmap packed in pages of eight rows, `w` bytes to a page. */
  predicate PackedBit(bits: seq<bv8>, w: nat, i: int, j: int) {
    Px(bits, w, i, j)
  }

  /** Bytes in one row of an XBM bitmap. */
  function Pitch(w: int): int {
    (w + 7) / 8
  }

  /** Pixel (i, j) of an XBM bitmap: rows of `Pitch(w)` bytes, least significant bit leftmost. */
  predicate XbmBit(bits: seq<bv8>, w: nat, i: int, j: int) {
    Bit(Cell(bits, Pitch(w), i / 8, j), i % 8)
  }

  /** Transparent bitmaps ink their set pixels only; opaque ones ink every pixel, inverted when the pen is black. */
  function BitInk(pen: Pen, b: bool): Option<bool> {
    if !pen.transparent then Some(b == pen.lit)
    else if b then Some(pen.lit)
    else None
  }

  function Distance(a: int, b: int): nat {
    if a > b then a - b else b - a
  }

  /** Number of points of a line, less one. */
  function Extent(x1: int, y1: int, x2: int, y2: int): nat {
    if Distance(x1, x2) < Distance(y1, y2) then Distance(y1, y2) else Distance(x1, x2)
  }

  /** `v` moved by `n` towards `target`. */
  function Toward(v: int, target: int, n: nat): int {
    if v < target then v + n else v - n
  }

  /**
   * Point `k` (from 0 to Extent) of a line that advances by one along its longer axis, from the smaller to the
   * larger coordinate of that axis, and by floor((k+1) * shorter / longer) along the other one. With both extents
   * equal the last point falls one step behind: the other coordinate has already arrived and turns back.
   */
  function LinePoint(x1: int, y1: int, x2: int, y2: int, k: nat): (int, int) {
    var dx := Distance(x1, x2);
    var dy := Distance(y1, y2);
    if dy > dx then
      if y1 > y2 then (Toward(x2, x1, (k + 1) * dx / dy), y2 + k)
      else (Toward(x1, x2, (k + 1) * dx / dy), y1 + k)
    else if x1 > x2 then (x2 + k, MinorY(y2, y1, dy, dx, k))
    else (x1 + k, MinorY(y1, y2, dy, dx, k))
  }

  function MinorY(y: int, target: int, dy: nat, dx: nat, k: nat): int
    requires dy <= dx
  {
    if dy < dx then Toward(y, target, (k + 1) * dy / dx)
    else if k < dx then Toward(y, target, k + 1)
    else target - 1
  }

  ghost predicate OnLine(x1: int, y1: int, x2: int, y2: int, x: int, y: int) {
    exists k: nat :: k <= Extent(x1, y1, x2, y2) && LinePoint(x1, y1, x2, y2, k) == (x, y)
  }

  /** One of the first `n` points of the line. */
  ghost predicate OnLineBefore(x1: int, y1: int, x2: int, y2: int, n: nat, x: int, y: int) {
    exists k: nat :: k < n && LinePoint(x1, y1, x2, y2, k) == (x, y)
  }

  /** The value a drawing call gives to pixel (x, y), or None when it leaves the pixel alone. */
  ghost function Ink(op: Op, pen: Pen, x: int, y: int): Option<bool> {
    match op
    case Clear => Some(false)
    case PutPixel(px, py) => if x == px && y == py then Some(pen.lit) else None
    case HLine(x1, y1, x2) => if y == y1 && Between(x1, x, x2) then Some(pen.lit) else None
    case VLine(x1, y1, y2) => if x == x1 && Between(y1, y, y2) then Some(pen.lit) else None
    case FillRect(x1, y1, x2, y2) =>
      if Between(x1, x, x2) && Between(y1, y, y2) then Some(pen.lit) else None
    case Line(x1, y1, x2, y2) => if OnLine(x1, y1, x2, y2, x, y) then Some(pen.lit) else None
    case Bitmap(left, top, w, h, bits) =>
      if 0 <= x - left < w && 0 <= y - top < h then BitInk(pen, PackedBit(bits, w, x - left, y - top)) else None
    case XBitmap(left, top, w, h, bits) =>
      if 0 <= x - left < w && 0 <= y - top < h then BitInk(pen, XbmBit(bits, w, x - left, y - top)) else None
    case SetPen(_) => None
  }

  function Over(ink: Option<bool>, under: bool): bool {
    match ink
    case Some(v) => v
    case None => under
  }

  /** The canvas whose top-left pixel is the caller's (ox, oy) went from `s0` to `s1` by exactly this call. */
  ghost predicate Drawn(s0: seq<bv8>, s1: seq<bv8>, w: nat, h: nat, op: Op, pen: Pen, ox: int, oy: int) {
    |s1| == |s0| &&
    forall x, y | 0 <= x < w && 0 <= y < h ::
      Px(s1, w, x, y) == Over(Ink(op, pen, x + ox, y + oy), Px(s0, w, x, y))
  }

  /** The pixels of the straight calls, in numbers: a point, a row, a column or a rectangle given by any two of its
      opposite ends, both of them included. */
  lemma StraightInk(x1: int, y1: int, x2: int, y2: int, pen: Pen, x: int, y: int)
    ensures
      var left, right := if x1 < x2 then x1 else x2, if x1 < x2 then x2 else x1;
      var top, bottom := if y1 < y2 then y1 else y2, if y1 < y2 then y2 else y1;
      var lit := Some(pen.lit);
      && Ink(FillRect(x1, y1, x2, y2), pen, x, y) == (if left <= x <= right && top <= y <= bottom then lit else None)
      && Ink(HLine(x1, y1, x2), pen, x, y) == (if left <= x <= right && y == y1 then lit else None)
      && Ink(VLine(x1, y1, y2), pen, x, y) == (if x == x1 && top <= y <= bottom then lit else None)
      && Ink(PutPixel(x1, y1), pen, x, y) == (if x == x1 && y == y1 then lit else None)
      && Ink(Clear, pen, x, y) == Some(false)
  {
  }

  /** What a bitmap's bit does to its pixel: set, it gives the pen value; clear, it leaves the pixel alone under a
      transparent pen and gives it the opposite value under an opaque one. */
  lemma BitInkIs(pen: Pen, b: bool)
    ensures BitInk(pen, b) == if b then Some(pen.lit) else if pen.transparent then None else Some(!pen.lit)
  {
  }

  /** Pixel (i, j) of a page-packed bitmap is bit `j % 8` of byte `j / 8 * w + i`; no pixel outside it changes. */
  lemma BitmapInk(left: int, top: int, w: nat, h: nat, bits: seq<bv8>, pen: Pen, i: int, j: int)
    ensures 0 <= i < w && 0 <= j < h && |bits| == w * ((h + 7) / 8) ==>
              && 0 <= j / 8 * w + i < |bits|
              && Ink(Bitmap(left, top, w, h, bits), pen, left + i, top + j)
                 == BitInk(pen, (bits[j / 8 * w + i] >> (j % 8)) & 1 == 1)
    ensures !(0 <= i < w && 0 <= j < h) ==> Ink(Bitmap(left, top, w, h, bits), pen, left + i, top + j) == None
  {
    hide Bit, BitInk;
    if 0 <= i < w && 0 <= j < h && |bits| == w * ((h + 7) / 8) {
      Address(w, (h + 7) / 8, i, j / 8);
      LowBit(bits[j / 8 * w + i], j % 8);
    }
  }

  /** Pixel (i, j) of an XBM bitmap is bit `i % 8` of byte `j * ((w + 7) / 8) + i / 8`; no pixel outside it changes. */
  lemma XBitmapInk(left: int, top: int, w: nat, h: nat, bits: seq<bv8>, pen: Pen, i: int, j: int)
    ensures 0 <= i < w && 0 <= j < h && |bits| == (w + 7) / 8 * h ==>
              && 0 <= j * ((w + 7) / 8) + i / 8 < |bits|
              && Ink(XBitmap(left, top, w, h, bits), pen, left + i, top + j)
                 == BitInk(pen, (bits[j * ((w + 7) / 8) + i / 8] >> (i % 8)) & 1 == 1)
    ensures !(0 <= i < w && 0 <= j < h) ==> Ink(XBitmap(left, top, w, h, bits), pen, left + i, top + j) == None
  {
    hide Bit, BitInk;
    if 0 <= i < w && 0 <= j < h && |bits| == (w + 7) / 8 * h {
      Address((w + 7) / 8, h, i / 8, j);
      LowBit(bits[j * ((w + 7) / 8) + i / 8], i % 8);
    }
  }

  lemma LowBit(b: bv8, k: int)
    requires 0 <= k < 8
    ensures (b >> k) & 1 == 1 <==> Bit(b, k)
  {
    BitShr(b, k, 0);
  }
}
