/** A monochrome canvas on a colour display: page-packed bytes streamed as pixels in raster order. */
module Raster {
  import opened Bits
  import opened Display

  /** The mask of row `k` of a page. */
  function RowMask(k: int): bv8
    requires 0 <= k < 8
  {
    1 << k
  }

  /** `data & bit`. */
  function Hits(data: bv8, bit: bv8): bool {
    data & bit != 0
  }

  lemma MaskWalk(k: int)
    requires 0 <= k < 8
    ensures RowMask(0) == 1
    ensures k < 7 ==> RowMask(k) << 1 == RowMask(k + 1) && RowMask(k) << 1 != 0
    ensures k == 7 ==> RowMask(k) << 1 == 0
  {
    if k == 0 {} else if k == 1 {} else if k == 2 {} else if k == 3 {}
    else if k == 4 {} else if k == 5 {} else if k == 6 {}
  }

  lemma MaskTest(data: bv8, k: int)
    requires 0 <= k < 8
    ensures Hits(data, RowMask(k)) == Bit(data, k)
  {
    if k == 0 {} else if k == 1 {} else if k == 2 {} else if k == 3 {}
    else if k == 4 {} else if k == 5 {} else if k == 6 {}
  }

  /** The colour of pixel (x, y) of a packed buffer. */
  function Shade(buf: seq<bv8>, w: nat, on: bv8, off: bv8, x: int, y: int): bv8 {
    if Px(buf, w, x, y) then on else off
  }

  /** The first `n` pixels of a buffer, row by row from the top left. */
  ghost predicate InRasterOrder(stream: seq<bv8>, buf: seq<bv8>, w: nat, on: bv8, off: bv8, rows: nat, columns: nat) {
    && |stream| == At(w, columns, rows)
    && forall x, y | 0 <= x < w && 0 <= y && (y < rows || (y == rows && x < columns)) ::
         && 0 <= At(w, x, y) < |stream|
         && stream[At(w, x, y)] == Shade(buf, w, on, off, x, y)
  }

  lemma OneMorePixel(stream: seq<bv8>, buf: seq<bv8>, w: nat, on: bv8, off: bv8, rows: nat, columns: nat)
    requires InRasterOrder(stream, buf, w, on, off, rows, columns) && columns < w
    ensures InRasterOrder(stream + [Shade(buf, w, on, off, columns, rows)], buf, w, on, off, rows, columns + 1)
  {
    var longer := stream + [Shade(buf, w, on, off, columns, rows)];
    AtSteps(w, columns, rows);
    forall x, y | 0 <= x < w && 0 <= y && (y < rows || (y == rows && x < columns + 1))
      ensures 0 <= At(w, x, y) < |longer| && longer[At(w, x, y)] == Shade(buf, w, on, off, x, y)
    {
      if x == columns && y == rows {
        assert At(w, x, y) == |stream|;
      }
    }
  }

  lemma RowDone(stream: seq<bv8>, buf: seq<bv8>, w: nat, on: bv8, off: bv8, rows: nat)
    requires InRasterOrder(stream, buf, w, on, off, rows, w)
    ensures InRasterOrder(stream, buf, w, on, off, rows + 1, 0)
  {
  }

  /** Sends the pixels of a packed buffer, top row first, in the display's two colours. */
  method DrawMonoBuffer8(w: nat, h: nat, bitmap: array<bv8>, color: bv8, inverted: bool) returns (stream: seq<bv8>)
    requires bitmap.Length == w * ((h + 7) / 8)
    ensures InRasterOrder(stream, bitmap[..], w, if inverted then 0 else color, if inverted then color else 0, h, 0)
  {
    hide Shade, InRasterOrder, RowMask, Hits;
    MaskWalk(0);
    var blackColor := if inverted then color else 0;
    var onColor := if inverted then 0 else color;
    stream := [];
    var bit: bv8 := 1;
    var ptr := 0;
    var y := 0;
    EmptyStream(bitmap[..], w, onColor, blackColor);
    while y < h
      invariant 0 <= y <= h && bit == RowMask(y % 8) && ptr == At(w, 0, y / 8)
      invariant InRasterOrder(stream, bitmap[..], w, onColor, blackColor, y, 0)
    {
      var x := 0;
      while x < w
        invariant 0 <= x <= w && ptr == At(w, x, y / 8)
        invariant InRasterOrder(stream, bitmap[..], w, onColor, blackColor, y, x)
      {
        AtInRange(w, (h + 7) / 8, x, y / 8);
        var data := bitmap[ptr];
        PixelColor(bitmap[..], w, onColor, blackColor, x, y, ptr);
        OneMorePixel(stream, bitmap[..], w, onColor, blackColor, y, x);
        stream := stream + [if Hits(data, bit) then onColor else blackColor];
        AtSteps(w, x, y / 8);
        ptr := ptr + 1;
        x := x + 1;
      }
      RowDone(stream, bitmap[..], w, onColor, blackColor, y);
      MaskWalk(y % 8);
      RowAddress(w, y);
      bit := bit << 1;
      if bit == 0 {
        bit := 1;
      } else {
        ptr := ptr - w;
      }
      y := y + 1;
    }
  }

  lemma EmptyStream(buf: seq<bv8>, w: nat, on: bv8, off: bv8)
    ensures InRasterOrder([], buf, w, on, off, 0, 0)
  {
  }

  lemma PixelColor(buf: seq<bv8>, w: nat, on: bv8, off: bv8, x: int, y: int, ptr: int)
    requires ptr == At(w, x, y / 8) && 0 <= ptr < |buf|
    ensures (if Hits(buf[ptr], RowMask(y % 8)) then on else off) == Shade(buf, w, on, off, x, y)
  {
    MaskTest(buf[ptr], y % 8);
    hide Bit;
  }

  lemma RowAddress(w: nat, y: int)
    ensures y % 8 < 7 ==> (y + 1) % 8 == y % 8 + 1 && At(w, w, y / 8) - w == At(w, 0, (y + 1) / 8)
    ensures y % 8 == 7 ==> (y + 1) % 8 == 0 && At(w, w, y / 8) == At(w, 0, (y + 1) / 8)
  {
    if y % 8 == 7 {
      assert (y + 1) / 8 == y / 8 + 1;
    } else {
      assert (y + 1) / 8 == y / 8;
    }
  }

  /** Both displays show the same picture: what the page blit lights is what the raster stream colours. */
  lemma BlitsAgree(chip: Chip, width: nat, height: nat, x: int, y: int, w: nat, h: nat, bytes: seq<bv8>,
                   stream: seq<bv8>, on: bv8, off: bv8)
    requires InRange(width, height, x, y, w, h) && |chip.ram| == COLUMNS * PAGES && |bytes| == w * (h / 8)
    requires y % 8 == 0 && h % 8 == 0 && on != off
    requires InRasterOrder(stream, bytes, w, on, off, h, 0)
    ensures forall i, j | 0 <= i < w && 0 <= j < h ::
              && 0 <= At(w, i, j) < |stream|
              && Px(Stream(Block(chip, width, height, x, y / 8, w), bytes).ram, COLUMNS, x + i, y + j)
                 == (stream[At(w, i, j)] == on)
  {
    BlitShows(chip, width, height, x, y, w, h, bytes);
    hide Px;
    var ram := Stream(Block(chip, width, height, x, y / 8, w), bytes).ram;
    forall i, j | 0 <= i < w && 0 <= j < h
      ensures 0 <= At(w, i, j) < |stream| && Px(ram, COLUMNS, x + i, y + j) == (stream[At(w, i, j)] == on)
    {
      assert Px(ram, COLUMNS, x + i, y + j) == Px(bytes, w, x + i - x, y + j - y);
    }
  }
}
