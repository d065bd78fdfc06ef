/**
 * The page-shift blit of a packed bitmap onto a 1-bit canvas, described pixel by pixel exactly as the code performs
 * it for every position, height and mode, and the condition under which that is the per-pixel meaning of the call.
 * Coordinates are canvas-local: the bitmap's top-left corner is at (x0, y0) and the canvas is cw by ch.
 */
module Blit {
  import opened Bits
  import opened Drawing

  function Min(a: int, b: int): int {
    if a < b then a else b
  }

  function Max(a: int, b: int): int {
    if a > b then a else b
  }

  predicate Visible(x0: int, y0: int, w: nat, h: nat, cw: nat, ch: nat) {
    0 < w && 0 < x0 + w && x0 < cw && 0 < y0 + h && y0 < ch
  }

  function TopPage(y0: int): int {
    Max(y0, 0) / 8
  }

  function BottomPage(y0: int, h: nat, ch: nat): int {
    (Min(y0 + h, ch) - 1) / 8
  }

  /** The code's `max_pages`: pages from the first one touched, after which only carried-over bits are drawn. */
  function PageLimit(y0: int, h: nat): int {
    ((if y0 < 0 then h + y0 else h) + 15 - y0 % 8) / 8
  }

  /** Row `y` of a touched page receives a bitmap bit. */
  predicate RowMasked(y0: int, h: nat, y: int) {
    y >= y0 && (y % 8 < y0 % 8 || y0 % 8 == 0 || y / 8 - TopPage(y0) < PageLimit(y0, h) - 1)
  }

  predicate RowTouched(y0: int, h: nat, ch: nat, y: int) {
    TopPage(y0) <= y / 8 <= BottomPage(y0, h, ch)
  }

  predicate ColumnTouched(x0: int, w: nat, cw: nat, x: int) {
    Max(x0, 0) <= x < Min(x0 + w, cw)
  }

  /** What the code draws at canvas pixel (x, y). */
  function BlitInk(pen: Pen, bits: seq<bv8>, x0: int, y0: int, w: nat, h: nat, cw: nat, ch: nat, x: int, y: int):
    Option<bool>
  {
    if Visible(x0, y0, w, h, cw, ch) && ColumnTouched(x0, w, cw, x) && RowTouched(y0, h, ch, y) then
      if RowMasked(y0, h, y) then BitInk(pen, PackedBit(bits, w, x - x0, y - y0))
      else if !pen.transparent && !pen.lit then Some(true)
      else None
    else None
  }

  /** What happens to a pixel of a touched page that receives no bitmap bit: an opaque black pen lights it. */
  function Unmasked(pen: Pen): Option<bool> {
    if !pen.transparent && !pen.lit then Some(true) else None
  }

  /** Row `r` of a page, from the shifted current source byte and the shifted-out rest of the previous one. */
  function PageInk(pen: Pen, offs: int, main: bool, carry: bool, cur: bv8, prev: bv8, r: int): Option<bool> {
    if r >= offs then
      if main then BitInk(pen, Bit(cur, r - offs)) else Unmasked(pen)
    else
      if carry then BitInk(pen, Bit(prev, r - offs + 8)) else Unmasked(pen)
  }

  /** One page byte assembled from two source bytes, as `data` and `mask` are. */
  function ShiftIn(offs: int, main: bool, carry: bool, cur: bv8, prev: bv8): bv8
    requires 0 <= offs < 8
  {
    (if main then cur << offs else 0) | (if carry then prev >> (8 - offs) else 0)
  }

  lemma ShiftInBit(offs: int, main: bool, carry: bool, cur: bv8, prev: bv8, r: int)
    requires 0 <= offs < 8 && 0 <= r < 8
    ensures Bit(ShiftIn(offs, main, carry, cur, prev), r)
            == if r >= offs then main && Bit(cur, r - offs) else carry && Bit(prev, r - offs + 8)
  {
    hide Bit;
    BitOr(if main then cur << offs else 0, if carry then prev >> (8 - offs) else 0, r);
    BitShl(cur, offs, r);
    BitShr(prev, 8 - offs, r);
    BitConst(r);
    if r < offs {
      BitNegative(cur, r - offs);
    } else {
      BitNegative(prev, r + 8 - offs);
    }
  }

  /** The byte the code stores: `data` over the masked-out byte when opaque, set or cleared bits when transparent. */
  function Merge(pen: Pen, v: bv8, mask: bv8, data: bv8): bv8 {
    if !pen.transparent then (v & !mask) | (if pen.lit then data else !data)
    else if pen.lit then v | data
    else v & !data
  }

  lemma MergeBit(pen: Pen, v: bv8, mask: bv8, data: bv8, r: int)
    requires 0 <= r < 8
    ensures Bit(Merge(pen, v, mask, data), r)
            == if !pen.transparent then (Bit(v, r) && !Bit(mask, r)) || Bit(data, r) == pen.lit
               else if Bit(data, r) then pen.lit
               else Bit(v, r)
  {
    if r == 0 {} else if r == 1 {} else if r == 2 {} else if r == 3 {}
    else if r == 4 {} else if r == 5 {} else if r == 6 {} else if r == 7 {}
  }

  function Blend(pen: Pen, offs: int, main: bool, carry: bool, cur: bv8, prev: bv8, v: bv8): bv8
    requires 0 <= offs < 8
  {
    Merge(pen, v, ShiftIn(offs, main, carry, 0xFF, 0xFF), ShiftIn(offs, main, carry, cur, prev))
  }

  lemma BlendBit(pen: Pen, offs: int, main: bool, carry: bool, cur: bv8, prev: bv8, v: bv8, r: int)
    requires 0 <= offs < 8 && 0 <= r < 8
    ensures Bit(Blend(pen, offs, main, carry, cur, prev, v), r)
            == Over(PageInk(pen, offs, main, carry, cur, prev, r), Bit(v, r))
  {
    BitConst(r - offs);
    BitConst(r - offs + 8);
    ShiftInBit(offs, main, carry, cur, prev, r);
    ShiftInBit(offs, main, carry, 0xFF, 0xFF, r);
    hide Bit;
    hide ShiftIn;
    hide Merge;
    MergeBit(pen, v, ShiftIn(offs, main, carry, 0xFF, 0xFF), ShiftIn(offs, main, carry, cur, prev), r);
  }

  lemma Untouched(pen: Pen, bits: seq<bv8>, x0: int, y0: int, w: nat, h: nat, cw: nat, ch: nat)
    ensures forall x, y | || y / 8 < TopPage(y0) || y / 8 > BottomPage(y0, h, ch)
                          || x < Max(x0, 0) || x >= Min(x0 + w, cw) ::
              BlitInk(pen, bits, x0, y0, w, h, cw, ch, x, y) == None
  {
  }

  /**
   * The bitmap's height suits its position: it is a multiple of 8, or its last partial page is below the canvas, or
   * the last visible row ends a page and the page before it is still drawn in full.
   */
  predicate HeightFits(y0: int, h: nat, ch: nat) {
    || h % 8 == 0
    || ch <= y0 + h / 8 * 8
    || (Min(y0 + h, ch) % 8 == 0 && (y0 < 0 || y0 % 8 < h % 8))
  }

  /** Both visible edges of the bitmap lie on page boundaries. */
  predicate PageAligned(y0: int, h: nat, ch: nat) {
    Max(y0, 0) % 8 == 0 && Min(y0 + h, ch) % 8 == 0
  }

  /** When the blit is exact: the height fits, and an opaque black bitmap covers whole pages only. */
  predicate Exact(pen: Pen, x0: int, y0: int, w: nat, h: nat, cw: nat, ch: nat) {
    Visible(x0, y0, w, h, cw, ch) ==>
      && HeightFits(y0, h, ch)
      && (pen.transparent || pen.lit || PageAligned(y0, h, ch))
  }

  /** The page conditions without division: y = 8p + s, y0 = 8q + o. */
  lemma RowConditions(y0: int, h: nat, ch: nat, y: int, p: int, s: int, q: int, o: int)
    requires y == 8 * p + s && y0 == 8 * q + o && 0 <= s < 8 && 0 <= o < 8
    ensures RowTouched(y0, h, ch, y) <==> Max(y0, 0) < 8 * p + 8 && 8 * p < Min(y0 + h, ch)
    ensures RowMasked(y0, h, y) <==>
            y >= y0 && (s < o || o == 0 || (if y0 < 0 then 8 * p + o < h + y0 else 8 * (p - q) + o < h))
  {
    hide *;
    TouchConditions(y0, h, ch, y, p, s);
    MaskConditions(y0, h, y, p, s, q, o);
  }

  lemma TouchConditions(y0: int, h: nat, ch: nat, y: int, p: int, s: int)
    requires y == 8 * p + s && 0 <= s < 8
    ensures RowTouched(y0, h, ch, y) <==> Max(y0, 0) < 8 * p + 8 && 8 * p < Min(y0 + h, ch)
  {
  }

  lemma MaskConditions(y0: int, h: nat, y: int, p: int, s: int, q: int, o: int)
    requires y == 8 * p + s && y0 == 8 * q + o && 0 <= s < 8 && 0 <= o < 8
    ensures RowMasked(y0, h, y) <==>
            y >= y0 && (s < o || o == 0 || (if y0 < 0 then 8 * p + o < h + y0 else 8 * (p - q) + o < h))
  {
    assert y0 % 8 == o && y0 / 8 == q && y / 8 == p && y % 8 == s;
  }

  /** HeightFits without division: y0 = 8q + o, h = 8k + r, ch = 8m. */
  predicate Fits(q: int, o: int, k: int, r: int, m: int) {
    r == 0 || m <= q + k || ((8 * m <= 8 * q + o + 8 * k + r || o + r == 8) && (q < 0 || o < r))
  }

  lemma HeightConditions(y0: int, h: nat, ch: nat, q: int, o: int, k: int, r: int, m: int)
    requires y0 == 8 * q + o && h == 8 * k + r && ch == 8 * m && 0 <= o < 8 && 0 <= r < 8
    ensures HeightFits(y0, h, ch) <==> Fits(q, o, k, r, m)
  {
    assert h % 8 == r && h / 8 == k && y0 % 8 == o;
    assert (y0 + h) % 8 == (o + r) % 8;
  }

  /** The rows the code masks in, in the terms of RowConditions, are the visible rows of the bitmap. */
  lemma RowsAreSourceRows(p: int, s: int, q: int, o: int, k: int, r: int, m: int)
    requires 0 <= s < 8 && 0 <= o < 8 && 0 <= r < 8 && 0 <= k && 0 <= p < m
    requires 0 < 8 * q + o + 8 * k + r && 8 * q + o < 8 * m
    requires Fits(q, o, k, r, m)
    ensures
      var y0, h, ch, y := 8 * q + o, 8 * k + r, 8 * m, 8 * p + s;
      && Max(y0, 0) < 8 * p + 8 && 8 * p < Min(y0 + h, ch)
      && y >= y0 && (s < o || o == 0 || (if y0 < 0 then 8 * p + o < h + y0 else 8 * (p - q) + o < h))
      <==> y0 <= y < y0 + h
  {
  }

  lemma MaskedRowsAreSourceRows(y0: int, h: nat, ch: nat, y: int)
    requires ch % 8 == 0 && 0 <= y < ch && 0 < y0 + h && y0 < ch
    requires HeightFits(y0, h, ch)
    ensures RowTouched(y0, h, ch, y) && RowMasked(y0, h, y) <==> y0 <= y < y0 + h
  {
    hide *;
    HeightConditions(y0, h, ch, y0 / 8, y0 % 8, h / 8, h % 8, ch / 8);
    RowConditions(y0, h, ch, y, y / 8, y % 8, y0 / 8, y0 % 8);
    RowsAreSourceRows(y / 8, y % 8, y0 / 8, y0 % 8, h / 8, h % 8, ch / 8);
  }

  /** With a height that does not fit, some row of the canvas is masked in wrongly. */
  lemma WrongRow(q: int, o: int, k: int, r: int, m: int) returns (p: int, s: int)
    requires 0 <= o < 8 && 0 <= r < 8 && 0 <= k
    requires 0 < 8 * q + o + 8 * k + r && 8 * q + o < 8 * m
    requires !Fits(q, o, k, r, m)
    ensures 0 <= s < 8 && 0 <= p < m && 8 * p + s <= 8 * q + o + 8 * k + r
    ensures
      var y0, h, ch, y := 8 * q + o, 8 * k + r, 8 * m, 8 * p + s;
      !(&& Max(y0, 0) < 8 * p + 8 && 8 * p < Min(y0 + h, ch)
        && y >= y0 && (s < o || o == 0 || (if y0 < 0 then 8 * p + o < h + y0 else 8 * (p - q) + o < h))
        <==> y0 <= y < y0 + h)
  {
    if q >= 0 && o >= r {
      p, s := q + k, o;
    } else if o + r < 8 {
      p, s := q + k, o + r;
    } else {
      p, s := q + k + 1, o + r - 8;
    }
  }

  lemma HeightMustFit(y0: int, h: nat, ch: nat)
    requires ch % 8 == 0 && 0 < y0 + h && y0 < ch && !HeightFits(y0, h, ch)
    ensures exists y :: 0 <= y < ch && y <= y0 + h &&
              !(RowTouched(y0, h, ch, y) && RowMasked(y0, h, y) <==> y0 <= y < y0 + h)
  {
    hide *;
    HeightConditions(y0, h, ch, y0 / 8, y0 % 8, h / 8, h % 8, ch / 8);
    var p, s := WrongRow(y0 / 8, y0 % 8, h / 8, h % 8, ch / 8);
    RowConditions(y0, h, ch, 8 * p + s, p, s, y0 / 8, y0 % 8);
    assert 0 <= 8 * p + s < ch;
  }

  /** An opaque black bitmap that does not cover whole pages lights rows outside itself. */
  lemma UnmaskedRow(y0: int, h: nat, ch: nat)
    requires ch % 8 == 0 && 0 < y0 + h && y0 < ch && HeightFits(y0, h, ch) && !PageAligned(y0, h, ch)
    ensures exists y :: 0 <= y < ch && RowTouched(y0, h, ch, y) && !RowMasked(y0, h, y)
  {
    if Max(y0, 0) % 8 != 0 {
      var y := y0 / 8 * 8;
      RowConditions(y0, h, ch, y, y / 8, 0, y0 / 8, y0 % 8);
      assert RowTouched(y0, h, ch, y) && !RowMasked(y0, h, y);
    } else {
      var y := y0 + h;
      assert y < ch && y % 8 != 0;
      RowConditions(y0, h, ch, y, y / 8, y % 8, y0 / 8, y0 % 8);
      MaskedRowsAreSourceRows(y0, h, ch, y);
      assert RowTouched(y0, h, ch, y) && !RowMasked(y0, h, y);
    }
  }

  lemma AlignedRowsAreMasked(y0: int, h: nat, ch: nat, y: int)
    requires ch % 8 == 0 && 0 <= y < ch && 0 < y0 + h && y0 < ch
    requires HeightFits(y0, h, ch) && PageAligned(y0, h, ch) && RowTouched(y0, h, ch, y)
    ensures RowMasked(y0, h, y)
  {
    hide RowMasked;
    hide RowTouched;
    hide HeightFits;
    RowConditions(y0, h, ch, y, y / 8, y % 8, y0 / 8, y0 % 8);
    MaskedRowsAreSourceRows(y0, h, ch, y);
  }

  lemma ExactSuffices(pen: Pen, bits: seq<bv8>, x0: int, y0: int, w: nat, h: nat, cw: nat, ch: nat, x: int, y: int)
    requires ch % 8 == 0 && 0 <= x < cw && 0 <= y < ch
    requires Exact(pen, x0, y0, w, h, cw, ch)
    ensures BlitInk(pen, bits, x0, y0, w, h, cw, ch, x, y) == Ink(Bitmap(x0, y0, w, h, bits), pen, x, y)
  {
    hide RowMasked;
    hide RowTouched;
    hide HeightFits;
    hide PageAligned;
    hide PackedBit;
    if Visible(x0, y0, w, h, cw, ch) {
      MaskedRowsAreSourceRows(y0, h, ch, y);
      if RowTouched(y0, h, ch, y) && !pen.transparent && !pen.lit {
        AlignedRowsAreMasked(y0, h, ch, y);
      }
    }
  }

  /** A bitmap of `n` set bytes. */
  function Solid(n: nat): (bits: seq<bv8>)
    ensures |bits| == n && forall i | 0 <= i < n :: bits[i] == 0xFF
  {
    seq(n, _ => 0xFF)
  }

  lemma SolidBit(w: nat, pages: nat, i: int, j: int)
    requires 0 <= i < w && 0 <= j < 8 * pages
    ensures PackedBit(Solid(w * pages), w, i, j)
  {
    Address(w, pages, i, j / 8);
    BitConst(j % 8);
  }

  lemma HeightNotWhole(h: nat, y0: int, ch: nat)
    requires !HeightFits(y0, h, ch)
    ensures h < 8 * ((h + 7) / 8)
  {
  }

  /** The call drew something else than its meaning at some canvas pixel, for a fully set bitmap. */
  ghost predicate GoesWrong(pen: Pen, x0: int, y0: int, w: nat, h: nat, cw: nat, ch: nat) {
    var bits := Solid(w * ((h + 7) / 8));
    exists x, y :: 0 <= x < cw && 0 <= y < ch &&
      BlitInk(pen, bits, x0, y0, w, h, cw, ch, x, y) != Ink(Bitmap(x0, y0, w, h, bits), pen, x, y)
  }

  lemma MaskedFromTop(y0: int, h: nat, y: int)
    requires RowMasked(y0, h, y)
    ensures y0 <= y
  {
  }

  lemma WrongPixel(pen: Pen, x0: int, y0: int, w: nat, h: nat, cw: nat, ch: nat, y: int)
    requires 0 < cw && Visible(x0, y0, w, h, cw, ch) && 0 <= y < ch
    requires RowMasked(y0, h, y) ==> y0 <= y < y0 + 8 * ((h + 7) / 8)
    requires (RowTouched(y0, h, ch, y) && RowMasked(y0, h, y)) != (y0 <= y < y0 + h)
             || (!pen.transparent && !pen.lit && RowTouched(y0, h, ch, y) && !RowMasked(y0, h, y))
    ensures GoesWrong(pen, x0, y0, w, h, cw, ch)
  {
    hide RowMasked;
    hide RowTouched;
    hide PackedBit;
    var bits := Solid(w * ((h + 7) / 8));
    var x := Max(x0, 0);
    if y0 <= y < y0 + 8 * ((h + 7) / 8) {
      SolidBit(w, (h + 7) / 8, x - x0, y - y0);
    }
    assert BlitInk(pen, bits, x0, y0, w, h, cw, ch, x, y) != Ink(Bitmap(x0, y0, w, h, bits), pen, x, y);
  }

  lemma ExactNecessary(pen: Pen, x0: int, y0: int, w: nat, h: nat, cw: nat, ch: nat)
    requires 0 < cw && ch % 8 == 0 && !Exact(pen, x0, y0, w, h, cw, ch)
    ensures GoesWrong(pen, x0, y0, w, h, cw, ch)
  {
    hide RowMasked;
    hide RowTouched;
    hide HeightFits;
    hide PageAligned;
    hide GoesWrong;
    if !HeightFits(y0, h, ch) {
      HeightMustFit(y0, h, ch);
      var y :| 0 <= y < ch && y <= y0 + h && !(RowTouched(y0, h, ch, y) && RowMasked(y0, h, y) <==> y0 <= y < y0 + h);
      HeightNotWhole(h, y0, ch);
      if RowMasked(y0, h, y) {
        MaskedFromTop(y0, h, y);
      }
      WrongPixel(pen, x0, y0, w, h, cw, ch, y);
    } else {
      UnmaskedRow(y0, h, ch);
      var y :| 0 <= y < ch && RowTouched(y0, h, ch, y) && !RowMasked(y0, h, y);
      WrongPixel(pen, x0, y0, w, h, cw, ch, y);
    }
  }

  /** The blit has the per-pixel meaning of the call for every bitmap exactly when Exact holds. */
  lemma BlitMeansBitmap(pen: Pen, x0: int, y0: int, w: nat, h: nat, cw: nat, ch: nat)
    requires 0 < cw && ch % 8 == 0
    ensures Exact(pen, x0, y0, w, h, cw, ch) <==>
            forall bits: seq<bv8>, x, y | |bits| == w * ((h + 7) / 8) && 0 <= x < cw && 0 <= y < ch ::
              BlitInk(pen, bits, x0, y0, w, h, cw, ch, x, y) == Ink(Bitmap(x0, y0, w, h, bits), pen, x, y)
  {
    if Exact(pen, x0, y0, w, h, cw, ch) {
      forall bits: seq<bv8>, x, y | |bits| == w * ((h + 7) / 8) && 0 <= x < cw && 0 <= y < ch
        ensures BlitInk(pen, bits, x0, y0, w, h, cw, ch, x, y) == Ink(Bitmap(x0, y0, w, h, bits), pen, x, y)
      {
        ExactSuffices(pen, bits, x0, y0, w, h, cw, ch, x, y);
      }
    } else {
      ExactNecessary(pen, x0, y0, w, h, cw, ch);
    }
  }

  /** A bitmap of 8 by 8 at (0, 3) on a canvas of 8 by 16, opaque and black, and one of 8 by 4 at (0, 4) in any mode:
      both are drawn wrongly. */
  lemma UnalignedFails(pen: Pen)
    ensures !Exact(Pen(false, false), 0, 3, 8, 8, 8, 16) && GoesWrong(Pen(false, false), 0, 3, 8, 8, 8, 16)
    ensures !Exact(pen, 0, 4, 8, 4, 8, 16) && GoesWrong(pen, 0, 4, 8, 4, 8, 16)
  {
    ExactNecessary(Pen(false, false), 0, 3, 8, 8, 8, 16);
    ExactNecessary(pen, 0, 4, 8, 4, 8, 16);
  }

  /** What they draw: the first also lights the rows of its pages above and below it; of the second nothing is drawn,
      but its page lit when the pen is opaque and black. */
  lemma UnalignedPixels(pen: Pen, bits: seq<bv8>, x: int, y: int)
    requires 0 <= x < 8 && 0 <= y < 16
    ensures y < 3 || 11 <= y ==> BlitInk(Pen(false, false), bits, 0, 3, 8, 8, 8, 16, x, y) == Some(true)
    ensures BlitInk(pen, bits, 0, 4, 8, 4, 8, 16, x, y)
            == if pen == Pen(false, false) && y < 8 then Some(true) else None
  {
    hide PackedBit, BitInk;
  }
}
