/**
 * The XBM blit: how the source pointer steps from row to row, and exactly when that reaches the right bytes.
 * Coordinates are canvas-local: the bitmap's top-left corner is at (x0, y0) and the canvas is cw by ch.
 */
module Xbm {
  import opened Bits
  import opened Drawing
  import opened Blit

  function VisibleWidth(x0: int, w: nat, cw: nat): int {
    Min(x0 + w, cw) - Max(x0, 0)
  }

  function VisibleHeight(y0: int, h: nat, ch: nat): int {
    Min(y0 + h, ch) - Max(y0, 0)
  }

  /** Columns cropped on the left. */
  function CropLeft(x0: int): nat {
    if x0 < 0 then -x0 else 0
  }

  function CropTop(y0: int): nat {
    if y0 < 0 then -y0 else 0
  }

  function StartBit(x0: int): int {
    CropLeft(x0) % 8
  }

  /** Offset of the byte that holds the first visible pixel. */
  function StartByte(x0: int, y0: int, w: nat): int {
    Pitch(w) * CropTop(y0) + CropLeft(x0) / 8
  }

  /** What the code adds after every row on top of the bytes it has walked over. */
  function PitchDelta(x0: int, w: nat, cw: nat): int {
    (w + 7 - StartBit(x0)) / 8 - (VisibleWidth(x0, w, cw) + 7) / 8
  }

  /** Bytes from one row to the next: those walked over, the last one counted when only partly used, and the delta. */
  function RowAdvance(x0: int, w: nat, cw: nat): int {
    (StartBit(x0) + VisibleWidth(x0, w, cw) + 7) / 8 + PitchDelta(x0, w, cw)
  }

  /** A byte of the bitmap, or whatever memory holds outside it. */
  function Read(bits: seq<bv8>, beyond: int -> bv8, i: int): bv8 {
    if 0 <= i < |bits| then bits[i] else beyond(i)
  }

  /** What the code draws at canvas pixel (x, y). */
  function XbmInk(pen: Pen, bits: seq<bv8>, beyond: int -> bv8,
                  x0: int, y0: int, w: nat, h: nat, cw: nat, ch: nat, x: int, y: int): Option<bool>
  {
    if Visible(x0, y0, w, h, cw, ch) && Max(x0, 0) <= x < Min(x0 + w, cw) && Max(y0, 0) <= y < Min(y0 + h, ch) then
      var column := StartBit(x0) + x - Max(x0, 0);
      var i := StartByte(x0, y0, w) + (y - Max(y0, 0)) * RowAdvance(x0, w, cw) + column / 8;
      BitInk(pen, Bit(Read(bits, beyond, i), column % 8))
    else None
  }

  /** The ink of the pixel `column` bits after the start of an XBM row. */
  function XbmRowInk(pen: Pen, bits: seq<bv8>, beyond: int -> bv8, start: int, column: int): Option<bool> {
    BitInk(pen, Bit(Read(bits, beyond, start + column / 8), column % 8))
  }

  lemma NoXbm(pen: Pen, bits: seq<bv8>, beyond: int -> bv8, x0: int, y0: int, width: nat, height: nat, w: nat, h: nat)
    ensures x0 + width <= 0 || w <= x0 || y0 + height <= 0 || h <= y0 ==>
              forall X, Y :: XbmInk(pen, bits, beyond, x0, y0, width, height, w, h, X, Y) == None
  {
  }

  lemma XbmGeometry(x0: int, y0: int, width: nat, height: nat, w: nat, h: nat)
    ensures StartByte(x0, y0, width) ==
            (if y0 < 0 then (width + 7) / 8 * -y0 else 0) + (if x0 < 0 then -x0 / 8 else 0)
    ensures StartBit(x0) == if x0 < 0 then -x0 % 8 else 0
    ensures RowAdvance(x0, width, w) ==
            (StartBit(x0) + VisibleWidth(x0, width, w) + 7) / 8
            + (width + 7 - StartBit(x0)) / 8 - (VisibleWidth(x0, width, w) + 7) / 8
  {
  }

  /** The blit's ink, row by row. */
  lemma XbmRows(pen: Pen, bits: seq<bv8>, beyond: int -> bv8, x0: int, y0: int, width: nat, height: nat, w: nat, h: nat)
    requires 0 < x0 + width && x0 < w && 0 < y0 + height && y0 < h
    ensures forall X, Y ::
              XbmInk(pen, bits, beyond, x0, y0, width, height, w, h, X, Y) ==
              if Max(x0, 0) <= X < Min(x0 + width, w) && Max(y0, 0) <= Y < Min(y0 + height, h)
              then XbmRowInk(pen, bits, beyond, StartByte(x0, y0, width) + (Y - Max(y0, 0)) * RowAdvance(x0, width, w),
                             StartBit(x0) + X - Max(x0, 0))
              else None
  {
  }

  /**
   * Rows step correctly: there is at most one, or the start bit costs the visible part of a row an extra byte
   * exactly when it costs the whole row one.
   */
  predicate StepsExact(x0: int, y0: int, w: nat, h: nat, cw: nat, ch: nat) {
    Visible(x0, y0, w, h, cw, ch) ==>
      || VisibleHeight(y0, h, ch) <= 1
      || (StartBit(x0) + VisibleWidth(x0, w, cw) + 7) / 8 - (VisibleWidth(x0, w, cw) + 7) / 8
         == (w + 7) / 8 - (w + 7 - StartBit(x0)) / 8
  }

  lemma WholeBytes(n: int, a: int)
    ensures (n - 8 * a) / 8 == n / 8 - a
  {
  }

  /** A row of `w` pixels of which the first 8a + s are cropped. */
  lemma CropLeftSteps(w: int, a: int, s: int)
    ensures
      var v := w - 8 * a - s;
      (s + v + 7) / 8 - (v + 7) / 8 == (w + 7) / 8 - (w + 7 - s) / 8
  {
    WholeBytes(w + 7, a);
    WholeBytes(w + 7 - s, a);
  }

  lemma CropIs(x0: int, w: nat, cw: nat)
    ensures CropLeft(x0) == 8 * (CropLeft(x0) / 8) + StartBit(x0)
    ensures x0 + w <= cw ==> VisibleWidth(x0, w, cw) == w - CropLeft(x0)
    ensures x0 >= 0 || x0 % 8 == 0 ==> StartBit(x0) == 0
  {
  }

  /** Cropping on at most one side, or on the left by whole bytes, steps correctly. */
  lemma OneSidedCropSteps(x0: int, y0: int, w: nat, h: nat, cw: nat, ch: nat)
    requires x0 >= 0 || x0 % 8 == 0 || x0 + w <= cw
    ensures StepsExact(x0, y0, w, h, cw, ch)
  {
    CropIs(x0, w, cw);
    CropLeftSteps(w, CropLeft(x0) / 8, StartBit(x0));
    hide StartBit, CropLeft, VisibleWidth, VisibleHeight, Visible;
  }

  lemma StepsIsAdvance(x0: int, y0: int, w: nat, h: nat, cw: nat, ch: nat)
    requires Visible(x0, y0, w, h, cw, ch)
    ensures StepsExact(x0, y0, w, h, cw, ch) <==> VisibleHeight(y0, h, ch) <= 1 || RowAdvance(x0, w, cw) == Pitch(w)
  {
  }

  /** The byte and bit of a visible pixel, against those the code reads. */
  lemma SourceByte(x0: int, y0: int, w: nat, advance: int, x: int, y: int)
    requires Max(x0, 0) <= x && Max(y0, 0) <= y
    requires y == Max(y0, 0) || advance == Pitch(w)
    ensures
      var column := StartBit(x0) + x - Max(x0, 0);
      && column % 8 == (x - x0) % 8
      && StartByte(x0, y0, w) + (y - Max(y0, 0)) * advance + column / 8 == (y - y0) * Pitch(w) + (x - x0) / 8
  {
    var column := StartBit(x0) + x - Max(x0, 0);
    assert x - x0 == 8 * (CropLeft(x0) / 8) + column;
    assert (x - x0) / 8 == CropLeft(x0) / 8 + column / 8;
    assert y - y0 == CropTop(y0) + (y - Max(y0, 0));
    assert (y - y0) * Pitch(w) == Pitch(w) * CropTop(y0) + (y - Max(y0, 0)) * Pitch(w);
  }

  lemma StepsSuffice(pen: Pen, bits: seq<bv8>, beyond: int -> bv8,
                     x0: int, y0: int, w: nat, h: nat, cw: nat, ch: nat, x: int, y: int)
    requires |bits| == Pitch(w) * h && 0 <= x < cw && 0 <= y < ch
    requires StepsExact(x0, y0, w, h, cw, ch)
    ensures XbmInk(pen, bits, beyond, x0, y0, w, h, cw, ch, x, y) == Ink(XBitmap(x0, y0, w, h, bits), pen, x, y)
  {
    hide Bit;
    if Visible(x0, y0, w, h, cw, ch) && 0 <= x - x0 < w && 0 <= y - y0 < h {
      StepsIsAdvance(x0, y0, w, h, cw, ch);
      SourceByte(x0, y0, w, RowAdvance(x0, w, cw), x, y);
      Address(Pitch(w), h, (x - x0) / 8, y - y0);
    }
  }

  /** The call drew something else than its meaning at some canvas pixel, for some bitmap. */
  ghost predicate GoesWrong(pen: Pen, x0: int, y0: int, w: nat, h: nat, cw: nat, ch: nat) {
    exists bits: seq<bv8>, beyond: int -> bv8, x, y :: |bits| == Pitch(w) * h && 0 <= x < cw && 0 <= y < ch &&
      XbmInk(pen, bits, beyond, x0, y0, w, h, cw, ch, x, y) != Ink(XBitmap(x0, y0, w, h, bits), pen, x, y)
  }

  /** With a wrong step, the second visible row is read from the wrong byte. */
  lemma WrongByte(x0: int, y0: int, w: nat, h: nat, cw: nat, ch: nat)
    requires 0 < cw && !StepsExact(x0, y0, w, h, cw, ch)
    ensures
      var x, y := Max(x0, 0), Max(y0, 0) + 1;
      var i := (y - y0) * Pitch(w) + (x - x0) / 8;
      && x < Min(x0 + w, cw) && y < Min(y0 + h, ch)
      && 0 <= i < Pitch(w) * h
      && StartByte(x0, y0, w) + RowAdvance(x0, w, cw) + StartBit(x0) / 8 != i
  {
    StepsIsAdvance(x0, y0, w, h, cw, ch);
    var x, y := Max(x0, 0), Max(y0, 0) + 1;
    SourceByte(x0, y0, w, Pitch(w), x, y);
    Address(Pitch(w), h, (x - x0) / 8, y - y0);
  }

  /** `n` bytes of which only byte `i` is set. */
  function OneByte(n: nat, i: int): (bits: seq<bv8>)
    ensures |bits| == n && forall k | 0 <= k < n :: bits[k] == if k == i then 0xFF else 0
  {
    seq(n, k => if k == i then 0xFF else 0)
  }

  /** The bit that the code reads for a visible pixel. */
  lemma InkRead(pen: Pen, bits: seq<bv8>, beyond: int -> bv8, x0: int, y0: int, w: nat, h: nat, cw: nat, ch: nat,
                x: int, y: int)
    requires Visible(x0, y0, w, h, cw, ch) && Max(x0, 0) <= x < Min(x0 + w, cw) && Max(y0, 0) <= y < Min(y0 + h, ch)
    ensures
      var column := StartBit(x0) + x - Max(x0, 0);
      XbmInk(pen, bits, beyond, x0, y0, w, h, cw, ch, x, y) ==
        XbmRowInk(pen, bits, beyond, StartByte(x0, y0, w) + (y - Max(y0, 0)) * RowAdvance(x0, w, cw), column)
  {
  }

  /** A byte that is clear, inside the bitmap or beyond it, gives a clear bit. */
  lemma ClearByte(pen: Pen, n: nat, i: int, start: int, column: int)
    requires start + column / 8 != i && 0 <= column
    ensures XbmRowInk(pen, OneByte(n, i), _ => 0, start, column) == BitInk(pen, false)
  {
    BitConst(column % 8);
  }

  /** The byte that is set gives a set bit. */
  lemma SetByte(pen: Pen, w: nat, h: nat, i: int, j: int)
    requires 0 <= i && 0 <= j && 0 <= j * Pitch(w) + i / 8 < Pitch(w) * h
    ensures XbmBit(OneByte(Pitch(w) * h, j * Pitch(w) + i / 8), w, i, j)
  {
    BitConst(i % 8);
    hide Bit;
  }

  /** The witness: a bitmap whose only set byte is the first visible one of the second visible row. */
  function Witness(x0: int, y0: int, w: nat, h: nat): seq<bv8>
    requires 0 < w
  {
    var j := Max(y0, 0) + 1 - y0;
    PitchPositive(w, h);
    OneByte(Pitch(w) * h, j * Pitch(w) + (Max(x0, 0) - x0) / 8)
  }

  lemma PitchPositive(w: nat, h: nat)
    ensures 0 <= Pitch(w) * h
  {
    MulLe(0, Pitch(w), h);
  }

  /** The code reads a clear bit. */
  lemma WitnessDrawn(pen: Pen, x0: int, y0: int, w: nat, h: nat, cw: nat, ch: nat)
    requires 0 < cw && 0 < w && !StepsExact(x0, y0, w, h, cw, ch)
    ensures XbmInk(pen, Witness(x0, y0, w, h), _ => 0, x0, y0, w, h, cw, ch, Max(x0, 0), Max(y0, 0) + 1)
         == BitInk(pen, false)
  {
    var x, y := Max(x0, 0), Max(y0, 0) + 1;
    WrongByte(x0, y0, w, h, cw, ch);
    PitchPositive(w, h);
    InkRead(pen, Witness(x0, y0, w, h), _ => 0, x0, y0, w, h, cw, ch, x, y);
    assert 0 <= StartBit(x0) && y - Max(y0, 0) == 1;
    hide Bit, RowAdvance, StartByte, StartBit, Pitch, OneByte, XbmInk, XbmRowInk, StepsExact;
    ClearByte(pen, Pitch(w) * h, (y - y0) * Pitch(w) + (x - x0) / 8, StartByte(x0, y0, w) + RowAdvance(x0, w, cw),
              StartBit(x0));
  }

  /** The call means a set bit. */
  lemma WitnessMeant(pen: Pen, x0: int, y0: int, w: nat, h: nat, cw: nat, ch: nat)
    requires 0 < cw && 0 < w && !StepsExact(x0, y0, w, h, cw, ch)
    ensures Ink(XBitmap(x0, y0, w, h, Witness(x0, y0, w, h)), pen, Max(x0, 0), Max(y0, 0) + 1) == BitInk(pen, true)
  {
    var x, y := Max(x0, 0), Max(y0, 0) + 1;
    WrongByte(x0, y0, w, h, cw, ch);
    PitchPositive(w, h);
    SetByte(pen, w, h, x - x0, y - y0);
    hide Bit, RowAdvance, StartByte, StartBit, Pitch, OneByte, XbmBit, StepsExact;
  }

  lemma StepsNecessary(pen: Pen, x0: int, y0: int, w: nat, h: nat, cw: nat, ch: nat)
    requires 0 < cw && !StepsExact(x0, y0, w, h, cw, ch)
    ensures GoesWrong(pen, x0, y0, w, h, cw, ch)
  {
    WrongByte(x0, y0, w, h, cw, ch);
    assert 0 < w;
    WitnessDrawn(pen, x0, y0, w, h, cw, ch);
    WitnessMeant(pen, x0, y0, w, h, cw, ch);
    assert |Witness(x0, y0, w, h)| == Pitch(w) * h;
    hide Witness, XbmInk, Ink, StepsExact, BitInk, Pitch, StartByte, RowAdvance;
    InksDiffer(pen);
  }

  lemma InksDiffer(pen: Pen)
    ensures BitInk(pen, false) != BitInk(pen, true)
  {
  }

  /** The XBM blit has the per-pixel meaning of the call for every bitmap exactly when its rows step correctly. */
  lemma XbmMeansBitmap(pen: Pen, x0: int, y0: int, w: nat, h: nat, cw: nat, ch: nat)
    requires 0 < cw
    ensures StepsExact(x0, y0, w, h, cw, ch) <==>
            forall bits: seq<bv8>, beyond: int -> bv8, x, y |
              |bits| == Pitch(w) * h && 0 <= x < cw && 0 <= y < ch ::
              XbmInk(pen, bits, beyond, x0, y0, w, h, cw, ch, x, y) == Ink(XBitmap(x0, y0, w, h, bits), pen, x, y)
  {
    if StepsExact(x0, y0, w, h, cw, ch) {
      forall bits: seq<bv8>, beyond: int -> bv8, x, y | |bits| == Pitch(w) * h && 0 <= x < cw && 0 <= y < ch
        ensures XbmInk(pen, bits, beyond, x0, y0, w, h, cw, ch, x, y) == Ink(XBitmap(x0, y0, w, h, bits), pen, x, y)
      {
        StepsSuffice(pen, bits, beyond, x0, y0, w, h, cw, ch, x, y);
      }
    } else {
      StepsNecessary(pen, x0, y0, w, h, cw, ch);
    }
  }

  /** A bitmap of 16 by 2 at (-1, 0) on a canvas of 8 by 8, cropped on both sides: some such bitmap is drawn wrongly. */
  lemma CroppedTwiceFails(pen: Pen)
    ensures !StepsExact(-1, 0, 16, 2, 8, 8) && GoesWrong(pen, -1, 0, 16, 2, 8, 8)
  {
    StepsNecessary(pen, -1, 0, 16, 2, 8, 8);
  }

  /** What it draws in the second row: the bits of byte 3, where those of byte 2 belong. */
  lemma CroppedTwicePixels(pen: Pen, bits: seq<bv8>, beyond: int -> bv8, x: int)
    requires |bits| == 4 && 0 <= x < 7
    ensures XbmInk(pen, bits, beyond, -1, 0, 16, 2, 8, 8, x, 1) == BitInk(pen, Bit(bits[3], x + 1))
  {
    assert StartBit(-1) == 1 && StartByte(-1, 0, 16) == 0 && RowAdvance(-1, 16, 8) == 3;
    assert (1 + x) / 8 == 0 && (1 + x) % 8 == 1 + x;
    hide Bit, BitInk, StartBit, StartByte, RowAdvance;
  }
}
