/** Lists of drawing calls: the picture they make, and which calls a given canvas performs faithfully. */
module Scenes {
  import opened Bits
  import opened Drawing
  import opened Blit
  import opened Xbm

  function NextPen(op: Op, pen: Pen): Pen {
    match op
    case SetPen(p) => p
    case _ => pen
  }

  /** The pen in force before call `n`. */
  function PenBefore(ops: seq<Op>, pen: Pen, n: nat): Pen
    requires n <= |ops|
  {
    if n == 0 then pen else NextPen(ops[n - 1], PenBefore(ops, pen, n - 1))
  }

  /** Pixel (x, y), in the caller's coordinates, after the first `n` calls over a pixel that was `under`. */
  ghost function Shade(ops: seq<Op>, pen: Pen, n: nat, x: int, y: int, under: bool): bool
    requires n <= |ops|
  {
    if n == 0 then under
    else Over(Ink(ops[n - 1], PenBefore(ops, pen, n - 1), x, y), Shade(ops, pen, n - 1, x, y, under))
  }

  /** A draw callback that starts from its own pen and a cleared canvas. */
  datatype Scene = Scene(pen: Pen, ops: seq<Op>)

  ghost predicate Picture(scene: Scene, x: int, y: int) {
    Shade(scene.ops, scene.pen, |scene.ops|, x, y, false)
  }

  ghost predicate NoPens(ops: seq<Op>) {
    forall i | 0 <= i < |ops| :: !ops[i].SetPen?
  }

  /** The pen stays until the next SetPen. */
  lemma {:induction false} PenStays(ops: seq<Op>, pen: Pen, from: nat, n: nat)
    requires from <= n <= |ops| && NoPens(ops[from..n])
    ensures PenBefore(ops, pen, n) == PenBefore(ops, pen, from)
  {
    if from < n {
      assert ops[from..n][n - 1 - from] == ops[n - 1] && ops[from..n - 1] == ops[from..n][..n - 1 - from];
      PenStays(ops, pen, from, n - 1);
    }
  }

  /** Later calls do not change what earlier ones did. */
  lemma {:induction false} ShadePrefix(ops: seq<Op>, more: seq<Op>, pen: Pen, n: nat, x: int, y: int, under: bool)
    requires n <= |ops|
    ensures PenBefore(ops + more, pen, n) == PenBefore(ops, pen, n)
    ensures Shade(ops + more, pen, n, x, y, under) == Shade(ops, pen, n, x, y, under)
  {
    if n > 0 {
      ShadePrefix(ops, more, pen, n - 1, x, y, under);
      assert (ops + more)[n - 1] == ops[n - 1];
    }
  }

  /**
   * What a list of calls leaves at a pixel, by its last call: with no call the pixel is as it was, choosing a pen leaves
   * it so, and any other call gives it the value it has under the pen chosen last, or the first pen when none was
   * chosen.
   */
  lemma LastCallWins(ops: seq<Op>, p: Pen, mid: seq<Op>, op: Op, pen: Pen, x: int, y: int, under: bool)
    requires NoPens(mid) && !op.SetPen?
    ensures Shade([], pen, 0, x, y, under) == under
    ensures
      var before := ops + [SetPen(p)];
      Shade(before, pen, |before|, x, y, under) == Shade(ops, pen, |ops|, x, y, under)
    ensures
      var before := ops + [SetPen(p)] + mid;
      Shade(before + [op], pen, |before| + 1, x, y, under)
      == if Ink(op, p, x, y).Some? then Ink(op, p, x, y).value else Shade(before, pen, |before|, x, y, under)
    ensures Shade(mid + [op], pen, |mid| + 1, x, y, under)
            == if Ink(op, pen, x, y).Some? then Ink(op, pen, x, y).value else Shade(mid, pen, |mid|, x, y, under)
  {
    var chosen := ops + [SetPen(p)];
    ShadePrefix(ops, [SetPen(p)], pen, |ops|, x, y, under);
    var before := chosen + mid;
    ShadePrefix(before, [op], pen, |before|, x, y, under);
    assert before[|chosen|..|before|] == mid && before[|ops|] == SetPen(p);
    PenStays(before, pen, |chosen|, |before|);
    ShadePrefix(mid, [op], pen, |mid|, x, y, under);
    assert mid[0..|mid|] == mid;
    PenStays(mid, pen, 0, |mid|);
    hide Ink;
  }

  /** The same for pictures: they begin dark, and a pen chosen in front of a call colours that call. */
  lemma LastCallInPicture(scene: Scene, p: Pen, op: Op, x: int, y: int)
    requires !op.SetPen?
    ensures !Picture(Scene(p, []), x, y)
    ensures Picture(Scene(scene.pen, scene.ops + [SetPen(p), op]), x, y)
            == if Ink(op, p, x, y).Some? then Ink(op, p, x, y).value else Picture(scene, x, y)
  {
    LastCallWins(scene.ops, p, [], op, scene.pen, x, y, false);
    assert scene.ops + [SetPen(p)] + [] == scene.ops + [SetPen(p)];
    assert scene.ops + [SetPen(p)] + [op] == scene.ops + [SetPen(p), op];
    hide Ink;
  }

  /** A fill that reaches the canvas stays left of column 255, which its `uint8_t` column counter could not pass. */
  predicate FillEnds(x1: int, y1: int, x2: int, y2: int, ox: int, oy: int, w: nat, h: nat) {
    oy <= Max(y1, y2) && Min(y1, y2) < oy + h && Min(x1, x2) < ox + w ==> w <= 255 || Max(x1, x2) - ox < 255
  }

  /** What a call needs to be drawn faithfully on a w by h canvas whose top-left pixel is (ox, oy). */
  predicate Supported(op: Op, pen: Pen, ox: int, oy: int, w: nat, h: nat) {
    match op
    case FillRect(x1, y1, x2, y2) => FillEnds(x1, y1, x2, y2, ox, oy, w, h)
    case Bitmap(x, y, bw, bh, bits) =>
      && |bits| == bw * ((bh + 7) / 8)
      && bh <= 2032 && bw <= 0x7FFF && w <= 0x7FFF && -0x8000 <= x - ox <= 0x7FFF
      && Exact(pen, x - ox, y - oy, bw, bh, w, h)
    case XBitmap(x, y, bw, bh, bits) =>
      && |bits| == Pitch(bw) * bh
      && StepsExact(x - ox, y - oy, bw, bh, w, h)
    case _ => true
  }

  ghost predicate AllSupported(ops: seq<Op>, pen: Pen, ox: int, oy: int, w: nat, h: nat) {
    forall i | 0 <= i < |ops| :: Supported(ops[i], PenBefore(ops, pen, i), ox, oy, w, h)
  }

  /**
   * A call that every tile draws faithfully when tiles begin at whole bytes from `phase`: bitmaps of whole pages that
   * are not opaque black, and XBM bitmaps that start on a byte boundary of the tiles.
   */
  predicate Tileable(op: Op, pen: Pen, phase: int, limit: int) {
    match op
    case Bitmap(x, y, bw, bh, bits) =>
      && |bits| == bw * ((bh + 7) / 8) && bh % 8 == 0 && (pen.transparent || pen.lit)
      && bh <= 2032 && bw <= 0x7FFF && -0x8000 + limit <= x <= 0x7FFF - limit
    case XBitmap(x, y, bw, bh, bits) => |bits| == Pitch(bw) * bh && (x - phase) % 8 == 0
    case _ => true
  }

  lemma TileableIsSupported(op: Op, pen: Pen, ox: int, oy: int, w: nat, h: nat, phase: int, limit: int)
    requires Tileable(op, pen, phase, limit)
    requires 0 < w <= 255 && (ox - phase) % 8 == 0 && -limit <= ox <= limit
    ensures Supported(op, pen, ox, oy, w, h)
  {
    match op
    case XBitmap(x, y, bw, bh, bits) => OneSidedCropSteps(x - ox, y - oy, bw, bh, w, h);
    case _ =>
  }

  /** A canvas buffer went from `s0` to `s1` by exactly these calls. */
  ghost predicate Played(s0: seq<bv8>, s1: seq<bv8>, w: nat, h: nat, ops: seq<Op>, pen: Pen, n: nat, ox: int, oy: int)
    requires n <= |ops|
  {
    |s1| == |s0| &&
    forall x, y | 0 <= x < w && 0 <= y < h :: Px(s1, w, x, y) == Shade(ops, pen, n, x + ox, y + oy, Px(s0, w, x, y))
  }

  lemma PlayedStep(s0: seq<bv8>, s1: seq<bv8>, s2: seq<bv8>, w: nat, h: nat, ops: seq<Op>, pen: Pen, n: nat,
                   ox: int, oy: int)
    requires n < |ops| && Played(s0, s1, w, h, ops, pen, n, ox, oy)
    requires Drawn(s1, s2, w, h, ops[n], PenBefore(ops, pen, n), ox, oy)
    ensures Played(s0, s2, w, h, ops, pen, n + 1, ox, oy)
  {
    hide Px;
    hide Ink;
  }

  /** A tile whose top-left pixel is (ox, oy) ends with the pixels that the same calls leave there on the screen, when
      both began with the same pixels. */
  lemma TileAgrees(screen0: seq<bv8>, screen1: seq<bv8>, w: nat, h: nat, tile0: seq<bv8>, tile1: seq<bv8>,
                   tw: nat, th: nat, ops: seq<Op>, pen: Pen, ox: int, oy: int)
    requires Played(screen0, screen1, w, h, ops, pen, |ops|, 0, 0)
    requires Played(tile0, tile1, tw, th, ops, pen, |ops|, ox, oy)
    requires 0 <= ox && ox + tw <= w && 0 <= oy && oy + th <= h
    requires forall x, y | 0 <= x < tw && 0 <= y < th :: Px(tile0, tw, x, y) == Px(screen0, w, x + ox, y + oy)
    ensures forall x, y | 0 <= x < tw && 0 <= y < th :: Px(tile1, tw, x, y) == Px(screen1, w, x + ox, y + oy)
  {
    hide Px, Shade;
    forall x, y | 0 <= x < tw && 0 <= y < th
      ensures Px(tile1, tw, x, y) == Px(screen1, w, x + ox, y + oy)
    {
      assert Px(tile0, tw, x, y) == Px(screen0, w, x + ox, y + oy);
      assert Px(screen1, w, x + ox, y + oy)
             == Shade(ops, pen, |ops|, x + ox + 0, y + oy + 0, Px(screen0, w, x + ox, y + oy));
    }
  }

  /** The tiles, row by row, that together cover a screen of `w` by `h` show it. */
  ghost predicate Assembled(tiles: seq<seq<bv8>>, tw: nat, th: nat, screen: seq<bv8>, w: nat, h: nat)
    requires 0 < tw && 0 < th
  {
    forall i, j, x, y | 0 <= i < w / tw && 0 <= j < h / th && 0 <= x < tw && 0 <= y < th ::
      0 <= At(w / tw, i, j) < |tiles| && Px(tiles[At(w / tw, i, j)], tw, x, y) == Px(screen, w, x + i * tw, y + j * th)
  }

  lemma PartFits(n: int, limit: int, i: int)
    requires 0 < n && 0 <= limit && 0 <= i < limit / n
    ensures 0 <= i * n && i * n + n <= limit
  {
    assert limit == n * (limit / n) + limit % n;
    MulLe(i + 1, limit / n, n);
    MulLe(0, i, n);
  }

  /**
   * Drawing on tiles and drawing on the whole screen agree: the same calls, played on the screen and on each of the
   * tiles that cover it with that tile's offset, leave the screen in the assembled tiles, when it was in them before.
   */
  lemma TilesAssemble(screen0: seq<bv8>, screen1: seq<bv8>, w: nat, h: nat, before: seq<seq<bv8>>,
                      after: seq<seq<bv8>>, tw: nat, th: nat, ops: seq<Op>, pen: Pen)
    requires 0 < tw && 0 < th && |before| == |after|
    requires Played(screen0, screen1, w, h, ops, pen, |ops|, 0, 0) && Assembled(before, tw, th, screen0, w, h)
    requires forall i, j | 0 <= i < w / tw && 0 <= j < h / th ::
               && 0 <= At(w / tw, i, j) < |before|
               && Played(before[At(w / tw, i, j)], after[At(w / tw, i, j)], tw, th, ops, pen, |ops|, i * tw, j * th)
    ensures Assembled(after, tw, th, screen1, w, h)
  {
    hide Px, Played, At;
    forall i, j, x, y | 0 <= i < w / tw && 0 <= j < h / th && 0 <= x < tw && 0 <= y < th
      ensures 0 <= At(w / tw, i, j) < |after|
      ensures Px(after[At(w / tw, i, j)], tw, x, y) == Px(screen1, w, x + i * tw, y + j * th)
    {
      PartFits(tw, w, i);
      PartFits(th, h, j);
      var k := At(w / tw, i, j);
      assert forall x, y | 0 <= x < tw && 0 <= y < th ::
          Px(before[k], tw, x, y) == Px(screen0, w, x + i * tw, y + j * th);
      TileAgrees(screen0, screen1, w, h, before[k], after[k], tw, th, ops, pen, i * tw, j * th);
    }
  }

  /** A call that leaves a pixel alone, both as it was and as it is now, does not change the picture there. */
  lemma ReplaceCall(ops: seq<Op>, i: nat, op: Op, pen: Pen, n: nat, x: int, y: int, under: bool)
    requires i < |ops| && n <= |ops|
    requires !op.SetPen? && !ops[i].SetPen?
    requires Ink(ops[i], PenBefore(ops, pen, i), x, y) == None
    requires Ink(op, PenBefore(ops, pen, i), x, y) == None
    ensures PenBefore(ops[i := op], pen, n) == PenBefore(ops, pen, n)
    ensures Shade(ops[i := op], pen, n, x, y, under) == Shade(ops, pen, n, x, y, under)
  {
    hide Ink;
    if n > 0 {
      ReplaceCall(ops, i, op, pen, n - 1, x, y, under);
    }
  }
}
