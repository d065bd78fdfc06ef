/** Lines drawn straight to the display, and the write-combining buffer that steep ones go through. */
module Combiner {
  import opened Bits
  import opened Drawing
  import opened Lines
  import opened Display

  /** `s_ssd1306_invertByte`. */
  function InvertByte(inverted: bool): bv8 {
    if inverted then 0xFF else 0x00
  }

  lemma InvertedBit(b: bv8, inverted: bool, k: int)
    requires 0 <= k < 8
    ensures Bit(b ^ InvertByte(inverted), k) == (Bit(b, k) != inverted)
  {
    if inverted {
      assert b ^ 0xFF == !b;
      BitNot(b, k);
    } else {
      assert b ^ 0x00 == b;
    }
  }

  /** A segment, as the four coordinates that the line routines take. */
  datatype Segment = Segment(x1: int, y1: int, x2: int, y2: int)
  {
    function Point(k: nat): (int, int) {
      LinePoint(x1, y1, x2, y2, k)
    }

    function Last(): nat {
      Extent(x1, y1, x2, y2)
    }

    /** All points of the line are on the display. */
    ghost predicate Inside(width: nat, height: nat) {
      forall k: nat | k <= Last() :: 0 <= Point(k).0 < width && 0 <= Point(k).1 < height
    }

    /** One of the first `n` points lies in column `x` of page `p`. */
    ghost predicate Touches(n: nat, x: int, p: int) {
      exists k: nat :: k < n && Point(k).0 == x && Point(k).1 / 8 == p
    }

    /** One of the first `n` points is (x, y). */
    ghost predicate Passes(n: nat, x: int, y: int) {
      exists k: nat :: k < n && Point(k) == (x, y)
    }
  }

  /** A byte holds exactly the first `n` points that fall into column `x` of page `p`. */
  ghost predicate Holds(b: bv8, s: Segment, n: nat, x: int, p: int, inverted: bool) {
    forall r | 0 <= r < 8 :: Bit(b, r) == (s.Passes(n, x, 8 * p + r) != inverted)
  }

  /** Display memory after the first `n` points: exact in every byte they touch, except the pending one. */
  ghost predicate Plotted(ram0: seq<bv8>, ram: seq<bv8>, s: Segment, n: nat, inverted: bool, pendX: int, pendP: int) {
    && |ram| == |ram0|
    && forall x, p | 0 <= x < COLUMNS && 0 <= p < PAGES ::
         if s.Touches(n, x, p) && !(x == pendX && p == pendP) then Holds(Cell(ram, COLUMNS, x, p), s, n, x, p, inverted)
         else Cell(ram, COLUMNS, x, p) == Cell(ram0, COLUMNS, x, p)
  }

  lemma Advance(s: Segment, n: nat)
    ensures forall x, p ::
              s.Touches(n + 1, x, p) <==> s.Touches(n, x, p) || (s.Point(n).0 == x && s.Point(n).1 / 8 == p)
    ensures forall x, y :: s.Passes(n + 1, x, y) <==> s.Passes(n, x, y) || s.Point(n) == (x, y)
  {
    hide Segment.Point;
    forall x, p
      ensures s.Touches(n + 1, x, p) <==> s.Touches(n, x, p) || (s.Point(n).0 == x && s.Point(n).1 / 8 == p)
    {
      if s.Touches(n + 1, x, p) {
        var k: nat :| k < n + 1 && s.Point(k).0 == x && s.Point(k).1 / 8 == p;
        assert k < n || k == n;
      }
    }
    forall x, y ensures s.Passes(n + 1, x, y) <==> s.Passes(n, x, y) || s.Point(n) == (x, y) {
    }
  }

  /** Points of a steep line that share a byte are consecutive. */
  lemma SteepRuns(s: Segment, n: nat)
    requires Distance(s.y1, s.y2) > Distance(s.x1, s.x2) && 0 < n <= s.Last()
    requires s.Point(n).0 != s.Point(n - 1).0 || s.Point(n).1 / 8 != s.Point(n - 1).1 / 8
    ensures !s.Touches(n, s.Point(n).0, s.Point(n).1 / 8)
  {
    var dx, dy := Distance(s.x1, s.x2), Distance(s.y1, s.y2);
    if s.Touches(n, s.Point(n).0, s.Point(n).1 / 8) {
      var k: nat :| k < n && s.Point(k).0 == s.Point(n).0 && s.Point(k).1 / 8 == s.Point(n).1 / 8;
      MovedMonotone(dx, dy, k + 1, n);
      MovedMonotone(dx, dy, n, n + 1);
    }
  }

  lemma MovedMonotone(minor: nat, major: nat, k: nat, n: nat)
    requires minor < major && k <= n
    ensures Moved(minor, major, k) <= Moved(minor, major, n)
    decreases n - k
  {
    if k < n {
      MovedStep(minor, major, k);
      MovedMonotone(minor, major, k + 1, n);
    }
  }

  /** Points of a line that is not steep never share a byte. */
  lemma ShallowRuns(s: Segment, n: nat)
    requires Distance(s.y1, s.y2) <= Distance(s.x1, s.x2)
    ensures !s.Touches(n, s.Point(n).0, s.Point(n).1 / 8)
  {
  }

  /** The pending byte holds the points so far of column `x` of page `p`; the memory holds all others. */
  ghost predicate Pending(ram0: seq<bv8>, ram: seq<bv8>, s: Segment, n: nat, inverted: bool, x: int, p: int,
                          bits: bv8)
  {
    && s.Touches(n, x, p) && Plotted(ram0, ram, s, n, inverted, x, p)
    && Holds(bits, s, n, x, p, false)
  }

  lemma PassesTouches(s: Segment, n: nat, x: int, y: int)
    ensures s.Passes(n, x, y) ==> s.Touches(n, x, y / 8)
  {
  }

  /** A byte away from the next point holds as much after it as before. */
  lemma HoldsOn(b: bv8, s: Segment, n: nat, x: int, p: int, inverted: bool)
    requires !(s.Point(n).0 == x && s.Point(n).1 / 8 == p)
    ensures Holds(b, s, n + 1, x, p, inverted) == Holds(b, s, n, x, p, inverted)
    ensures s.Touches(n + 1, x, p) == s.Touches(n, x, p)
  {
    hide Bit;
    hide Segment.Point;
    hide Segment.Passes;
    Advance(s, n);
    forall r | 0 <= r < 8
      ensures (Bit(b, r) == (s.Passes(n + 1, x, 8 * p + r) != inverted)) ==
              (Bit(b, r) == (s.Passes(n, x, 8 * p + r) != inverted))
    {
      assert (8 * p + r) / 8 == p;
    }
  }

  /** A byte with the bit of row `y` added. */
  function WithRow(b: bv8, y: int): bv8 {
    b | (1 << (y % 8))
  }

  /** The next point falls into a byte that holds the points before it. */
  lemma HoldsMore(b: bv8, s: Segment, n: nat, x: int, p: int)
    requires Holds(b, s, n, x, p, false) && s.Point(n).0 == x && s.Point(n).1 / 8 == p
    ensures Holds(WithRow(b, s.Point(n).1), s, n + 1, x, p, false)
  {
    hide Bit, Segment.Point, Segment.Passes, WithRow;
    Advance(s, n);
    var v := WithRow(b, s.Point(n).1);
    forall r | 0 <= r < 8 ensures Bit(v, r) == s.Passes(n + 1, x, 8 * p + r) {
      BitAdded(b, s.Point(n).1, p, r);
    }
  }

  /** Adding the bit of row `y` of page `p`. */
  lemma BitAdded(b: bv8, y: int, p: int, r: int)
    requires y / 8 == p && 0 <= r < 8
    ensures Bit(WithRow(b, y), r) == (Bit(b, r) || y == 8 * p + r)
  {
    hide Bit;
    BitOr(b, 1 << (y % 8), r);
    BitOne(y % 8, r);
  }

  lemma HoldsNothing(s: Segment, n: nat, x: int, p: int)
    requires !s.Touches(n, x, p)
    ensures Holds(0, s, n, x, p, false)
  {
    hide Segment.Passes;
    hide Segment.Touches;
    forall r | 0 <= r < 8 ensures Bit(0, r) == s.Passes(n, x, 8 * p + r) {
      PassesTouches(s, n, x, 8 * p + r);
      assert (8 * p + r) / 8 == p;
    }
  }

  /** The memory after a byte of pixels is stored in column `x` of page `p`. */
  function Stored(ram: seq<bv8>, x: int, p: int, bits: bv8, inverted: bool): seq<bv8> {
    var i := At(COLUMNS, x, p);
    if 0 <= i < |ram| then ram[i := bits ^ InvertByte(inverted)] else ram
  }

  lemma StoredIs(ram: seq<bv8>, x: int, p: int, bits: bv8, inverted: bool)
    requires |ram| == 1024 && 0 <= x < 128 && 0 <= p < 8
    ensures Stored(ram, x, p, bits, inverted) == ram[p * 128 + x := if inverted then !bits else bits]
  {
    assert bits ^ 0xFF == !bits && bits ^ 0x00 == bits;
  }

  /** The memory after a delayed pixel: the pending byte is written when the pixel lies elsewhere or closes the run. */
  function AfterFlush(ram: seq<bv8>, lx: int, ly: int, pixels: bv8, inverted: bool, x: int, y: int, complete: bool):
    seq<bv8>
  {
    if ly != 0xFF && (lx != x || ly / 8 != y / 8 || complete) then Stored(ram, lx, ly / 8, pixels, inverted)
    else ram
  }

  /** The pending byte after a delayed pixel that does not close the run. */
  function AfterDot(lx: int, ly: int, pixels: bv8, x: int, y: int): bv8 {
    WithRow(if lx == x && ly / 8 == y / 8 then pixels else 0, y)
  }

  lemma NothingPlotted(ram: seq<bv8>, s: Segment, inverted: bool)
    ensures Plotted(ram, ram, s, 0, inverted, -1, -1)
  {
  }

  /** The next point falls into the pending byte. */
  lemma PendingSame(ram0: seq<bv8>, ram: seq<bv8>, s: Segment, n: nat, inverted: bool, x: int, p: int, bits: bv8)
    requires Pending(ram0, ram, s, n, inverted, x, p, bits) && s.Point(n).0 == x && s.Point(n).1 / 8 == p
    ensures Pending(ram0, ram, s, n + 1, inverted, x, p, WithRow(bits, s.Point(n).1))
  {
    hide Segment.Touches;
    hide Segment.Point;
    hide Holds;
    hide Cell;
    Advance(s, n);
    HoldsMore(bits, s, n, x, p);
    forall X, P | 0 <= X < COLUMNS && 0 <= P < PAGES && !(X == x && P == p)
      ensures s.Touches(n + 1, X, P) == s.Touches(n, X, P)
      ensures Holds(Cell(ram, COLUMNS, X, P), s, n + 1, X, P, inverted)
              == Holds(Cell(ram, COLUMNS, X, P), s, n, X, P, inverted)
    {
      HoldsOn(Cell(ram, COLUMNS, X, P), s, n, X, P, inverted);
    }
  }

  /** The pending byte reaches the memory. */
  lemma PendingFlushed(ram0: seq<bv8>, ram: seq<bv8>, s: Segment, n: nat, inverted: bool, x: int, p: int, bits: bv8)
    requires Pending(ram0, ram, s, n, inverted, x, p, bits)
    requires 0 <= x < COLUMNS && 0 <= p < PAGES && |ram| == COLUMNS * PAGES
    ensures Plotted(ram0, Stored(ram, x, p, bits, inverted), s, n, inverted, -1, -1)
  {
    hide Segment.Touches;
    hide Segment.Passes;
    hide Bit;
    hide Cell;
    hide InvertByte;
    AtInRange(COLUMNS, PAGES, x, p);
    StoreCell(ram, ram[At(COLUMNS, x, p) := bits ^ InvertByte(inverted)], COLUMNS, PAGES, x, p,
              bits ^ InvertByte(inverted));
    var v := bits ^ InvertByte(inverted);
    forall r | 0 <= r < 8 ensures Bit(v, r) == (s.Passes(n, x, 8 * p + r) != inverted) {
      InvertedBit(bits, inverted, r);
    }
  }

  /** The next point starts a new pending byte. */
  lemma PendingStarts(ram0: seq<bv8>, ram: seq<bv8>, s: Segment, n: nat, inverted: bool)
    requires Plotted(ram0, ram, s, n, inverted, -1, -1)
    requires !s.Touches(n, s.Point(n).0, s.Point(n).1 / 8)
    ensures Pending(ram0, ram, s, n + 1, inverted, s.Point(n).0, s.Point(n).1 / 8, WithRow(0, s.Point(n).1))
  {
    hide Segment.Touches;
    hide Segment.Point;
    hide Holds;
    hide Cell;
    var x, p := s.Point(n).0, s.Point(n).1 / 8;
    Advance(s, n);
    HoldsNothing(s, n, x, p);
    HoldsMore(0, s, n, x, p);
    forall X, P | 0 <= X < COLUMNS && 0 <= P < PAGES && !(X == x && P == p)
      ensures s.Touches(n + 1, X, P) == s.Touches(n, X, P)
      ensures Holds(Cell(ram, COLUMNS, X, P), s, n + 1, X, P, inverted)
              == Holds(Cell(ram, COLUMNS, X, P), s, n, X, P, inverted)
    {
      HoldsOn(Cell(ram, COLUMNS, X, P), s, n, X, P, inverted);
    }
  }

  /** One byte streamed into a block of one column. */
  lemma BlockWrite(chip: Chip, width: nat, height: nat, x: int, y: int, bits: bv8, inverted: bool)
    requires 0 <= x < width <= COLUMNS && 0 <= y < height <= 8 * PAGES && |chip.ram| == COLUMNS * PAGES
    ensures
      var block := Block(chip, width, height, x, y / 8, 1);
      var after := block.Write(bits ^ InvertByte(inverted));
      && !block.control && block.data && !after.control && after.pending == chip.pending
      && after.ram == Stored(chip.ram, x, y / 8, bits, inverted) && |after.ram| == |chip.ram|
  {
    hide InvertByte;
    assert U8(x) == x && U8(y / 8) == y / 8;
    assert y / 8 * COLUMNS + x == At(COLUMNS, x, y / 8);
    hide U8;
    AtInRange(COLUMNS, PAGES, x, y / 8);
  }

  class Combiner {
    const driver: Driver
    var inverted: bool
    /** `lx`, `ly`, `pixels`: the pending byte; there is none when `ly` is 0xFF. */
    var lx: int
    var ly: int
    var pixels: bv8

    constructor (d: Driver)
      ensures driver == d && Empty() && !inverted
    {
      driver, inverted, lx, ly, pixels := d, false, 0, 0xFF, 0;
    }

    predicate Empty()
      reads this
    {
      ly == 0xFF && pixels == 0
    }

    method PutPixels(x: int, y: int, bits: bv8)
      requires driver.Valid() && 0 <= x < driver.width && 0 <= y < driver.height
      modifies driver
      ensures driver.Valid() && driver.chip.ram == Stored(old(driver.chip.ram), x, y / 8, bits, inverted)
      ensures 0 <= y / 8 * 128 + x < 1024
      ensures driver.chip.ram == old(driver.chip.ram)[y / 8 * 128 + x := if inverted then !bits else bits]
    {
      StoredIs(driver.chip.ram, x, y / 8, bits, inverted);
      hide InvertByte, Block, Stored, Chip.Write;
      BlockWrite(driver.chip, driver.width, driver.height, x, y, bits, inverted);
      driver.SetBlock(x, y / 8, 1);
      driver.SendPixels(bits ^ InvertByte(inverted));
      driver.Stop();
    }

    method PutPixel(x: int, y: int)
      requires driver.Valid() && 0 <= x < driver.width && 0 <= y < driver.height
      modifies driver
      ensures driver.Valid() && driver.chip.ram == Stored(old(driver.chip.ram), x, y / 8, 1 << (y % 8), inverted)
    {
      PutPixels(x, y, 1 << (y % 8));
    }

    method PutPixelDelayed(x: int, y: int, complete: bool)
      requires driver.Valid() && (ly != 0xFF ==> 0 <= lx < driver.width && 0 <= ly < driver.height)
      requires 0 <= y < 0xFF
      modifies this`lx, this`ly, this`pixels, driver
      ensures driver.Valid()
      ensures driver.chip.ram
              == AfterFlush(old(driver.chip.ram), old(lx), old(ly), old(pixels), inverted, x, y, complete)
      ensures complete ==> Empty()
      ensures !complete ==> lx == x && ly == y && pixels == AfterDot(old(lx), old(ly), old(pixels), x, y)
    {
      hide InvertByte, Stored, Bit, WithRow;
      if lx != x || ly / 8 != y / 8 || complete {
        if ly != 0xFF {
          PutPixels(lx, ly, pixels);
        }
        pixels := 0;
        ly := 0xFF;
      }
      if !complete {
        pixels := WithRow(pixels, y);
        lx := x;
        ly := y;
      }
    }

    /** The memory holds exactly the line's points in every byte it touches, and all other bytes as before. */
    ghost predicate LineDrawn(ram0: seq<bv8>, s: Segment)
      reads this, driver
    {
      Plotted(ram0, driver.chip.ram, s, s.Last() + 1, inverted, -1, -1)
    }

    method DrawLine(x1: int, y1: int, x2: int, y2: int)
      requires driver.Valid() && Empty() && Segment(x1, y1, x2, y2).Inside(driver.width, driver.height)
      modifies this`lx, this`ly, this`pixels, driver
      ensures driver.Valid() && Empty()
      ensures LineDrawn(old(driver.chip.ram), Segment(x1, y1, x2, y2))
    {
      hide Plotted;
      hide LinePoint;
      var dx := if x1 > x2 then x1 - x2 else x2 - x1;
      var dy := if y1 > y2 then y1 - y2 else y2 - y1;
      if dy > dx {
        if y1 > y2 {
          SameLine(Segment(x2, y2, x1, y1), Segment(x1, y1, x2, y2), driver.width, driver.height);
          SteepLine(x2, y2, x1, y1, dx, dy);
          SameMemory(old(driver.chip.ram), driver.chip.ram, Segment(x2, y2, x1, y1), Segment(x1, y1, x2, y2), inverted);
        } else {
          SteepLine(x1, y1, x2, y2, dx, dy);
        }
      } else {
        if x1 > x2 {
          SameLine(Segment(x2, y2, x1, y1), Segment(x1, y1, x2, y2), driver.width, driver.height);
          ShallowLine(x2, y2, x1, y1, dx, dy);
          SameMemory(old(driver.chip.ram), driver.chip.ram, Segment(x2, y2, x1, y1), Segment(x1, y1, x2, y2), inverted);
        } else {
          ShallowLine(x1, y1, x2, y2, dx, dy);
        }
      }
    }

    method SteepLine(x1: int, y1: int, x2: int, y2: int, dx: nat, dy: nat)
      requires driver.Valid() && Empty() && Segment(x1, y1, x2, y2).Inside(driver.width, driver.height)
      requires dx == Distance(x1, x2) && dy == Distance(y1, y2) && dy > dx && y1 <= y2
      modifies this`lx, this`ly, this`pixels, driver
      ensures driver.Valid() && Empty()
      ensures LineDrawn(old(driver.chip.ram), Segment(x1, y1, x2, y2))
    {
      hide Plotted;
      hide Pending;
      hide InvertByte;
      hide Bit;
      ghost var s := Segment(x1, y1, x2, y2);
      ghost var ram0 := driver.chip.ram;
      NothingPlotted(ram0, s, inverted);
      var x, y, err := x1, y1, 0;
      ghost var k: nat, q: nat := 0, 0;
      AccumulatorStart(dx, dy);
      hide Accumulated;
      while y <= y2
        invariant k <= dy + 1 && y == y1 + k && q <= dx
        invariant Accumulated(dx, dy, k, q, err) && x == Toward(x1, x2, q)
        invariant driver.Valid()
        invariant if k == 0 then Empty() && Plotted(ram0, driver.chip.ram, s, 0, inverted, -1, -1)
                  else (lx, ly) == s.Point(k - 1) && 0 <= lx < driver.width && 0 <= ly < driver.height &&
                       Pending(ram0, driver.chip.ram, s, k, inverted, lx, ly / 8, pixels)
      {
        AccumulatorStep(dx, dy, k, q, err);
        err := err + dx;
        if err >= dy {
          err := err - dy;
          x := if x < x2 then x + 1 else x - 1;
          q := q + 1;
        }
        assert s.Point(k) == (x, y);
        Plot(x, y, ram0, s, k);
        y := y + 1;
        k := k + 1;
      }
      PendingFlushed(ram0, driver.chip.ram, s, k, inverted, lx, ly / 8, pixels);
      PutPixelDelayed(0, 0, true);
    }

    /** Adds point `k` of a steep line to the pending byte, or flushes it and starts the next. */
    method Plot(x: int, y: int, ghost ram0: seq<bv8>, ghost s: Segment, ghost k: nat)
      requires driver.Valid() && s.Point(k) == (x, y) && 0 <= x < driver.width && 0 <= y < driver.height
      requires Distance(s.y1, s.y2) > Distance(s.x1, s.x2) && k <= s.Last()
      requires if k == 0 then Empty() && Plotted(ram0, driver.chip.ram, s, 0, inverted, -1, -1)
               else (lx, ly) == s.Point(k - 1) && 0 <= lx < driver.width && 0 <= ly < driver.height &&
                    Pending(ram0, driver.chip.ram, s, k, inverted, lx, ly / 8, pixels)
      modifies this`lx, this`ly, this`pixels, driver
      ensures driver.Valid() && (lx, ly) == (x, y)
      ensures Pending(ram0, driver.chip.ram, s, k + 1, inverted, lx, ly / 8, pixels)
    {
      hide Plotted;
      hide Pending;
      hide InvertByte;
      hide Bit;
      hide LinePoint;
      hide AfterFlush;
      hide AfterDot;
      PlotPending(ram0, driver.chip.ram, s, k, inverted, lx, ly, pixels);
      PutPixelDelayed(x, y, false);
    }

    method Dot(x: int, y: int, ghost ram0: seq<bv8>, ghost s: Segment, ghost k: nat)
      requires driver.Valid() && s.Point(k) == (x, y) && 0 <= x < driver.width && 0 <= y < driver.height
      requires Distance(s.y1, s.y2) <= Distance(s.x1, s.x2)
      requires Plotted(ram0, driver.chip.ram, s, k, inverted, -1, -1)
      modifies driver
      ensures driver.Valid() && Plotted(ram0, driver.chip.ram, s, k + 1, inverted, -1, -1)
    {
      hide Plotted;
      hide InvertByte;
      hide Segment.Point;
      hide Distance;
      hide Stored;
      DotPlotted(ram0, driver.chip.ram, s, k, inverted);
      PutPixel(x, y);
    }

    method ShallowLine(x1: int, y1: int, x2: int, y2: int, dx: nat, dy: nat)
      requires driver.Valid() && Segment(x1, y1, x2, y2).Inside(driver.width, driver.height)
      requires dx == Distance(x1, x2) && dy == Distance(y1, y2) && dy <= dx && x1 <= x2
      modifies driver
      ensures driver.Valid()
      ensures LineDrawn(old(driver.chip.ram), Segment(x1, y1, x2, y2))
    {
      hide Plotted;
      hide Pending;
      hide InvertByte;
      hide Bit;
      ghost var s := Segment(x1, y1, x2, y2);
      ghost var ram0 := driver.chip.ram;
      NothingPlotted(ram0, s, inverted);
      var x, y, err := x1, y1, 0;
      ghost var k: nat, q: nat := 0, 0;
      if dy < dx {
        AccumulatorStart(dy, dx);
      }
      hide Accumulated;
      while x <= x2
        invariant k <= dx + 1 && x == x1 + k && q <= dy
        invariant dy < dx ==> Accumulated(dy, dx, k, q, err) && y == Toward(y1, y2, q)
        invariant dy == dx ==> err == 0 && (k <= dx ==> y == Toward(y1, y2, k))
        invariant driver.Valid() && Plotted(ram0, driver.chip.ram, s, k, inverted, -1, -1)
      {
        if dy < dx {
          AccumulatorStep(dy, dx, k, q, err);
        }
        err := err + dy;
        if err >= dx {
          err := err - dx;
          y := if y < y2 then y + 1 else y - 1;
          q := if dy < dx then q + 1 else q;
        }
        assert s.Point(k) == (x, y);
        Dot(x, y, ram0, s, k);
        x := x + 1;
        k := k + 1;
      }
    }
  }

  /** Point `k` of a line that is not steep goes straight to the memory. */
  lemma DotPlotted(ram0: seq<bv8>, ram: seq<bv8>, s: Segment, k: nat, inverted: bool)
    requires Distance(s.y1, s.y2) <= Distance(s.x1, s.x2)
    requires Plotted(ram0, ram, s, k, inverted, -1, -1) && |ram| == COLUMNS * PAGES
    requires 0 <= s.Point(k).0 < COLUMNS && 0 <= s.Point(k).1 / 8 < PAGES
    ensures Plotted(ram0, Stored(ram, s.Point(k).0, s.Point(k).1 / 8, 1 << (s.Point(k).1 % 8), inverted), s, k + 1,
                    inverted, -1, -1)
  {
    hide Plotted;
    hide Pending;
    hide InvertByte;
    hide Bit;
    hide LinePoint;
    ShallowRuns(s, k);
    PendingStarts(ram0, ram, s, k, inverted);
    ZeroRow(s.Point(k).1);
    PendingFlushed(ram0, ram, s, k + 1, inverted, s.Point(k).0, s.Point(k).1 / 8, 1 << (s.Point(k).1 % 8));
  }

  /** A delayed pixel keeps the memory and the pending byte exact. */
  lemma PlotPending(ram0: seq<bv8>, ram: seq<bv8>, s: Segment, k: nat, inverted: bool, lx: int, ly: int, pixels: bv8)
    requires Distance(s.y1, s.y2) > Distance(s.x1, s.x2) && k <= s.Last() && |ram| == COLUMNS * PAGES
    requires 0 <= s.Point(k).0 < COLUMNS && 0 <= s.Point(k).1 < 8 * PAGES
    requires if k == 0 then ly == 0xFF && pixels == 0 && Plotted(ram0, ram, s, 0, inverted, -1, -1)
             else (lx, ly) == s.Point(k - 1) && 0 <= lx < COLUMNS && 0 <= ly < 8 * PAGES &&
                  Pending(ram0, ram, s, k, inverted, lx, ly / 8, pixels)
    ensures
      var (x, y) := s.Point(k);
      Pending(ram0, AfterFlush(ram, lx, ly, pixels, inverted, x, y, false), s, k + 1, inverted, x, y / 8,
              AfterDot(lx, ly, pixels, x, y))
  {
    hide Plotted;
    hide Pending;
    hide InvertByte;
    hide Bit;
    hide LinePoint;
    var (x, y) := s.Point(k);
    if k == 0 {
      PendingStarts(ram0, ram, s, 0, inverted);
    } else if lx == x && ly / 8 == y / 8 {
      PendingSame(ram0, ram, s, k, inverted, lx, ly / 8, pixels);
    } else {
      SteepRuns(s, k);
      PendingFlushed(ram0, ram, s, k, inverted, lx, ly / 8, pixels);
      PendingStarts(ram0, Stored(ram, lx, ly / 8, pixels, inverted), s, k, inverted);
    }
  }

  lemma ZeroRow(y: int)
    ensures WithRow(0, y) == 1 << (y % 8)
  {
  }

  /** A line between two points of the display stays on it, unless its extents are equal. */
  lemma EndsInside(s: Segment, width: nat, height: nat)
    requires 0 <= s.x1 < width && 0 <= s.x2 < width && 0 <= s.y1 < height && 0 <= s.y2 < height
    requires Distance(s.x1, s.x2) != Distance(s.y1, s.y2)
    ensures s.Inside(width, height)
  {
    var dx, dy := Distance(s.x1, s.x2), Distance(s.y1, s.y2);
    forall k: nat | k <= s.Last() ensures 0 <= s.Point(k).0 < width && 0 <= s.Point(k).1 < height {
      if dy > dx {
        MovedWithin(dx, dy, k + 1);
      } else {
        MovedWithin(dy, dx, k + 1);
      }
    }
  }

  /** The line from the other end has the same points. */
  lemma SameLine(s: Segment, t: Segment, width: nat, height: nat)
    requires t == Segment(s.x2, s.y2, s.x1, s.y1)
    ensures s.Last() == t.Last() && forall k: nat | k <= s.Last() :: s.Point(k) == t.Point(k)
    ensures t.Inside(width, height) ==> s.Inside(width, height)
  {
    LineSwap(s.x1, s.y1, s.x2, s.y2);
    hide LinePoint;
  }

  lemma SameMemory(ram0: seq<bv8>, ram: seq<bv8>, s: Segment, t: Segment, inverted: bool)
    requires t == Segment(s.x2, s.y2, s.x1, s.y1)
    requires Plotted(ram0, ram, s, s.Last() + 1, inverted, -1, -1)
    ensures Plotted(ram0, ram, t, t.Last() + 1, inverted, -1, -1)
  {
    SamePoints(s, t, s.Last() + 1);
    hide Segment.Last, Segment.Touches, Segment.Passes, Bit, Cell;
  }

  lemma SamePoints(s: Segment, t: Segment, n: nat)
    requires t == Segment(s.x2, s.y2, s.x1, s.y1) && n == s.Last() + 1
    ensures s.Last() == t.Last()
    ensures forall x, p :: s.Touches(n, x, p) == t.Touches(n, x, p)
    ensures forall x, y :: s.Passes(n, x, y) == t.Passes(n, x, y)
  {
    SameLine(s, t, 0, 0);
    hide Segment.Point, Segment.Last, Segment.Inside;
  }

  /** The display after a line, pixel by pixel: its points are lit, or dark when inverted; the other pixels of the bytes
      they lie in are the opposite; and no other pixel changes. */
  lemma LinePixels(ram0: seq<bv8>, ram: seq<bv8>, x1: int, y1: int, x2: int, y2: int, inverted: bool, x: nat, y: nat)
    requires Plotted(ram0, ram, Segment(x1, y1, x2, y2), Extent(x1, y1, x2, y2) + 1, inverted, -1, -1)
    requires x < 128 && y < 64
    ensures if exists r :: r / 8 == y / 8 && OnLine(x1, y1, x2, y2, x, r)
            then Px(ram, 128, x, y) == (OnLine(x1, y1, x2, y2, x, y) != inverted)
            else Px(ram, 128, x, y) == Px(ram0, 128, x, y)
  {
    var s := Segment(x1, y1, x2, y2);
    hide Bit, Cell, LinePoint;
    assert s.Touches(s.Last() + 1, x, y / 8) <==> exists r :: r / 8 == y / 8 && OnLine(x1, y1, x2, y2, x, r) by {
      if s.Touches(s.Last() + 1, x, y / 8) {
        var k: nat :| k < s.Last() + 1 && s.Point(k).0 == x && s.Point(k).1 / 8 == y / 8;
        assert OnLine(x1, y1, x2, y2, x, s.Point(k).1);
      }
      if r :| r / 8 == y / 8 && OnLine(x1, y1, x2, y2, x, r) {
        var k: nat :| k <= Extent(x1, y1, x2, y2) && LinePoint(x1, y1, x2, y2, k) == (x, r);
        assert s.Point(k) == (x, r);
      }
    }
    assert s.Passes(s.Last() + 1, x, y) == OnLine(x1, y1, x2, y2, x, y) by {
      if OnLine(x1, y1, x2, y2, x, y) {
        var k: nat :| k <= Extent(x1, y1, x2, y2) && LinePoint(x1, y1, x2, y2, k) == (x, y);
        assert s.Point(k) == (x, y);
      }
    }
    assert 8 * (y / 8) + y % 8 == y;
  }
}
