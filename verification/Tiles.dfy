/** Tiled partial refresh: dirty-tile bitmaps, and why redrawing only the marked tiles shows the whole scene. */
module Tiles {
  import opened Bits
  import opened Blit
  import opened Scenes
  import opened Display
  import opened Canvas1
  import Lines

  /** `1 << k` stored in a `uint16_t`. */
  function One(k: int): bv16 {
    if k == 0 then 0x0001 else if k == 1 then 0x0002 else if k == 2 then 0x0004 else if k == 3 then 0x0008
    else if k == 4 then 0x0010 else if k == 5 then 0x0020 else if k == 6 then 0x0040 else if k == 7 then 0x0080
    else if k == 8 then 0x0100 else if k == 9 then 0x0200 else if k == 10 then 0x0400 else if k == 11 then 0x0800
    else if k == 12 then 0x1000 else if k == 13 then 0x2000 else if k == 14 then 0x4000 else if k == 15 then 0x8000
    else 0
  }

  /** Bit `k` of a row of tile flags; false outside 0..15. */
  function Flag(f: bv16, k: int): bool {
    Hit(f, One(k))
  }

  function Hit(f: bv16, mask: bv16): bool {
    f & mask != 0
  }

  function Twice(mask: bv16): bv16 {
    mask << 1
  }

  lemma HitOr(f: bv16, g: bv16, mask: bv16)
    ensures Hit(f | g, mask) == (Hit(f, mask) || Hit(g, mask))
  {
    assert (f | g) & mask == (f & mask) | (g & mask);
  }

  lemma HitShift(f: bv16, mask: bv16)
    ensures !Hit(mask, 0x8000) ==> Hit(f >> 1, mask) == Hit(f, Twice(mask))
    ensures !Hit(f >> 1, 0x8000)
  {
  }

  lemma HitTwice(a: bv16, b: bv16)
    ensures !Hit(a, b) ==> !Hit(Twice(a), Twice(b))
  {
  }

  lemma HitSelf(a: bv16, b: bv16)
    ensures Hit(a, b) == Hit(b, a) && Hit(a, a) == (a != 0) && !Hit(a, 0) && !Hit(0, a)
    ensures Hit(0xFFFF, a) == (a != 0) && Hit(a, 0x0001) == (a & 1 != 0)
  {
    assert a & b == b & a && a & a == a && 0xFFFF & a == a;
  }

  lemma OneNext(k: int)
    requires 0 <= k < 15
    ensures One(k + 1) == Twice(One(k)) && !Hit(One(k), 0x8000)
  {
    if k == 0 {} else if k == 1 {} else if k == 2 {} else if k == 3 {} else if k == 4 {} else if k == 5 {}
    else if k == 6 {} else if k == 7 {} else if k == 8 {} else if k == 9 {} else if k == 10 {} else if k == 11 {}
    else if k == 12 {} else if k == 13 {}
  }

  lemma FirstApart(k: int)
    requires 0 < k
    ensures !Hit(One(0), One(k))
  {
    if k == 1 {} else if k == 2 {} else if k == 3 {} else if k == 4 {} else if k == 5 {} else if k == 6 {}
    else if k == 7 {} else if k == 8 {} else if k == 9 {} else if k == 10 {} else if k == 11 {} else if k == 12 {}
    else if k == 13 {} else if k == 14 {} else if k == 15 {}
  }

  /** The mask is empty outside 0..15. */
  lemma OneEmpty(k: int)
    ensures (One(k) != 0) == (0 <= k < 16)
    ensures One(0) == 0x0001 && One(15) == 0x8000 && (!(0 <= k < 16) ==> One(k) == 0)
  {
  }

  lemma OnesApart(c: int, k: int)
    requires 0 <= c < k < 16
    ensures !Hit(One(c), One(k))
  {
    hide *;
    if c == 0 {
      FirstApart(k);
    } else {
      OnesApart(c - 1, k - 1);
      OneNext(c - 1);
      OneNext(k - 1);
      HitTwice(One(c - 1), One(k - 1));
    }
  }

  lemma FlagOr(f: bv16, g: bv16, k: int)
    ensures Flag(f | g, k) == (Flag(f, k) || Flag(g, k))
  {
    hide One, Hit;
    HitOr(f, g, One(k));
  }

  lemma FlagOne(c: int, k: int)
    ensures Flag(One(c), k) == (c == k && 0 <= c < 16)
  {
    hide One, Hit;
    OneEmpty(c);
    OneEmpty(k);
    HitSelf(One(c), One(k));
    HitSelf(One(k), One(c));
    if 0 <= c < k < 16 {
      OnesApart(c, k);
    } else if 0 <= k < c < 16 {
      OnesApart(k, c);
    }
  }

  lemma FlagSet(f: bv16, c: int, k: int)
    ensures Flag(f | One(c), k) == (Flag(f, k) || (k == c && 0 <= c < 16))
  {
    hide *;
    FlagOr(f, One(c), k);
    FlagOne(c, k);
  }

  lemma FlagShift(f: bv16, k: int)
    requires 0 <= k
    ensures Flag(f >> 1, k) == Flag(f, k + 1)
  {
    hide One, Hit, Twice;
    OneEmpty(k);
    OneEmpty(k + 1);
    HitShift(f, One(k));
    HitSelf(f, 0);
    HitSelf(f >> 1, 0);
    if k < 15 {
      OneNext(k);
    }
  }

  lemma FlagLow(f: bv16)
    ensures Flag(f, 0) == (f & 1 != 0)
    ensures !Flag(0, 0)
  {
    hide One, Hit;
    OneEmpty(0);
    HitSelf(f, 0);
    HitSelf(One(0), 0);
  }

  lemma FlagAll(k: int)
    ensures Flag(0xFFFF, k) == (0 <= k < 16)
    ensures !Flag(0, k)
  {
    hide One, Hit;
    OneEmpty(k);
    HitSelf(One(k), 0);
  }

  /**
   * Tiles of `w` by `h` pixels on a display of `width` by `height`, whose flags are written at coordinates shifted
   * right by B bits, 2^B = `cell`, and read once for every row of tiles.
   */
  datatype Grid = Grid(w: nat, h: nat, cell: nat, width: nat, height: nat)
  {
    /** NE_MAX_TILES_NUM, 64 >> (B - 3). */
    function Rows(): nat
      requires cell > 0
    {
      512 / cell
    }

    predicate Valid() {
      && cell in {8, 16, 32, 64, 128} && 0 < w && 0 < h && h % 8 == 0
      && 0 < width <= COLUMNS && width % w == 0
      && 0 < height <= 8 * PAGES && height % h == 0
    }

    /** Cells and tiles are the same wherever the display reaches past the smaller of the two. */
    predicate Agrees() {
      (w == cell || width <= Min(w, cell)) && (h == cell || height <= Min(h, cell))
    }

    predicate OnScreen(x: int, y: int) {
      0 <= x < width && 0 <= y < height
    }

    /** The flag that marking screen pixel (x, y) sets. */
    predicate Marked(flags: seq<bv16>, x: int, y: int) {
      cell > 0 && 0 <= y / cell < |flags| && Flag(flags[y / cell], x / cell)
    }

    /** The top screen row of the tiles that show screen row `y`. */
    function Top(y: int): int
      requires h > 0
    {
      y / h * h
    }

    /** The row of flags that is read for them. */
    function RowRead(y: int): int
      requires cell > 0 && h > 0
    {
      Top(y) / cell
    }

    /** They are the first to read it; it is cleared when it is read. */
    predicate FirstRead(y: int)
      requires cell > 0 && h > 0
    {
      Top(y) == 0 || (Top(y) - h) / cell != RowRead(y)
    }

    /** The tile of screen pixel (x, y) is redrawn. */
    predicate Redrawn(flags: seq<bv16>, x: int, y: int) {
      && cell > 0 && w > 0 && h > 0 && 0 <= RowRead(y) < |flags|
      && FirstRead(y) && Flag(flags[RowRead(y)], x / w)
    }

    /** Rows and columns of flags that marking the rectangle (x1, y1)-(x2, y2) sets. */
    predicate InMark(x1: int, y1: int, x2: int, y2: int, r: int, c: int)
      requires cell > 0
    {
      && 0 <= y2 && U8(Max(y1, 0) / cell) <= r <= Min(y2 / cell, Rows() - 1)
      && U8(Max(x1, 0) / cell) <= c <= x2 / cell
    }
  }

  lemma DivMonotone(a: int, b: int, d: int)
    requires a <= b && 0 < d
    ensures a / d <= b / d
  {
    var p, q := a / d, b / d;
    assert a == d * p + a % d && b == d * q + b % d;
    if p > q {
      MulLe(q + 1, p, d);
    }
  }

  lemma CellsOnScreen(g: Grid, x: int, y: int)
    requires g.Valid() && g.OnScreen(x, y)
    ensures 0 <= x / g.cell < 16 && 0 <= y / g.cell < g.Rows() && g.Rows() <= 64 && 8 <= g.cell
  {
    if g.cell == 8 {} else if g.cell == 16 {} else if g.cell == 32 {} else if g.cell == 64 {}
  }

  /** A rectangle's cells cover the cells of its points. */
  lemma CellCovered(cell: int, a: int, b: int, v: int)
    requires 0 < cell && a <= v <= b && 0 <= v
    ensures 0 <= Max(a, 0) / cell <= v / cell <= b / cell
  {
    DivMonotone(0, Max(a, 0), cell);
    DivMonotone(Max(a, 0), v, cell);
    DivMonotone(v, b, cell);
  }

  /** A rectangle's mark covers the tiles of all its on-screen pixels. */
  lemma MarkCovers(g: Grid, x1: int, y1: int, x2: int, y2: int, x: int, y: int)
    requires g.Valid() && g.OnScreen(x, y) && x1 <= x <= x2 && y1 <= y <= y2
    ensures g.InMark(x1, y1, x2, y2, y / g.cell, x / g.cell)
  {
    CellsOnScreen(g, x, y);
    CellCovered(g.cell, x1, x2, x);
    CellCovered(g.cell, y1, y2, y);
    InMarkIs(g.cell, g.Rows(), x1, y1, x2, y2, y / g.cell, x / g.cell);
    hide Grid.Valid, Grid.Rows, U8;
  }

  /** A range has a coordinate of cell `c` exactly when the range of its cells has `c`. */
  lemma CellHit(cell: int, a: int, b: int, c: int)
    requires 0 < cell && a <= b && 0 <= c
    ensures (exists v :: a <= v <= b && v / cell == c) <==> Max(a, 0) / cell <= c <= b / cell
  {
    if v :| a <= v <= b && v / cell == c {
      if v < 0 {
        DivMonotone(v, -1, cell);
        Lines.DivUnique(-1, cell, -1, cell - 1);
      }
      CellCovered(cell, a, b, v);
    } else if Max(a, 0) / cell <= c <= b / cell {
      CellWitness(cell, a, b, c);
    }
  }

  lemma CellWitness(cell: int, a: int, b: int, c: int)
    requires 0 < cell && a <= b && 0 <= c && Max(a, 0) / cell <= c <= b / cell
    ensures a <= Max(a, c * cell) <= b && Max(a, c * cell) / cell == c
  {
    var first := c * cell;
    Lines.DivUnique(first, cell, c, 0);
    FirstOfCell(cell, b, c);
    MulLe(0, c, cell);
    if first < a {
      DivMonotone(first, a, cell);
    }
  }

  lemma FirstOfCell(cell: int, b: int, c: int)
    requires 0 < cell && c <= b / cell
    ensures c * cell <= b
  {
    assert b == cell * (b / cell) + b % cell;
    MulLe(c, b / cell, cell);
  }

  /** And only those: a flag is set by a rectangle exactly when the rectangle has a pixel of the flag's cell. */
  lemma MarkIsExact(g: Grid, x1: int, y1: int, x2: int, y2: int, r: int, c: int)
    requires g.Valid() && x1 <= x2 && y1 <= y2 && x1 < 0x100 * g.cell && y1 < 0x100 * g.cell
    requires 0 <= r && 0 <= c
    ensures g.Rows() * g.cell == 512
    ensures g.InMark(x1, y1, x2, y2, r, c) <==>
              && r < g.Rows()
              && (exists x :: x1 <= x <= x2 && x / g.cell == c) && exists y :: y1 <= y <= y2 && y / g.cell == r
  {
    RowsIs(g);
    CellHit(g.cell, x1, x2, c);
    CellHit(g.cell, y1, y2, r);
    CellIsOctet(g.cell, x1);
    CellIsOctet(g.cell, y1);
    hide Grid.Valid, Grid.Rows, U8;
    if y2 < 0 {
      DivMonotone(y2, -1, g.cell);
      Lines.DivUnique(-1, g.cell, -1, g.cell - 1);
    }
  }

  lemma RowsIs(g: Grid)
    requires g.Valid()
    ensures g.Rows() * g.cell == 512 && 0 < g.cell
  {
  }

  lemma CellIsOctet(cell: int, v: int)
    requires 0 < cell && v < 0x100 * cell
    ensures U8(Max(v, 0) / cell) == Max(v, 0) / cell
  {
    Lines.DivNonneg(Max(v, 0), cell);
    if Max(v, 0) / cell >= 0x100 {
      MulLe(0x100, Max(v, 0) / cell, cell);
    }
  }

  lemma InMarkIs(cell: int, rows: int, x1: int, y1: int, x2: int, y2: int, r: int, c: int)
    requires 0 < cell && 0 <= Max(y1, 0) / cell <= r <= y2 / cell && 0 <= Max(x1, 0) / cell <= c <= x2 / cell
    requires r < rows <= 64 && c < 16
    ensures U8(Max(y1, 0) / cell) <= r <= Min(y2 / cell, rows - 1) && U8(Max(x1, 0) / cell) <= c <= x2 / cell
  {
    var a, b := Max(y1, 0) / cell, Max(x1, 0) / cell;
    assert U8(a) == a && U8(b) == b;
  }

  ghost predicate RectMarked(g: Grid, flags: seq<bv16>, flags': seq<bv16>, x1: int, y1: int, x2: int, y2: int)
    requires g.cell > 0
  {
    && |flags'| == |flags|
    && forall r, c | 0 <= r < |flags| && 0 <= c < 16 ::
         Flag(flags'[r], c) == (Flag(flags[r], c) || g.InMark(x1, y1, x2, y2, r, c))
  }

  class Tiler {
    const grid: Grid
    const canvas: Canvas
    const driver: Driver
    const flags: array<bv16>
    var offX: int
    var offY: int

    ghost predicate Valid()
      reads this, canvas, driver
    {
      && grid.Valid() && flags.Length == grid.Rows()
      && canvas.Valid() && canvas.w == grid.w && canvas.h == grid.h
      && driver.Valid() && driver.width == grid.width && driver.height == grid.height
    }

    constructor (g: Grid, c: Canvas, d: Driver)
      requires g.Valid() && c.Valid() && c.w == g.w && c.h == g.h
      requires d.Valid() && d.width == g.width && d.height == g.height
      ensures Valid() && fresh(flags) && grid == g && canvas == c && driver == d && offX == 0 && offY == 0
      ensures forall r | 0 <= r < flags.Length :: flags[r] == 0xFFFF
    {
      grid, canvas, driver := g, c, d;
      flags := new bv16[g.Rows()];
      offX, offY := 0, 0;
      new;
      Refresh();
    }

    /** Marks all tiles. */
    method Refresh()
      requires Valid()
      modifies flags
      ensures forall r | 0 <= r < flags.Length :: flags[r] == 0xFFFF
    {
      forall r | 0 <= r < flags.Length {
        flags[r] := 0xFFFF;
      }
    }

    /** Marks the tiles of a rectangle given in screen coordinates. */
    method RefreshRect(x1: int, y1: int, x2: int, y2: int)
      requires Valid() && x2 / grid.cell < 31
      modifies flags
      ensures RectMarked(grid, old(flags[..]), flags[..], x1, y1, x2, y2)
    {
      var l, t, b := x1, y1, y2;
      if b < 0 { return; }
      if t < 0 { t := 0; }
      if l < 0 { l := 0; }
      t := t / grid.cell;
      b := Min(b / grid.cell, grid.Rows() - 1);
      var y := U8(t);
      while y <= b
        invariant U8(t) <= y
        invariant forall r, c | 0 <= r < flags.Length && 0 <= c < 16 ::
          Flag(flags[r], c) == (Flag(old(flags[..])[r], c) || (r < y && grid.InMark(x1, y1, x2, y2, r, c)))
      {
        MarkRow(y, U8(l / grid.cell), x2 / grid.cell);
        y := y + 1;
      }
    }

    method MarkRow(row: int, first: int, last: int)
      requires 0 <= row < flags.Length && 0 <= first && last < 31
      modifies flags
      ensures forall r, c | 0 <= r < flags.Length && 0 <= c < 16 ::
        Flag(flags[r], c) == (Flag(old(flags[..])[r], c) || (r == row && first <= c <= last))
    {
      hide Flag;
      hide One;
      var x := first;
      while x <= last
        invariant first <= x
        invariant forall r, c | 0 <= r < flags.Length && 0 <= c < 16 ::
          Flag(flags[r], c) == (Flag(old(flags[..])[r], c) || (r == row && first <= c < x && c <= last))
      {
        forall c | 0 <= c < 16
          ensures Flag(flags[row] | One(x), c) == (Flag(flags[row], c) || c == x)
        {
          FlagSet(flags[row], x, c);
        }
        flags[row] := flags[row] | One(x);
        x := x + 1;
      }
    }

    /** Moves the world offset and marks all tiles. */
    method MoveToAndRefresh(x: int, y: int)
      requires Valid()
      modifies this`offX, this`offY, flags
      ensures offX == x && offY == y
      ensures forall r | 0 <= r < flags.Length :: flags[r] == 0xFFFF
    {
      offX, offY := x, y;
      Refresh();
    }

    /** Marks the tiles of a rectangle given in world coordinates. */
    method RefreshWorld(x1: int, y1: int, x2: int, y2: int)
      requires Valid() && (x2 - offX) / grid.cell < 31
      modifies flags
      ensures RectMarked(grid, old(flags[..]), flags[..], x1 - offX, y1 - offY, x2 - offX, y2 - offY)
    {
      RefreshRect(x1 - offX, y1 - offY, x2 - offX, y2 - offY);
    }

    /** Every tile draws every call of the scene faithfully. */
    ghost predicate Paintable(scene: Scene)
      reads this
    {
      TilesPaint(grid, scene, offX, offY)
    }

    /** Redraws tiles with a callback that paints the scene in world coordinates and answers `shows(x, y)` for the
        tile at (x, y), and clears every row of flags that it reads. */
    method DisplayBuffer(scene: Scene, shows: (int, int) -> bool)
      requires Valid() && Paintable(scene)
      modifies flags, driver, canvas, canvas.buf
      ensures Valid() && |driver.chip.ram| == |old(driver.chip.ram)|
      ensures forall X, Y | grid.OnScreen(X, Y) ::
        Px(driver.chip.ram, COLUMNS, X, Y) ==
          if grid.Redrawn(old(flags[..]), X, Y) && shows(X / grid.w * grid.w, grid.Top(Y))
          then Picture(scene, X + offX, Y + offY)
          else Px(old(driver.chip.ram), COLUMNS, X, Y)
      ensures RowsCleared(grid, old(flags[..]), flags[..], grid.height)
    {
      hide Px, Flag, Picture, TilesPaint, RowsCleared, Grid.FirstRead, Grid.RowRead;
      var y := 0;
      NoRowCleared(grid, flags[..]);
      while y < grid.height
        invariant 0 <= y <= grid.height && y % grid.h == 0
        invariant Valid() && |driver.chip.ram| == |old(driver.chip.ram)|
        invariant forall X, Y | grid.OnScreen(X, Y) ::
          Px(driver.chip.ram, COLUMNS, X, Y) ==
            if Y < y && grid.Redrawn(old(flags[..]), X, Y) && shows(X / grid.w * grid.w, grid.Top(Y))
            then Picture(scene, X + offX, Y + offY)
            else Px(old(driver.chip.ram), COLUMNS, X, Y)
        invariant RowsCleared(grid, old(flags[..]), flags[..], y)
      {
        RowHere(grid, y);
        NextRowCleared(grid, old(flags[..]), flags[..], y);
        var row := y / grid.cell;
        var flag := flags[row];
        flags[row] := 0;
        ShowRow(y, flag, scene, shows);
        RowShown(grid, old(flags[..]), y, flag);
        NextMultiple(y, grid.height, grid.h);
        y := y + grid.h;
      }
    }

    /** Redraws the tiles of one row whose bits are set in `row`. */
    method ShowRow(y: int, row: bv16, scene: Scene, shows: (int, int) -> bool)
      requires Valid() && Paintable(scene) && 0 <= y < grid.height && y % grid.h == 0
      modifies driver, canvas, canvas.buf
      ensures Valid() && |driver.chip.ram| == |old(driver.chip.ram)|
      ensures forall X, Y | grid.OnScreen(X, Y) ::
        Px(driver.chip.ram, COLUMNS, X, Y) ==
          if y <= Y < y + grid.h && Flag(row, X / grid.w) && shows(X / grid.w * grid.w, y)
          then Picture(scene, X + offX, Y + offY)
          else Px(old(driver.chip.ram), COLUMNS, X, Y)
    {
      hide Px, Flag, Picture, TilesPaint, Tail;
      TailStart(row);
      var flag := row;
      var x := 0;
      ghost var i := 0;
      while x < grid.width
        invariant 0 <= x <= grid.width && x % grid.w == 0 && i == x / grid.w && 0 <= i
        invariant Tail(flag, row, i)
        invariant Valid() && |driver.chip.ram| == |old(driver.chip.ram)|
        invariant forall X, Y | grid.OnScreen(X, Y) ::
          Px(driver.chip.ram, COLUMNS, X, Y) ==
            if y <= Y < y + grid.h && X < x && Flag(row, X / grid.w) && shows(X / grid.w * grid.w, y)
            then Picture(scene, X + offX, Y + offY)
            else Px(old(driver.chip.ram), COLUMNS, X, Y)
      {
        TailLow(flag, row, i);
        TileColumn(grid, x);
        if flag & 0x01 != 0 {
          ShowTile(x, y, scene, shows);
        }
        TailShift(flag, row, i);
        flag := flag >> 1;
        NextMultiple(x, grid.width, grid.w);
        x := x + grid.w;
        i := i + 1;
      }
    }

    /** Draws one tile through the canvas and copies it to the display when the callback says so. */
    method ShowTile(x: int, y: int, scene: Scene, shows: (int, int) -> bool)
      requires Valid() && Paintable(scene)
      requires 0 <= x < grid.width && x % grid.w == 0 && 0 <= y < grid.height && y % grid.h == 0
      modifies driver, canvas, canvas.buf
      ensures Valid() && |driver.chip.ram| == |old(driver.chip.ram)|
      ensures forall X, Y | grid.OnScreen(X, Y) ::
        Px(driver.chip.ram, COLUMNS, X, Y) ==
          if x <= X < x + grid.w && y <= Y < y + grid.h && shows(x, y) then Picture(scene, X + offX, Y + offY)
          else Px(old(driver.chip.ram), COLUMNS, X, Y)
    {
      hide Px, Picture, TilesPaint;
      canvas.SetOffset(x, y);
      PaintTile(scene);
      if shows(x, y) {
        canvas.SetOffset(x, y);
        Blt();
      }
    }

    /** Runs the callback, which moves the canvas to world coordinates, on the canvas at the tile's offset. */
    method PaintTile(scene: Scene)
      requires Valid() && Paintable(scene)
      requires 0 <= canvas.offX < grid.width && canvas.offX % grid.w == 0
      requires 0 <= canvas.offY < grid.height && canvas.offY % grid.h == 0
      modifies canvas, canvas.buf
      ensures Valid() && canvas.offX == old(canvas.offX) + offX && canvas.offY == old(canvas.offY) + offY
      ensures forall X, Y | 0 <= X < grid.w && 0 <= Y < grid.h ::
        Px(canvas.buf[..], grid.w, X, Y) == Picture(scene, X + canvas.offX, Y + canvas.offY)
    {
      hide Px, Picture, AllSupported, TilesPaint;
      TilePaints(grid, scene, offX, offY, canvas.offX, canvas.offY);
      canvas.SetOffset(canvas.offX + offX, canvas.offY + offY);
      canvas.Paint(scene);
    }

    /** Copies the canvas to the display, at the canvas offset. */
    method Blt()
      requires Valid()
      requires 0 <= canvas.offX < grid.width && canvas.offX % grid.w == 0
      requires 0 <= canvas.offY < grid.height && canvas.offY % grid.h == 0
      modifies driver
      ensures Valid() && |driver.chip.ram| == |old(driver.chip.ram)|
      ensures forall X, Y | grid.OnScreen(X, Y) ::
        Px(driver.chip.ram, COLUMNS, X, Y) ==
          if canvas.offX <= X < canvas.offX + grid.w && canvas.offY <= Y < canvas.offY + grid.h
          then Px(canvas.buf[..], grid.w, X - canvas.offX, Y - canvas.offY)
          else Px(old(driver.chip.ram), COLUMNS, X, Y)
    {
      TileFits(grid, canvas.offX, canvas.offY);
      hide Px;
      hide Block;
      hide Stream;
      hide U8;
      BlitShows(driver.chip, grid.width, grid.height, canvas.offX, canvas.offY, grid.w, grid.h, canvas.buf[..]);
      driver.DrawBufferFast(canvas.offX, canvas.offY, canvas.w, canvas.h, canvas.buf);
      assert canvas.buf[..canvas.w * (canvas.h / 8)] == canvas.buf[..];
    }
  }

  /** `flag` holds the bits of `row` from bit `i` on. */
  ghost predicate Tail(flag: bv16, row: bv16, i: int) {
    forall k | 0 <= k :: Flag(flag, k) == Flag(row, i + k)
  }

  lemma TailStart(row: bv16)
    ensures Tail(row, row, 0)
  {
  }

  lemma TailLow(flag: bv16, row: bv16, i: int)
    requires Tail(flag, row, i)
    ensures (flag & 0x01 != 0) == Flag(row, i)
  {
    hide Flag;
    FlagLow(flag);
    assert Flag(flag, 0) == Flag(row, i + 0);
  }

  lemma TailShift(flag: bv16, row: bv16, i: int)
    requires Tail(flag, row, i)
    ensures Tail(flag >> 1, row, i + 1)
  {
    hide Flag;
    var rest := flag >> 1;
    forall k | 0 <= k ensures Flag(rest, k) == Flag(row, i + 1 + k) {
      FlagShift(flag, k);
      assert Flag(flag, k + 1) == Flag(row, i + (k + 1));
    }
  }

  /** The next multiple of `d` after one below `limit` does not pass `limit`. */
  lemma NextMultiple(v: int, limit: int, d: int)
    requires 0 < d && v % d == 0 && limit % d == 0 && v < limit
    ensures v + d <= limit && (v + d) % d == 0 && (v + d) / d == v / d + 1
  {
    var q, n := v / d, limit / d;
    assert v == d * q && limit == d * n;
    if n < q + 1 {
      MulLe(n, q, d);
    }
    MulLe(q + 1, n, d);
    Lines.DivUnique(v + d, d, q + 1, 0);
  }

  lemma OnlyMultiple(v: int, d: int)
    requires 0 <= v < d && v % d == 0
    ensures v == 0
  {
  }

  lemma CellSpan(v: int, c: int, V: int)
    requires 0 < c && v % c == 0
    ensures V / c == v / c <==> v <= V < v + c
  {
    assert V == c * (V / c) + V % c && v == c * (v / c);
    if v <= V < v + c {
      Lines.DivUnique(V, c, v / c, V - v);
    }
  }

  lemma TileColumn(g: Grid, x: int)
    requires g.Valid() && x % g.w == 0
    ensures forall X :: X / g.w == x / g.w <==> x <= X < x + g.w
    ensures x / g.w * g.w == x
  {
    forall X ensures X / g.w == x / g.w <==> x <= X < x + g.w {
      CellSpan(x, g.w, X);
    }
  }

  lemma TopOf(y: int, h: int, Y: int)
    requires 0 < h && y % h == 0
    ensures y <= Y < y + h ==> Y / h * h == y
    ensures 0 <= Y < y ==> 0 <= Y / h * h <= y - h
    ensures (y - h) % h == 0
  {
    var q := y / h;
    assert y == h * q;
    Lines.OneMore(q - 1, h);
    Lines.DivUnique(y - h, h, q - 1, 0);
    if y <= Y < y + h {
      Lines.DivUnique(Y, h, q, Y - y);
    } else if 0 <= Y < y {
      TopBelow(Y, h, q);
    }
  }

  lemma TopBelow(v: int, h: int, q: int)
    requires 0 < h && 0 <= v < h * q
    ensures 0 <= v / h * h <= h * q - h
  {
    Lines.DivNonneg(v, h);
    var p := v / h;
    if p >= q {
      MulLe(q, p, h);
    }
    MulLe(p + 1, q, h);
    Lines.OneMore(p, h);
    MulLe(0, p, h);
  }

  /** Rows above a row of tiles read no later row of flags than the tiles just above do. */
  lemma RowAbove(y: int, h: int, cell: int, Y: int)
    requires 0 < h && 0 < cell && y % h == 0 && 0 <= Y < y
    ensures y >= h && 0 <= Y / h * h / cell <= (y - h) / cell <= y / cell
  {
    TopOf(y, h, Y);
    var top := Y / h * h;
    DivMonotone(0, top, cell);
    DivMonotone(top, y - h, cell);
    DivMonotone(y - h, y, cell);
  }

  lemma RowSame(g: Grid, y: int, Y: int)
    requires 0 < g.h && y % g.h == 0 && y <= Y < y + g.h
    ensures g.Top(Y) == y && (g.cell > 0 ==> g.RowRead(Y) == y / g.cell)
  {
    TopOf(y, g.h, Y);
  }

  lemma RowsAbove(g: Grid, y: int, Y: int)
    requires 0 < g.h && 0 < g.cell && y % g.h == 0 && 0 <= Y < y
    ensures y >= g.h && 0 <= g.RowRead(Y) <= (y - g.h) / g.cell <= y / g.cell
  {
    RowAbove(y, g.h, g.cell, Y);
  }

  /** The row of flags that the tiles at row `y` read. */
  lemma RowHere(g: Grid, y: int)
    requires g.Valid() && 0 <= y < g.height && y % g.h == 0
    ensures 0 < g.h && 0 < g.cell && 0 <= y / g.cell < g.Rows() && g.Top(y) == y && g.RowRead(y) == y / g.cell
    ensures y >= g.h ==> g.RowRead(y - g.h) == (y - g.h) / g.cell
  {
    CellsOnScreen(g, 0, y);
    hide Grid.Valid, Grid.Rows;
    TopOf(y, g.h, y);
    TopOf(y - g.h, g.h, y - g.h);
  }

  /** The rows of flags read for the screen rows above `y` are clear, and all others are as before. */
  ghost predicate RowsCleared(g: Grid, before: seq<bv16>, now: seq<bv16>, y: int)
    requires g.cell > 0 && g.h > 0
  {
    && |now| == |before|
    && (forall Y | 0 <= Y < y :: 0 <= g.RowRead(Y) < |now| && now[g.RowRead(Y)] == 0)
    && forall r | 0 <= r < |now| && now[r] != before[r] :: exists Y :: 0 <= Y < y && g.RowRead(Y) == r
  }

  lemma NoRowCleared(g: Grid, before: seq<bv16>)
    requires g.cell > 0 && g.h > 0
    ensures RowsCleared(g, before, before, 0)
  {
  }

  /** The row of flags for the tiles at `y` has its old value when it is read first, and is clear otherwise. */
  lemma NextRowCleared(g: Grid, before: seq<bv16>, now: seq<bv16>, y: int)
    requires g.Valid() && 0 <= y < g.height && y % g.h == 0 && |before| == g.Rows() && RowsCleared(g, before, now, y)
    ensures 0 <= y / g.cell < |now| && now[y / g.cell] == if g.FirstRead(y) then before[y / g.cell] else 0
    ensures RowsCleared(g, before, now[y / g.cell := 0], y + g.h)
  {
    RowHere(g, y);
    hide Grid.Valid, Grid.Rows, Grid.Top, Grid.RowRead;
    var row := y / g.cell;
    if g.FirstRead(y) {
      forall Y | 0 <= Y < y
        ensures g.RowRead(Y) != row
      {
        RowsAbove(g, y, Y);
      }
    } else {
      NotFirst(g, y);
      assert g.RowRead(y - g.h) == row;
    }
    var after := now[row := 0];
    forall Y | 0 <= Y < y + g.h
      ensures 0 <= g.RowRead(Y) < |after| && after[g.RowRead(Y)] == 0
    {
      if y <= Y {
        RowSame(g, y, Y);
      }
    }
    forall r | 0 <= r < |after| && after[r] != before[r]
      ensures exists Y :: 0 <= Y < y + g.h && g.RowRead(Y) == r
    {
      if r == row {
        assert g.RowRead(y) == r;
      } else {
        var Y :| 0 <= Y < y && g.RowRead(Y) == r;
        assert 0 <= Y < y + g.h && g.RowRead(Y) == r;
      }
    }
  }

  lemma BackOne(y: int, h: int)
    requires 0 < h && 0 < y && y % h == 0
    ensures y >= h && (y - h) / h * h == y - h
  {
    if y < h {
      OnlyMultiple(y, h);
    }
    var q := y / h;
    Lines.DivNonneg(y, h);
    assert y == h * q;
    Lines.OneMore(q - 1, h);
    Lines.DivUnique(y - h, h, q - 1, 0);
  }

  lemma TopIs(g: Grid, y: int)
    requires g.h > 0 && g.cell > 0
    ensures g.Top(y) == y / g.h * g.h && g.RowRead(y) == g.Top(y) / g.cell
    ensures g.FirstRead(y) <==> g.Top(y) == 0 || (g.Top(y) - g.h) / g.cell != g.RowRead(y)
  {
  }

  lemma NotFirst(g: Grid, y: int)
    requires 0 < g.h && 0 < g.cell && g.Top(y) == y && 0 <= y && y % g.h == 0 && !g.FirstRead(y)
    ensures y >= g.h && g.RowRead(y - g.h) == g.RowRead(y)
  {
    hide *;
    TopIs(g, y);
    TopIs(g, y - g.h);
    BackOne(y, g.h);
  }

  /** The bits read for the tiles at row `y` say which of their pixels are redrawn. */
  lemma RowShown(g: Grid, before: seq<bv16>, y: int, flag: bv16)
    requires g.Valid() && 0 <= y < g.height && y % g.h == 0 && 0 <= y / g.cell < |before|
    requires flag == if g.FirstRead(y) then before[y / g.cell] else 0
    ensures forall X, Y | g.OnScreen(X, Y) && y <= Y < y + g.h ::
              g.Top(Y) == y && g.Redrawn(before, X, Y) == Flag(flag, X / g.w)
  {
    RowHere(g, y);
    hide Flag, Grid.Valid;
    forall X, Y | g.OnScreen(X, Y) && y <= Y < y + g.h
      ensures g.Top(Y) == y && g.Redrawn(before, X, Y) == Flag(flag, X / g.w)
    {
      RowSame(g, y, Y);
      hide Grid.Top;
      FlagAll(X / g.w);
    }
  }

  lemma MultipleOfEight(v: int, d: int)
    requires 0 < d && d % 8 == 0 && v % d == 0
    ensures v % 8 == 0
  {
    assert v == d * (v / d) && d == 8 * (d / 8);
    assert v == 8 * ((d / 8) * (v / d));
  }

  lemma TileFits(g: Grid, x: int, y: int)
    requires g.Valid() && 0 <= x < g.width && x % g.w == 0 && 0 <= y < g.height && y % g.h == 0
    ensures InRange(g.width, g.height, x, y, g.w, g.h) && y % 8 == 0 && U8(g.h / 8) == g.h / 8
  {
    NextMultiple(x, g.width, g.w);
    NextMultiple(y, g.height, g.h);
    MultipleOfEight(y, g.h);
    MultipleOfEight(g.height, g.h);
  }

  /** Every tile of the grid draws every call of the scene faithfully. */
  ghost predicate TilesPaint(g: Grid, scene: Scene, offX: int, offY: int) {
    forall x, y | g.OnScreen(x, y) && g.w > 0 && g.h > 0 && x % g.w == 0 && y % g.h == 0 ::
      AllSupported(scene.ops, scene.pen, x + offX, y + offY, g.w, g.h)
  }

  lemma TilePaints(g: Grid, scene: Scene, offX: int, offY: int, x: int, y: int)
    requires g.Valid() && TilesPaint(g, scene, offX, offY)
    requires 0 <= x < g.width && x % g.w == 0 && 0 <= y < g.height && y % g.h == 0
    ensures AllSupported(scene.ops, scene.pen, x + offX, y + offY, g.w, g.h)
  {
    assert g.OnScreen(x, y);
  }

  lemma TileableTile(scene: Scene, ox: int, oy: int, w: nat, h: nat, phase: int, limit: int)
    requires forall i | 0 <= i < |scene.ops| ::
               Tileable(scene.ops[i], PenBefore(scene.ops, scene.pen, i), phase, limit)
    requires 0 < w <= 255 && (ox - phase) % 8 == 0 && -limit <= ox <= limit
    ensures AllSupported(scene.ops, scene.pen, ox, oy, w, h)
  {
    hide *;
    forall i | 0 <= i < |scene.ops|
      ensures Supported(scene.ops[i], PenBefore(scene.ops, scene.pen, i), ox, oy, w, h)
    {
      TileableIsSupported(scene.ops[i], PenBefore(scene.ops, scene.pen, i), ox, oy, w, h, phase, limit);
    }
    AllAreSupported(scene, ox, oy, w, h);
  }

  lemma AllAreSupported(scene: Scene, ox: int, oy: int, w: nat, h: nat)
    requires forall i | 0 <= i < |scene.ops| ::
               Supported(scene.ops[i], PenBefore(scene.ops, scene.pen, i), ox, oy, w, h)
    ensures AllSupported(scene.ops, scene.pen, ox, oy, w, h)
  {
  }

  lemma TileOrigin(g: Grid, x: int)
    requires g.Valid() && g.w % 8 == 0 && x % g.w == 0
    ensures x % 8 == 0 && 0 < g.w <= 128
  {
    MultipleOfEight(x, g.w);
    if g.w > g.width {
      Lines.DivUnique(g.width, g.w, 0, g.width);
    }
  }

  /** A scene of such calls is drawn faithfully by every tile, wherever the view has been moved to. */
  lemma TileableScene(g: Grid, scene: Scene, offX: int, offY: int, limit: int)
    requires g.Valid() && g.w % 8 == 0 && -limit <= offX && offX + COLUMNS <= limit
    requires forall i | 0 <= i < |scene.ops| ::
               Tileable(scene.ops[i], PenBefore(scene.ops, scene.pen, i), offX, limit)
    ensures TilesPaint(g, scene, offX, offY)
  {
    assert g.width <= COLUMNS;
    hide Tileable, AllSupported, Grid.Valid;
    forall x, y | g.OnScreen(x, y) && g.w > 0 && g.h > 0 && x % g.w == 0 && y % g.h == 0
      ensures AllSupported(scene.ops, scene.pen, x + offX, y + offY, g.w, g.h)
    {
      TileOrigin(g, x);
      TileableTile(scene, x + offX, y + offY, g.w, g.h, offX, limit);
    }
  }

  /** The scene painted on a display-sized canvas, and on a tile canvas at each of the offsets that cover it: the tiles
      show the canvas. */
  method PaintTiled(whole: Canvas, tile: Canvas, scene: Scene) returns (tiles: seq<seq<bv8>>)
    requires whole.Valid() && tile.Valid() && whole != tile && whole.buf != tile.buf
    requires whole.offX == 0 && whole.offY == 0
    requires AllSupported(scene.ops, scene.pen, 0, 0, whole.w, whole.h)
    requires forall i, j | 0 <= i < whole.w / tile.w && 0 <= j < whole.h / tile.h ::
               AllSupported(scene.ops, scene.pen, i * tile.w, j * tile.h, tile.w, tile.h)
    modifies whole, whole.buf, tile, tile.buf
    ensures Assembled(tiles, tile.w, tile.h, whole.buf[..], whole.w, whole.h)
  {
    hide Px, Picture, AllSupported, At, Assembled, TilesPainted;
    whole.Paint(scene);
    ghost var screen := whole.buf[..];
    forall x, y | 0 <= x < whole.w && 0 <= y < whole.h
      ensures Px(screen, whole.w, x, y) == Picture(scene, x, y)
    {
      assert x + whole.offX == x && y + whole.offY == y;
    }
    tiles := [];
    var columns, rows := whole.w / tile.w, whole.h / tile.h;
    var j := 0;
    NoTilePainted(columns, tile.w, tile.h, scene);
    assert 0 <= columns && 0 <= rows by { Lines.DivNonneg(whole.w, tile.w); Lines.DivNonneg(whole.h, tile.h); }
    while j < rows
      invariant 0 <= j <= rows && |tiles| == At(columns, 0, j) && whole.buf[..] == screen
      invariant TilesPainted(tiles, columns, tile.w, tile.h, scene, j, 0)
    {
      var i := 0;
      while i < columns
        invariant 0 <= i <= columns && |tiles| == At(columns, i, j) && whole.buf[..] == screen
        invariant TilesPainted(tiles, columns, tile.w, tile.h, scene, j, i)
      {
        tile.SetOffset(i * tile.w, j * tile.h);
        tile.Paint(scene);
        OneMoreTile(tiles, tile.buf[..], columns, tile.w, tile.h, scene, j, i);
        tiles := tiles + [tile.buf[..]];
        AtSteps(columns, i, j);
        i := i + 1;
      }
      RowOfTilesPainted(tiles, columns, tile.w, tile.h, scene, j);
      j := j + 1;
    }
    PaintedAssembles(tiles, tile.w, tile.h, scene, whole.buf[..], whole.w, whole.h);
  }

  /** A tile at (ox, oy) shows its part of the scene. */
  ghost predicate TileShows(tile: seq<bv8>, tw: nat, th: nat, scene: Scene, ox: int, oy: int) {
    forall x, y | 0 <= x < tw && 0 <= y < th :: Px(tile, tw, x, y) == Picture(scene, x + ox, y + oy)
  }

  /** The tiles of the first `rows` rows, and `more` of the next, show the scene. */
  ghost predicate TilesPainted(tiles: seq<seq<bv8>>, columns: int, tw: nat, th: nat, scene: Scene, rows: int, more: int)
  {
    forall i, j | 0 <= i < columns && 0 <= j && (j < rows || (j == rows && i < more)) ::
      0 <= At(columns, i, j) < |tiles| && TileShows(tiles[At(columns, i, j)], tw, th, scene, i * tw, j * th)
  }

  lemma NoTilePainted(columns: int, tw: nat, th: nat, scene: Scene)
    ensures TilesPainted([], columns, tw, th, scene, 0, 0) && At(columns, 0, 0) == 0
  {
  }

  lemma OneMoreTile(tiles: seq<seq<bv8>>, tile: seq<bv8>, columns: int, tw: nat, th: nat, scene: Scene, j: int, i: int)
    requires TilesPainted(tiles, columns, tw, th, scene, j, i) && 0 <= i < columns && 0 <= j
    requires |tiles| == At(columns, i, j) && TileShows(tile, tw, th, scene, i * tw, j * th)
    ensures TilesPainted(tiles + [tile], columns, tw, th, scene, j, i + 1)
  {
    hide TileShows, At;
    forall i', j' | 0 <= i' < columns && 0 <= j' && (j' < j || (j' == j && i' < i + 1))
      ensures 0 <= At(columns, i', j') < |tiles + [tile]|
      ensures TileShows((tiles + [tile])[At(columns, i', j')], tw, th, scene, i' * tw, j' * th)
    {
    }
  }

  lemma RowOfTilesPainted(tiles: seq<seq<bv8>>, columns: int, tw: nat, th: nat, scene: Scene, j: int)
    requires TilesPainted(tiles, columns, tw, th, scene, j, columns) && |tiles| == At(columns, columns, j)
    ensures TilesPainted(tiles, columns, tw, th, scene, j + 1, 0) && |tiles| == At(columns, 0, j + 1)
  {
    assert At(columns, 0, j) + columns == At(columns, columns, j);
    AtSteps(columns, 0, j);
    hide TileShows, At;
    forall i', j' | 0 <= i' < columns && 0 <= j' < j + 1
      ensures 0 <= At(columns, i', j') < |tiles| && TileShows(tiles[At(columns, i', j')], tw, th, scene, i' * tw, j' * th)
    {
      assert j' < j || (j' == j && i' < columns);
    }
  }

  lemma PaintedAssembles(tiles: seq<seq<bv8>>, tw: nat, th: nat, scene: Scene, screen: seq<bv8>, w: nat, h: nat)
    requires 0 < tw && 0 < th && TilesPainted(tiles, w / tw, tw, th, scene, h / th, 0)
    requires forall x, y | 0 <= x < w && 0 <= y < h :: Px(screen, w, x, y) == Picture(scene, x, y)
    ensures Assembled(tiles, tw, th, screen, w, h)
  {
    hide Px, Picture, At;
    forall i, j, x, y | 0 <= i < w / tw && 0 <= j < h / th && 0 <= x < tw && 0 <= y < th
      ensures 0 <= At(w / tw, i, j) < |tiles|
      ensures Px(tiles[At(w / tw, i, j)], tw, x, y) == Px(screen, w, x + i * tw, y + j * th)
    {
      PartFits(tw, w, i);
      PartFits(th, h, j);
      var k := At(w / tw, i, j);
      assert 0 <= k < |tiles| && TileShows(tiles[k], tw, th, scene, i * tw, j * th);
    }
  }

  // When the marked tiles are the tiles that are redrawn

  lemma SameQuotient(a: int, b: int, limit: int, x: int)
    requires 0 < a && 0 < b && 0 <= x < limit && (a == b || limit <= Min(a, b))
    ensures x / a == x / b
  {
    if a != b {
      Lines.DivUnique(x, a, 0, x);
      Lines.DivUnique(x, b, 0, x);
    }
  }

  lemma SquareRow(h: nat, y: int)
    requires 0 < h
    ensures y / h * h / h == y / h && (y / h * h - h) / h == y / h - 1
  {
    var q := y / h;
    Lines.DivUnique(h * q, h, q, 0);
    Lines.OneMore(q - 1, h);
    Lines.DivUnique(h * (q - 1), h, q - 1, 0);
    assert q * h == h * q && q * h - h == h * (q - 1);
  }

  lemma LowRow(h: nat, cell: nat, y: int)
    requires 0 <= y < h && y < cell
    ensures y / h * h == 0 && 0 / cell == y / cell
  {
    Lines.DivUnique(y, h, 0, y);
    Lines.DivUnique(y, cell, 0, y);
  }

  lemma AgreeingRow(g: Grid, y: int)
    requires g.Valid() && g.Agrees() && 0 <= y < g.height
    ensures g.RowRead(y) == y / g.cell && g.FirstRead(y)
  {
    if g.h == g.cell {
      SquareRow(g.h, y);
    } else {
      LowRow(g.h, g.cell, y);
    }
    hide Grid.Valid, Grid.Agrees;
  }

  lemma MarksAgree(g: Grid, flags: seq<bv16>, x: int, y: int)
    requires g.Valid() && g.Agrees() && g.OnScreen(x, y)
    ensures g.Redrawn(flags, x, y) == g.Marked(flags, x, y)
  {
    hide Flag;
    SameQuotient(g.w, g.cell, g.width, x);
    AgreeingRow(g, y);
  }

  /** One flag set, all others clear. */
  function OneMark(rows: nat, r: int, c: int): (flags: seq<bv16>)
    ensures |flags| == rows && forall i | 0 <= i < rows :: flags[i] == if i == r then One(c) else 0
  {
    seq(rows, i => if i == r then One(c) else 0)
  }

  /** A pixel that is marked by the only flag set, and not redrawn. */
  ghost predicate GoesStale(g: Grid, flags: seq<bv16>, x: int, y: int) {
    |flags| == (if g.cell > 0 then g.Rows() else 0) && g.OnScreen(x, y) && g.Marked(flags, x, y) && !g.Redrawn(flags, x, y)
  }

  lemma SmallerQuotient(a: int, b: int)
    requires 0 < a && 0 < b && a != b
    ensures
      var x := Min(a, b);
      x / a != x / b && 0 <= x / a <= 1 && 0 <= x / b <= 1
  {
    var x := Min(a, b);
    Lines.DivUnique(x, x, 1, 0);
    Lines.DivUnique(x, Max(a, b), 0, x);
  }

  /** Columns that disagree: the first column past the narrower of cell and tile. */
  lemma StaleColumn(g: Grid)
    requires g.Valid() && g.w != g.cell && Min(g.w, g.cell) < g.width
    ensures exists flags, x, y :: GoesStale(g, flags, x, y)
  {
    var x := Min(g.w, g.cell);
    SmallerQuotient(g.w, g.cell);
    var flags := OneMark(g.Rows(), 0, x / g.cell);
    CellsOnScreen(g, x, 0);
    Lines.DivUnique(0, g.h, 0, 0);
    Lines.DivUnique(0, g.cell, 0, 0);
    hide Flag, One;
    FlagOne(x / g.cell, x / g.cell);
    FlagOne(x / g.cell, x / g.w);
    assert GoesStale(g, flags, x, 0);
  }

  /** Rows that disagree: the first row past the lower of cell and tile, which is marked in a row of flags that is not
      read for it, or read for the tiles above it first. */
  lemma StaleRow(g: Grid)
    requires g.Valid() && g.h != g.cell && Min(g.h, g.cell) < g.height
    ensures exists flags, x, y :: GoesStale(g, flags, x, y)
  {
    var y := Min(g.h, g.cell);
    SmallerQuotient(g.h, g.cell);
    var flags := OneMark(g.Rows(), y / g.cell, 0);
    CellsOnScreen(g, 0, y);
    Lines.DivUnique(0, g.w, 0, 0);
    Lines.DivUnique(0, g.cell, 0, 0);
    hide Flag, One;
    FlagOne(0, 0);
    FlagAll(0);
    if g.h < g.cell {
      assert g.Top(y) == g.h && g.RowRead(y) == 0 && !g.FirstRead(y);
    } else {
      assert g.Top(y) == 0 && g.RowRead(y) == 0;
    }
    assert GoesStale(g, flags, 0, y);
  }

  /** Every marked pixel of every flags is redrawn exactly when cells and tiles agree in both directions. */
  lemma MarksAreRedrawn(g: Grid)
    requires g.Valid()
    ensures g.Agrees() <==> forall flags, x, y | |flags| == g.Rows() && g.OnScreen(x, y) && g.Marked(flags, x, y) ::
              g.Redrawn(flags, x, y)
  {
    if g.Agrees() {
      forall flags, x, y | |flags| == g.Rows() && g.OnScreen(x, y) && g.Marked(flags, x, y)
        ensures g.Redrawn(flags, x, y)
      {
        MarksAgree(g, flags, x, y);
      }
    } else {
      if g.w != g.cell && Min(g.w, g.cell) < g.width {
        StaleColumn(g);
      } else {
        StaleRow(g);
      }
      var flags, x, y :| GoesStale(g, flags, x, y);
    }
  }

  /** TILE_32x32_MONO on a 128 by 64 display: the mark of pixel (20, 0) alone is lost, and so is that of (0, 20). */
  lemma Tile32GoesStale()
    ensures
      var g := Grid(32, 32, 16, 128, 64);
      && g.Valid() && !g.Agrees()
      && GoesStale(g, OneMark(g.Rows(), 0, 1), 20, 0) && GoesStale(g, OneMark(g.Rows(), 1, 0), 0, 20)
  {
    hide Flag, One;
    FlagOne(1, 1);
    FlagOne(1, 0);
    FlagOne(0, 0);
    FlagAll(0);
  }
}
