/** The 1-bit canvas: a mutable byte array in which every byte holds eight vertical pixels. */
module Canvas1 {
  import opened Bits
  import opened Drawing
  import opened Blit
  import opened Xbm
  import opened Lines
  import opened Scenes

  /** A byte after drawing through a mask, as `|= mask` or `&= ~mask`. */
  function Paint(v: bv8, mask: bv8, lit: bool): bv8 {
    if lit then v | mask else v & !mask
  }

  lemma PaintBit(v: bv8, mask: bv8, lit: bool, k: int)
    requires 0 <= k < 8
    ensures Bit(Paint(v, mask, lit), k) == if Bit(mask, k) then lit else Bit(v, k)
  {
    hide Bit;
    BitOr(v, mask, k);
    BitAnd(v, !mask, k);
    BitNot(mask, k);
  }

  /** Painting one column of one page through a mask changes exactly the masked pixels of that column. */
  lemma PaintPixels(s: seq<bv8>, s': seq<bv8>, w: int, h: int, x: int, bank: int, mask: bv8, lit: bool)
    requires 0 <= x < w && 0 <= bank < h / 8 && h % 8 == 0 && |s| == w * (h / 8)
    requires 0 <= bank * w + x < |s| && s' == s[bank * w + x := Paint(s[bank * w + x], mask, lit)]
    ensures forall X, Y | 0 <= X < w && 0 <= Y < h ::
              Px(s', w, X, Y) == if X == x && Y / 8 == bank && Bit(mask, Y % 8) then lit else Px(s, w, X, Y)
  {
    hide Bit;
    var v := Paint(s[bank * w + x], mask, lit);
    StoreCell(s, s', w, h / 8, x, bank, v);
    forall X, Y | 0 <= X < w && 0 <= Y < h
      ensures Px(s', w, X, Y) == if X == x && Y / 8 == bank && Bit(mask, Y % 8) then lit else Px(s, w, X, Y)
    {
      assert Cell(s', w, X, Y / 8) == if X == x && Y / 8 == bank then v else Cell(s, w, X, Y / 8);
      PaintBit(s[bank * w + x], mask, lit, Y % 8);
    }
  }

  /** Truncation to `uint16_t`, the type of the canvas addresses. */
  function U16(v: int): int {
    v % 0x1_0000
  }

  /** Conversion to `int16_t`. */
  function I16(v: int): int {
    (v + 0x8000) % 0x1_0000 - 0x8000
  }

  lemma Int16Fits(v: int)
    requires -0x8000 <= v <= 0x7FFF
    ensures I16(v) == v
  {
  }

  /** The `uint8_t` column counter of fillRect after `n` steps from column `l`. */
  function Column(l: int, n: nat): Octet {
    U8(l + n)
  }

  /** It passes the right edge after some number of steps exactly when that edge is left of column 255. */
  lemma ColumnLoopEnds(l: Octet, r: int)
    requires l <= r
    ensures (exists n: nat :: Column(l, n) > r) <==> r < 255
  {
    if r < 255 {
      assert Column(l, r + 1 - l) > r;
    }
  }

  class Canvas {
    const w: nat
    const h: nat
    const buf: array<bv8>
    var offX: int
    var offY: int
    var color: bv16
    var transparent: bool

    /** Height divided by 8 and every address within `uint16_t`, as the class documentation demands. */
    ghost predicate Valid()
      reads this
    {
      w > 0 && h > 0 && h % 8 == 0 && h <= 2040 && buf.Length == w * (h / 8) && buf.Length <= 0x1_0000
    }

    ghost function Pen(): Pen
      reads this
    {
      Drawing.Pen(color != 0, transparent)
    }

    constructor (width: nat, height: nat, bytes: array<bv8>)
      requires width > 0 && height > 0 && height % 8 == 0 && height <= 2040
      requires bytes.Length == width * (height / 8) && bytes.Length <= 0x1_0000
      modifies bytes
      ensures Valid() && w == width && h == height && buf == bytes
      ensures offX == 0 && offY == 0 && color == 0xFF && !transparent
      ensures forall i | 0 <= i < buf.Length :: buf[i] == 0
    {
      w, h, buf := width, height, bytes;
      offX, offY := 0, 0;
      color := 0xFF;
      transparent := false;
      new;
      forall i | 0 <= i < buf.Length {
        buf[i] := 0;
      }
    }

    method SetOffset(x: int, y: int)
      modifies `offX, `offY
      ensures offX == x && offY == y
    {
      offX, offY := x, y;
    }

    method SetPen(c: bv16, t: bool)
      modifies `color, `transparent
      ensures color == c && transparent == t && Pen() == Drawing.Pen(c != 0, t)
    {
      color, transparent := c, t;
    }

    /** `m_buf[addr] |= mask` or `m_buf[addr] &= ~mask`, where `addr` is column `x` of page `bank`. */
    method StoreMask(addr: int, ghost x: int, ghost bank: int, mask: bv8, lit: bool)
      requires Valid() && 0 <= x < w && 0 <= bank < h / 8 && addr == At(w, x, bank)
      modifies buf
      ensures forall X, Y | 0 <= X < w && 0 <= Y < h ::
        Px(buf[..], w, X, Y) == if X == x && Y / 8 == bank && Bit(mask, Y % 8) then lit else Px(old(buf[..]), w, X, Y)
    {
      hide Bit, Px, Cell;
      Address(w, h / 8, x, bank);
      ghost var s := buf[..];
      if lit {
        buf[addr] := buf[addr] | mask;
      } else {
        buf[addr] := buf[addr] & !mask;
      }
      PaintPixels(s, buf[..], w, h, x, bank, mask, lit);
    }

    /** The same with the pen. */
    method PaintAt(addr: int, ghost x: int, ghost bank: int, mask: bv8)
      requires Valid() && 0 <= x < w && 0 <= bank < h / 8 && addr == At(w, x, bank)
      modifies buf
      ensures forall X, Y | 0 <= X < w && 0 <= Y < h ::
        Px(buf[..], w, X, Y) ==
          if X == x && Y / 8 == bank && Bit(mask, Y % 8) then color != 0 else Px(old(buf[..]), w, X, Y)
    {
      StoreMask(addr, x, bank, mask, color != 0);
    }

    method Clear()
      requires Valid()
      modifies buf
      ensures Drawn(old(buf[..]), buf[..], w, h, Op.Clear, Pen(), offX, offY)
    {
      forall i | 0 <= i < buf.Length {
        buf[i] := 0;
      }
      forall x, y | 0 <= x < w && 0 <= y < h ensures !Px(buf[..], w, x, y) {
        BitConst(y % 8);
      }
    }

    method PutPixel(x1: int, y1: int)
      requires Valid()
      modifies buf
      ensures Drawn(old(buf[..]), buf[..], w, h, Op.PutPixel(x1, y1), Pen(), offX, offY)
    {
      hide Bit;
      hide Px;
      var x := x1 - offX;
      var y := y1 - offY;
      if x < 0 || y < 0 { return; }
      if x >= w || y >= h { return; }
      AtInRange(w, h / 8, x, y / 8);
      OneRow(y);
      PaintAt(U16(y / 8 * w + x), x, y / 8, 1 << (y % 8));
    }

    method DrawHLine(x1: int, y1: int, x2: int)
      requires Valid()
      modifies buf
      ensures Drawn(old(buf[..]), buf[..], w, h, Op.HLine(x1, y1, x2), Pen(), offX, offY)
    {
      hide Bit;
      hide Px;
      var l, r := x1, x2;
      if r < l { l, r := r, l; }
      l := l - offX;
      r := r - offX;
      var y := y1 - offY;
      if y >= h || y < 0 { return; }
      if r < 0 || l >= w { return; }
      l := Max(0, l);
      r := Min(r, w - 1);
      DrawRow(l, y, r);
    }

    /** The byte-by-byte part of drawHLine, on clipped canvas coordinates. */
    method DrawRow(l: int, y: int, r: int)
      requires Valid() && 0 <= l <= r < w && 0 <= y < h
      modifies buf
      ensures forall X, Y | 0 <= X < w && 0 <= Y < h ::
        Px(buf[..], w, X, Y) == if l <= X <= r && Y == y then color != 0 else Px(old(buf[..]), w, X, Y)
    {
      hide Bit, Px;
      RowAddress16(w, h, l, y);
      var addr := U16(y / 8 * w + l);
      var mask := 1 << (y % 8);
      OneRow(y);
      hide At, U16;
      var x := l;
      while true
        invariant l <= x <= r && addr == At(w, x, y / 8)
        invariant forall X, Y | 0 <= X < w && 0 <= Y < h ::
          Px(buf[..], w, X, Y) == if l <= X < x && Y == y then color != 0 else Px(old(buf[..]), w, X, Y)
        decreases r - x
      {
        PaintAt(addr, x, y / 8, mask);
        addr := U16(addr + 1);
        if !(r > x) { break; }
        AtSteps(w, x, y / 8);
        x := x + 1;
        RowAddress16(w, h, x, y);
      }
    }

    method DrawVLine(x1: int, y1: int, y2: int)
      requires Valid()
      modifies buf
      ensures Drawn(old(buf[..]), buf[..], w, h, Op.VLine(x1, y1, y2), Pen(), offX, offY)
    {
      hide Bit;
      hide Px;
      var t, b := y1, y2;
      if b < t { t, b := b, t; }
      var x := x1 - offX;
      t := t - offY;
      b := b - offY;
      if x >= w || x < 0 { return; }
      if b < 0 || t >= h { return; }
      t := Max(0, t);
      b := Min(b, h - 1);
      DrawColumn(x, t, b);
    }

    /** The bank-by-bank part of drawVLine, on clipped canvas coordinates. */
    method DrawColumn(x: int, t: int, b: int)
      requires Valid() && 0 <= x < w && 0 <= t <= b < h
      modifies buf
      ensures forall X, Y | 0 <= X < w && 0 <= Y < h ::
        Px(buf[..], w, X, Y) == if X == x && t <= Y <= b then color != 0 else Px(old(buf[..]), w, X, Y)
    {
      hide Bit;
      hide Px;
      AtInRange(w, h / 8, x, t / 8);
      var addr := U16(t / 8 * w + x);
      if t / 8 == b / 8 {
        var mask := (0xFF >> (7 + t - b)) << (t % 8);
        assert 7 + t - b == t % 8 + 7 - b % 8;
        assert mask == BankMask(t / 8, t, b);
        BankMaskRows(t / 8, t, b);
        PaintAt(addr, x, t / 8, mask);
      } else {
        DrawTallColumn(addr, x, t, b);
      }
    }

    method DrawTallColumn(address: int, x: int, t: int, b: int)
      requires Valid() && 0 <= x < w && 0 <= t <= b < h && t / 8 < b / 8 && address == At(w, x, t / 8)
      modifies buf
      ensures forall X, Y | 0 <= X < w && 0 <= Y < h ::
        Px(buf[..], w, X, Y) == if X == x && t <= Y <= b then color != 0 else Px(old(buf[..]), w, X, Y)
    {
      hide Bit;
      hide Px;
      var addr := address;
      TopRows(t);
      BottomRows(b);
      FullRows();
      PaintAt(addr, x, t / 8, 0xFF << (t % 8));
      AtSteps(w, x, t / 8);
      addr := addr + w;
      ghost var bank := t / 8 + 1;
      var last := b / 8 * w + x;
      assert last == At(w, x, b / 8);
      hide At;
      AtOrder(w, x, bank, b / 8);
      while addr < last
        invariant t / 8 < bank <= b / 8 && addr == At(w, x, bank)
        invariant addr < last <==> bank < b / 8
        invariant forall X, Y | 0 <= X < w && 0 <= Y < h ::
          Px(buf[..], w, X, Y) ==
            if X == x && t <= Y && Y / 8 < bank then color != 0 else Px(old(buf[..]), w, X, Y)
        decreases b / 8 - bank
      {
        PaintAt(addr, x, bank, 0xFF);
        AtSteps(w, x, bank);
        addr := addr + w;
        bank := bank + 1;
        AtOrder(w, x, bank, b / 8);
      }
      PaintAt(addr, x, bank, 0xFF >> (7 - b % 8));
    }

    method FillRect(x1: int, y1: int, x2: int, y2: int)
      requires Valid()
      requires FillEnds(x1, y1, x2, y2, offX, offY, w, h)
      modifies buf
      ensures Drawn(old(buf[..]), buf[..], w, h, Op.FillRect(x1, y1, x2, y2), Pen(), offX, offY)
    {
      RectInk(x1, y1, x2, y2, Pen());
      hide Bit, Px, Ink;
      var l, r, t, b := x1, x2, y1, y2;
      if r < l { l, r := r, l; }
      if b < t { t, b := b, t; }
      l := l - offX;
      r := r - offX;
      t := t - offY;
      b := b - offY;
      if r < 0 || l >= w { return; }
      if b < 0 || t >= h { return; }
      l := Max(0, l);
      r := Min(r, w - 1);
      t := Max(0, t);
      b := Min(b, h - 1);
      FillBanks(l, t, r, b);
    }

    /** The bank-by-bank part of fillRect, on clipped canvas coordinates. */
    method FillBanks(l: int, t: int, r: int, b: int)
      requires Valid() && 0 <= l <= r < w && r < 255 && 0 <= t <= b < h
      modifies buf
      ensures forall X, Y | 0 <= X < w && 0 <= Y < h ::
        Px(buf[..], w, X, Y) == if l <= X <= r && t <= Y <= b then color != 0 else Px(old(buf[..]), w, X, Y)
    {
      hide Bit;
      hide Px;
      hide BankMask;
      var bank1 := t / 8;
      var bank2 := b / 8;
      var bank := bank1;
      while bank <= bank2
        invariant bank1 <= bank <= bank2 + 1
        invariant forall X, Y | 0 <= X < w && 0 <= Y < h ::
          Px(buf[..], w, X, Y) ==
            if l <= X <= r && t <= Y <= b && Y / 8 < bank then color != 0 else Px(old(buf[..]), w, X, Y)
      {
        var mask := BankMask(bank, t, b);
        FillBank(l, r, bank, mask);
        BankMaskRows(bank, t, b);
        bank := bank + 1;
      }
    }

    method FillBank(l: int, r: int, bank: int, mask: bv8)
      requires Valid() && 0 <= l <= r < w && r < 255 && 0 <= bank < h / 8
      modifies buf
      ensures forall X, Y | 0 <= X < w && 0 <= Y < h ::
        Px(buf[..], w, X, Y) ==
          if l <= X <= r && Y / 8 == bank && Bit(mask, Y % 8) then color != 0 else Px(old(buf[..]), w, X, Y)
    {
      hide Bit;
      hide Px;
      var x := l;
      while x <= r
        invariant l <= x <= r + 1
        invariant forall X, Y | 0 <= X < w && 0 <= Y < h ::
          Px(buf[..], w, X, Y) ==
            if l <= X < x && Y / 8 == bank && Bit(mask, Y % 8) then color != 0 else Px(old(buf[..]), w, X, Y)
      {
        PaintAt(bank * w + x, x, bank, mask);
        x := U8(x + 1);
      }
    }

    method DrawLine(x1: int, y1: int, x2: int, y2: int)
      requires Valid()
      modifies buf
      ensures Drawn(old(buf[..]), buf[..], w, h, Op.Line(x1, y1, x2, y2), Pen(), offX, offY)
    {
      hide Bit;
      hide Px;
      hide LinePoint;
      hide OnLine;
      var dx := if x1 > x2 then x1 - x2 else x2 - x1;
      var dy := if y1 > y2 then y1 - y2 else y2 - y1;
      LineSwap(x1, y1, x2, y2);
      if dy > dx {
        if y1 > y2 {
          SteepLine(x2, y2, x1, y1, dx, dy);
        } else {
          SteepLine(x1, y1, x2, y2, dx, dy);
        }
      } else {
        if x1 > x2 {
          ShallowLine(x2, y2, x1, y1, dx, dy);
        } else {
          ShallowLine(x1, y1, x2, y2, dx, dy);
        }
      }
    }

    method SteepLine(x1: int, y1: int, x2: int, y2: int, dx: nat, dy: nat)
      requires Valid()
      requires dx == Distance(x1, x2) && dy == Distance(y1, y2) && dy > dx && y1 <= y2
      modifies buf
      ensures Drawn(old(buf[..]), buf[..], w, h, Op.Line(x1, y1, x2, y2), Pen(), offX, offY)
    {
      LineInk(x1, y1, x2, y2, Pen());
      PointInk(Pen());
      hide Bit, Px, OnLine, OnLineBefore, Ink;
      var x, y, err := x1, y1, 0;
      ghost var k: nat, q: nat := 0, 0;
      NoPoint(x1, y1, x2, y2);
      AccumulatorStart(dx, dy);
      hide Accumulated;
      while y <= y2
        invariant k <= dy + 1 && y == y1 + k && q <= dx
        invariant Accumulated(dx, dy, k, q, err) && x == Toward(x1, x2, q)
        invariant forall X, Y | 0 <= X < w && 0 <= Y < h ::
          Px(buf[..], w, X, Y) ==
            if OnLineBefore(x1, y1, x2, y2, k, X + offX, Y + offY) then color != 0 else Px(old(buf[..]), w, X, Y)
      {
        AccumulatorStep(dx, dy, k, q, err);
        err := err + dx;
        if err >= dy {
          err := err - dy;
          x := if x < x2 then x + 1 else x - 1;
          q := q + 1;
        }
        assert LinePoint(x1, y1, x2, y2, k) == (x, y);
        hide LinePoint;
        OneMorePoint(x1, y1, x2, y2, k);
        PutPixel(x, y);
        y := y + 1;
        k := k + 1;
      }
      AllPoints(x1, y1, x2, y2);
    }

    method ShallowLine(x1: int, y1: int, x2: int, y2: int, dx: nat, dy: nat)
      requires Valid()
      requires dx == Distance(x1, x2) && dy == Distance(y1, y2) && dy <= dx && x1 <= x2
      modifies buf
      ensures Drawn(old(buf[..]), buf[..], w, h, Op.Line(x1, y1, x2, y2), Pen(), offX, offY)
    {
      LineInk(x1, y1, x2, y2, Pen());
      PointInk(Pen());
      hide Bit, Px, OnLine, OnLineBefore, Ink;
      var x, y, err := x1, y1, 0;
      ghost var k: nat, q: nat := 0, 0;
      NoPoint(x1, y1, x2, y2);
      if dy < dx {
        AccumulatorStart(dy, dx);
      }
      hide Accumulated;
      while x <= x2
        invariant k <= dx + 1 && x == x1 + k && q <= dy
        invariant dy < dx ==> Accumulated(dy, dx, k, q, err) && y == Toward(y1, y2, q)
        invariant dy == dx ==> err == 0 && (k <= dx ==> y == Toward(y1, y2, k))
        invariant forall X, Y | 0 <= X < w && 0 <= Y < h ::
          Px(buf[..], w, X, Y) ==
            if OnLineBefore(x1, y1, x2, y2, k, X + offX, Y + offY) then color != 0 else Px(old(buf[..]), w, X, Y)
      {
        if dy < dx {
          AccumulatorStep(dy, dx, k, q, err);
        }
        err := err + dy;
        if err >= dx {
          err := err - dx;
          y := if y < y2 then y + 1 else y - 1;
          q := if dy < dx then q + 1 else q;
        }
        assert LinePoint(x1, y1, x2, y2, k) == (x, y);
        hide LinePoint;
        OneMorePoint(x1, y1, x2, y2, k);
        PutPixel(x, y);
        x := x + 1;
        k := k + 1;
      }
      AllPoints(x1, y1, x2, y2);
    }

    /** Exactly what the blit does, for every position, size and mode; see Blit for when that is its meaning. */
    method DrawBitmap1(xpos: int, ypos: int, width: nat, height: nat, bits: seq<bv8>)
      requires Valid() && |bits| == width * ((height + 7) / 8)
      requires height <= 2032 && w <= 0x7FFF && width <= 0x7FFF && -0x8000 <= xpos - offX <= 0x7FFF
      modifies buf
      ensures forall X, Y | 0 <= X < w && 0 <= Y < h ::
        Px(buf[..], w, X, Y) ==
          Over(BlitInk(Pen(), bits, xpos - offX, ypos - offY, width, height, w, h, X, Y), Px(old(buf[..]), w, X, Y))
    {
      var x := xpos - offX;
      var y := ypos - offY;
      NothingVisible(Pen(), bits, x, y, width, height, w, h);
      Int16Fits(x);
      Int16Fits(width);
      Int16Fits(w);
      NoInk();
      hide *;
      if y + height <= 0 { return; }
      if y >= h { return; }
      if I16(x) + I16(width) <= 0 { return; }
      if I16(x) >= I16(w) { return; }
      BlitClipped(x, y, width, height, bits);
    }

    /** The clipping of drawBitmap1, for a bitmap that is not entirely outside the canvas. */
    method BlitClipped(x0: int, y0: int, width: nat, height: nat, bits: seq<bv8>)
      requires Valid() && |bits| == width * ((height + 7) / 8) && height <= 2032
      requires 0 < x0 + width && x0 < w && 0 < y0 + height && y0 < h
      modifies buf
      ensures forall X, Y | 0 <= X < w && 0 <= Y < h ::
        Px(buf[..], w, X, Y) ==
          Over(BlitInk(Pen(), bits, x0, y0, width, height, w, h, X, Y), Px(old(buf[..]), w, X, Y))
    {
      FirstByte(width, x0, y0);
      PageCounts(y0, height, h);
      hide BlitInk, Px, At, U8;
      hide TopPage;
      hide BottomPage;
      hide PageLimit;
      var x, y := x0, y0;
      var wd, ht: int := width, height;
      var offs := y % 8;
      var carry := false;
      var ptr := 0;
      if y < 0 {
        ptr := ptr + (-y + 7) / 8 * wd;
        ht := ht + y;
        y := 0;
        carry := true;
      }
      if x < 0 {
        ptr := ptr - x;
        wd := wd + x;
        x := 0;
      }
      var maxPages := U8((ht + 15 - offs) / 8);
      if y + ht > h {
        ht := h - y;
      }
      if x + wd > w {
        wd := w - x;
      }
      var pages := U8((y + ht - 1) / 8 - y / 8 + 1);
      BlitPages(x, y, wd, ptr, offs, carry, maxPages, pages, bits, width, x0, y0, height);
    }

    /** The page loop of drawBitmap1, after clipping. */
    method BlitPages(x: int, y: int, wd: int, start: int, offs: int, carryIn: bool, maxPages: int, pages: int,
                     bits: seq<bv8>, width: nat, ghost x0: int, ghost y0: int, ghost height: nat)
      requires Valid() && |bits| == width * ((height + 7) / 8)
      requires x == Max(x0, 0) && y == Max(y0, 0) && wd == Min(x0 + width, w) - x && offs == y0 % 8
      requires 0 < x0 + width && x0 < w && 0 < y0 + height && y0 < h
      requires carryIn == (y0 < 0) && maxPages == PageLimit(y0, height)
      requires pages == BottomPage(y0, height, h) - TopPage(y0) + 1
      requires start == At(width, x - x0, TopPage(y0) - y0 / 8)
      modifies buf
      ensures forall X, Y | 0 <= X < w && 0 <= Y < h ::
        Px(buf[..], w, X, Y) ==
          Over(BlitInk(Pen(), bits, x0, y0, width, height, w, h, X, Y), Px(old(buf[..]), w, X, Y))
    {
      hide Px;
      hide BlitInk;
      hide At;
      hide PageInk;
      hide TopPage;
      hide BottomPage;
      hide PageLimit;
      var ptr := start;
      var carry := carryIn;
      var main := true;
      var j := 0;
      ghost var top := TopPage(y0);
      assert top == y / 8 by { TopPageIs(y0); }
      PageLimitPositive(y0, height);
      Untouched(Pen(), bits, x0, y0, width, height, w, h);
      while j < pages
        invariant 0 <= j
        invariant ptr == At(width, x - x0, top + j - y0 / 8)
        invariant main == (offs == 0 || j < maxPages)
        invariant carry == if j == 0 then y0 < 0 else offs != 0
        invariant forall X, Y | 0 <= X < w && 0 <= Y < h ::
          Px(buf[..], w, X, Y) ==
            if Y / 8 < top + j
            then Over(BlitInk(Pen(), bits, x0, y0, width, height, w, h, X, Y), Px(old(buf[..]), w, X, Y))
            else Px(old(buf[..]), w, X, Y)
      {
        if j == maxPages - 1 {
          main := offs == 0;
        }
        PageTakes(y0, height, h, top + j);
        BlitBank(x, (y + 8 * j) / 8, wd, ptr, offs, main, carry, bits, width, x0, y0, height);
        AtSteps(width, x - x0, top + j - y0 / 8);
        ptr := ptr + wd;
        ptr := ptr + (width - wd);
        carry := offs != 0;
        j := j + 1;
      }
    }

    method BlitBank(x: int, bank: int, wd: int, start: int, offs: int, main: bool, carry: bool,
                    bits: seq<bv8>, width: nat, ghost x0: int, ghost y0: int, ghost height: nat)
      requires Valid() && |bits| == width * ((height + 7) / 8)
      requires x == Max(x0, 0) && wd == Min(x0 + width, w) - x && offs == y0 % 8
      requires 0 < x0 + width && x0 < w && 0 < y0 + height && y0 < h
      requires TopPage(y0) <= bank <= BottomPage(y0, height, h) && bank < h / 8
      requires start == At(width, x - x0, bank - y0 / 8)
      requires main == TakesMain(y0, height, bank) && carry == TakesCarry(y0, bank)
      modifies buf
      ensures forall X, Y | 0 <= X < w && 0 <= Y < h ::
        Px(buf[..], w, X, Y) ==
          if Y / 8 == bank
          then Over(BlitInk(Pen(), bits, x0, y0, width, height, w, h, X, Y), Px(old(buf[..]), w, X, Y))
          else Px(old(buf[..]), w, X, Y)
    {
      hide Px;
      hide BlitInk;
      hide At;
      hide PageInk;
      hide BottomPage;
      hide TakesMain;
      hide TakesCarry;
      TopPageIs(y0);
      SourceBounds(width, height, x0, y0, w, h, bank, x - x0, wd);
      PageMeans(Pen(), bits, x0, y0, width, height, w, h, bank);
      Untouched(Pen(), bits, x0, y0, width, height, w, h);
      BlitPage(x, bank, wd, start, width, offs, main, carry, bits);
    }

    /** One page of the blit: `wd` columns from column `x`, source bytes from `start`. */
    method BlitPage(x: int, bank: int, wd: int, start: int, pitch: nat, offs: int, main: bool, carry: bool,
                    bits: seq<bv8>)
      requires Valid() && 0 <= x && 0 <= wd && x + wd <= w && 0 <= bank < h / 8 && 0 <= offs < 8
      requires main ==> 0 <= start && start + wd <= |bits|
      requires carry ==> 0 <= start - pitch && start - pitch + wd <= |bits|
      modifies buf
      ensures forall X, Y | 0 <= X < w && 0 <= Y < h ::
        Px(buf[..], w, X, Y) ==
          if x <= X < x + wd && Y / 8 == bank
          then Over(PageInk(Pen(), offs, main, carry, ByteOr0(main, bits, start + X - x),
                            ByteOr0(carry, bits, start - pitch + X - x), Y % 8), Px(old(buf[..]), w, X, Y))
          else Px(old(buf[..]), w, X, Y)
    {
      hide Px;
      hide PageInk;
      hide At;
      AtHere(w, x, bank);
      var addr := bank * w + x;
      var ptr := start;
      var i := wd;
      while i > 0
        invariant 0 <= i <= wd
        invariant ptr == start + wd - i && addr == At(w, x + wd - i, bank)
        invariant forall X, Y | 0 <= X < w && 0 <= Y < h ::
          Px(buf[..], w, X, Y) ==
            if x <= X < x + wd - i && Y / 8 == bank
            then Over(PageInk(Pen(), offs, main, carry, ByteOr0(main, bits, start + X - x),
                              ByteOr0(carry, bits, start - pitch + X - x), Y % 8), Px(old(buf[..]), w, X, Y))
            else Px(old(buf[..]), w, X, Y)
      {
        BlendAt(addr, x + wd - i, bank, offs, main, carry,
                if main then bits[ptr] else 0, if carry then bits[ptr - pitch] else 0);
        AtSteps(w, x + wd - i, bank);
        ptr := ptr + 1;
        addr := addr + 1;
        i := i - 1;
      }
    }

    method BlendAt(addr: int, ghost x: int, ghost bank: int, offs: int, main: bool, carry: bool, cur: bv8, prev: bv8)
      requires Valid() && 0 <= x < w && 0 <= bank < h / 8 && addr == At(w, x, bank) && 0 <= offs < 8
      modifies buf
      ensures forall X, Y | 0 <= X < w && 0 <= Y < h ::
        Px(buf[..], w, X, Y) ==
          if X == x && Y / 8 == bank
          then Over(PageInk(Pen(), offs, main, carry, cur, prev, Y % 8), Px(old(buf[..]), w, X, Y))
          else Px(old(buf[..]), w, X, Y)
    {
      hide Px;
      hide Cell;
      hide PageInk;
      hide At;
      hide ShiftIn;
      hide Merge;
      hide Bit;
      AtInRange(w, h / 8, x, bank);
      ghost var s := buf[..];
      var data := ShiftIn(offs, main, carry, cur, prev);
      var mask := ShiftIn(offs, main, carry, 0xFF, 0xFF);
      buf[addr] := Merge(Drawing.Pen(color != 0, transparent), buf[addr], mask, data);
      BlendPixels(s, buf[..], w, h, x, bank, Pen(), offs, main, carry, cur, prev);
    }

    /** Exactly what the XBM blit does, for every position, size and mode; see Xbm for when that is its meaning. */
    method DrawXBitmap1(xpos: int, ypos: int, width: nat, height: nat, bits: seq<bv8>, beyond: int -> bv8)
      requires Valid()
      modifies buf
      ensures forall X, Y | 0 <= X < w && 0 <= Y < h ::
        Px(buf[..], w, X, Y) ==
          Over(XbmInk(Pen(), bits, beyond, xpos - offX, ypos - offY, width, height, w, h, X, Y),
               Px(old(buf[..]), w, X, Y))
    {
      var x := xpos - offX;
      var y := ypos - offY;
      NoXbm(Pen(), bits, beyond, x, y, width, height, w, h);
      hide XbmInk;
      hide Px;
      if y + height <= 0 { return; }
      if y >= h { return; }
      if x + width <= 0 { return; }
      if x >= w { return; }
      XbmClipped(x, y, width, height, bits, beyond);
    }

    /** The clipping and row loop of drawXBitmap1, for a bitmap that is not entirely outside the canvas. */
    method XbmClipped(x0: int, y0: int, width: nat, height: nat, bits: seq<bv8>, beyond: int -> bv8)
      requires Valid() && 0 < x0 + width && x0 < w && 0 < y0 + height && y0 < h
      modifies buf
      ensures forall X, Y | 0 <= X < w && 0 <= Y < h ::
        Px(buf[..], w, X, Y) ==
          Over(XbmInk(Pen(), bits, beyond, x0, y0, width, height, w, h, X, Y), Px(old(buf[..]), w, X, Y))
    {
      hide Px;
      hide XbmInk;
      hide XbmRowInk;
      var x, y := x0, y0;
      var wd, ht: int := width, height;
      var ptr, startBit := 0, 0;
      if y < 0 {
        ptr := ptr + (wd + 7) / 8 * -y;
        ht := ht + y;
        y := 0;
      }
      if x < 0 {
        ptr := ptr + -x / 8;
        startBit := -x % 8;
        wd := wd + x;
        x := 0;
      }
      if y + ht > h {
        ht := h - y;
      }
      if x + wd > w {
        wd := w - x;
      }
      var pitchDelta := (width + 7 - startBit) / 8 - (wd + 7) / 8;
      XbmGeometry(x0, y0, width, height, w, h);
      assert ptr == StartByte(x0, y0, width) && startBit == StartBit(x0);
      assert wd == VisibleWidth(x0, width, w) && ht == VisibleHeight(y0, height, h);
      XbmLoop(x, y, wd, ht, startBit, ptr, pitchDelta, bits, beyond, x0, y0, width, height);
    }

    /** The row loop of drawXBitmap1, on clipped canvas coordinates. */
    method XbmLoop(x: int, y: int, wd: int, ht: int, startBit: int, start: int, pitchDelta: int, bits: seq<bv8>,
                   beyond: int -> bv8, ghost x0: int, ghost y0: int, ghost width: nat, ghost height: nat)
      requires Valid() && 0 < x0 + width && x0 < w && 0 < y0 + height && y0 < h
      requires x == Max(x0, 0) && y == Max(y0, 0)
      requires wd == VisibleWidth(x0, width, w) && ht == VisibleHeight(y0, height, h)
      requires startBit == StartBit(x0) && start == StartByte(x0, y0, width)
      requires (startBit + wd + 7) / 8 + pitchDelta == RowAdvance(x0, width, w)
      modifies buf
      ensures forall X, Y | 0 <= X < w && 0 <= Y < h ::
        Px(buf[..], w, X, Y) ==
          Over(XbmInk(Pen(), bits, beyond, x0, y0, width, height, w, h, X, Y), Px(old(buf[..]), w, X, Y))
    {
      hide Px;
      hide XbmInk;
      hide XbmRowInk;
      hide RowAdvance;
      hide StartByte;
      XbmRows(Pen(), bits, beyond, x0, y0, width, height, w, h);
      ghost var advance := RowAdvance(x0, width, w);
      var ptr := start;
      var j := 0;
      while j < ht
        invariant 0 <= j <= ht
        invariant ptr == start + j * advance
        invariant forall X, Y | 0 <= X < w && 0 <= Y < h ::
          Px(buf[..], w, X, Y) ==
            if Y < y + j then Over(XbmInk(Pen(), bits, beyond, x0, y0, width, height, w, h, X, Y),
                                   Px(old(buf[..]), w, X, Y))
            else Px(old(buf[..]), w, X, Y)
      {
        var next := XbmRow(x, y + j, wd, startBit, ptr, bits, beyond);
        ptr := next + pitchDelta;
        assert (j + 1) * advance == j * advance + advance;
        j := j + 1;
      }
    }

    /** One row of drawXBitmap1: `wd` pixels from bit `startBit` of the byte at `start`. */
    method XbmRow(x: int, y: int, wd: int, startBit: int, start: int, bits: seq<bv8>, beyond: int -> bv8)
      returns (next: int)
      requires Valid() && 0 <= x && 0 <= wd && x + wd <= w && 0 <= y < h && 0 <= startBit < 8
      modifies buf
      ensures next == start + (startBit + wd + 7) / 8
      ensures forall X, Y | 0 <= X < w && 0 <= Y < h ::
        Px(buf[..], w, X, Y) ==
          if x <= X < x + wd && Y == y
          then Over(XbmRowInk(Pen(), bits, beyond, start, startBit + X - x), Px(old(buf[..]), w, X, Y))
          else Px(old(buf[..]), w, X, Y)
    {
      hide Px;
      hide Bit;
      hide Read;
      var ptr := start;
      var bit := startBit;
      var i := 0;
      while i < wd
        invariant 0 <= i <= wd
        invariant ptr == start + (startBit + i) / 8 && bit == (startBit + i) % 8
        invariant forall X, Y | 0 <= X < w && 0 <= Y < h ::
          Px(buf[..], w, X, Y) ==
            if x <= X < x + i && Y == y
            then Over(XbmRowInk(Pen(), bits, beyond, start, startBit + X - x), Px(old(buf[..]), w, X, Y))
            else Px(old(buf[..]), w, X, Y)
      {
        var data := TestBit(Read(bits, beyond, ptr), bit);
        assert XbmRowInk(Pen(), bits, beyond, start, startBit + i) == BitInk(Pen(), data);
        if data {
          StoreBit(x + i, y, color != 0);
        } else if !transparent {
          StoreBit(x + i, y, color == 0);
        }
        bit := bit + 1;
        if bit >= 8 {
          ptr := ptr + 1;
          bit := 0;
        }
        i := i + 1;
      }
      if bit != 0 {
        ptr := ptr + 1;
      }
      next := ptr;
    }

    /** Sets or clears the single bit of a canvas pixel. */
    method StoreBit(x: int, y: int, lit: bool)
      requires Valid() && 0 <= x < w && 0 <= y < h
      modifies buf
      ensures forall X, Y | 0 <= X < w && 0 <= Y < h ::
        Px(buf[..], w, X, Y) == if X == x && Y == y then lit else Px(old(buf[..]), w, X, Y)
    {
      hide Px, Bit;
      OneRow(y);
      assert y / 8 * w + x == At(w, x, y / 8);
      StoreMask(y / 8 * w + x, x, y / 8, 1 << (y % 8), lit);
    }

    /** Performs one drawing call. */
    method Draw(op: Op)
      requires Valid() && Supported(op, Pen(), offX, offY, w, h)
      modifies buf, `color, `transparent
      ensures Drawn(old(buf[..]), buf[..], w, h, op, old(Pen()), offX, offY)
      ensures Pen() == if op.SetPen? then op.pen else old(Pen())
    {
      hide Px, Ink, BlitInk, XbmInk, Exact, StepsExact;
      match op
      case Clear => Clear();
      case PutPixel(x, y) => PutPixel(x, y);
      case HLine(x1, y1, x2) => DrawHLine(x1, y1, x2);
      case VLine(x1, y1, y2) => DrawVLine(x1, y1, y2);
      case FillRect(x1, y1, x2, y2) => FillRect(x1, y1, x2, y2);
      case Line(x1, y1, x2, y2) => DrawLine(x1, y1, x2, y2);
      case Bitmap(x, y, width, height, bits) =>
        BlitDrawn(Pen(), bits, x - offX, y - offY, width, height, w, h, offX, offY);
        DrawBitmap1(x, y, width, height, bits);
      case XBitmap(x, y, width, height, bits) =>
        var beyond := _ => 0;
        XbmDrawn(Pen(), bits, beyond, x - offX, y - offY, width, height, w, h, offX, offY);
        DrawXBitmap1(x, y, width, height, bits, beyond);
      case SetPen(pen) =>
        SetPenDrawn(pen);
        SetPen(if pen.lit then 0xFFFF else 0, pen.transparent);
    }

    /** Performs a list of drawing calls. */
    method Play(ops: seq<Op>)
      requires Valid() && AllSupported(ops, Pen(), offX, offY, w, h)
      modifies buf, `color, `transparent
      ensures Played(old(buf[..]), buf[..], w, h, ops, old(Pen()), |ops|, offX, offY)
    {
      hide Px;
      hide Drawn;
      hide Supported;
      var i := 0;
      while i < |ops|
        invariant 0 <= i <= |ops|
        invariant Pen() == PenBefore(ops, old(Pen()), i)
        invariant Played(old(buf[..]), buf[..], w, h, ops, old(Pen()), i, offX, offY)
      {
        ghost var s := buf[..];
        Draw(ops[i]);
        PlayedStep(old(buf[..]), s, buf[..], w, h, ops, old(Pen()), i, offX, offY);
        i := i + 1;
      }
    }

    /** A draw callback: sets its pen, clears the canvas and paints the scene. */
    method Paint(scene: Scene)
      requires Valid() && AllSupported(scene.ops, scene.pen, offX, offY, w, h)
      modifies buf, `color, `transparent
      ensures forall x, y | 0 <= x < w && 0 <= y < h :: Px(buf[..], w, x, y) == Picture(scene, x + offX, y + offY)
    {
      hide Px, Shade, AllSupported;
      SetPen(if scene.pen.lit then 0xFFFF else 0, scene.pen.transparent);
      assert Pen() == scene.pen;
      Clear();
      ghost var s := buf[..];
      assert forall x, y | 0 <= x < w && 0 <= y < h :: !Px(s, w, x, y);
      hide Drawn;
      Play(scene.ops);
    }
  }

  /** The ink of a rectangle with its corners in order. */
  lemma RectInk(x1: int, y1: int, x2: int, y2: int, pen: Pen)
    ensures forall x, y :: Ink(Op.FillRect(x1, y1, x2, y2), pen, x, y) ==
              if Min(x1, x2) <= x <= Max(x1, x2) && Min(y1, y2) <= y <= Max(y1, y2) then Some(pen.lit) else None
  {
  }

  /** The ink of a line. */
  lemma LineInk(x1: int, y1: int, x2: int, y2: int, pen: Pen)
    ensures forall x, y :: Ink(Op.Line(x1, y1, x2, y2), pen, x, y) ==
              if OnLine(x1, y1, x2, y2, x, y) then Some(pen.lit) else None
  {
  }

  lemma PointInk(pen: Pen)
    ensures forall px, py, x, y :: Ink(Op.PutPixel(px, py), pen, x, y) ==
              if x == px && y == py then Some(pen.lit) else None
  {
  }

  lemma NoInk()
    ensures forall under :: Over(None, under) == under
  {
  }

  lemma SetPenDrawn(p: Pen)
    ensures forall pen, x, y :: Ink(Op.SetPen(p), pen, x, y) == None
  {
  }

  lemma BlitDrawn(pen: Pen, bits: seq<bv8>, x0: int, y0: int, bw: nat, bh: nat, w: nat, h: nat, ox: int, oy: int)
    requires h % 8 == 0 && Exact(pen, x0, y0, bw, bh, w, h)
    ensures forall X, Y | 0 <= X < w && 0 <= Y < h ::
              BlitInk(pen, bits, x0, y0, bw, bh, w, h, X, Y)
              == Ink(Bitmap(x0 + ox, y0 + oy, bw, bh, bits), pen, X + ox, Y + oy)
  {
    forall X, Y | 0 <= X < w && 0 <= Y < h
      ensures BlitInk(pen, bits, x0, y0, bw, bh, w, h, X, Y)
              == Ink(Bitmap(x0 + ox, y0 + oy, bw, bh, bits), pen, X + ox, Y + oy)
    {
      hide BlitInk;
      hide Exact;
      ExactSuffices(pen, bits, x0, y0, bw, bh, w, h, X, Y);
    }
  }

  lemma XbmDrawn(pen: Pen, bits: seq<bv8>, beyond: int -> bv8, x0: int, y0: int, bw: nat, bh: nat, w: nat, h: nat,
                 ox: int, oy: int)
    requires |bits| == Pitch(bw) * bh && StepsExact(x0, y0, bw, bh, w, h)
    ensures forall X, Y | 0 <= X < w && 0 <= Y < h ::
              XbmInk(pen, bits, beyond, x0, y0, bw, bh, w, h, X, Y)
              == Ink(XBitmap(x0 + ox, y0 + oy, bw, bh, bits), pen, X + ox, Y + oy)
  {
    forall X, Y | 0 <= X < w && 0 <= Y < h
      ensures XbmInk(pen, bits, beyond, x0, y0, bw, bh, w, h, X, Y)
              == Ink(XBitmap(x0 + ox, y0 + oy, bw, bh, bits), pen, X + ox, Y + oy)
    {
      hide XbmInk;
      hide StepsExact;
      StepsSuffice(pen, bits, beyond, x0, y0, bw, bh, w, h, X, Y);
    }
  }

  function ByteOr0(valid: bool, bits: seq<bv8>, i: int): bv8 {
    if valid && 0 <= i < |bits| then bits[i] else 0
  }

  /** Whether page `p` of the canvas takes bits from the bitmap page that starts in it. */
  predicate TakesMain(y0: int, height: nat, p: int) {
    y0 % 8 == 0 || p - TopPage(y0) < PageLimit(y0, height) - 1
  }

  /** Whether page `p` of the canvas takes the rest of the bitmap page that starts in the page above. */
  predicate TakesCarry(y0: int, p: int) {
    if p == TopPage(y0) then y0 < 0 else y0 % 8 != 0
  }

  lemma PageTakes(y0: int, height: nat, h: nat, p: int)
    requires h % 8 == 0 && 0 <= p <= BottomPage(y0, height, h)
    ensures p < h / 8
    ensures TakesMain(y0, height, p) <==> y0 % 8 == 0 || p - TopPage(y0) < PageLimit(y0, height) - 1
    ensures TakesCarry(y0, p) <==> if p == TopPage(y0) then y0 < 0 else y0 % 8 != 0
  {
  }

  lemma SourcePages(y0: int, height: nat, h: nat, p: int)
    requires 0 < y0 + height && TopPage(y0) <= p <= BottomPage(y0, height, h)
    ensures TakesMain(y0, height, p) ==> 0 <= p - y0 / 8 < (height + 7) / 8
    ensures TakesCarry(y0, p) ==> 0 <= p - y0 / 8 - 1 < (height + 7) / 8
  {
    var m := p - y0 / 8;
    RowConditions(y0, height, h, 8 * p + 7, p, 7, y0 / 8, y0 % 8);
    assert 8 * m < height + y0 % 8 + 8 * 0 + 8;
  }

  lemma RowBounds(width: nat, pages: int, c: int, wd: int, m: int)
    requires 0 <= m < pages && 0 <= c && 0 <= wd && c + wd <= width
    ensures 0 <= At(width, c, m) && At(width, c, m) + wd <= width * pages
  {
    MulLe(0, m, width);
    MulLe(m + 1, pages, width);
  }

  /** Every byte the blit reads for page `p` lies inside the bitmap. */
  lemma SourceBounds(width: nat, height: nat, x0: int, y0: int, w: nat, h: nat, p: int, c: int, wd: int)
    requires 0 < y0 + height && TopPage(y0) <= p <= BottomPage(y0, height, h)
    requires 0 <= c && 0 <= wd && c + wd <= width
    ensures TakesMain(y0, height, p) ==>
              0 <= At(width, c, p - y0 / 8) && At(width, c, p - y0 / 8) + wd <= width * ((height + 7) / 8)
    ensures TakesCarry(y0, p) ==>
              && 0 <= At(width, c, p - y0 / 8) - width
              && At(width, c, p - y0 / 8) - width + wd <= width * ((height + 7) / 8)
  {
    SourcePages(y0, height, h, p);
    if TakesMain(y0, height, p) {
      RowBounds(width, (height + 7) / 8, c, wd, p - y0 / 8);
    }
    if TakesCarry(y0, p) {
      AtSteps(width, c, p - y0 / 8 - 1);
      RowBounds(width, (height + 7) / 8, c, wd, p - y0 / 8 - 1);
    }
  }

  /** The assembled rows of page `p` are the blit's rows. */
  lemma PageMeans(pen: Pen, bits: seq<bv8>, x0: int, y0: int, width: nat, height: nat, w: nat, h: nat, p: int)
    requires 0 < x0 + width && x0 < w && 0 < y0 + height && y0 < h
    requires TopPage(y0) <= p <= BottomPage(y0, height, h)
    ensures
      var x := Max(x0, 0);
      var start := At(width, x - x0, p - y0 / 8);
      var main, carry := TakesMain(y0, height, p), TakesCarry(y0, p);
      forall X, Y | x <= X < Min(x0 + width, w) && Y / 8 == p ::
        PageInk(pen, y0 % 8, main, carry, ByteOr0(main, bits, start + X - x),
                ByteOr0(carry, bits, start - width + X - x), Y % 8)
        == BlitInk(pen, bits, x0, y0, width, height, w, h, X, Y)
  {
    forall X, Y | Max(x0, 0) <= X < Min(x0 + width, w) && Y / 8 == p
      ensures
        var x := Max(x0, 0);
        var start := At(width, x - x0, p - y0 / 8);
        var main, carry := TakesMain(y0, height, p), TakesCarry(y0, p);
        PageInk(pen, y0 % 8, main, carry, ByteOr0(main, bits, start + X - x),
                ByteOr0(carry, bits, start - width + X - x), Y % 8)
        == BlitInk(pen, bits, x0, y0, width, height, w, h, X, Y)
    {
      RowMeans(pen, bits, x0, y0, width, height, w, h, X, Y);
    }
  }

  lemma RowMeans(pen: Pen, bits: seq<bv8>, x0: int, y0: int, width: nat, height: nat, w: nat, h: nat, X: int, Y: int)
    requires 0 < x0 + width && x0 < w && 0 < y0 + height && y0 < h
    requires Max(x0, 0) <= X < Min(x0 + width, w) && TopPage(y0) <= Y / 8 <= BottomPage(y0, height, h)
    ensures
      var x := Max(x0, 0);
      var start := At(width, x - x0, Y / 8 - y0 / 8);
      var main, carry := TakesMain(y0, height, Y / 8), TakesCarry(y0, Y / 8);
      PageInk(pen, y0 % 8, main, carry, ByteOr0(main, bits, start + X - x),
              ByteOr0(carry, bits, start - width + X - x), Y % 8)
      == BlitInk(pen, bits, x0, y0, width, height, w, h, X, Y)
  {
    hide Bit;
    hide BitInk;
    hide PageLimit;
    hide BottomPage;
    var m, r, o := Y / 8 - y0 / 8, Y % 8, y0 % 8;
    SourcePages(y0, height, h, Y / 8);
    assert Y - y0 == 8 * m + r - o;
    AtSteps(width, X - x0, m - 1);
    if r >= o {
      assert (Y - y0) / 8 == m && (Y - y0) % 8 == r - o;
    } else {
      assert (Y - y0) / 8 == m - 1 && (Y - y0) % 8 == r - o + 8;
    }
  }

  lemma AtHere(w: int, x: int, bank: int)
    ensures At(w, x, bank) == bank * w + x
  {
  }

  lemma TopPageIs(y0: int)
    ensures TopPage(y0) == Max(y0, 0) / 8
  {
  }

  lemma PageLimitPositive(y0: int, height: nat)
    requires 0 < y0 + height
    ensures 0 < PageLimit(y0, height)
  {
  }

  /** Blending one byte changes its column of its page as PageInk says, and nothing else. */
  lemma BlendPixels(s: seq<bv8>, s': seq<bv8>, w: int, h: int, x: int, bank: int,
                    pen: Pen, offs: int, main: bool, carry: bool, cur: bv8, prev: bv8)
    requires 0 <= x < w && 0 <= bank < h / 8 && h % 8 == 0 && |s| == w * (h / 8) && 0 <= offs < 8
    requires 0 <= At(w, x, bank) < |s|
    requires s' == s[At(w, x, bank) := Blend(pen, offs, main, carry, cur, prev, s[At(w, x, bank)])]
    ensures forall X, Y | 0 <= X < w && 0 <= Y < h ::
              Px(s', w, X, Y) ==
                if X == x && Y / 8 == bank
                then Over(PageInk(pen, offs, main, carry, cur, prev, Y % 8), Px(s, w, X, Y))
                else Px(s, w, X, Y)
  {
    hide Bit;
    hide Blend;
    hide PageInk;
    var v := Blend(pen, offs, main, carry, cur, prev, s[At(w, x, bank)]);
    StoreCell(s, s', w, h / 8, x, bank, v);
    forall X, Y | 0 <= X < w && 0 <= Y < h
      ensures Px(s', w, X, Y) ==
                if X == x && Y / 8 == bank
                then Over(PageInk(pen, offs, main, carry, cur, prev, Y % 8), Px(s, w, X, Y))
                else Px(s, w, X, Y)
    {
      assert Cell(s', w, X, Y / 8) == if X == x && Y / 8 == bank then v else Cell(s, w, X, Y / 8);
      BlendBit(pen, offs, main, carry, cur, prev, s[At(w, x, bank)], Y % 8);
    }
  }

  lemma NothingVisible(pen: Pen, bits: seq<bv8>, x0: int, y0: int, width: nat, height: nat, w: nat, h: nat)
    ensures x0 + width <= 0 || w <= x0 || y0 + height <= 0 || h <= y0 ==>
              forall X, Y :: BlitInk(pen, bits, x0, y0, width, height, w, h, X, Y) == None
  {
  }

  /** The source byte of the first visible pixel, reached by whole pages and then columns. */
  lemma FirstByte(width: nat, x0: int, y0: int)
    ensures (if y0 < 0 then (-y0 + 7) / 8 * width else 0) + (if x0 < 0 then -x0 else 0)
            == At(width, Max(x0, 0) - x0, TopPage(y0) - y0 / 8)
  {
    assert y0 < 0 ==> (-y0 + 7) / 8 == -(y0 / 8);
  }

  /** The page counters of the clipped bitmap fit their `uint8_t`. */
  lemma PageCounts(y0: int, height: nat, h: nat)
    requires height <= 2032 && h <= 2040 && 0 < y0 + height && y0 < h
    ensures
      var y := Max(y0, 0);
      && U8(((if y0 < 0 then height + y0 else height) + 15 - y0 % 8) / 8) == PageLimit(y0, height)
      && U8((Min(y0 + height, h) - 1) / 8 - y / 8 + 1) == BottomPage(y0, height, h) - TopPage(y0) + 1
  {
  }

  /** A pixel's address fits its `uint16_t`. */
  lemma RowAddress16(w: nat, h: nat, x: int, y: int)
    requires 0 <= x < w && 0 <= y < h && h % 8 == 0 && w * (h / 8) <= 0x1_0000
    ensures U16(y / 8 * w + x) == At(w, x, y / 8) && U16(At(w, x, y / 8)) == At(w, x, y / 8)
  {
    AtInRange(w, h / 8, x, y / 8);
  }

  lemma OneRow(y: int)
    ensures forall Y | Y / 8 == y / 8 :: Bit(1 << (y % 8), Y % 8) == (Y == y)
  {
    forall Y | Y / 8 == y / 8 ensures Bit(1 << (y % 8), Y % 8) == (Y == y) {
      hide Bit;
      BitOne(y % 8, Y % 8);
    }
  }

  lemma FullRows()
    ensures forall Y :: Bit(0xFF, Y % 8)
  {
    forall Y ensures Bit(0xFF, Y % 8) {
      BitConst(Y % 8);
    }
  }

  /** The mask of rows `t..b` within one of the pages they span. */
  function BankMask(bank: int, t: int, b: int): bv8
    requires 0 <= t <= b && t / 8 <= bank <= b / 8
  {
    if t / 8 == b / 8 then (0xFF >> (t % 8 + 7 - b % 8)) << (t % 8)
    else if t / 8 == bank then 0xFF << (t % 8)
    else if b / 8 == bank then 0xFF >> (7 - b % 8)
    else 0xFF
  }

  lemma TopRows(t: int)
    ensures forall y | y / 8 == t / 8 :: Bit(0xFF << (t % 8), y % 8) == (t <= y)
  {
    forall y | y / 8 == t / 8 ensures Bit(0xFF << (t % 8), y % 8) == (t <= y) {
      hide Bit;
      BitShl(0xFF, t % 8, y % 8);
      BitConst(y % 8 - t % 8);
    }
  }

  lemma BottomRows(b: int)
    ensures forall y | y / 8 == b / 8 :: Bit(0xFF >> (7 - b % 8), y % 8) == (y <= b)
  {
    forall y | y / 8 == b / 8 ensures Bit(0xFF >> (7 - b % 8), y % 8) == (y <= b) {
      hide Bit;
      BitShr(0xFF, 7 - b % 8, y % 8);
      BitConst(y % 8 + 7 - b % 8);
    }
  }

  lemma BankMaskRows(bank: int, t: int, b: int)
    requires 0 <= t <= b && t / 8 <= bank <= b / 8
    ensures forall y | y / 8 == bank :: Bit(BankMask(bank, t, b), y % 8) == (t <= y <= b)
  {
    hide Bit;
    if t / 8 == b / 8 {
      forall y | y / 8 == bank ensures Bit(BankMask(bank, t, b), y % 8) == (t <= y <= b) {
        BitBand(t % 8, b % 8, y % 8);
      }
    } else if t / 8 == bank {
      TopRows(t);
    } else if b / 8 == bank {
      BottomRows(b);
    } else {
      FullRows();
    }
  }
}
