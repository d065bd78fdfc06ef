/** The 8-bit and 16-bit colour canvases: one or two bytes to a pixel, rows of pixels one after the other. */
module CanvasRgb {
  import opened Bits
  import opened Drawing
  import opened Blit
  import opened Xbm

  /** A pixel value; 8-bit canvases use `lo` only. */
  datatype Color = Color(hi: bv8, lo: bv8)

  const NO_COLOR := Color(0, 0)

  /** The pixel with index `p`. */
  function PixelAt(s: seq<bv8>, bytes: nat, p: int): Color {
    if bytes == 1 then (if 0 <= p < |s| then Color(0, s[p]) else NO_COLOR)
    else if 0 <= p && 2 * p + 1 < |s| then Color(s[2 * p], s[2 * p + 1])
    else NO_COLOR
  }

  function Pixel(s: seq<bv8>, bytes: nat, w: nat, x: int, y: int): Color {
    PixelAt(s, bytes, At(w, x, y))
  }

  /** The colour a monochrome call gives a pixel: its set pixels take the pen colour, its cleared ones are black. */
  function Tint(ink: Option<bool>, color: Color, under: Color): Color {
    match ink
    case None => under
    case Some(set_) => if set_ then color else NO_COLOR
  }

  /** Pixel (x, y) in memory: two bytes, the high one first, or one; and the colour of a cleared pixel, black. */
  lemma PixelBytes(s: seq<bv8>, w: nat, h: nat, x: int, y: int, color: Color, under: Color)
    requires 0 <= x < w && 0 <= y < h
    ensures 0 <= y * w + x < w * h
    ensures |s| == 2 * (w * h) ==> Pixel(s, 2, w, x, y) == Color(s[2 * (y * w + x)], s[2 * (y * w + x) + 1])
    ensures |s| == w * h ==> Pixel(s, 1, w, x, y) == Color(0, s[y * w + x])
    ensures Tint(Some(true), color, under) == color && Tint(Some(false), color, under) == Color(0, 0)
    ensures Tint(None, color, under) == under
  {
    Address(w, h, x, y);
  }

  class Canvas {
    /** Bytes per pixel. */
    const bytes: nat
    const w: nat
    const h: nat
    const buf: array<bv8>
    var offX: int
    var offY: int
    var color: Color
    var transparent: bool

    ghost predicate Valid()
      reads this
    {
      && (bytes == 1 || bytes == 2) && w > 0 && h > 0
      && buf.Length == bytes * (w * h) && buf.Length <= 0x1_0000
    }

    /** The pen colour as this canvas stores it. */
    function Stored(): Color
      reads this
    {
      if bytes == 1 then Color(0, color.lo) else color
    }

    ghost function Pen(): Pen
      reads this
    {
      Drawing.Pen(true, transparent)
    }

    /** Canvas pixel (x, y). */
    ghost function Show(x: int, y: int): Color
      reads this, buf
    {
      Pixel(buf[..], bytes, w, x, y)
    }

    constructor (bytesPerPixel: nat, width: nat, height: nat, memory: array<bv8>)
      requires (bytesPerPixel == 1 || bytesPerPixel == 2) && width > 0 && height > 0
      requires memory.Length == bytesPerPixel * (width * height) && memory.Length <= 0x1_0000
      modifies memory
      ensures Valid() && bytes == bytesPerPixel && w == width && h == height && buf == memory
      ensures offX == 0 && offY == 0 && !transparent && color == Color(0xFF, 0xFF)
      ensures forall i | 0 <= i < buf.Length :: buf[i] == 0
    {
      bytes, w, h, buf := bytesPerPixel, width, height, memory;
      offX, offY, color, transparent := 0, 0, Color(0xFF, 0xFF), false;
      new;
      forall i | 0 <= i < buf.Length {
        buf[i] := 0;
      }
    }

    /** `setColor`: the high byte first, as a 16-bit canvas stores it. */
    method SetColor(c: bv16)
      modifies `color
      ensures color == Color((c >> 8) as bv8, (c & 0xFF) as bv8)
    {
      color := Color((c >> 8) as bv8, (c & 0xFF) as bv8);
    }

    /** Stores a colour in the pixel with index `p`: one byte, or two with the high one first. */
    method StoreBytes(p: int, c: Color)
      requires Valid() && 0 <= p < w * h
      modifies buf
      ensures bytes == 1 ==> buf[..] == old(buf[..])[p := c.lo]
      ensures bytes == 2 ==> buf[..] == old(buf[..])[2 * p := c.hi][2 * p + 1 := c.lo]
    {
      if bytes == 1 {
        buf[p] := c.lo;
      } else {
        buf[2 * p] := c.hi;
        buf[2 * p + 1] := c.lo;
      }
    }

    /** Stores a colour in pixel (x, y), which has index `p`. */
    method StorePixel(p: int, c: Color, ghost x: int, ghost y: int)
      requires Valid() && 0 <= x < w && 0 <= y < h && p == At(w, x, y)
      modifies buf
      ensures forall X, Y | 0 <= X < w && 0 <= Y < h ::
        Show(X, Y) == if X == x && Y == y then (if bytes == 1 then Color(0, c.lo) else c) else old(Show(X, Y))
    {
      AtInRange(w, h, x, y);
      StoreBytes(p, c);
      forall X, Y | 0 <= X < w && 0 <= Y < h
        ensures Show(X, Y) == if X == x && Y == y then (if bytes == 1 then Color(0, c.lo) else c) else old(Show(X, Y))
      {
        AtInRange(w, h, X, Y);
        if At(w, X, Y) == p {
          AddressInjective(w, X, Y, x, y);
        }
      }
    }

    method PutPixel(x1: int, y1: int)
      requires Valid()
      modifies buf
      ensures forall X, Y | 0 <= X < w && 0 <= Y < h ::
        Show(X, Y) == Tint(Ink(Op.PutPixel(x1, y1), Pen(), X + offX, Y + offY), Stored(), old(Show(X, Y)))
    {
      hide Pixel;
      var x := x1 - offX;
      var y := y1 - offY;
      if x >= 0 && y >= 0 && x < w && y < h {
        assert y * w + x == At(w, x, y);
        StorePixel(y * w + x, color, x, y);
      }
    }

    method FillRect(x1: int, y1: int, x2: int, y2: int)
      requires Valid()
      modifies buf
      ensures forall X, Y | 0 <= X < w && 0 <= Y < h ::
        Show(X, Y) == Tint(Ink(Op.FillRect(x1, y1, x2, y2), Pen(), X + offX, Y + offY), Stored(), old(Show(X, Y)))
    {
      hide Pixel;
      var l, t, r, b := x1, y1, x2, y2;
      if t > b { t, b := b, t; }
      if l > r { l, r := r, l; }
      l := l - offX;
      t := t - offY;
      r := r - offX;
      b := b - offY;
      if r < 0 || l >= w { return; }
      if b < 0 || t >= h { return; }
      l := Max(l, 0);
      r := Min(r, w - 1);
      t := Max(t, 0);
      b := Min(b, h - 1);
      FillRows(l, t, r, b);
    }

    /** The row-by-row part of fillRect, on clipped canvas coordinates. */
    method FillRows(l: int, t: int, r: int, b: int)
      requires Valid() && 0 <= l <= r < w && 0 <= t <= b < h
      modifies buf
      ensures forall X, Y | 0 <= X < w && 0 <= Y < h ::
        Show(X, Y) == if l <= X <= r && t <= Y <= b then Stored() else old(Show(X, Y))
    {
      hide Pixel;
      var p := t * w + l;
      assert p == At(w, l, t);
      hide At;
      var y := t;
      while y <= b
        invariant t <= y <= b + 1 && p == At(w, l, y)
        invariant forall X, Y | 0 <= X < w && 0 <= Y < h ::
          Show(X, Y) == if l <= X <= r && t <= Y < y then Stored() else old(Show(X, Y))
      {
        var x := l;
        while x <= r
          invariant l <= x <= r + 1 && p == At(w, x, y)
          invariant forall X, Y | 0 <= X < w && 0 <= Y < h ::
            Show(X, Y) == if (l <= X <= r && t <= Y < y) || (l <= X < x && Y == y) then Stored() else old(Show(X, Y))
        {
          StorePixel(p, color, x, y);
          AtSteps(w, x, y);
          p := p + 1;
          x := x + 1;
        }
        AtColumns(w, l, r + 1, y);
        AtSteps(w, l, y);
        p := p + (w - (r - l + 1));
        y := y + 1;
      }
    }

    /** Draws a packed monochrome bitmap of any height at any position. */
    method DrawBitmap1(xpos: int, ypos: int, width: nat, height: nat, bits: seq<bv8>)
      requires Valid() && |bits| == width * ((height + 7) / 8)
      modifies buf
      ensures forall X, Y | 0 <= X < w && 0 <= Y < h ::
        Show(X, Y) == Tint(Ink(Bitmap(xpos, ypos, width, height, bits), Pen(), X + offX, Y + offY), Stored(),
                           old(Show(X, Y)))
    {
      hide Pixel;
      hide PackedBit;
      var x1 := xpos - offX;
      var y1 := ypos - offY;
      var x2 := x1 + width - 1;
      var y2 := y1 + height - 1;
      if x2 < 0 || x1 >= w { return; }
      if y2 < 0 || y1 >= h { return; }
      BitmapClipped(x1, y1, width, height, bits);
    }

    /** The clipping and page loop of drawBitmap1, for a bitmap that is not entirely outside the canvas. */
    method BitmapClipped(x0: int, y0: int, width: nat, height: nat, bits: seq<bv8>)
      requires Valid() && |bits| == width * ((height + 7) / 8)
      requires 0 < x0 + width && x0 < w && 0 < y0 + height && y0 < h
      modifies buf
      ensures forall X, Y | 0 <= X < w && 0 <= Y < h ::
        Show(X, Y) ==
          if 0 <= X - x0 < width && 0 <= Y - y0 < height
          then Tint(BitInk(Pen(), PackedBit(bits, width, X - x0, Y - y0)), Stored(), old(Show(X, Y)))
          else old(Show(X, Y))
    {
      hide Pixel;
      hide PackedBit;
      hide BitInk;
      hide Tint;
      var offs, ptr := 0, 0;
      var x1, y1, x2, y2 := x0, y0, x0 + width - 1, y0 + height - 1;
      if x1 < 0 {
        ptr := ptr - x1;
        x1 := 0;
      }
      if y1 < 0 {
        ptr := ptr + -y1 / 8 * width;
        offs := -y1 % 8;
        y1 := 0;
      }
      if y2 >= h {
        y2 := h - 1;
      }
      if x2 >= w {
        x2 := w - 1;
      }
      var step := 8 - offs;
      var y := y1;
      ghost var m := if y0 < 0 then -y0 / 8 else 0;
      assert ptr == At(width, x1 - x0, m);
      hide At;
      while y <= y2
        invariant y1 <= y && 0 <= m && step == 8 - offs && 0 <= offs < 8 && y - y0 == 8 * m + offs
        invariant ptr == At(width, x1 - x0, m)
        invariant forall X, Y | 0 <= X < w && 0 <= Y < h ::
          if 0 <= X - x0 < width && 0 <= Y - y0 < height
          then if Y < y
               then Show(X, Y) == Tint(BitInk(Pen(), PackedBit(bits, width, X - x0, Y - y0)), Stored(), old(Show(X, Y)))
               else transparent ==> Show(X, Y) == old(Show(X, Y))
          else Show(X, Y) == old(Show(X, Y))
      {
        RowBytes(width, (height + 7) / 8, x1 - x0, x2 - x0, m);
        label before:
        DrawPass(x1, x2, y, Min(y2 - y + 1, 8), offs, ptr, bits);
        forall X, Y | x1 <= X <= x2 && y <= Y <= y2
          ensures Y < y + step ==>
                    Show(X, Y) == Tint(BitInk(Pen(), PackedBit(bits, width, X - x0, Y - y0)), Stored(), old(Show(X, Y)))
          ensures Y >= y + step && transparent ==> Show(X, Y) == old(Show(X, Y))
        {
          PassRow(bits, width, X - x0, x1 - x0, Y - y0, m, Y - y + offs);
          TintOpaque(Pen(), Stored(), old@before(Show(X, Y)), old(Show(X, Y)));
        }
        AtSteps(width, x1 - x0, m);
        ptr := ptr + (x2 - x1 + 1);
        ptr := ptr + (width - (x2 - x1 + 1));
        y := y + step;
        offs := 0;
        step := 8;
        m := m + 1;
      }
    }

    /** One pass: columns x1..x2, `rows` rows from `y`, each column from one source byte, first row at bit `offs`. */
    method DrawPass(x1: int, x2: int, y: int, rows: int, offs: int, start: int, bits: seq<bv8>)
      requires Valid() && 0 <= x1 && x2 < w && 0 <= y && 0 <= rows && y + rows <= h && 0 <= offs
      requires 0 <= start && (x1 <= x2 ==> start + x2 - x1 < |bits|)
      modifies buf
      ensures forall X, Y | 0 <= X < w && 0 <= Y < h ::
        Show(X, Y) ==
          if x1 <= X <= x2 && y <= Y < y + rows
          then Tint(BitInk(Pen(), Bit(bits[start + X - x1], Y - y + offs)), Stored(), old(Show(X, Y)))
          else old(Show(X, Y))
    {
      hide Pixel;
      hide Bit;
      hide BitInk;
      hide Tint;
      var ptr := start;
      var x := x1;
      while x <= x2
        invariant x1 <= x && (x <= x2 + 1 || x == x1) && ptr == start + x - x1
        invariant forall X, Y | 0 <= X < w && 0 <= Y < h ::
          Show(X, Y) ==
            if x1 <= X < x && y <= Y < y + rows
            then Tint(BitInk(Pen(), Bit(bits[start + X - x1], Y - y + offs)), Stored(), old(Show(X, Y)))
            else old(Show(X, Y))
      {
        DrawColumn(x, y, rows, offs, bits[ptr]);
        ptr := ptr + 1;
        x := x + 1;
      }
    }

    method DrawColumn(x: int, y: int, rows: int, offs: int, data: bv8)
      requires Valid() && 0 <= x < w && 0 <= y && 0 <= rows && y + rows <= h && 0 <= offs
      modifies buf
      ensures forall X, Y | 0 <= X < w && 0 <= Y < h ::
        Show(X, Y) ==
          if X == x && y <= Y < y + rows then Tint(BitInk(Pen(), Bit(data, Y - y + offs)), Stored(), old(Show(X, Y)))
          else old(Show(X, Y))
    {
      hide Pixel;
      hide Bit;
      var addr := y * w + x;
      assert addr == At(w, x, y);
      hide At;
      var n := 0;
      while n < rows
        invariant 0 <= n <= rows && addr == At(w, x, y + n)
        invariant forall X, Y | 0 <= X < w && 0 <= Y < h ::
          Show(X, Y) ==
            if X == x && y <= Y < y + n then Tint(BitInk(Pen(), Bit(data, Y - y + offs)), Stored(), old(Show(X, Y)))
            else old(Show(X, Y))
      {
        if Bit(data, n + offs) {
          StorePixel(addr, color, x, y + n);
        } else if !transparent {
          StorePixel(addr, NO_COLOR, x, y + n);
        }
        AtSteps(w, x, y + n);
        addr := addr + w;
        n := n + 1;
      }
    }

    /** Exactly what the XBM blit does, for every position, size and mode; see Xbm for when that is its meaning. */
    method DrawXBitmap1(xpos: int, ypos: int, width: nat, height: nat, bits: seq<bv8>, beyond: int -> bv8)
      requires Valid()
      modifies buf
      ensures forall X, Y | 0 <= X < w && 0 <= Y < h ::
        Show(X, Y) == Tint(XbmInk(Pen(), bits, beyond, xpos - offX, ypos - offY, width, height, w, h, X, Y), Stored(),
                           old(Show(X, Y)))
    {
      var x := xpos - offX;
      var y := ypos - offY;
      NoXbm(Pen(), bits, beyond, x, y, width, height, w, h);
      hide XbmInk;
      hide Pixel;
      if y + height <= 0 { return; }
      if y >= h { return; }
      if x + width <= 0 { return; }
      if x >= w { return; }
      XbmClipped(x, y, width, height, bits, beyond);
    }

    /** The clipping of drawXBitmap1, for a bitmap that is not entirely outside the canvas. */
    method XbmClipped(x0: int, y0: int, width: nat, height: nat, bits: seq<bv8>, beyond: int -> bv8)
      requires Valid() && 0 < x0 + width && x0 < w && 0 < y0 + height && y0 < h
      modifies buf
      ensures forall X, Y | 0 <= X < w && 0 <= Y < h ::
        Show(X, Y) == Tint(XbmInk(Pen(), bits, beyond, x0, y0, width, height, w, h, X, Y), Stored(), old(Show(X, Y)))
    {
      hide Pixel;
      hide XbmInk;
      hide XbmRowInk;
      var x, y := x0, y0;
      var wd, ht: int := width, height;
      var ptr, startBit := 0, 0;
      if y < 0 {
        ptr := ptr + (wd + 7) / 8 * -y;
        ht := ht + y;
        y := 0;
      }
      if x < 0 {
        ptr := ptr + -x / 8;
        startBit := -x % 8;
        wd := wd + x;
        x := 0;
      }
      if y + ht > h {
        ht := h - y;
      }
      if x + wd > w {
        wd := w - x;
      }
      var pitchDelta := (width + 7 - startBit) / 8 - (wd + 7) / 8;
      XbmGeometry(x0, y0, width, height, w, h);
      XbmLoop(x, y, wd, ht, startBit, ptr, pitchDelta, bits, beyond, x0, y0, width, height);
    }

    /** The row loop of drawXBitmap1, on clipped canvas coordinates. */
    method XbmLoop(x: int, y: int, wd: int, ht: int, startBit: int, start: int, pitchDelta: int, bits: seq<bv8>,
                   beyond: int -> bv8, ghost x0: int, ghost y0: int, ghost width: nat, ghost height: nat)
      requires Valid() && 0 < x0 + width && x0 < w && 0 < y0 + height && y0 < h
      requires x == Max(x0, 0) && y == Max(y0, 0)
      requires wd == VisibleWidth(x0, width, w) && ht == VisibleHeight(y0, height, h)
      requires startBit == StartBit(x0) && start == StartByte(x0, y0, width)
      requires (startBit + wd + 7) / 8 + pitchDelta == RowAdvance(x0, width, w)
      modifies buf
      ensures forall X, Y | 0 <= X < w && 0 <= Y < h ::
        Show(X, Y) == Tint(XbmInk(Pen(), bits, beyond, x0, y0, width, height, w, h, X, Y), Stored(), old(Show(X, Y)))
    {
      hide Pixel;
      hide XbmInk;
      hide XbmRowInk;
      hide RowAdvance;
      hide StartByte;
      XbmRows(Pen(), bits, beyond, x0, y0, width, height, w, h);
      ghost var advance := RowAdvance(x0, width, w);
      var ptr := start;
      var j := 0;
      while j < ht
        invariant 0 <= j <= ht
        invariant ptr == start + j * advance
        invariant forall X, Y | 0 <= X < w && 0 <= Y < h ::
          Show(X, Y) ==
            if Y < y + j then Tint(XbmInk(Pen(), bits, beyond, x0, y0, width, height, w, h, X, Y), Stored(),
                                   old(Show(X, Y)))
            else old(Show(X, Y))
      {
        var next := XbmRow(x, y + j, wd, startBit, ptr, bits, beyond);
        ptr := next + pitchDelta;
        assert (j + 1) * advance == j * advance + advance;
        j := j + 1;
      }
    }

    /** One row of drawXBitmap1: `wd` pixels from bit `startBit` of the byte at `start`. */
    method XbmRow(x: int, y: int, wd: int, startBit: int, start: int, bits: seq<bv8>, beyond: int -> bv8)
      returns (next: int)
      requires Valid() && 0 <= x && 0 <= wd && x + wd <= w && 0 <= y < h && 0 <= startBit < 8
      modifies buf
      ensures next == start + (startBit + wd + 7) / 8
      ensures forall X, Y | 0 <= X < w && 0 <= Y < h ::
        Show(X, Y) ==
          if x <= X < x + wd && Y == y
          then Tint(XbmRowInk(Pen(), bits, beyond, start, startBit + X - x), Stored(), old(Show(X, Y)))
          else old(Show(X, Y))
    {
      hide Pixel;
      hide Bit;
      hide Read;
      var ptr := start;
      var bit := startBit;
      var i := 0;
      while i < wd
        invariant 0 <= i <= wd
        invariant ptr == start + (startBit + i) / 8 && bit == (startBit + i) % 8
        invariant forall X, Y | 0 <= X < w && 0 <= Y < h ::
          Show(X, Y) ==
            if x <= X < x + i && Y == y
            then Tint(XbmRowInk(Pen(), bits, beyond, start, startBit + X - x), Stored(), old(Show(X, Y)))
            else old(Show(X, Y))
      {
        var data := TestBit(Read(bits, beyond, ptr), bit);
        assert XbmRowInk(Pen(), bits, beyond, start, startBit + i) == BitInk(Pen(), data);
        if data {
          StorePixel(y * w + x + i, color, x + i, y);
        } else if !transparent {
          StorePixel(y * w + x + i, NO_COLOR, x + i, y);
        }
        bit := bit + 1;
        if bit >= 8 {
          ptr := ptr + 1;
          bit := 0;
        }
        i := i + 1;
      }
      if bit != 0 {
        ptr := ptr + 1;
      }
      next := ptr;
    }
  }

  /** The source bytes of one pass lie inside the bitmap. */
  lemma RowBytes(width: nat, pages: int, c1: int, c2: int, m: int)
    requires 0 <= c1 && c2 < width && 0 <= m < pages
    ensures 0 <= At(width, c1, m) && At(width, c1, m) + c2 - c1 < width * pages
  {
    if 0 < width {
      Address(width, pages, if c1 <= c2 then c2 else 0, m);
    }
    MulLe(0, m, width);
    MulLe(m + 1, pages, width);
  }

  /** Bit `r` of the byte that a pass reads for a column is the bitmap's pixel there, while the byte lasts. */
  lemma PassRow(bits: seq<bv8>, width: nat, c: int, c1: int, row: int, m: int, r: int)
    requires 0 <= c1 <= c < width && 0 <= m && row == 8 * m + r && 0 <= r
    requires 0 <= At(width, c1, m) && At(width, c1, m) + c - c1 < |bits|
    ensures r < 8 ==> Bit(bits[At(width, c1, m) + c - c1], r) == PackedBit(bits, width, c, row)
    ensures r >= 8 ==> !Bit(bits[At(width, c1, m) + c - c1], r)
  {
    hide Bit;
    if r < 8 {
      assert row / 8 == m && row % 8 == r;
    } else {
      BitNegative(bits[At(width, c1, m) + c - c1], r);
    }
  }

  /** An opaque pixel does not depend on what was there; a clear transparent one keeps it. */
  lemma TintOpaque(pen: Pen, color: Color, a: Color, b: Color)
    ensures !pen.transparent ==> forall v :: Tint(BitInk(pen, v), color, a) == Tint(BitInk(pen, v), color, b)
    ensures pen.transparent ==> Tint(BitInk(pen, false), color, a) == a
  {
  }

  lemma AtColumns(w: int, x: int, x': int, y: int)
    ensures At(w, x', y) - At(w, x, y) == x' - x
  {
  }
}
