/** Scaled text printed straight to the display, page by page. */
module Text {
  import opened Bits
  import opened Display
  import opened Combiner
  import Lines

  /** A fixed font: header, and for each character from `offset` on the bytes of its glyph, page by page. */
  datatype Font = Font(width: nat, height: nat, offset: int, table: seq<bv8>)
  {
    function Pages(): nat {
      (height + 7) / 8
    }

    function GlyphSize(): nat {
      Pages() * width
    }

    /** Where the glyph of a character begins. */
    function GlyphAt(ch: int): int {
      (ch - offset) * GlyphSize()
    }

    /** The font has the character. */
    predicate Has(ch: int) {
      offset <= ch && GlyphAt(ch) + GlyphSize() <= |table|
    }

    predicate Valid() {
      0 < width && 0 < height && GlyphSize() < 0x100
    }

    /** Column `column` of page `page` of a glyph. */
    function GlyphByte(ch: int, page: int, column: int): bv8 {
      Cell(table, 1, GlyphAt(ch) + page * width + column, 0)
    }

    /** Pixel of a glyph. */
    predicate GlyphBit(ch: int, column: int, row: int) {
      Bit(GlyphByte(ch, row / 8, column), row % 8)
    }
  }

  /** The scale `1 << factor`, for factors 0 to 3. */
  predicate IsScale(s: int) {
    s == 1 || s == 2 || s == 4 || s == 8
  }

  function Scale(factor: nat): (s: nat)
    requires factor <= 3
    ensures IsScale(s) && s == [1, 2, 4, 8][factor]
  {
    if factor == 0 then 1 else if factor == 1 then 2 else if factor == 2 then 4 else 8
  }

  /** Bits of the source that fill a byte, `1 << (3 - factor)`. */
  function PerByte(s: nat): (n: nat)
    requires IsScale(s)
    ensures n * s == 8 && n > 0
  {
    if s == 1 then 8 else if s == 2 then 4 else if s == 4 then 2 else 1
  }

  /** The mask of `s` bits that bit `i` of the source widens to. */
  function WideBits(s: nat, i: nat): bv8
    requires IsScale(s) && (i + 1) * s <= 8
  {
    !(0xFF << s) << (i * s)
  }

  /** `accum |= t ? wide : 0`. */
  function Added(before: bv8, t: bool, wide: bv8): bv8 {
    before | (if t then wide else 0)
  }

  /** The first `n` bits of `data`, each widened to `s` bits. */
  function Widened(data: bv8, s: nat, n: nat): bv8
    requires IsScale(s) && n * s <= 8
  {
    if n == 0 then 0
    else Added(Widened(data, s, n - 1), TestBit(data, n - 1), WideBits(s, n - 1))
  }

  lemma WideMask(s: nat, k: int)
    requires IsScale(s) && k < 8
    ensures Bit(!(0xFF << s), k) == (0 <= k < s)
  {
    if 0 <= k {
      hide Bit;
      BitNot(0xFF << s, k);
      BitShl(0xFF, s, k);
      BitConst(k - s);
    } else {
      BitNegative(!(0xFF << s), k);
    }
  }

  lemma QuotientRange(s: nat, i: nat, k: int)
    requires IsScale(s)
    ensures 0 <= k - i * s < s <==> k / s == i
  {
    if s == 1 {} else if s == 2 {} else if s == 4 {} else {}
  }

  lemma WideBit(s: nat, i: nat, k: int)
    requires IsScale(s) && (i + 1) * s <= 8 && 0 <= k < 8
    ensures Bit(WideBits(s, i), k) == (k / s == i)
  {
    hide Bit;
    QuotientRange(s, i, k);
    WideMask(s, k - i * s);
    BitShl(!(0xFF << s), i * s, k);
  }

  /** One more bit widened. */
  lemma MoreWidened(before: bv8, data: bv8, s: nat, i: nat, k: int, q: int, t: bool, wide: bv8)
    requires 0 <= k < 8
    requires Bit(wide, k) == (q == i)
    requires t == Bit(data, i)
    requires Bit(before, k) == (q < i && Bit(data, q))
    ensures Bit(Added(before, t, wide), k) == (q < i + 1 && Bit(data, q))
  {
    hide Bit;
    if t {
      BitOr(before, wide, k);
    } else {
      BitConst(k);
      BitOr(before, 0, k);
    }
  }

  lemma WidenedStep(data: bv8, s: nat, n: nat)
    requires IsScale(s) && 0 < n && n * s <= 8
    ensures (n - 1) * s <= 8 && n - 1 < 8
    ensures Widened(data, s, n) == Added(Widened(data, s, n - 1), TestBit(data, n - 1), WideBits(s, n - 1))
  {
    MulLe(n - 1, n, s);
    hide TestBit, Added, WideBits;
  }

  lemma WidenedBit(data: bv8, s: nat, n: nat, k: int)
    requires IsScale(s) && n * s <= 8 && 0 <= k < 8
    ensures Bit(Widened(data, s, n), k) == (k / s < n && Bit(data, k / s))
  {
    if n == 0 {
      BitConst(k);
      Lines.DivNonneg(k, s);
    } else {
      WidenedStep(data, s, n);
      hide Bit, WideBits, TestBit, Added, Widened, IsScale;
      WidenedBit(data, s, n - 1, k);
      WideBit(s, n - 1, k);
      MoreWidened(Widened(data, s, n - 1), data, s, n - 1, k, k / s, TestBit(data, n - 1), WideBits(s, n - 1));
    }
  }

  /** The byte of a scaled glyph column on page `po` of its line. */
  function ScaledByte(data: bv8, s: nat, po: nat): bv8
    requires IsScale(s)
  {
    ScaledRow(s, po, 0);
    if s == 1 then data else Widened(Shifted(data, po % s * (PerByte(s))), s, PerByte(s))
  }

  function Shifted(data: bv8, n: int): bv8
    requires 0 <= n < 8
  {
    data >> n
  }

  lemma ShiftedBit(data: bv8, n: int, k: int)
    requires 0 <= n < 8 && 0 <= k < 8
    ensures Bit(Shifted(data, n), k) == Bit(data, k + n)
  {
    BitShr(data, n, k);
  }

  /** Row `k` of page `po` shows row (8 * po + k) / s of the glyph. */
  lemma ScaledRow(s: nat, po: nat, k: int)
    requires IsScale(s) && 0 <= k < 8
    ensures 0 <= po % s * PerByte(s) < 8 && PerByte(s) * s == 8
    ensures po % s * PerByte(s) + k / s == (8 * po + k) / s % 8 && k / s < PerByte(s)
    ensures (8 * po + k) / s / 8 == po / s
  {
    var n, a, b, c, d := PerByte(s), po / s, po % s, k / s, k % s;
    assert n * s == 8;
    Lines.DivNonneg(po, s);
    Lines.DivNonneg(k, s);
    assert po == s * a + b && k == s * c + d && 0 <= b < s && 0 <= d < s;
    hide PerByte, IsScale;
    ScaledParts(s, n, b, c, d);
    ScaledWhole(s, a, b, c, d, n);
    Lines.DivUnique(8 * po + k, s, 8 * a + (b * n + c), d);
    Lines.DivUnique(8 * a + (b * n + c), 8, a, b * n + c);
  }

  lemma ScaledParts(s: int, n: int, b: int, c: int, d: int)
    requires n * s == 8 && 0 < s && 0 < n && 0 <= b < s && 0 <= d < s && 0 <= s * c + d < 8
    ensures 0 <= c < n && 0 <= b * n && b * n + c < 8
  {
    if c < 0 {
      MulLe(c, -1, s);
    } else if c >= n {
      MulLe(n, c, s);
    }
    MulLe(0, b, n);
    MulLe(b + 1, s, n);
    Lines.OneMore(b, n);
  }

  lemma ScaledWhole(s: int, a: int, b: int, c: int, d: int, n: int)
    requires n * s == 8
    ensures 8 * (s * a + b) + (s * c + d) == s * (8 * a + (b * n + c)) + d
  {
    assert s * (b * n) == b * (n * s);
    assert s * (8 * a + (b * n + c)) == s * (8 * a) + s * (b * n) + s * c;
  }

  lemma ScaledBit(data: bv8, s: nat, po: nat, k: int)
    requires IsScale(s) && 0 <= k < 8
    ensures Bit(ScaledByte(data, s, po), k) == Bit(data, (8 * po + k) / s % 8)
  {
    hide Bit;
    hide Widened;
    hide Shifted;
    ScaledRow(s, po, k);
    if s != 1 {
      var shift := po % s * (PerByte(s));
      WidenedBit(Shifted(data, shift), s, PerByte(s), k);
      ShiftedBit(data, shift, k / s);
    }
  }

  datatype Layout = Layout(text: seq<int>, font: Font, s: nat, xpos: nat, y0: nat, width: nat, height: nat,
                           inverted: bool)
  {
    /** Non-empty ASCII text of which at least one scaled glyph fits to the right of `xpos`. */
    ghost predicate Valid() {
      && 0 < |text| < 0xFF && (forall i | 0 <= i < |text| :: 0 < text[i] < 0x80 && font.Has(text[i]))
      && font.Valid() && IsScale(s)
      && xpos + GlyphWidth() <= width <= COLUMNS && y0 < height / 8 && height % 8 == 0 && height <= 8 * PAGES
    }

    function GlyphWidth(): nat {
      font.width * s
    }

    function LinePages(): nat {
      font.Pages() * s
    }

    /** Characters in a full line. */
    function PerLine(): int
      requires GlyphWidth() > 0
    {
      (width - xpos) / GlyphWidth()
    }

    /** The byte in column `c` of page `po` of a line of text that starts at character `first`. */
    function TextByte(first: nat, po: nat, c: nat): bv8
      requires IsScale(s) && GlyphWidth() > 0
    {
      var i := first + c / GlyphWidth();
      if i < |text| then
        ScaledByte(font.GlyphByte(text[i], po / s, c % GlyphWidth() / s), s, po) ^ InvertByte(inverted)
      else 0
    }

    /** What the text puts into column `x` of display page `p`, if anything. */
    function Expected(x: int, p: int): Option<bv8>
      requires IsScale(s) && GlyphWidth() > 0 && LinePages() > 0 && xpos <= width
    {
      var row, c := p - y0, x - xpos;
      if row < 0 || c < 0 || c / GlyphWidth() >= PerLine() then None
      else
        FirstNonneg(row / LinePages(), PerLine());
        var first: nat := row / LinePages() * PerLine();
        if first + c / GlyphWidth() < |text| then Some(TextByte(first, row % LinePages(), c)) else None
    }

    /** The first `n` bytes of a page. */
    function PageBytes(first: nat, po: nat, n: nat): seq<bv8>
      requires IsScale(s) && GlyphWidth() > 0
    {
      seq(n, c requires 0 <= c < n => TextByte(first, po, c))
    }
  }

  lemma FirstNonneg(line: int, perLine: int)
    requires 0 <= line && 0 <= perLine
    ensures 0 <= line * perLine
  {
    MulLe(0, line, perLine);
  }

  lemma LayoutPositive(l: Layout)
    requires l.Valid()
    ensures 0 < l.GlyphWidth() && 0 < l.LinePages() && 1 <= l.PerLine()
    ensures l.PerLine() * l.GlyphWidth() <= l.width - l.xpos < l.PerLine() * l.GlyphWidth() + l.GlyphWidth()
  {
    MulLe(1, l.font.width, l.s);
    MulLe(1, l.font.Pages(), l.s);
    hide Layout.GlyphWidth, Layout.LinePages, Font.Pages, Font.Has, Font.GlyphSize;
    var n, d := l.width - l.xpos, l.GlyphWidth();
    Lines.Quotient(n, d);
  }

  /** A full line ends exactly where the next glyph would not fit. */
  lemma FullLine(l: Layout, m: nat)
    requires l.Valid()
    ensures l.GlyphWidth() > 0
    ensures l.xpos + m * l.GlyphWidth() > l.width - l.GlyphWidth() <==> m >= l.PerLine()
  {
    LayoutPositive(l);
    var d, q := l.GlyphWidth(), l.PerLine();
    if m >= q {
      MulLe(q, m, d);
    } else {
      MulLe(m + 1, q, d);
      assert (m + 1) * d == m * d + d;
    }
  }

  /** Display memory with all pages above `y` finished. */
  ghost predicate PagesDone(l: Layout, ram0: seq<bv8>, ram: seq<bv8>, y: int)
    requires l.Valid()
  {
    LayoutPositive(l);
    && |ram| == |ram0|
    && forall x, p | 0 <= x < COLUMNS && 0 <= p < PAGES ::
         Cell(ram, COLUMNS, x, p) == if p < y && l.Expected(x, p).Some? then l.Expected(x, p).value
                                     else Cell(ram0, COLUMNS, x, p)
  }

  /** The page on which line `line` of the text has its page `po`, with `m` characters sent so far. */
  ghost predicate OnPage(l: Layout, y: int, line: nat, po: nat, m: nat)
  {
    && l.Valid() && y == l.y0 + line * l.LinePages() + po && po < l.LinePages() && l.y0 <= y < l.height / 8
    && m <= PerLine(l) && line * PerLine(l) < |l.text| && line * PerLine(l) + m <= |l.text|
  }

  function PerLine(l: Layout): nat {
    if l.GlyphWidth() > 0 && l.xpos <= l.width then (l.width - l.xpos) / l.GlyphWidth() else 0
  }

  /** What a display page that holds page `po` of line `line` is to show. */
  lemma ExpectedOn(l: Layout, line: nat, po: nat, x: int, y: int)
    requires IsScale(l.s) && l.GlyphWidth() > 0 && l.LinePages() > 0 && l.xpos <= l.width
    requires y == l.y0 + line * l.LinePages() + po && po < l.LinePages()
    ensures 0 <= line * PerLine(l)
    ensures
      var c, first := x - l.xpos, line * PerLine(l);
      l.Expected(x, y) == if 0 <= c && c / l.GlyphWidth() < PerLine(l) && first + c / l.GlyphWidth() < |l.text|
                          then Some(l.TextByte(first, po, c)) else None
  {
    FirstNonneg(line, l.LinePages());
    FirstNonneg(line, PerLine(l));
    Lines.DivUnique(y - l.y0, l.LinePages(), line, po);
    hide Layout.TextByte, Layout.GlyphWidth, Layout.LinePages;
  }

  lemma OnPageLine(l: Layout, y: int, line: nat, po: nat, m: nat)
    requires OnPage(l, y, line, po, m)
    ensures l.Valid() && y == l.y0 + line * l.LinePages() + po && po < l.LinePages() && m <= PerLine(l)
    ensures line * PerLine(l) + m <= |l.text|
    ensures IsScale(l.s) && l.xpos <= l.width && 0 < l.GlyphWidth() && 0 < l.LinePages()
  {
    LayoutPositive(l);
  }

  /** Which columns of its page a line fills. */
  lemma LineColumns(l: Layout, y: int, line: nat, po: nat, m: nat, x: int)
    requires OnPage(l, y, line, po, m) && (m == PerLine(l) || line * PerLine(l) + m == |l.text|)
    ensures l.GlyphWidth() > 0 && l.LinePages() > 0 && 0 <= line * PerLine(l)
    ensures 0 <= x - l.xpos < m * l.GlyphWidth() ==>
              l.Expected(x, y) == Some(l.TextByte(line * PerLine(l), po, x - l.xpos))
    ensures !(0 <= x - l.xpos < m * l.GlyphWidth()) ==> l.Expected(x, y) == None
  {
    hide *;
    OnPageLine(l, y, line, po, m);
    ExpectedOn(l, line, po, x, y);
    var c := x - l.xpos;
    if 0 <= c {
      QuotientBelow(c, l.GlyphWidth(), m);
    }
  }

  lemma QuotientBelow(c: int, d: int, m: int)
    requires 0 <= c && 0 < d
    ensures 0 <= c / d
    ensures c < m * d <==> c / d < m
  {
    assert c == d * (c / d) + c % d;
    if c / d < m {
      MulLe(c / d + 1, m, d);
    } else {
      MulLe(m, c / d, d);
    }
  }

  /** The block that a page of the text is streamed into. */
  function PageBlock(l: Layout, base: Chip, y: int): Chip {
    Block(base, l.width, l.height, l.xpos, y, l.width - l.xpos)
  }

  lemma Room(l: Layout)
    requires l.Valid()
    ensures l.xpos < l.width <= COLUMNS && l.height / 8 <= PAGES && l.y0 < l.height / 8
    ensures U8(l.xpos) == l.xpos && U8(l.width - 1) == l.width - 1 && U8(l.height / 8 - 1) == l.height / 8 - 1
  {
    MulLe(1, l.font.width, l.s);
    assert l.GlyphWidth() >= 1;
    hide Layout.GlyphWidth, Font.Valid, Font.Has, IsScale;
  }

  lemma PageWindow(l: Layout, base: Chip, y: int)
    requires l.Valid() && 0 <= y < l.height / 8
    ensures
      var b := PageBlock(l, base, y);
      && b.ram == base.ram && b.window.Valid() && b.window.AtStart() && b.window.Width() == l.width - l.xpos
      && b.window.colStart == l.xpos && b.window.colEnd == l.width - 1 && b.window.pageStart == y
  {
    Room(l);
    assert U8(y) == y;
    hide Layout.Valid, U8;
  }

  /** One streamed page: its first `n` columns, and nothing else. */
  lemma PageLands(l: Layout, base: Chip, y: int, bytes: seq<bv8>, x: int, p: int)
    requires l.Valid() && 0 <= y < l.height / 8 && |base.ram| == COLUMNS * PAGES && |bytes| <= l.width - l.xpos
    requires 0 <= x < COLUMNS && 0 <= p < PAGES
    ensures
      var ram := Stream(PageBlock(l, base, y), bytes).ram;
      && |ram| == |base.ram|
      && Cell(ram, COLUMNS, x, p) == if p == y && 0 <= x - l.xpos < |bytes| then bytes[x - l.xpos]
                                     else Cell(base.ram, COLUMNS, x, p)
  {
    hide Layout.Valid;
    hide PageBlock;
    PageWindow(l, base, y);
    var b := PageBlock(l, base, y);
    var w := l.width - l.xpos;
    if |bytes| == w {
      StreamFills(b, bytes, 1, 0);
    } else {
      StreamFills(b, bytes, 0, |bytes|);
    }
    FilledAt(b.ram, Stream(b, bytes).ram, b.window, bytes, x, p);
    if p > y {
      AtMonotone(w, x - l.xpos, 1, p - y);
    }
  }

  lemma PageBytesAt(l: Layout, first: nat, po: nat, n: nat, c: int)
    requires IsScale(l.s) && l.GlyphWidth() > 0 && 0 <= c < n
    ensures l.PageBytes(first, po, n)[c] == l.TextByte(first, po, c)
  {
  }

  lemma PageFinished(l: Layout, ram0: seq<bv8>, base: Chip, y: int, line: nat, po: nat, m: nat)
    requires OnPage(l, y, line, po, m) && (m == PerLine(l) || line * PerLine(l) + m == |l.text|)
    requires |base.ram| == COLUMNS * PAGES && PagesDone(l, ram0, base.ram, y)
    ensures l.GlyphWidth() > 0 && 0 <= line * PerLine(l) && 0 <= m * l.GlyphWidth()
    ensures
      var bytes := l.PageBytes(line * PerLine(l), po, m * l.GlyphWidth());
      PagesDone(l, ram0, Stream(PageBlock(l, base, y), bytes).ram, y + 1)
  {
    LayoutPositive(l);
    FirstNonneg(line, PerLine(l));
    FirstNonneg(m, l.GlyphWidth());
    MulLe(m, PerLine(l), l.GlyphWidth());
    var bytes := l.PageBytes(line * PerLine(l), po, m * l.GlyphWidth());
    var ram := Stream(PageBlock(l, base, y), bytes).ram;
    StreamKeeps(PageBlock(l, base, y), bytes);
    forall x, p | 0 <= x < COLUMNS && 0 <= p < PAGES
      ensures Cell(ram, COLUMNS, x, p) == if p < y + 1 && l.Expected(x, p).Some? then l.Expected(x, p).value
                                          else Cell(ram0, COLUMNS, x, p)
    {
      hide Cell;
      hide Stream;
      hide Layout.PageBytes;
      hide Layout.TextByte;
      hide Layout.Expected;
      PageLands(l, base, y, bytes, x, p);
      LineColumns(l, y, line, po, m, x);
      if p == y && 0 <= x - l.xpos < m * l.GlyphWidth() {
        PageBytesAt(l, line * PerLine(l), po, m * l.GlyphWidth(), x - l.xpos);
      }
    }
  }

  lemma OneMoreByte(l: Layout, first: nat, po: nat, n: nat)
    requires IsScale(l.s) && l.GlyphWidth() > 0
    ensures l.PageBytes(first, po, n + 1) == l.PageBytes(first, po, n) + [l.TextByte(first, po, n)]
  {
    hide ScaledByte;
  }

  /** The columns of character `m` of a page. */
  lemma ColumnOf(l: Layout, m: nat, column: nat, z: nat)
    requires 0 < l.s && column < l.font.width && z < l.s
    ensures 0 < l.GlyphWidth()
    ensures
      var c := m * l.GlyphWidth() + column * l.s + z;
      c / l.GlyphWidth() == m && c % l.GlyphWidth() / l.s == column
  {
    MulLe(column + 1, l.font.width, l.s);
    MulLe(0, column, l.s);
    var d := column * l.s + z;
    Lines.DivUnique(m * l.GlyphWidth() + d, l.GlyphWidth(), m, d);
    Lines.DivUnique(d, l.s, column, z);
  }

  /** The first of the page's columns that column `column` of character `m` takes. */
  function ColumnStart(l: Layout, m: nat, column: nat): nat {
    m * l.GlyphWidth() + column * l.s
  }

  lemma ColumnSteps(l: Layout, m: nat, column: nat)
    ensures ColumnStart(l, m, 0) == m * l.GlyphWidth()
    ensures ColumnStart(l, m, column + 1) == ColumnStart(l, m, column) + l.s
    ensures ColumnStart(l, m, l.font.width) == (m + 1) * l.GlyphWidth()
  {
  }

  /** The bytes of those columns all hold the scaled glyph column. */
  lemma ColumnBytes(l: Layout, first: nat, po: nat, m: nat, column: nat, z: nat)
    requires IsScale(l.s) && column < l.font.width && z < l.s && first + m < |l.text|
    ensures 0 < l.GlyphWidth()
    ensures l.TextByte(first, po, ColumnStart(l, m, column) + z)
            == ScaledByte(l.font.GlyphByte(l.text[first + m], po / l.s, column), l.s, po) ^ InvertByte(l.inverted)
  {
    hide ScaledByte, InvertByte, Font.GlyphByte;
    ColumnOf(l, m, column, z);
  }

  class Printer {
    const driver: Driver
    var font: Font
    var inverted: bool

    constructor (d: Driver, f: Font)
      ensures driver == d && font == f && !inverted
    {
      driver, font, inverted := d, f, false;
    }

    /** The widening loop of one glyph byte. */
    method Scaled(data: bv8, s: nat, po: nat) returns (r: bv8)
      requires IsScale(s)
      ensures r == ScaledByte(data, s, po)
    {
      hide Bit, WideBits, TestBit, Added, Shifted;
      if s == 1 { return data; }
      ScaledRow(s, po, 0);
      var shifted := Shifted(data, po % s * (PerByte(s)));
      var accum: bv8 := 0;
      var idx := 0;
      while idx < PerByte(s)
        invariant 0 <= idx <= PerByte(s) && idx * s <= 8
        invariant accum == Widened(shifted, s, idx)
      {
        assert (idx + 1) * s <= 8 by { MulLe(idx + 1, PerByte(s), s); }
        accum := Added(accum, TestBit(shifted, idx), WideBits(s, idx));
        idx := idx + 1;
      }
      return accum;
    }

    /** Sends one glyph column, repeated once for each of its scaled columns. */
    method PrintColumn(ch: int, s: nat, po: nat, column: nat,
                       ghost l: Layout, ghost block: Chip, ghost first: nat, ghost m: nat)
      requires IsScale(s) && l.s == s && l.font == font && l.inverted == inverted && column < font.width
      requires first + m < |l.text| && l.text[first + m] == ch
      requires !driver.chip.control && driver.chip.data
      requires 0 < l.GlyphWidth() && driver.chip == Stream(block, l.PageBytes(first, po, ColumnStart(l, m, column)))
      requires !block.control && block.data
      modifies driver
      ensures driver.chip == Stream(block, l.PageBytes(first, po, ColumnStart(l, m, column + 1)))
    {
      hide Stream, ScaledByte, InvertByte, ColumnStart, Layout.TextByte, Layout.PageBytes, Font.GlyphByte;
      var data := Scaled(font.GlyphByte(ch, po / s, column), s, po);
      ghost var c := ColumnStart(l, m, column);
      ColumnSteps(l, m, column);
      var z := 0;
      while z < s
        invariant 0 <= z <= s
        invariant driver.chip == Stream(block, l.PageBytes(first, po, c + z))
      {
        ColumnBytes(l, first, po, m, column, z);
        StreamKeeps(block, l.PageBytes(first, po, c + z));
        driver.SendPixels(data ^ InvertByte(inverted));
        OneMoreByte(l, first, po, c + z);
        StreamOne(block, l.PageBytes(first, po, c + z), data ^ InvertByte(inverted));
        z := z + 1;
      }
    }

    /** Sends the columns of one glyph that fall into page `po` of its line. */
    method PrintGlyph(ch: int, s: nat, po: nat, ghost l: Layout, ghost block: Chip, ghost first: nat, ghost m: nat)
      requires IsScale(s) && l.s == s && l.font == font && l.inverted == inverted && font.Valid()
      requires first + m < |l.text| && l.text[first + m] == ch
      requires !block.control && block.data
      requires 0 < l.GlyphWidth() && driver.chip == Stream(block, l.PageBytes(first, po, m * l.GlyphWidth()))
      modifies driver
      ensures driver.chip == Stream(block, l.PageBytes(first, po, (m + 1) * l.GlyphWidth()))
    {
      hide Stream, ColumnStart, Layout.PageBytes;
      ColumnSteps(l, m, 0);
      var column := 0;
      while column < font.width
        invariant 0 <= column <= font.width
        invariant driver.chip == Stream(block, l.PageBytes(first, po, ColumnStart(l, m, column)))
      {
        StreamKeeps(block, l.PageBytes(first, po, ColumnStart(l, m, column)));
        PrintColumn(ch, s, po, column, l, block, first, m);
        column := column + 1;
      }
    }

    /** Prints text in its own font size times `1 << factor`, wrapping lines at the right edge of the display. */
    method PrintFixedN(xpos: nat, ypos: nat, text: seq<int>, factor: nat) returns (printed: nat)
      requires driver.Valid() && factor <= 3
      requires Layout(text, font, [1, 2, 4, 8][factor], xpos, ypos / 8, driver.width, driver.height, inverted).Valid()
      modifies driver
      ensures driver.Valid()
      ensures
        var l := Layout(text, font, [1, 2, 4, 8][factor], xpos, ypos / 8, driver.width, driver.height, inverted);
        PagesDone(l, old(driver.chip.ram), driver.chip.ram, driver.height / 8) && printed == Fitting(l)
    {
      hide PagesDone;
      hide Printing;
      hide PageBlock;
      hide OnPage;
      hide Layout.Valid;
      hide Layout.GlyphWidth;
      hide Layout.LinePages;
      hide PerLine;
      hide First;
      hide Left;
      hide Scale;
      hide Fitting;
      ghost var l := Layout(text, font, Scale(factor), xpos, ypos / 8, driver.width, driver.height, inverted);
      ghost var ram0 := driver.chip.ram;
      var s := Scale(factor);
      var width, pages := font.width * s, font.Pages() * s;
      var x, y, j, textIndex, po: nat := xpos, ypos / 8, 0, 0, 0;
      ghost var line: nat, m: nat, base := 0, 0, driver.chip;
      StartPrinting(l, ram0, driver.chip);
      driver.SetBlock(xpos, y, driver.width - xpos);
      PageBlockIs(l, base, y);
      while true
        invariant driver.Valid() && Printing(l, ram0, base, driver.chip, y, line, po, m)
        invariant textIndex == First(l, line) && j == textIndex + m && x == Left(l, m)
        decreases driver.height / 8 - y, |text| - j
      {
        PrintingFacts(l, ram0, base, driver.chip, y, line, po, m);
        if x > driver.width - width || j == |text| {
          x := xpos;
          ghost var chip := driver.chip;
          PageEnds(l, ram0, base, chip, y, line, po, m);
          PrintedCount(l, ram0, base, chip, y, line, po, m);
          y := y + 1;
          if y >= driver.height / 8 {
            break;
          }
          po := po + 1;
          if po == pages {
            textIndex := j;
            po := 0;
            if j == |text| {
              TextEnds(l, ram0, base, chip, y - 1, line, pages - 1, m);
              break;
            }
            NextLine(l, ram0, base, chip, y - 1, line, pages - 1, m);
            line := line + 1;
          } else {
            j := textIndex;
            NextPage(l, ram0, base, chip, y - 1, line, po - 1, m);
          }
          driver.Stop();
          driver.SetBlock(xpos, y, driver.width - xpos);
          base := chip;
          m := 0;
          PageBlockIs(l, base, y);
          PrintingFacts(l, ram0, base, driver.chip, y, line, po, m);
        }
        var ch := text[j];
        j := j + 1;
        x := x + width;
        PrintChar(ch, s, po, l, ram0, base, y, line, m);
        m := m + 1;
      }
      driver.Stop();
      printed := j;
    }

    /** One character on the current page. */
    method PrintChar(ch: int, s: nat, po: nat, ghost l: Layout, ghost ram0: seq<bv8>, ghost base: Chip, ghost y: nat,
                     ghost line: nat, ghost m: nat)
      requires driver.Valid() && IsScale(s) && l.s == s && l.font == font && l.inverted == inverted
      requires Printing(l, ram0, base, driver.chip, y, line, po, m)
      requires m < PerLine(l) && 0 <= First(l, line) + m < |l.text| && l.text[First(l, line) + m] == ch
      modifies driver
      ensures driver.Valid()
      ensures Printing(l, ram0, base, driver.chip, y, line, po, m + 1)
    {
      hide PagesDone;
      hide Stream;
      hide Layout.PageBytes;
      LayoutPositive(l);
      FirstNonneg(line, PerLine(l));
      ghost var block := PageBlock(l, base, y);
      GlyphShows(font, s, po, l);
      if font.height > po / s * 8 {
        PrintGlyph(ch, s, po, l, block, line * PerLine(l), m);
      } else {
        assert false;
      }
      StreamKeeps(block, l.PageBytes(line * PerLine(l), po, (m + 1) * l.GlyphWidth()));
    }
  }

  lemma GlyphShows(font: Font, s: nat, po: nat, l: Layout)
    requires l.Valid() && l.font == font && l.s == s && po < l.LinePages()
    ensures font.height > po / s * 8
  {
    assert po == s * (po / s) + po % s;
    if po / s >= font.Pages() {
      MulLe(font.Pages(), po / s, s);
    }
  }

  /** The state of the print loop: pages above `y` are finished, and `m` characters of this page have been sent. */
  ghost predicate Printing(l: Layout, ram0: seq<bv8>, base: Chip, chip: Chip, y: int, line: nat, po: nat, m: nat) {
    && OnPage(l, y, line, po, m)
    && |base.ram| == COLUMNS * PAGES && base.pending == [] && !base.control
    && PagesDone(l, ram0, base.ram, y)
    && (LayoutPositive(l); FirstNonneg(line, PerLine(l)); FirstNonneg(m, l.GlyphWidth());
        chip == Stream(PageBlock(l, base, y), l.PageBytes(line * PerLine(l), po, m * l.GlyphWidth())))
  }

  lemma PageBlockIs(l: Layout, base: Chip, y: int)
    ensures PageBlock(l, base, y) == Block(base, l.width, l.height, l.xpos, y, l.width - l.xpos)
  {
  }

  lemma StartPrinting(l: Layout, ram0: seq<bv8>, chip: Chip)
    requires l.Valid() && chip.ram == ram0 && |ram0| == COLUMNS * PAGES && chip.pending == [] && !chip.control
    ensures Printing(l, ram0, chip, PageBlock(l, chip, l.y0), l.y0, 0, 0, 0)
    ensures First(l, 0) == 0 && Left(l, 0) == l.xpos
  {
    LayoutPositive(l);
  }

  /** The first character of a line, and the column where its character `m` goes. */
  function First(l: Layout, line: nat): int {
    line * PerLine(l)
  }

  function Left(l: Layout, m: nat): int {
    l.xpos + m * l.GlyphWidth()
  }

  lemma OnPageFacts(l: Layout, y: int, line: nat, po: nat, m: nat)
    requires OnPage(l, y, line, po, m)
    ensures l.Valid() && 0 <= y < l.height / 8 && po < l.LinePages() && m <= PerLine(l)
    ensures First(l, line) < |l.text| && First(l, line) + m <= |l.text|
  {
  }

  lemma LeftFacts(l: Layout, line: nat, m: nat)
    requires l.Valid() && m <= PerLine(l)
    ensures 1 <= PerLine(l) && 0 <= First(l, line) && 0 <= Left(l, m)
    ensures Left(l, m) > l.width - l.GlyphWidth() <==> m == PerLine(l)
    ensures Left(l, m + 1) == Left(l, m) + l.GlyphWidth() && Left(l, 0) == l.xpos
  {
    PerLineIs(l);
    FullLine(l, m);
    FirstNonneg(line, PerLine(l));
    hide Layout.Valid, Layout.GlyphWidth, Layout.PerLine, PerLine;
    FirstNonneg(m, l.GlyphWidth());
    Lines.OneMore(m, l.GlyphWidth());
  }

  lemma PerLineIs(l: Layout)
    requires l.Valid()
    ensures l.GlyphWidth() > 0 && PerLine(l) == l.PerLine() && 1 <= PerLine(l)
  {
    LayoutPositive(l);
    hide Layout.GlyphWidth, Layout.Valid;
  }

  lemma Dimensions(l: Layout)
    ensures l.GlyphWidth() == l.font.width * l.s && l.LinePages() == l.font.Pages() * l.s
  {
  }

  lemma PrintingFacts(l: Layout, ram0: seq<bv8>, base: Chip, chip: Chip, y: int, line: nat, po: nat, m: nat)
    requires Printing(l, ram0, base, chip, y, line, po, m)
    ensures 0 <= y < l.height / 8 && po < l.LinePages() && 1 <= PerLine(l) && m <= PerLine(l)
    ensures 0 <= First(l, line) < |l.text| && First(l, line) + m <= |l.text| && 0 <= Left(l, m)
    ensures Left(l, m) > l.width - l.GlyphWidth() <==> m == PerLine(l)
    ensures Left(l, m + 1) == Left(l, m) + l.GlyphWidth() && Left(l, 0) == l.xpos
    ensures l.GlyphWidth() == l.font.width * l.s && l.LinePages() == l.font.Pages() * l.s
  {
    hide OnPage;
    hide PagesDone;
    hide First;
    hide Left;
    hide PerLine;
    hide Layout.LinePages;
    hide Layout.GlyphWidth;
    hide Layout.Valid;
    OnPageFacts(l, y, line, po, m);
    LeftFacts(l, line, m);
    Dimensions(l);
  }

  /** A page whose line is full or whose text is used up is finished. */
  lemma PageEnds(l: Layout, ram0: seq<bv8>, base: Chip, chip: Chip, y: int, line: nat, po: nat, m: nat)
    requires Printing(l, ram0, base, chip, y, line, po, m) && (m == PerLine(l) || First(l, line) + m == |l.text|)
    ensures |chip.ram| == COLUMNS * PAGES && chip.pending == [] && !chip.control
    ensures PagesDone(l, ram0, chip.ram, y + 1)
  {
    hide PagesDone;
    LayoutPositive(l);
    FirstNonneg(line, PerLine(l));
    FirstNonneg(m, l.GlyphWidth());
    PageFinished(l, ram0, base, y, line, po, m);
    StreamKeeps(PageBlock(l, base, y), l.PageBytes(line * PerLine(l), po, m * l.GlyphWidth()));
  }

  /** How many characters are printed: all of them, or as many full lines as begin on the display. */
  function Fitting(l: Layout): int {
    if l.LinePages() == 0 then 0
    else
      var room := ((l.height / 8 - 1 - l.y0) / l.LinePages() + 1) * PerLine(l);
      if |l.text| < room then |l.text| else room
  }

  lemma PrintedCount(l: Layout, ram0: seq<bv8>, base: Chip, chip: Chip, y: int, line: nat, po: nat, m: nat)
    requires Printing(l, ram0, base, chip, y, line, po, m)
    ensures (m == PerLine(l) && y + 1 == l.height / 8) || First(l, line) + m == |l.text| ==>
              First(l, line) + m == Fitting(l)
  {
    hide PagesDone, PageBlock, Layout.PageBytes, Stream, Layout.Valid, Layout.GlyphWidth, PerLine, Layout.LinePages;
    OnPageLine(l, y, line, po, m);
    var rows, last := l.height / 8 - 1 - l.y0, y - l.y0;
    Lines.DivUnique(last, l.LinePages(), line, po);
    Lines.OneMore(line, PerLine(l));
    if last < rows {
      DivGrows(last, rows, l.LinePages());
      MulLe(line + 1, rows / l.LinePages() + 1, PerLine(l));
    }
  }

  lemma DivGrows(a: int, b: int, d: int)
    requires 0 <= a <= b && 0 < d
    ensures a / d <= b / d
  {
    Lines.DivNonneg(a, d);
    Lines.DivNonneg(b, d);
    if b / d < a / d {
      MulLe(b / d + 1, a / d, d);
      Lines.OneMore(b / d, d);
    }
  }

  lemma NextPage(l: Layout, ram0: seq<bv8>, base: Chip, chip: Chip, y: int, line: nat, po: nat, m: nat)
    requires Printing(l, ram0, base, chip, y, line, po, m) && (m == PerLine(l) || First(l, line) + m == |l.text|)
    requires y + 1 < l.height / 8 && po + 1 < l.LinePages()
    ensures Printing(l, ram0, chip, PageBlock(l, chip, y + 1), y + 1, line, po + 1, 0)
  {
    hide PagesDone;
    PageEnds(l, ram0, base, chip, y, line, po, m);
    LayoutPositive(l);
    FirstNonneg(line, PerLine(l));
  }

  lemma NextLine(l: Layout, ram0: seq<bv8>, base: Chip, chip: Chip, y: int, line: nat, po: nat, m: nat)
    requires Printing(l, ram0, base, chip, y, line, po, m) && m == PerLine(l) && First(l, line) + m < |l.text|
    requires y + 1 < l.height / 8 && po + 1 == l.LinePages()
    ensures First(l, line + 1) == First(l, line) + m
    ensures Printing(l, ram0, chip, PageBlock(l, chip, y + 1), y + 1, line + 1, 0, 0)
  {
    hide PagesDone;
    PageEnds(l, ram0, base, chip, y, line, po, m);
    LayoutPositive(l);
    FirstNonneg(line, PerLine(l));
    assert (line + 1) * l.LinePages() == line * l.LinePages() + l.LinePages();
  }

  /** After the last page of the last line, no later page has anything to show. */
  lemma TextEnds(l: Layout, ram0: seq<bv8>, base: Chip, chip: Chip, y: int, line: nat, po: nat, m: nat)
    requires Printing(l, ram0, base, chip, y, line, po, m) && First(l, line) + m == |l.text|
    requires po + 1 == l.LinePages()
    ensures PagesDone(l, ram0, chip.ram, l.height / 8)
  {
    PageEnds(l, ram0, base, chip, y, line, po, m);
    LayoutPositive(l);
    forall x, p | y < p ensures l.Expected(x, p) == None {
      NothingBelow(l, y, line, m, x, p);
    }
  }

  lemma PastText(l: Layout, x: int, p: int)
    requires IsScale(l.s) && l.GlyphWidth() > 0 && l.LinePages() > 0 && l.xpos <= l.width && l.y0 <= p
    requires (p - l.y0) / l.LinePages() * PerLine(l) >= |l.text|
    ensures l.Expected(x, p) == None
  {
    if x >= l.xpos {
      QuotientBelow(x - l.xpos, l.GlyphWidth(), 0);
    }
    QuotientBelow(p - l.y0, l.LinePages(), 0);
    FirstNonneg((p - l.y0) / l.LinePages(), PerLine(l));
    hide Layout.TextByte, Layout.GlyphWidth, Layout.LinePages;
  }

  lemma NothingBelow(l: Layout, y: int, line: nat, m: nat, x: int, p: int)
    requires OnPage(l, y, line, if l.LinePages() > 0 then l.LinePages() - 1 else 0, m)
    requires line * PerLine(l) + m == |l.text| && y < p
    ensures l.GlyphWidth() > 0 && l.LinePages() > 0 && l.Expected(x, p) == None
  {
    hide *;
    OnPageLine(l, y, line, if l.LinePages() > 0 then l.LinePages() - 1 else 0, m);
    var pages, row := l.LinePages(), p - l.y0;
    Lines.OneMore(line, pages);
    Lines.OneMore(line, PerLine(l));
    FirstNonneg(line, pages);
    QuotientBelow(row, pages, line + 1);
    MulLe(line + 1, row / pages, PerLine(l));
    PastText(l, x, p);
  }

  /** Display row `y`, `8 * pages` rows to a line: which line it is on and which row of the line it is. */
  lemma RowOfLine(y: int, y0: nat, pages: nat)
    requires 0 < pages && 8 * y0 <= y
    ensures (y - 8 * y0) / (8 * pages) == (y / 8 - y0) / pages
    ensures (y - 8 * y0) % (8 * pages) == 8 * ((y / 8 - y0) % pages) + y % 8
  {
    var page := y / 8 - y0;
    var line, po := page / pages, page % pages;
    assert page == pages * line + po;
    assert y - 8 * y0 == 8 * page + y % 8;
    assert 8 * (pages * line) == (8 * pages) * line;
    Lines.DivUnique(y - 8 * y0, 8 * pages, line, 8 * po + y % 8);
  }

  lemma GlyphRow(l: Layout, first: nat, po: nat, c: nat, k: int)
    requires IsScale(l.s) && l.GlyphWidth() > 0 && first + c / l.GlyphWidth() < |l.text| && 0 <= k < 8
    ensures Bit(l.TextByte(first, po, c), k)
            == (l.font.GlyphBit(l.text[first + c / l.GlyphWidth()], c % l.GlyphWidth() / l.s, (8 * po + k) / l.s)
                != l.inverted)
  {
    hide Bit;
    hide ScaledByte;
    hide InvertByte;
    hide Font.GlyphByte;
    var data := l.font.GlyphByte(l.text[first + c / l.GlyphWidth()], po / l.s, c % l.GlyphWidth() / l.s);
    ScaledBit(data, l.s, po, k);
    ScaledRow(l.s, po, k);
    InvertedBit(ScaledByte(data, l.s, po), l.inverted, k);
  }

  /**
   * The text on the display, pixel by pixel: column c and row r right of and below the start show, magnified by the
   * scale, the glyph of the character that stands there when lines are cut after PerLine characters; every page of a
   * line shows the same characters, and nothing else is drawn.
   */
  lemma TextPixel(l: Layout, x: int, y: int)
    requires l.Valid()
    ensures l.GlyphWidth() > 0 && l.LinePages() > 0
    ensures
      var c, r := x - l.xpos, y - 8 * l.y0;
      var shown := 0 <= r && 0 <= c && c / l.GlyphWidth() < l.PerLine() &&
                   r / (8 * l.LinePages()) * l.PerLine() + c / l.GlyphWidth() < |l.text|;
      if shown then
        var i := r / (8 * l.LinePages()) * l.PerLine() + c / l.GlyphWidth();
        && 0 <= i && l.Expected(x, y / 8).Some?
        && Bit(l.Expected(x, y / 8).value, y % 8)
           == (l.font.GlyphBit(l.text[i], c % l.GlyphWidth() / l.s, r % (8 * l.LinePages()) / l.s) != l.inverted)
      else l.Expected(x, y / 8) == None
  {
    LayoutPositive(l);
    hide Layout.Valid;
    hide Layout.TextByte;
    hide Layout.GlyphWidth;
    hide Layout.LinePages;
    hide Layout.PerLine;
    hide Font.GlyphBit;
    hide Bit;
    var c, page := x - l.xpos, y / 8 - l.y0;
    if 8 * l.y0 <= y && 0 <= c {
      RowOfLine(y, l.y0, l.LinePages());
      QuotientBelow(c, l.GlyphWidth(), 0);
      QuotientBelow(page, l.LinePages(), 0);
      FirstNonneg(page / l.LinePages(), l.PerLine());
      var first := page / l.LinePages() * l.PerLine();
      if first + c / l.GlyphWidth() < |l.text| {
        GlyphRow(l, first, page % l.LinePages(), c, y % 8);
      }
    }
  }

  // Where the glyphs are

  function Joined<T>(parts: seq<seq<T>>): seq<T> {
    if parts == [] then [] else parts[0] + Joined(parts[1..])
  }

  lemma {:induction false} JoinedAt<T>(parts: seq<seq<T>>, n: nat, i: nat, j: nat)
    requires (forall k | 0 <= k < |parts| :: |parts[k]| == n) && i < |parts| && j < n
    ensures 0 <= i * n + j < |Joined(parts)| && Joined(parts)[i * n + j] == parts[i][j]
  {
    if i > 0 {
      JoinedAt(parts[1..], n, i - 1, j);
      Lines.OneMore(i - 1, n);
    }
  }

  lemma {:induction false} JoinedLength<T>(parts: seq<seq<T>>, n: nat)
    requires forall k | 0 <= k < |parts| :: |parts[k]| == n
    ensures |Joined(parts)| == |parts| * n
  {
    if parts != [] {
      JoinedLength(parts[1..], n);
      Lines.OneMore(|parts| - 1, n);
    }
  }

  /** The table of a font: its glyphs one after the other, each of them page by page, each page `width` columns. */
  ghost predicate Tabulates(font: Font, glyphs: seq<seq<seq<bv8>>>) {
    && font.table == Joined(Joined(glyphs))
    && (forall g | 0 <= g < |glyphs| :: |glyphs[g]| == (font.height + 7) / 8)
    && forall g, p | 0 <= g < |glyphs| && 0 <= p < |glyphs[g]| :: |glyphs[g][p]| == font.width
  }

  lemma {:induction false} EqualPages<T>(glyphs: seq<seq<seq<T>>>, pages: nat, width: nat)
    requires forall g | 0 <= g < |glyphs| :: |glyphs[g]| == pages
    requires forall g, p | 0 <= g < |glyphs| && 0 <= p < |glyphs[g]| :: |glyphs[g][p]| == width
    ensures forall k | 0 <= k < |Joined(glyphs)| :: |Joined(glyphs)[k]| == width
  {
    if glyphs != [] {
      EqualPages(glyphs[1..], pages, width);
    }
  }

  /** Where column `c` of page `p` of glyph `n` is in the table. */
  lemma TableColumn(glyphs: seq<seq<seq<bv8>>>, pages: nat, w: nat, n: nat, p: nat, c: nat)
    requires forall g | 0 <= g < |glyphs| :: |glyphs[g]| == pages
    requires forall g, q | 0 <= g < |glyphs| && 0 <= q < |glyphs[g]| :: |glyphs[g][q]| == w
    requires n < |glyphs| && p < pages && c < w
    ensures
      var i := n * (pages * w) + p * w + c;
      0 <= i < |Joined(Joined(glyphs))| && Joined(Joined(glyphs))[i] == glyphs[n][p][c]
  {
    EqualPages(glyphs, pages, w);
    JoinedAt(glyphs, pages, n, p);
    JoinedAt(Joined(glyphs), w, n * pages + p, c);
    hide Joined;
    Spread(n, pages, p, w);
  }

  lemma Spread(n: int, pages: int, p: int, w: int)
    ensures (n * pages + p) * w == n * (pages * w) + p * w
  {
  }

  lemma TableSize(glyphs: seq<seq<seq<bv8>>>, pages: nat, w: nat)
    requires forall g | 0 <= g < |glyphs| :: |glyphs[g]| == pages
    requires forall g, q | 0 <= g < |glyphs| && 0 <= q < |glyphs[g]| :: |glyphs[g][q]| == w
    ensures |Joined(Joined(glyphs))| == |glyphs| * (pages * w)
  {
    EqualPages(glyphs, pages, w);
    JoinedLength(glyphs, pages);
    JoinedLength(Joined(glyphs), w);
    hide Joined;
    Spread(|glyphs|, pages, 0, w);
  }

  lemma WithinTable(n: int, count: nat, size: nat)
    requires 0 < size
    ensures n * size + size <= count * size <==> n < count
  {
    Lines.OneMore(n, size);
    if n < count {
      MulLe(n + 1, count, size);
    } else {
      MulLe(count + 1, n + 1, size);
      Lines.OneMore(count, size);
    }
  }

  /** The font has the characters of its glyphs, and prints of each page the columns from left to right. */
  lemma GlyphColumns(font: Font, glyphs: seq<seq<seq<bv8>>>, ch: int)
    requires font.Valid() && Tabulates(font, glyphs)
    ensures font.Has(ch) <==> font.offset <= ch < font.offset + |glyphs|
    ensures font.Has(ch) ==> forall p, c | 0 <= p < (font.height + 7) / 8 && 0 <= c < font.width ::
              font.GlyphByte(ch, p, c) == glyphs[ch - font.offset][p][c]
  {
    var pages, w, n := (font.height + 7) / 8, font.width, ch - font.offset;
    TableSize(glyphs, pages, w);
    MulLe(1, pages, w);
    WithinTable(n, |glyphs|, pages * w);
    hide Joined;
    if 0 <= n < |glyphs| {
      forall p, c | 0 <= p < pages && 0 <= c < w
        ensures font.GlyphByte(ch, p, c) == glyphs[n][p][c]
      {
        TableColumn(glyphs, pages, w, n, p, c);
      }
    }
  }

  lemma PartOf(v: int, parts: nat, s: nat)
    requires 0 < s && 0 < parts * s && 0 <= v
    ensures 0 <= v % (parts * s) / s < parts
  {
    var m := v % (parts * s);
    QuotientBelow(m, s, parts);
  }

  /** Pixel of a glyph: bit `row % 8` of column `column` of its page `row / 8`. */
  predicate GlyphPixel(glyphs: seq<seq<seq<bv8>>>, glyph: int, column: int, row: int) {
    && 0 <= glyph < |glyphs| && 0 <= row / 8 < |glyphs[glyph]| && 0 <= column < |glyphs[glyph][row / 8]|
    && Bit(glyphs[glyph][row / 8][column], row % 8)
  }

  lemma PixelInGlyph(font: Font, glyphs: seq<seq<seq<bv8>>>, ch: int, c: int, row: int)
    requires font.Valid() && Tabulates(font, glyphs) && font.Has(ch)
    requires 0 <= c < font.width && 0 <= row < 8 * ((font.height + 7) / 8)
    ensures 0 <= ch - font.offset < |glyphs| && row / 8 < |glyphs[ch - font.offset]|
    ensures |glyphs[ch - font.offset][row / 8]| == font.width
    ensures font.GlyphBit(ch, c, row) == GlyphPixel(glyphs, ch - font.offset, c, row)
  {
    GlyphColumns(font, glyphs, ch);
    hide Bit, Joined;
  }

  /**
   * What the text gives to pixel (x, y), in numbers: magnified `s` times, the bit of the glyph of the character that
   * stands there when `perLine` characters make a line, inverted when the display is; None where no character stands.
   */
  function Standing(l: Layout, glyphs: seq<seq<seq<bv8>>>, x: int, y: int): Option<bool>
    requires 0 < l.s && 0 < l.font.width * l.s && 0 < 8 * ((l.font.height + 7) / 8 * l.s)
  {
    var wide, high := l.font.width * l.s, 8 * ((l.font.height + 7) / 8 * l.s);
    var c, r, perLine := x - l.xpos, y - 8 * l.y0, (l.width - l.xpos) / wide;
    var i := r / high * perLine + c / wide;
    if 0 <= c && 0 <= r && c / wide < perLine && 0 <= i < |l.text|
    then Some(GlyphPixel(glyphs, l.text[i] - l.font.offset, c % wide / l.s, r % high / l.s) != l.inverted)
    else None
  }

  /** The whole display after text has been printed: the pixels of the text, and the old ones elsewhere. */
  lemma TextShown(l: Layout, glyphs: seq<seq<seq<bv8>>>, ram0: seq<bv8>, ram: seq<bv8>, x: nat, y: nat)
    requires l.Valid() && Tabulates(l.font, glyphs) && |ram0| == 1024 && x < 128 && y < 64
    requires PagesDone(l, ram0, ram, l.height / 8)
    ensures |ram| == 1024 && 0 < l.s && 0 < l.font.width * l.s && 0 < 8 * ((l.font.height + 7) / 8 * l.s)
    ensures Bit(ram[y / 8 * 128 + x], y % 8)
            == if y < l.height && Standing(l, glyphs, x, y).Some? then Standing(l, glyphs, x, y).value
               else Bit(ram0[y / 8 * 128 + x], y % 8)
  {
    PixelDone(l, ram0, ram, x, y);
    hide PagesDone, Standing, Bit, Layout.Expected, Tabulates;
    StandingIs(l, glyphs, x, y);
  }

  lemma StandingIs(l: Layout, glyphs: seq<seq<seq<bv8>>>, x: nat, y: nat)
    requires l.Valid() && Tabulates(l.font, glyphs)
    ensures 0 < l.s && 0 < l.font.width * l.s && 0 < 8 * ((l.font.height + 7) / 8 * l.s)
    ensures l.GlyphWidth() > 0 && l.LinePages() > 0
    ensures Standing(l, glyphs, x, y)
            == if l.Expected(x, y / 8).Some? then Some(Bit(l.Expected(x, y / 8).value, y % 8)) else None
  {
    TextPixel(l, x, y);
    LayoutPositive(l);
    Dimensions(l);
    LayoutText(l);
    hide Bit, Font.GlyphBit, Font.Has, Font.Valid, Layout.Valid, Layout.Expected, Layout.LinePages, Layout.GlyphWidth;
    hide IsScale, Tabulates, GlyphPixel;
    var wide, high := l.font.width * l.s, 8 * ((l.font.height + 7) / 8 * l.s);
    assert l.GlyphWidth() == wide && 8 * l.LinePages() == high && l.PerLine() == (l.width - l.xpos) / wide;
    var c, r := x - l.xpos, y - 8 * l.y0;
    hide Layout.PerLine, Font.Pages;
    var i := r / high * ((l.width - l.xpos) / wide) + c / wide;
    if 0 <= c && 0 <= r && c / wide < (l.width - l.xpos) / wide && i < |l.text| {
      PartOf(c, l.font.width, l.s);
      EightParts((l.font.height + 7) / 8, l.s);
      PartOf(r, 8 * ((l.font.height + 7) / 8), l.s);
      PixelInGlyph(l.font, glyphs, l.text[i], c % wide / l.s, r % high / l.s);
    }
  }

  lemma EightParts(pages: int, s: int)
    ensures 8 * pages * s == 8 * (pages * s)
  {
  }

  lemma LayoutText(l: Layout)
    requires l.Valid()
    ensures 0 < l.s && l.font.Valid() && forall i | 0 <= i < |l.text| :: l.font.Has(l.text[i])
  {
  }

  lemma PixelDone(l: Layout, ram0: seq<bv8>, ram: seq<bv8>, x: nat, y: nat)
    requires l.Valid() && |ram0| == 1024 && x < 128 && y < 64 && PagesDone(l, ram0, ram, l.height / 8)
    ensures |ram| == 1024 && l.GlyphWidth() > 0 && l.LinePages() > 0
    ensures Bit(ram[y / 8 * 128 + x], y % 8)
            == if y < l.height && l.Expected(x, y / 8).Some? then Bit(l.Expected(x, y / 8).value, y % 8)
               else Bit(ram0[y / 8 * 128 + x], y % 8)
  {
    LayoutPositive(l);
    Address(128, 8, x, y / 8);
    hide Bit, Layout.Expected;
    assert Cell(ram, COLUMNS, x, y / 8) == ram[y / 8 * 128 + x];
    assert Cell(ram0, COLUMNS, x, y / 8) == ram0[y / 8 * 128 + x];
  }
}
