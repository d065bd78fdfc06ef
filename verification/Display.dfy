/**
 * The SSD1306 as the library drives it: a controller whose address window and auto-increment pointer (sections 10.1.3
 * to 10.1.5 of the SSD1306 datasheet, horizontal addressing) are set through a byte protocol, and the blits on top.
 */
module Display {
  import opened Bits

  const COLUMNS := 128
  const PAGES := 8
  const COLUMN_ADDRESS := 0x21
  const PAGE_ADDRESS := 0x22

  /** The address window, and the pointer that moves inside it. */
  datatype Window = Window(colStart: int, colEnd: int, pageStart: int, pageEnd: int, col: int, page: int)
  {
    predicate Valid() {
      0 <= colStart <= colEnd < COLUMNS && 0 <= pageStart <= pageEnd < PAGES
    }

    function Width(): int {
      colEnd - colStart + 1
    }

    function Height(): int {
      pageEnd - pageStart + 1
    }

    predicate AtStart() {
      col == colStart && page == pageStart
    }

    /** The pointer moves to the next column, or to the first column of the next page of the window. */
    function Advance(): Window {
      if col != colEnd then this.(col := col + 1)
      else this.(col := colStart, page := if page == pageEnd then pageStart else page + 1)
    }
  }

  /**
   * The controller: its memory, one byte for each column of each page; its window; whether the next byte is an I2C
   * control byte; whether bytes are data; and the bytes of an unfinished command.
   */
  datatype Chip = Chip(ram: seq<bv8>, window: Window, control: bool, data: bool, pending: seq<Octet>)
  {
    function Write(b: bv8): Chip {
      var i := window.page * COLUMNS + window.col;
      this.(ram := if 0 <= i < |ram| then ram[i := b] else ram, window := window.Advance())
    }

    function Command(v: Octet): Chip {
      var p := pending + [v];
      if p[0] != COLUMN_ADDRESS && p[0] != PAGE_ADDRESS then this.(pending := [])
      else if |p| < 3 then this.(pending := p)
      else if p[0] == COLUMN_ADDRESS then
        this.(pending := [], window := window.(colStart := p[1], colEnd := p[2], col := p[1]))
      else
        this.(pending := [], window := window.(pageStart := p[1], pageEnd := p[2], page := p[1]))
    }

    /** One byte arrives. */
    function Receive(v: Octet): Chip {
      if control then this.(control := false, data := v == 0x40)
      else if data then Write(v as bv8)
      else Command(v)
    }
  }

  /** Data bytes arriving one after the other. */
  function Stream(chip: Chip, bytes: seq<bv8>): Chip {
    if bytes == [] then chip else Stream(chip, bytes[..|bytes| - 1]).Write(bytes[|bytes| - 1])
  }

  lemma StreamOne(chip: Chip, bytes: seq<bv8>, b: bv8)
    ensures Stream(chip, bytes + [b]) == Stream(chip, bytes).Write(b)
  {
    assert (bytes + [b])[..|bytes|] == bytes;
  }

  /** Column `x` of page `p` after `bytes` filled the window from its start, row by row. */
  function FillCell(ram: seq<bv8>, w: Window, bytes: seq<bv8>, x: int, p: int): bv8 {
    if w.colStart <= x <= w.colEnd && w.pageStart <= p && At(w.Width(), x - w.colStart, p - w.pageStart) < |bytes|
    then Cell(bytes, w.Width(), x - w.colStart, p - w.pageStart)
    else Cell(ram, COLUMNS, x, p)
  }

  ghost predicate Filled(ram: seq<bv8>, ram': seq<bv8>, w: Window, bytes: seq<bv8>) {
    && |ram'| == |ram|
    && forall x, p | 0 <= x < COLUMNS && 0 <= p < PAGES :: Cell(ram', COLUMNS, x, p) == FillCell(ram, w, bytes, x, p)
  }

  lemma NothingFilled(ram: seq<bv8>, w: Window)
    requires w.Valid()
    ensures Filled(ram, ram, w, [])
  {
    forall x, p | 0 <= x < COLUMNS && 0 <= p < PAGES
      ensures Cell(ram, COLUMNS, x, p) == FillCell(ram, w, [], x, p)
    {
      if w.pageStart <= p {
        MulLe(0, p - w.pageStart, w.Width());
      }
    }
  }

  lemma CellBefore(bytes: seq<bv8>, b: bv8, width: int, x: int, p: int)
    ensures At(width, x, p) != |bytes| ==> Cell(bytes + [b], width, x, p) == Cell(bytes, width, x, p)
    ensures At(width, x, p) == |bytes| ==> Cell(bytes + [b], width, x, p) == b
  {
  }

  /** One more byte, at row `j` and column `i` of the window. */
  lemma FillStep(ram: seq<bv8>, ram': seq<bv8>, w: Window, bytes: seq<bv8>, b: bv8, j: int, i: int)
    requires w.Valid() && |ram| == COLUMNS * PAGES && Filled(ram, ram', w, bytes)
    requires 0 <= i < w.Width() && 0 <= j < w.Height() && |bytes| == At(w.Width(), i, j)
    ensures 0 <= At(COLUMNS, w.colStart + i, w.pageStart + j) < |ram'|
    ensures Filled(ram, ram'[At(COLUMNS, w.colStart + i, w.pageStart + j) := b], w, bytes + [b])
  {
    hide Cell;
    AtInRange(COLUMNS, PAGES, w.colStart + i, w.pageStart + j);
    var after := ram'[At(COLUMNS, w.colStart + i, w.pageStart + j) := b];
    StoreCell(ram', after, COLUMNS, PAGES, w.colStart + i, w.pageStart + j, b);
    forall x, p | 0 <= x < COLUMNS && 0 <= p < PAGES
      ensures Cell(after, COLUMNS, x, p) == FillCell(ram, w, bytes + [b], x, p)
    {
      CellBefore(bytes, b, w.Width(), x - w.colStart, p - w.pageStart);
      if w.colStart <= x <= w.colEnd && At(w.Width(), x - w.colStart, p - w.pageStart) == |bytes| {
        AddressInjective(w.Width(), x - w.colStart, p - w.pageStart, i, j);
      }
    }
  }

  /** The window with its pointer at row `j`, column `i`; past the last row it is back at the start. */
  function Position(w: Window, j: int, i: int): Window {
    w.(col := w.colStart + i, page := if j == w.Height() then w.pageStart else w.pageStart + j)
  }

  /** The row and column before row `j`, column `i`. */
  function Previous(w: Window, j: int, i: int): (int, int) {
    if i > 0 then (j, i - 1) else (j - 1, w.Width() - 1)
  }

  lemma AdvanceStep(w: Window, j: int, i: int)
    requires w.Valid() && 0 <= i < w.Width() && 0 <= j <= w.Height() && (j == w.Height() ==> i == 0)
    requires i != 0 || j != 0
    ensures
      var (j', i') := Previous(w, j, i);
      && 0 <= i' < w.Width() && 0 <= j' < w.Height()
      && Position(w, j', i').Advance() == Position(w, j, i)
      && Position(w, j', i').col == w.colStart + i' && Position(w, j', i').page == w.pageStart + j'
  {
  }

  lemma PreviousIndex(w: Window, j: int, i: int)
    requires w.Valid() && 0 <= i < w.Width() && 0 <= j && (i != 0 || j != 0)
    ensures
      var (j', i') := Previous(w, j, i);
      0 <= At(w.Width(), i', j') && At(w.Width(), i', j') + 1 == At(w.Width(), i, j)
  {
    var (j', i') := Previous(w, j, i);
    MulLe(0, j', w.Width());
    AtSteps(w.Width(), i', j');
    AtSteps(w.Width(), 0, j');
  }

  /**
   * Horizontal addressing: bytes streamed from the start of a window fill it row by row. Byte `k` lands in page
   * k / width and column k mod width of the window, and the rest of the memory keeps its contents.
   */
  lemma {:induction false} StreamFills(chip: Chip, bytes: seq<bv8>, j: int, i: int)
    requires chip.window.Valid() && chip.window.AtStart() && |chip.ram| == COLUMNS * PAGES
    requires 0 <= i < chip.window.Width() && 0 <= j <= chip.window.Height() && (j == chip.window.Height() ==> i == 0)
    requires |bytes| == At(chip.window.Width(), i, j)
    ensures
      var c := Stream(chip, bytes);
      && c == chip.(ram := c.ram, window := Position(chip.window, j, i))
      && Filled(chip.ram, c.ram, chip.window, bytes)
    decreases |bytes|
  {
    hide Filled, FillCell;
    var w := chip.window;
    if i == 0 && j == 0 {
      NothingFilled(chip.ram, w);
    } else {
      PreviousIndex(w, j, i);
      AdvanceStep(w, j, i);
      var (j', i') := Previous(w, j, i);
      hide Previous, Position, Window.Advance, Window.Valid;
      var before, b := bytes[..|bytes| - 1], bytes[|bytes| - 1];
      assert bytes == before + [b];
      StreamFills(chip, before, j', i');
      FillStep(chip.ram, Stream(chip, before).ram, w, before, b, j', i');
    }
  }

  /** The three bytes of a set-column-address command. */
  lemma ColumnCommand(chip: Chip, first: Octet, last: Octet)
    requires !chip.control && !chip.data && chip.pending == []
    ensures chip.Receive(COLUMN_ADDRESS).Receive(first).Receive(last)
            == chip.(window := chip.window.(colStart := first, colEnd := last, col := first))
  {
    assert chip.Receive(COLUMN_ADDRESS).pending == [COLUMN_ADDRESS];
  }

  /** The three bytes of a set-page-address command. */
  lemma PageCommand(chip: Chip, first: Octet, last: Octet)
    requires !chip.control && !chip.data && chip.pending == []
    ensures chip.Receive(PAGE_ADDRESS).Receive(first).Receive(last)
            == chip.(window := chip.window.(pageStart := first, pageEnd := last, page := first))
  {
    assert chip.Receive(PAGE_ADDRESS).pending == [PAGE_ADDRESS];
  }

  /** The byte after a start on I2C says whether data or commands follow. */
  lemma ControlByte(chip: Chip, v: Octet)
    requires chip.control
    ensures chip.Receive(v) == chip.(control := false, data := v == 0x40)
  {
  }

  /** The controller ready to take pixel bytes for a block that starts at column `x` of page `y`. */
  function Block(chip: Chip, width: nat, height: nat, x: int, y: int, w: int): Chip {
    var right := if w != 0 then U8(x + w - 1) else U8(width - 1);
    chip.(window := Window(U8(x), right, U8(y), U8(height / 8 - 1), U8(x), U8(y)), control := false, data := true)
  }

  class Driver {
    const width: nat
    const height: nat
    /** The bus is SPI with a data/command line; otherwise I2C with a control byte after each start. */
    const spi: bool
    var chip: Chip
    /** All bytes sent so far. */
    ghost var traffic: seq<Octet>

    ghost predicate Valid()
      reads this
    {
      && 0 < width <= COLUMNS && 0 < height <= 8 * PAGES && height % 8 == 0
      && |chip.ram| == COLUMNS * PAGES && !chip.control && chip.pending == []
    }

    constructor (w: nat, h: nat, overSpi: bool, memory: seq<bv8>)
      requires 0 < w <= COLUMNS && 0 < h <= 8 * PAGES && h % 8 == 0 && |memory| == COLUMNS * PAGES
      ensures Valid() && width == w && height == h && spi == overSpi && chip.ram == memory
    {
      width, height, spi, traffic := w, h, overSpi, [];
      chip := Chip(memory, Window(0, COLUMNS - 1, 0, PAGES - 1, 0, 0), false, false, []);
    }

    method Start()
      modifies this
      ensures chip == old(chip).(control := !spi || old(chip).control) && traffic == old(traffic)
    {
      if !spi {
        chip := chip.(control := true);
      }
    }

    method Stop()
    {
    }

    method SpiDataMode(mode: bool)
      modifies this
      ensures chip == old(chip).(data := mode) && traffic == old(traffic)
    {
      chip := chip.(data := mode);
    }

    method Send(v: Octet)
      modifies this
      ensures chip == old(chip).Receive(v) && traffic == old(traffic) + [v]
    {
      chip, traffic := chip.Receive(v), traffic + [v];
    }

    method SendThree(a: Octet, b: Octet, c: Octet)
      modifies this
      ensures chip == old(chip).Receive(a).Receive(b).Receive(c) && traffic == old(traffic) + [a, b, c]
    {
      hide Chip.Receive;
      Send(a);
      Send(b);
      Send(c);
    }

    method SetBlock(x: int, y: int, w: int)
      requires Valid()
      modifies this
      ensures chip == Block(old(chip), width, height, x, y, w)
      ensures
        var columns := [0x21, U8(x), if w != 0 then U8(x + w - 1) else U8(width - 1)];
        var pages := [0x22, U8(y), U8(height / 8 - 1)];
        traffic == old(traffic) + if spi then columns + pages else [0x00] + columns + pages + [0x40]
    {
      hide U8, Chip.Receive;
      var right := U8(if w != 0 then x + w - 1 else width - 1);
      Start();
      if spi {
        SpiDataMode(false);
      } else {
        ControlByte(chip, 0x00);
        Send(0x00);
      }
      ghost var addressing := traffic;
      ColumnCommand(chip, U8(x), right);
      SendThree(COLUMN_ADDRESS, U8(x), right);
      PageCommand(chip, U8(y), U8(height / 8 - 1));
      SendThree(PAGE_ADDRESS, U8(y), U8(height / 8 - 1));
      assert traffic == addressing + ([0x21, U8(x), right] + [0x22, U8(y), U8(height / 8 - 1)]);
      if spi {
        SpiDataMode(true);
      } else {
        Stop();
        Start();
        ControlByte(chip, 0x40);
        Send(0x40);
      }
    }

    method NextPage()
    {
    }

    method SendPixels(b: bv8)
      requires !chip.control && chip.data
      modifies this
      ensures chip == old(chip).Write(b) && traffic == old(traffic) + [b as int]
    {
      Send(b as int);
    }

    method SendPixelsBuffer(buf: array<bv8>, start: int, len: int, ghost block: Chip)
      requires 0 <= start && 0 <= len && start + len <= buf.Length
      requires !block.control && block.data && chip == Stream(block, buf[..start])
      modifies this
      ensures chip == Stream(block, buf[..start + len])
    {
      var k := 0;
      while k < len
        invariant 0 <= k <= len && chip == Stream(block, buf[..start + k])
      {
        StreamKeeps(block, buf[..start + k]);
        SendPixels(buf[start + k]);
        assert buf[..start + k + 1] == buf[..start + k] + [buf[start + k]];
        StreamOne(block, buf[..start + k], buf[start + k]);
        k := k + 1;
      }
    }

    method DrawBufferFast(x: int, y: int, w: nat, h: nat, buf: array<bv8>)
      requires Valid() && w * U8(h / 8) <= buf.Length
      modifies this
      ensures Valid()
      ensures 0 <= w * U8(h / 8)
      ensures chip == Stream(Block(old(chip), width, height, x, y / 8, w), buf[..w * U8(h / 8)])
    {
      SetBlock(x, y / 8, w);
      SendPages(w, U8(h / 8), buf);
      Stop();
    }

    method SendPages(w: nat, pages: nat, buf: array<bv8>)
      requires !chip.control && chip.data && w * pages <= buf.Length
      modifies this
      ensures 0 <= w * pages && chip == Stream(old(chip), buf[..w * pages])
      ensures |chip.ram| == |old(chip).ram| && !chip.control && chip.pending == old(chip).pending
    {
      ghost var block := chip;
      ghost var done := 0;
      var start := 0;
      var j := pages;
      AtIsProduct(w, pages);
      hide At;
      while j > 0
        invariant 0 <= j && done + j == pages && 0 <= start == At(w, 0, done)
        invariant start <= buf.Length && chip == Stream(block, buf[..start])
      {
        AtSteps(w, 0, done);
        AtMonotone(w, 0, done + 1, pages);
        SendPixelsBuffer(buf, start, w, block);
        start := start + w;
        NextPage();
        done := done + 1;
        j := j - 1;
      }
      StreamKeeps(block, buf[..start]);
    }
  }

  lemma AtIsProduct(w: nat, n: nat)
    ensures At(w, 0, n) == w * n && At(w, 0, 0) == 0
  {
  }

  lemma StreamKeeps(chip: Chip, bytes: seq<bv8>)
    ensures
      var c := Stream(chip, bytes);
      |c.ram| == |chip.ram| && c.control == chip.control && c.data == chip.data && c.pending == chip.pending
  {
  }

  /** The block lies inside the display. */
  predicate InRange(width: nat, height: nat, x: int, y: int, w: nat, h: nat) {
    0 <= x && 0 < w && x + w <= width <= COLUMNS && 0 <= y && y / 8 + h / 8 <= height / 8 <= PAGES && 0 < height / 8
  }

  lemma PageOf(w: nat, n: nat, i: int, p: int)
    requires 0 <= i < w
    ensures p >= 0 ==> (At(w, i, p) < w * n <==> p < n)
  {
    if p < n {
      MulLe(p + 1, n, w);
    } else {
      MulLe(n, p, w);
    }
  }

  /** A blit stores byte j * w + i of its buffer at page y / 8 + j, column x + i, and nothing anywhere else. */
  lemma BlitLands(chip: Chip, width: nat, height: nat, x: int, y: int, w: nat, h: nat, bytes: seq<bv8>)
    requires InRange(width, height, x, y, w, h) && |chip.ram| == COLUMNS * PAGES && |bytes| == w * (h / 8)
    ensures
      var ram := Stream(Block(chip, width, height, x, y / 8, w), bytes).ram;
      && |ram| == |chip.ram|
      && forall X, P | 0 <= X < COLUMNS && 0 <= P < PAGES ::
           Cell(ram, COLUMNS, X, P) == if x <= X < x + w && y / 8 <= P < y / 8 + h / 8
                                       then Cell(bytes, w, X - x, P - y / 8)
                                       else Cell(chip.ram, COLUMNS, X, P)
  {
    Octets(width, height, x, y, w, h);
    hide *;
    var block := Block(chip, width, height, x, y / 8, w);
    if h / 8 == 0 {
      assert bytes == [];
      StreamNothing(block);
      BlockKeeps(chip, width, height, x, y / 8, w);
    } else {
      AtIsProduct(w, h / 8);
      BlockWindow(chip, width, height, x, y, w, h);
      StreamFills(block, bytes, h / 8, 0);
      var ram := Stream(block, bytes).ram;
      forall X, P | 0 <= X < COLUMNS && 0 <= P < PAGES
        ensures Cell(ram, COLUMNS, X, P) == if x <= X < x + w && y / 8 <= P < y / 8 + h / 8
                                            then Cell(bytes, w, X - x, P - y / 8)
                                            else Cell(chip.ram, COLUMNS, X, P)
      {
        BlitCell(block, ram, x, y / 8, w, h / 8, bytes, X, P);
      }
    }
  }

  /** One cell after a window from column `x` of page `y` has been filled with `n` pages. */
  lemma BlitCell(block: Chip, ram: seq<bv8>, x: int, y: int, w: nat, n: int, bytes: seq<bv8>, X: int, P: int)
    requires Filled(block.ram, ram, block.window, bytes) && 0 <= X < COLUMNS && 0 <= P < PAGES && |bytes| == w * n
    requires block.window.Width() == w && block.window.colStart == x && block.window.colEnd == x + w - 1
    requires block.window.pageStart == y
    ensures Cell(ram, COLUMNS, X, P) == if x <= X < x + w && y <= P < y + n then Cell(bytes, w, X - x, P - y)
                                        else Cell(block.ram, COLUMNS, X, P)
  {
    hide *;
    FilledAt(block.ram, ram, block.window, bytes, X, P);
    if x <= X < x + w {
      PageOf(w, n, X - x, P - y);
    }
  }

  lemma StreamNothing(chip: Chip)
    ensures Stream(chip, []) == chip
  {
  }

  lemma BlockKeeps(chip: Chip, width: nat, height: nat, x: int, y: int, w: nat)
    ensures Block(chip, width, height, x, y, w).ram == chip.ram
  {
  }

  lemma BlockWindow(chip: Chip, width: nat, height: nat, x: int, y: int, w: nat, h: nat)
    requires InRange(width, height, x, y, w, h) && h / 8 > 0
    ensures
      var block := Block(chip, width, height, x, y / 8, w);
      var win := block.window;
      && block.ram == chip.ram && win.Valid() && win.AtStart() && win.Width() == w && h / 8 <= win.Height()
      && win.colStart == x && win.colEnd == x + w - 1 && win.pageStart == y / 8
  {
  }

  lemma FilledAt(ram: seq<bv8>, ram': seq<bv8>, w: Window, bytes: seq<bv8>, x: int, p: int)
    requires Filled(ram, ram', w, bytes) && 0 <= x < COLUMNS && 0 <= p < PAGES
    ensures |ram'| == |ram|
    ensures Cell(ram', COLUMNS, x, p) ==
              if && w.colStart <= x <= w.colEnd && w.pageStart <= p
                 && At(w.Width(), x - w.colStart, p - w.pageStart) < |bytes|
              then Cell(bytes, w.Width(), x - w.colStart, p - w.pageStart)
              else Cell(ram, COLUMNS, x, p)
  {
  }

  lemma Octets(width: nat, height: nat, x: int, y: int, w: nat, h: nat)
    requires InRange(width, height, x, y, w, h)
    ensures U8(x) == x && U8(x + w - 1) == x + w - 1 && U8(height / 8 - 1) == height / 8 - 1
    ensures h / 8 > 0 ==> U8(y / 8) == y / 8
  {
  }

  /** The same for pixels, when the block starts and ends on page boundaries. */
  lemma BlitShows(chip: Chip, width: nat, height: nat, x: int, y: int, w: nat, h: nat, bytes: seq<bv8>)
    requires InRange(width, height, x, y, w, h) && |chip.ram| == COLUMNS * PAGES && |bytes| == w * (h / 8)
    requires y % 8 == 0 && h % 8 == 0
    ensures
      var ram := Stream(Block(chip, width, height, x, y / 8, w), bytes).ram;
      && |ram| == |chip.ram|
      && forall X, Y | 0 <= X < COLUMNS && 0 <= Y < 8 * PAGES ::
           Px(ram, COLUMNS, X, Y) == if x <= X < x + w && y <= Y < y + h then Px(bytes, w, X - x, Y - y)
                                     else Px(chip.ram, COLUMNS, X, Y)
  {
    hide Cell;
    hide Bit;
    BlitLands(chip, width, height, x, y, w, h, bytes);
    var ram := Stream(Block(chip, width, height, x, y / 8, w), bytes).ram;
    forall X, Y | 0 <= X < COLUMNS && 0 <= Y < 8 * PAGES
      ensures Px(ram, COLUMNS, X, Y) == if x <= X < x + w && y <= Y < y + h then Px(bytes, w, X - x, Y - y)
                                        else Px(chip.ram, COLUMNS, X, Y)
    {
      assert (Y - y) / 8 == Y / 8 - y / 8 && (Y - y) % 8 == Y % 8;
    }
  }
}
