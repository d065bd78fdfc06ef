/** The controller behind the SPI cache: what reaches it over the wire, late and in chunks, is what the driver does. */
module SpiLink {
  import opened Bits
  import opened Display
  import opened SpiCache
  import opened InitProgram

  /** The controller sees bytes, each with the level of the data/command line. */
  function OnWire(chip: Chip, sent: seq<Sent>): Chip
    decreases |sent|
  {
    if sent == [] then chip else OnWire(chip.(data := sent[0].data).Receive(sent[0].byte), sent[1..])
  }

  /** What a call does to the controller when it takes effect at once. */
  function Does(chip: Chip, e: Event): Chip {
    if e.Send? then chip.Receive(e.byte) else if e.Mode? then chip.(data := e.data) else chip
  }

  function Direct(chip: Chip, events: seq<Event>): Chip
    decreases |events|
  {
    if events == [] then chip else Direct(Does(chip, events[0]), events[1..])
  }

  lemma ReceiveKeeps(chip: Chip, b: Octet)
    requires !chip.control
    ensures !chip.Receive(b).control && chip.Receive(b).data == chip.data
  {
  }

  lemma WireFirst(chip: Chip, first: Sent, rest: seq<Sent>)
    ensures OnWire(chip, [first] + rest) == OnWire(chip.(data := first.data).Receive(first.byte), rest)
  {
    assert ([first] + rest)[1..] == rest;
  }

  /** Bytes tagged with the level at which they were queued do to the controller what the calls do. */
  lemma {:induction false} QueuedDrives(chip: Chip, level: bool, events: seq<Event>)
    requires !chip.control
    ensures OnWire(chip, Queued(level, events)).(data := LevelAfter(level, events))
         == Direct(chip.(data := level), events)
    decreases |events|
  {
    if events != [] {
      var rest := events[1..];
      match events[0]
      case Send(b) =>
        ReceiveKeeps(chip.(data := level), b);
        WireFirst(chip, Sent(b, level), Queued(level, rest));
        QueuedDrives(chip.(data := level).Receive(b), level, rest);
      case Mode(data) => QueuedDrives(chip, data, rest);
      case _ => QueuedDrives(chip, level, rest);
    }
  }

  /** In every well-bracketed run, the controller that has seen the wire is where the calls would have put it. */
  lemma WireDrives(chip: Chip, s: State, events: seq<Event>)
    requires !chip.control && Bracketed(false, events) && s.cache == []
    ensures
      var r := Run(s, events);
      && |s.wire| <= |r.wire| && r.cache == []
      && OnWire(chip, r.wire[|s.wire|..]).(data := r.level) == Direct(chip.(data := s.level), events)
  {
    WireIsQueue(s, events);
    QueuedDrives(chip, s.level, events);
    RunLevel(s, events);
    assert (s.wire + Queued(s.level, events))[|s.wire|..] == Queued(s.level, events);
  }

  /** The calls of `ssd1306_setBlock` over SPI. */
  function BlockCalls(width: nat, height: nat, x: int, y: int, w: int): seq<Event> {
    [Start, Mode(false), Send(COLUMN_ADDRESS), Send(U8(x)), Send(U8(if w != 0 then x + w - 1 else width - 1)),
     Send(PAGE_ADDRESS), Send(U8(y)), Send(U8(height / 8 - 1)), Mode(true)]
  }

  /** Pixel bytes sent one by one. */
  function PixelCalls(bytes: seq<bv8>): seq<Event> {
    seq(|bytes|, i requires 0 <= i < |bytes| => Send(bytes[i] as int))
  }

  /** A block, its pixels, and the stop. */
  function BlitCalls(width: nat, height: nat, x: int, y: int, w: int, bytes: seq<bv8>): seq<Event> {
    BlockCalls(width, height, x, y, w) + PixelCalls(bytes) + [Stop]
  }

  lemma {:induction false} DirectConcat(chip: Chip, a: seq<Event>, b: seq<Event>)
    ensures Direct(chip, a + b) == Direct(Direct(chip, a), b)
    decreases |a|
  {
    if a == [] {
      assert a + b == b;
    } else {
      assert (a + b)[0] == a[0] && (a + b)[1..] == a[1..] + b;
      DirectConcat(Does(chip, a[0]), a[1..], b);
    }
  }

  lemma DirectFirst(chip: Chip, e: Event, rest: seq<Event>)
    ensures Direct(chip, [e] + rest) == Direct(Does(chip, e), rest)
  {
    assert ([e] + rest)[1..] == rest;
  }

  /** Three bytes sent. */
  lemma DirectThree(chip: Chip, a: Octet, b: Octet, c: Octet)
    ensures Direct(chip, [Send(a), Send(b), Send(c)]) == chip.Receive(a).Receive(b).Receive(c)
  {
    hide Chip.Receive;
    DirectFirst(chip, Send(a), [Send(b), Send(c)]);
    DirectFirst(chip.Receive(a), Send(b), [Send(c)]);
    DirectFirst(chip.Receive(a).Receive(b), Send(c), []);
    assert [Send(a), Send(b), Send(c)] == [Send(a)] + [Send(b), Send(c)];
    assert [Send(b), Send(c)] == [Send(b)] + [Send(c)] && [Send(c)] == [Send(c)] + [];
  }

  lemma DirectMode(chip: Chip, data: bool)
    ensures Direct(chip, [Start, Mode(data)]) == chip.(data := data) == Direct(chip, [Mode(data)])
    ensures Direct(chip, [Stop]) == chip
  {
    DirectFirst(chip, Start, [Mode(data)]);
    DirectFirst(chip, Mode(data), []);
    DirectFirst(chip, Stop, []);
    assert [Start, Mode(data)] == [Start] + [Mode(data)] && [Mode(data)] == [Mode(data)] + [] && [Stop] == [Stop] + [];
  }

  lemma BlockDirect(chip: Chip, width: nat, height: nat, x: int, y: int, w: int)
    requires !chip.control && chip.pending == []
    ensures Direct(chip, BlockCalls(width, height, x, y, w)) == Block(chip, width, height, x, y, w)
  {
    hide U8, Direct;
    var right := U8(if w != 0 then x + w - 1 else width - 1);
    var open, columns := [Start, Mode(false)], [Send(COLUMN_ADDRESS), Send(U8(x)), Send(right)];
    var pages := [Send(PAGE_ADDRESS), Send(U8(y)), Send(U8(height / 8 - 1))];
    assert BlockCalls(width, height, x, y, w) == open + columns + pages + [Mode(true)];
    DirectConcat(chip, open + columns + pages, [Mode(true)]);
    DirectConcat(chip, open + columns, pages);
    DirectConcat(chip, open, columns);
    DirectMode(chip, false);
    var c0 := chip.(data := false);
    DirectThree(c0, COLUMN_ADDRESS, U8(x), right);
    ColumnCommand(c0, U8(x), right);
    var c1 := Direct(c0, columns);
    DirectThree(c1, PAGE_ADDRESS, U8(y), U8(height / 8 - 1));
    PageCommand(c1, U8(y), U8(height / 8 - 1));
    DirectMode(Direct(c1, pages), true);
    hide Chip.Receive;
  }

  lemma {:induction false} PixelsDirect(chip: Chip, bytes: seq<bv8>)
    requires !chip.control && chip.data
    ensures Direct(chip, PixelCalls(bytes)) == Stream(chip, bytes)
    decreases |bytes|
  {
    if bytes != [] {
      var before, b := bytes[..|bytes| - 1], bytes[|bytes| - 1];
      assert PixelCalls(bytes) == PixelCalls(before) + [Send(b as int)];
      DirectConcat(chip, PixelCalls(before), [Send(b as int)]);
      PixelsDirect(chip, before);
      StreamKeeps(chip, before);
      DirectFirst(Stream(chip, before), Send(b as int), []);
      assert [Send(b as int)] + [] == [Send(b as int)];
    }
  }

  lemma {:induction false} PixelsBracketed(bytes: seq<bv8>, rest: seq<Event>)
    requires Bracketed(true, rest)
    ensures Bracketed(true, PixelCalls(bytes) + rest)
    decreases |bytes|
  {
    if bytes == [] {
      assert PixelCalls(bytes) + rest == rest;
    } else {
      assert (PixelCalls(bytes) + rest)[1..] == PixelCalls(bytes[1..]) + rest;
      PixelsBracketed(bytes[1..], rest);
    }
  }

  lemma BracketedFirst(open: bool, e: Event, rest: seq<Event>)
    ensures Bracketed(open, [e] + rest) == if e.Start? then !open && Bracketed(true, rest)
                                           else if e.Stop? then open && Bracketed(false, rest)
                                           else if e.Send? then open && Bracketed(true, rest)
                                           else Bracketed(open, rest)
  {
    assert ([e] + rest)[1..] == rest;
  }

  lemma BlitBracketed(width: nat, height: nat, x: int, y: int, w: int, bytes: seq<bv8>)
    ensures Bracketed(false, BlitCalls(width, height, x, y, w, bytes))
  {
    hide U8;
    assert [Stop][1..] == [];
    PixelsBracketed(bytes, [Stop]);
    var calls := BlockCalls(width, height, x, y, w);
    var rest := PixelCalls(bytes) + [Stop];
    BracketedSuffix(calls, rest, 9);
    assert calls + rest == BlitCalls(width, height, x, y, w, bytes) && calls[..0] == [];
  }

  /** The last `n` of the block's calls, in front of pixels. */
  lemma {:induction false} BracketedSuffix(calls: seq<Event>, rest: seq<Event>, n: nat)
    requires n <= |calls| == 9 && Bracketed(true, rest) && calls[0] == Start
    requires forall i | 1 <= i < 9 :: calls[i].Send? || calls[i].Mode?
    ensures Bracketed(n < 9, calls[9 - n..] + rest)
    ensures n == 9 ==> calls[0..] == calls
  {
    var k := 9 - n;
    if n == 0 {
      assert calls[9..] + rest == rest;
    } else {
      BracketedSuffix(calls, rest, n - 1);
      assert calls[k..] + rest == [calls[k]] + (calls[k + 1..] + rest);
      BracketedFirst(n < 9, calls[k], calls[k + 1..] + rest);
    }
  }

  /** Blit through the cache: when the block's calls and its pixel bytes have gone through the SPI cache, the controller
      holds the buffer's bytes at their pages and columns and nothing else has changed. */
  lemma BlitThroughCache(chip: Chip, s: State, width: nat, height: nat, x: int, y: int, w: nat, h: nat, bytes: seq<bv8>)
    requires InRange(width, height, x, y, w, h) && |chip.ram| == COLUMNS * PAGES && |bytes| == w * (h / 8)
    requires !chip.control && chip.pending == [] && s.cache == []
    ensures
      var r := Run(s, BlitCalls(width, height, x, y / 8, w, bytes));
      && |s.wire| <= |r.wire| && r.cache == []
      && var after := OnWire(chip, r.wire[|s.wire|..]).ram;
         && |after| == |chip.ram|
         && forall X, P | 0 <= X < COLUMNS && 0 <= P < PAGES ::
              Cell(after, COLUMNS, X, P) == if x <= X < x + w && y / 8 <= P < y / 8 + h / 8
                                            then Cell(bytes, w, X - x, P - y / 8)
                                            else Cell(chip.ram, COLUMNS, X, P)
  {
    var calls := BlitCalls(width, height, x, y / 8, w, bytes);
    var c := chip.(data := s.level);
    BlitBracketed(width, height, x, y / 8, w, bytes);
    WireDrives(chip, s, calls);
    BlockDirect(c, width, height, x, y / 8, w);
    BlitLands(c, width, height, x, y, w, h, bytes);
    hide *;
    BlitDirect(c, width, height, x, y / 8, w, bytes);
    RamOnly(OnWire(chip, Run(s, calls).wire[|s.wire|..]), Run(s, calls).level);
  }

  lemma RamOnly(chip: Chip, data: bool)
    ensures chip.(data := data).ram == chip.ram
  {
  }

  lemma BlitDirect(chip: Chip, width: nat, height: nat, x: int, y: int, w: int, bytes: seq<bv8>)
    requires !chip.control && chip.pending == []
    ensures Direct(chip, BlitCalls(width, height, x, y, w, bytes)) == Stream(Block(chip, width, height, x, y, w), bytes)
  {
    var block := BlockCalls(width, height, x, y, w);
    BlockDirect(chip, width, height, x, y, w);
    DirectConcat(chip, block + PixelCalls(bytes), [Stop]);
    DirectConcat(chip, block, PixelCalls(bytes));
    PixelsDirect(Block(chip, width, height, x, y, w), bytes);
    DirectMode(Stream(Block(chip, width, height, x, y, w), bytes), true);
  }
}
