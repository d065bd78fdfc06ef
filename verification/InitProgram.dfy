/** The interpreter of byte-coded display initialisation programs. */
module InitProgram {
  import opened Bits
  import opened SpiCache

  const DELAY := 0xFF

  /** One item of a program. */
  datatype Item =
    | Command(code: Octet, args: seq<Octet>)
    | Bare(code: Octet, marker: Octet)
    | CommandThenPause(code: Octet, ms: Octet)
  {
    predicate Valid() {
      match this
      case Command(_, args) => |args| < 128
      case Bare(_, marker) => 128 <= marker < DELAY
      case CommandThenPause(_, _) => true
    }

    function Encoded(): seq<Octet>
      requires Valid()
    {
      match this
      case Command(code, args) => [code, |args|] + args
      case Bare(code, marker) => [code, marker]
      case CommandThenPause(code, ms) => [code, DELAY, ms]
    }

    /** The calls the item stands for. */
    function Calls(): seq<Event> {
      match this
      case Command(code, args) =>
        if args == [] then [Send(code)] else [Send(code), Mode(true)] + Sends(args) + [Mode(false)]
      case Bare(code, _) => [Send(code)]
      case CommandThenPause(code, ms) => [Send(code), Wait(Milliseconds(ms))]
    }

    /** What the display must see: the command under the command level, its arguments under the data level. */
    function Meaning(): seq<Sent> {
      if Command? then [Sent(code, false)] + Tag(args, true) else [Sent(code, false)]
    }
  }

  function Milliseconds(ms: Octet): int {
    if ms == 0xFF then 500 else ms
  }

  function Sends(args: seq<Octet>): seq<Event> {
    seq(|args|, i requires 0 <= i < |args| => Send(args[i]))
  }

  predicate AllValid(items: seq<Item>) {
    forall i | 0 <= i < |items| :: items[i].Valid()
  }

  function Encode(items: seq<Item>): seq<Octet>
    requires AllValid(items)
  {
    if items == [] then [] else items[0].Encoded() + Encode(items[1..])
  }

  function AllCalls(items: seq<Item>): seq<Event> {
    if items == [] then [] else items[0].Calls() + AllCalls(items[1..])
  }

  function Means(items: seq<Item>): seq<Sent> {
    if items == [] then [] else items[0].Meaning() + Means(items[1..])
  }

  /** What the interpreter does with one byte: its next state, and the calls it makes. */
  function Advance(command: Octet, args: int, data: Octet): (Octet, int, seq<Event>) {
    if command != 0 then
      if command == DELAY then (1, args, [Wait(Milliseconds(data))]) else (0, -1, [Send(data)])
    else if args < 0 then
      if data >= 128 then (data, args, [])
      else if data > 0 then (0, data, [Mode(true)])
      else (1, args, [])
    else if args == 1 then (1, 0, [Send(data), Mode(false)])
    else (0, args - 1, [Send(data)])
  }

  /** The calls made on the bytes from a given interpreter state. */
  function Interpret(command: Octet, args: int, config: seq<Octet>): seq<Event>
    decreases |config|
  {
    if config == [] then []
    else
      var (nextCommand, nextArgs, calls) := Advance(command, args, config[0]);
      calls + Interpret(nextCommand, nextArgs, config[1..])
  }

  /** A byte, and the bytes after it. */
  lemma InterpretByte(command: Octet, args: int, data: Octet, rest: seq<Octet>)
    ensures
      var (nextCommand, nextArgs, calls) := Advance(command, args, data);
      Interpret(command, args, [data] + rest) == calls + Interpret(nextCommand, nextArgs, rest)
  {
    assert ([data] + rest)[1..] == rest;
  }

  lemma InterpretNothing(s: State, pin: int, command: Octet, args: int)
    ensures Run(s, Wired(pin, Interpret(command, args, []))) == s
  {
  }

  /** A session of calls between a start in command mode and a stop. */
  lemma RunSession(s: State, pin: int, calls: seq<Event>)
    ensures
      var begun := Step(s, Start);
      Run(s, Wired(pin, [Start, Mode(false)] + calls + [Stop]))
      == Step(Run(if pin != 0 then Step(begun, Mode(false)) else begun, Wired(pin, calls)), Stop)
  {
    hide Step, Run, Wired;
    var opening := [Start, Mode(false)];
    WiredConcat(pin, opening + calls, [Stop]);
    WiredConcat(pin, opening, calls);
    RunConcat(s, Wired(pin, opening) + Wired(pin, calls), Wired(pin, [Stop]));
    RunConcat(s, Wired(pin, opening), Wired(pin, calls));
    RunWired(s, pin, Start, Mode(false));
    RunWired(Step(s, Start), pin, Mode(false), Stop);
    RunWired(Run(s, Wired(pin, opening + calls)), pin, Stop, Stop);
  }

  /** The calls that reach the bus: without a data/command pin its level is never switched. */
  function Wired(pin: int, events: seq<Event>): seq<Event>
    decreases |events|
  {
    if events == [] then []
    else WiredOne(pin, events[0]) + Wired(pin, events[1..])
  }

  function WiredOne(pin: int, e: Event): seq<Event> {
    if pin == 0 && e.Mode? then [] else [e]
  }

  lemma WiredFirst(pin: int, e: Event, rest: seq<Event>)
    ensures Wired(pin, [e] + rest) == WiredOne(pin, e) + Wired(pin, rest)
  {
    assert ([e] + rest)[1..] == rest;
  }

  lemma {:induction false} WiredConcat(pin: int, a: seq<Event>, b: seq<Event>)
    ensures Wired(pin, a + b) == Wired(pin, a) + Wired(pin, b)
    decreases |a|
  {
    if a == [] {
      assert a + b == b;
    } else {
      WiredConcat(pin, a[1..], b);
      hide Wired, WiredOne;
      WiredFirst(pin, a[0], a[1..] + b);
      WiredFirst(pin, a[0], a[1..]);
      assert a == [a[0]] + a[1..] && a + b == [a[0]] + (a[1..] + b);
      assert WiredOne(pin, a[0]) + (Wired(pin, a[1..]) + Wired(pin, b))
          == WiredOne(pin, a[0]) + Wired(pin, a[1..]) + Wired(pin, b);
    }
  }

  /** With a pin every call reaches the bus. */
  lemma {:induction false} WiredWithPin(pin: int, events: seq<Event>)
    requires pin != 0
    ensures Wired(pin, events) == events
    decreases |events|
  {
    if events != [] {
      WiredWithPin(pin, events[1..]);
    }
  }

  lemma WiredShort(pin: int, a: Event, b: Event)
    ensures Wired(pin, [a]) == if pin == 0 && a.Mode? then [] else [a]
    ensures Wired(pin, [a, b]) == Wired(pin, [a]) + Wired(pin, [b])
  {
    assert [a, b][1..] == [b] && [b][1..] == [] && [a][1..] == [];
  }

  /** One or two calls on the bus. */
  lemma RunWired(s: State, pin: int, a: Event, b: Event)
    ensures Run(s, Wired(pin, [a])) == if pin == 0 && a.Mode? then s else Step(s, a)
    ensures Run(s, Wired(pin, [a, b])) == Run(Run(s, Wired(pin, [a])), Wired(pin, [b]))
    ensures Run(s, []) == s
  {
    WiredShort(pin, a, b);
    RunShort(s, a, b);
    RunConcat(s, Wired(pin, [a]), Wired(pin, [b]));
    hide Step;
  }

  /** The level switched, where there is a pin to switch it. */
  function Switched(s: State, pin: int, data: bool): State {
    if pin == 0 then s else Step(s, Mode(data))
  }

  /** The bus after the calls for one byte. */
  function Effect(s: State, pin: int, command: Octet, args: int, data: Octet): State {
    if command != 0 then
      if command == DELAY then Step(s, Wait(Milliseconds(data))) else Step(s, Send(data))
    else if args < 0 then
      if 0 < data < 128 then Switched(s, pin, true) else s
    else if args == 1 then Switched(Step(s, Send(data)), pin, false)
    else Step(s, Send(data))
  }

  lemma EffectIs(s: State, pin: int, command: Octet, args: int, data: Octet)
    ensures Run(s, Wired(pin, Advance(command, args, data).2)) == Effect(s, pin, command, args, data)
  {
    RunWired(s, pin, Wait(Milliseconds(data)), Stop);
    RunWired(s, pin, Send(data), Mode(false));
    RunWired(s, pin, Mode(true), Stop);
    RunWired(Step(s, Send(data)), pin, Mode(false), Stop);
    WiredNothing(pin);
    hide Step, Run, Wired;
  }

  /** The body of the interpreter's loop. */
  method Take(bus: Bus, command: Octet, args: int, data: Octet) returns (nextCommand: Octet, nextArgs: int)
    requires bus.Valid() && (command == 0 ==> args != 0)
    modifies bus, bus.cache
    ensures bus.Valid() && (nextCommand == 0 ==> nextArgs != 0)
    ensures nextCommand == Advance(command, args, data).0 && nextArgs == Advance(command, args, data).1
    ensures bus.Abs() == Run(old(bus.Abs()), Wired(bus.dcPin, Advance(command, args, data).2))
  {
    EffectIs(bus.Abs(), bus.dcPin, command, args, data);
    hide Step, Run, Wired;
    nextCommand, nextArgs := command, args;
    if command != 0 {
      if command == DELAY {
        nextCommand := 1;
        bus.Delay(if data == 0xFF then 500 else data);
      } else {
        bus.Send(data);
        nextCommand := 0;
        nextArgs := -1;
      }
    } else {
      if args < 0 {
        if data >= 128 {
          nextCommand := data;
        } else if data > 0 {
          nextArgs := data;
          bus.DataMode(true);
        } else {
          nextCommand := 1;
        }
      } else {
        nextArgs := nextArgs - 1;
        bus.Send(data);
        if nextArgs == 0 {
          nextCommand := 1;
          bus.DataMode(false);
        }
      }
    }
  }

  lemma WiredNothing(pin: int)
    ensures Wired(pin, []) == []
  {
  }

  /** `ssd1306_configureSpiDisplay2`. */
  method ConfigureSpiDisplay2(bus: Bus, config: seq<Octet>)
    requires bus.Valid() && |config| < 0x100
    modifies bus, bus.cache
    ensures bus.Valid()
    ensures bus.Abs() == Run(old(bus.Abs()), Wired(bus.dcPin, [Start, Mode(false)] + Interpret(1, 0, config) + [Stop]))
  {
    hide Advance, Step, Interpret, Run, Wired;
    var command: Octet, args: int := 1, 0;
    bus.Start();
    bus.DataMode(false);
    ghost var begun, pin := bus.Abs(), bus.dcPin;
    RunSession(old(bus.Abs()), pin, Interpret(1, 0, config));
    assert config[0..] == config;
    var i := 0;
    while i < |config|
      invariant 0 <= i <= |config| && bus.Valid() && (command == 0 ==> args != 0)
      invariant Run(bus.Abs(), Wired(pin, Interpret(command, args, config[i..])))
             == Run(begun, Wired(pin, Interpret(1, 0, config)))
    {
      assert config[i..] == [config[i]] + config[i + 1..];
      InterpretByte(command, args, config[i], config[i + 1..]);
      ghost var was, next := bus.Abs(), Advance(command, args, config[i]);
      WiredConcat(pin, next.2, Interpret(next.0, next.1, config[i + 1..]));
      RunConcat(was, Wired(pin, next.2), Wired(pin, Interpret(next.0, next.1, config[i + 1..])));
      command, args := Take(bus, command, args, config[i]);
      i := i + 1;
    }
    InterpretNothing(bus.Abs(), pin, command, args);
    bus.Stop();
  }

  // The interpreter means what the program says

  /** Arguments, of which some have been taken. */
  lemma {:induction false} InterpretArgs(args: seq<Octet>, rest: seq<Octet>)
    requires 0 < |args| < 128
    ensures Interpret(0, |args|, args + rest) == Sends(args) + [Mode(false)] + Interpret(1, 0, rest)
    decreases |args|
  {
    assert (args + rest)[0] == args[0] && (args + rest)[1..] == args[1..] + rest;
    if |args| == 1 {
      assert args[1..] + rest == rest;
    } else {
      InterpretArgs(args[1..], rest);
      assert Sends(args) == [Send(args[0])] + Sends(args[1..]);
    }
  }

  /** Every command byte but zero and the delay marker means the same: a command comes next. */
  lemma Ready(command: Octet, args: int, config: seq<Octet>)
    requires 0 < command < DELAY
    ensures Interpret(command, args, config) == Interpret(1, 0, config)
  {
  }

  /** The code and the byte after it. */
  lemma InterpretTwo(code: Octet, second: Octet, after: seq<Octet>)
    ensures
      var (command, args, calls) := Advance(0, -1, second);
      Interpret(1, 0, [code, second] + after) == [Send(code)] + (calls + Interpret(command, args, after))
  {
    hide Interpret;
    assert [code, second] + after == [code] + ([second] + after);
    InterpretByte(1, 0, code, [second] + after);
    InterpretByte(0, -1, second, after);
  }

  lemma InterpretCommand(code: Octet, args: seq<Octet>, rest: seq<Octet>)
    requires 0 < |args| < 128
    ensures Interpret(1, 0, [code, |args|] + (args + rest))
            == [Send(code), Mode(true)] + Sends(args) + [Mode(false)] + Interpret(1, 0, rest)
  {
    hide Interpret, Sends;
    InterpretTwo(code, |args|, args + rest);
    InterpretArgs(args, rest);
    RegroupCalls([Send(code)], [Mode(true)], Sends(args), [Mode(false)], Interpret(1, 0, rest));
    assert [Send(code)] + [Mode(true)] == [Send(code), Mode(true)];
  }

  lemma InterpretPause(code: Octet, ms: Octet, rest: seq<Octet>)
    ensures Interpret(1, 0, [code, 0xFF] + ([ms] + rest))
            == [Send(code), Wait(if ms == 0xFF then 500 else ms)] + Interpret(1, 0, rest)
  {
    hide Interpret;
    InterpretTwo(code, DELAY, [ms] + rest);
    InterpretByte(DELAY, -1, ms, rest);
    Ready(1, -1, rest);
  }

  lemma InterpretBare(code: Octet, marker: Octet, rest: seq<Octet>)
    requires marker == 0 || 128 <= marker < 0xFF
    ensures Interpret(1, 0, [code, marker] + rest) == [Send(code)] + Interpret(1, 0, rest)
  {
    hide Interpret;
    InterpretTwo(code, marker, rest);
    Ready(if marker == 0 then 1 else marker, -1, rest);
  }

  /** On an item's encoding the interpreter makes exactly the item's calls, and is ready for the next command. */
  lemma InterpretItem(item: Item, rest: seq<Octet>)
    requires item.Valid()
    ensures Interpret(1, 0, item.Encoded() + rest) == item.Calls() + Interpret(1, 0, rest)
  {
    hide Interpret, Sends;
    match item
    case Command(code, args) =>
      if args == [] {
        InterpretBare(code, 0, rest);
        assert item.Encoded() + rest == [code, 0] + rest;
      } else {
        InterpretCommand(code, args, rest);
        assert item.Encoded() + rest == [code, |args|] + (args + rest);
      }
    case Bare(code, marker) =>
      InterpretBare(code, marker, rest);
    case CommandThenPause(code, ms) =>
      InterpretPause(code, ms, rest);
      assert item.Encoded() + rest == [code, DELAY] + ([ms] + rest);
  }

  lemma RegroupCalls(a: seq<Event>, b: seq<Event>, c: seq<Event>, d: seq<Event>, e: seq<Event>)
    ensures a + (b + (c + d + e)) == a + b + c + d + e
  {
  }

  /** The interpreter makes exactly the calls the program's items stand for. */
  lemma {:induction false} InterpretEncoded(items: seq<Item>)
    requires AllValid(items)
    ensures Interpret(1, 0, Encode(items)) == AllCalls(items)
  {
    if items != [] {
      InterpretItem(items[0], Encode(items[1..]));
      InterpretEncoded(items[1..]);
    }
  }

  function Waits(items: seq<Item>): seq<int> {
    if items == [] then []
    else PauseOf(items[0]) + Waits(items[1..])
  }

  /** A program, its bytes, and what the display is to see of it: the codes are commands, their arguments data. */
  lemma ProgramExample(level: Octet, ms: Octet)
    ensures
      var items := [Command(0xA8, [0x3F, level]), Bare(0xA4, 0x80), CommandThenPause(0xAF, ms)];
      && AllValid(items)
      && Encode(items) == [0xA8, 2, 0x3F, level] + [0xA4, 0x80] + [0xAF, 0xFF, ms]
      && Means(items) == [Sent(0xA8, false), Sent(0x3F, true), Sent(level, true)] + [Sent(0xA4, false)]
                         + [Sent(0xAF, false)]
      && Waits(items) == [if ms == 0xFF then 500 else ms]
  {
    ExampleItems(level, ms);
    hide *;
    ThreeItems(Command(0xA8, [0x3F, level]), Bare(0xA4, 0x80), CommandThenPause(0xAF, ms));
    assert [] + [] + [if ms == 0xFF then 500 else ms] == [if ms == 0xFF then 500 else ms];
  }

  /** The milliseconds an item waits. */
  function PauseOf(item: Item): seq<int> {
    if item.CommandThenPause? then [Milliseconds(item.ms)] else []
  }

  lemma ThreeItems(a: Item, b: Item, c: Item)
    requires a.Valid() && b.Valid() && c.Valid()
    ensures AllValid([a, b, c]) && Encode([a, b, c]) == a.Encoded() + b.Encoded() + c.Encoded()
    ensures Means([a, b, c]) == a.Meaning() + b.Meaning() + c.Meaning()
    ensures Waits([a, b, c]) == PauseOf(a) + PauseOf(b) + PauseOf(c)
  {
    hide Item.Valid, Item.Encoded, Item.Meaning, Milliseconds;
    assert [a, b, c][1..] == [b, c] && [b, c][1..] == [c] && [c][1..] == [];
    assert AllValid([c]) && AllValid([b, c]);
    assert Encode([c]) == c.Encoded() && Means([c]) == c.Meaning() && Waits([c]) == PauseOf(c);
    assert Encode([b, c]) == b.Encoded() + c.Encoded() && Means([b, c]) == b.Meaning() + c.Meaning();
    assert Waits([b, c]) == PauseOf(b) + PauseOf(c);
    Regroup(a.Encoded(), b.Encoded(), c.Encoded());
    Regroup(a.Meaning(), b.Meaning(), c.Meaning());
  }

  lemma ExampleItems(level: Octet, ms: Octet)
    ensures
      var a, b, c := Command(0xA8, [0x3F, level]), Bare(0xA4, 0x80), CommandThenPause(0xAF, ms);
      && a.Valid() && a.Encoded() == [0xA8, 2, 0x3F, level] && PauseOf(a) == []
      && a.Meaning() == [Sent(0xA8, false), Sent(0x3F, true), Sent(level, true)]
      && b.Valid() && b.Encoded() == [0xA4, 0x80] && PauseOf(b) == [] && b.Meaning() == [Sent(0xA4, false)]
      && c.Valid() && c.Encoded() == [0xAF, 0xFF, ms] && PauseOf(c) == [if ms == 0xFF then 500 else ms]
      && c.Meaning() == [Sent(0xAF, false)]
  {
  }

  function Times(pauses: seq<Pause>): seq<int> {
    seq(|pauses|, i requires 0 <= i < |pauses| => pauses[i].ms)
  }

  lemma {:induction false} QueuedConcat(level: bool, a: seq<Event>, b: seq<Event>)
    ensures Queued(level, a + b) == Queued(level, a) + Queued(LevelAfter(level, a), b)
    decreases |a|
  {
    if a == [] {
      assert a + b == b;
    } else {
      assert (a + b)[0] == a[0] && (a + b)[1..] == a[1..] + b;
      QueuedConcat(if a[0].Mode? then a[0].data else level, a[1..], b);
    }
  }

  /** The level of the line after some calls. */
  function LevelAfter(level: bool, events: seq<Event>): bool
    decreases |events|
  {
    if events == [] then level else LevelAfter(if events[0].Mode? then events[0].data else level, events[1..])
  }

  lemma {:induction false} RunLevel(s: State, events: seq<Event>)
    ensures Run(s, events).level == LevelAfter(s.level, events)
    decreases |events|
  {
    if events != [] {
      RunLevel(Step(s, events[0]), events[1..]);
    }
  }

  lemma {:induction false} QueuedSends(args: seq<Octet>)
    ensures Queued(true, Sends(args)) == Tag(args, true) && LevelAfter(true, Sends(args))
    decreases |args|
  {
    if args != [] {
      assert Sends(args) == [Send(args[0])] + Sends(args[1..]) && Sends(args)[1..] == Sends(args[1..]);
      QueuedSends(args[1..]);
      assert Tag(args, true) == [Sent(args[0], true)] + Tag(args[1..], true);
    }
  }

  /** What one or two calls queue. */
  lemma QueuedShort(level: bool, a: Event, b: Event)
    ensures Queued(level, [a]) == if a.Send? then [Sent(a.byte, level)] else []
    ensures LevelAfter(level, [a]) == if a.Mode? then a.data else level
    ensures Queued(level, [a, b]) == Queued(level, [a]) + Queued(LevelAfter(level, [a]), [b])
    ensures LevelAfter(level, [a, b]) == LevelAfter(LevelAfter(level, [a]), [b])
  {
    assert [a, b][1..] == [b] && [b][1..] == [] && [a][1..] == [];
  }

  lemma {:induction false} LevelConcat(level: bool, a: seq<Event>, b: seq<Event>)
    ensures LevelAfter(level, a + b) == LevelAfter(LevelAfter(level, a), b)
    decreases |a|
  {
    if a == [] {
      assert a + b == b;
    } else {
      assert (a + b)[0] == a[0] && (a + b)[1..] == a[1..] + b;
      LevelConcat(if a[0].Mode? then a[0].data else level, a[1..], b);
    }
  }

  lemma CommandMeans(code: Octet, args: seq<Octet>)
    ensures
      var calls := [Send(code), Mode(true)] + Sends(args) + [Mode(false)];
      Queued(false, calls) == [Sent(code, false)] + Tag(args, true) && !LevelAfter(false, calls)
  {
    var a, b, c := [Send(code), Mode(true)], Sends(args), [Mode(false)];
    QueuedShort(false, Send(code), Mode(true));
    QueuedShort(true, Mode(false), Mode(false));
    QueuedShort(false, Mode(true), Mode(true));
    QueuedSends(args);
    QueuedConcat(false, a + b, c);
    QueuedConcat(false, a, b);
    LevelConcat(false, a + b, c);
    LevelConcat(false, a, b);
    hide *;
    assert [Sent(code, false)] + [] + Tag(args, true) + [] == [Sent(code, false)] + Tag(args, true);
  }

  /** An item queues its command and its arguments each under its level, and ends under the command level. */
  lemma ItemMeans(item: Item)
    ensures Queued(false, item.Calls()) == item.Meaning() && !LevelAfter(false, item.Calls())
  {
    hide Queued, LevelAfter, Sends;
    match item
    case Command(code, args) =>
      CommandMeans(code, args);
      if args == [] {
        QueuedShort(false, Send(code), Stop);
        assert Tag(args, true) == [];
      }
    case Bare(code, _) =>
      QueuedShort(false, Send(code), Stop);
    case CommandThenPause(code, ms) =>
      QueuedShort(false, Send(code), Wait(Milliseconds(ms)));
      QueuedShort(false, Wait(Milliseconds(ms)), Stop);
  }

  lemma {:induction false} ItemsMean(items: seq<Item>)
    ensures Queued(false, AllCalls(items)) == Means(items) && !LevelAfter(false, AllCalls(items))
  {
    if items != [] {
      ItemMeans(items[0]);
      ItemsMean(items[1..]);
      QueuedConcat(false, items[0].Calls(), AllCalls(items[1..]));
      LevelConcat(false, items[0].Calls(), AllCalls(items[1..]));
    }
  }

  predicate NoStarts(events: seq<Event>) {
    forall i | 0 <= i < |events| :: !events[i].Start?
  }

  lemma {:induction false} NoStartsDropNothing(s: State, events: seq<Event>)
    requires NoStarts(events)
    ensures Dropped(s, events) == 0 && |Run(s, events).wire| >= |s.wire|
    decreases |events|
  {
    if events != [] {
      NoStartsDropNothing(Step(s, events[0]), events[1..]);
    }
  }

  lemma {:induction false} CallsHaveNoStarts(items: seq<Item>)
    ensures NoStarts(AllCalls(items))
  {
    if items != [] {
      CallsHaveNoStarts(items[1..]);
    }
  }

  function WaitsOf(events: seq<Event>): seq<int>
    decreases |events|
  {
    if events == [] then []
    else (if events[0].Wait? then [events[0].ms] else []) + WaitsOf(events[1..])
  }

  lemma {:induction false} RunWaits(s: State, events: seq<Event>)
    ensures Times(Run(s, events).pauses) == Times(s.pauses) + WaitsOf(events)
    decreases |events|
  {
    if events != [] {
      RunWaits(Step(s, events[0]), events[1..]);
      assert Times(Step(s, events[0]).pauses) == Times(s.pauses) + (if events[0].Wait? then [events[0].ms] else []);
    }
  }

  lemma {:induction false} WaitsOfConcat(a: seq<Event>, b: seq<Event>)
    ensures WaitsOf(a + b) == WaitsOf(a) + WaitsOf(b)
    decreases |a|
  {
    if a == [] {
      assert a + b == b;
    } else {
      assert (a + b)[0] == a[0] && (a + b)[1..] == a[1..] + b;
      WaitsOfConcat(a[1..], b);
    }
  }

  lemma {:induction false} SendsDoNotWait(args: seq<Octet>)
    ensures WaitsOf(Sends(args)) == []
    decreases |args|
  {
    if args != [] {
      assert Sends(args)[1..] == Sends(args[1..]);
      SendsDoNotWait(args[1..]);
    }
  }

  lemma {:induction false} WaitsOfItems(items: seq<Item>)
    ensures WaitsOf(AllCalls(items)) == Waits(items)
  {
    if items != [] {
      var item := items[0];
      WaitsOfConcat(item.Calls(), AllCalls(items[1..]));
      WaitsOfItems(items[1..]);
      if item.Command? && item.args != [] {
        WaitsOfConcat([Send(item.code), Mode(true)] + Sends(item.args), [Mode(false)]);
        WaitsOfConcat([Send(item.code), Mode(true)], Sends(item.args));
        SendsDoNotWait(item.args);
        assert [Send(item.code), Mode(true)][1..] == [Mode(true)];
      } else {
        assert item.Calls()[1..] == if item.CommandThenPause? then [Wait(Milliseconds(item.ms))] else [];
      }
    }
  }

  /** The bus once a session has begun, and after some items. */
  function Begun(s: State): State {
    Step(Step(s, Start), Mode(false))
  }

  /** Whatever was on the bus before, the items so far are committed in order, each byte under its level. */
  lemma ItemsCommitted(s: State, items: seq<Item>)
    ensures Begun(s).cache == [] && Begun(s).wire == s.wire && Begun(s).pauses == s.pauses
    ensures
      var now := Run(Begun(s), AllCalls(items));
      && Committed(now) == s.wire + Means(items) && !now.level
      && |now.cache| <= |Means(items)| && Times(now.pauses) == Times(s.pauses) + Waits(items)
  {
    var calls := AllCalls(items);
    NothingTagged(s.level);
    NothingTagged(false);
    assert Committed(Begun(s)) == s.wire;
    CallsHaveNoStarts(items);
    NoStartsDropNothing(Begun(s), calls);
    RunCommits(Begun(s), calls);
    ItemsMean(items);
    RunLevel(Begun(s), calls);
    RunWaits(Begun(s), calls);
    WaitsOfItems(items);
  }

  /** Run on the encoding of a program, the interpreter puts on the wire exactly the program's commands in command
      mode and arguments in data mode, and makes the program's delays. */
  lemma DisplaySeesProgram(s: State, pin: int, items: seq<Item>)
    requires AllValid(items) && pin != 0
    ensures
      var done := Run(s, Wired(pin, [Start, Mode(false)] + Interpret(1, 0, Encode(items)) + [Stop]));
      && done.wire == s.wire + Means(items) && done.cache == [] && !done.level
      && Times(done.pauses) == Times(s.pauses) + Waits(items)
  {
    InterpretEncoded(items);
    RunSession(s, pin, AllCalls(items));
    WiredWithPin(pin, AllCalls(items));
    ItemsCommitted(s, items);
  }

  /** The same bytes, all under one level. */
  function Leveled(sent: seq<Sent>, level: bool): (all: seq<Sent>)
    ensures |all| == |sent|
  {
    seq(|sent|, i requires 0 <= i < |sent| => Sent(sent[i].byte, level))
  }

  lemma LeveledConcat(a: seq<Sent>, b: seq<Sent>, level: bool)
    ensures Leveled(a + b, level) == Leveled(a, level) + Leveled(b, level)
  {
  }

  lemma {:induction false} QueuedWithoutPin(level: bool, other: bool, events: seq<Event>)
    ensures Queued(level, Wired(0, events)) == Leveled(Queued(other, events), level)
    decreases |events|
  {
    if events != [] {
      var e, rest := events[0], events[1..];
      var next := if e.Mode? then e.data else other;
      QueuedWithoutPin(level, next, rest);
      QueuedFirst(other, events);
      LeveledConcat(Queued(other, [e]), Queued(next, rest), level);
      QueuedConcat(level, WiredOne(0, e), Wired(0, rest));
      LeveledOne(level, other, e);
      assert events == [e] + rest;
      hide Queued, Leveled, LevelAfter, WiredOne;
    }
  }

  /** One call, with and without the pin. */
  lemma LeveledOne(level: bool, other: bool, e: Event)
    ensures Queued(level, WiredOne(0, e)) == Leveled(Queued(other, [e]), level)
    ensures LevelAfter(level, WiredOne(0, e)) == level
  {
    QueuedShort(level, e, Stop);
    QueuedShort(other, e, Stop);
  }

  lemma {:induction false} WiredNoStarts(pin: int, events: seq<Event>)
    requires NoStarts(events)
    ensures NoStarts(Wired(pin, events))
    decreases |events|
  {
    if events != [] {
      WiredNoStarts(pin, events[1..]);
    }
  }

  /** Without a data/command pin the display receives the same bytes, but all of them under the level the line
      happens to have. */
  lemma DisplayWithoutPin(s: State, items: seq<Item>)
    requires AllValid(items)
    ensures
      var done := Run(s, Wired(0, [Start, Mode(false)] + Interpret(1, 0, Encode(items)) + [Stop]));
      done.wire == s.wire + Leveled(Means(items), s.level) && done.cache == [] && done.level == s.level
  {
    InterpretEncoded(items);
    var calls, begun := AllCalls(items), Step(s, Start);
    RunSession(s, 0, calls);
    NothingTagged(s.level);
    assert Committed(begun) == s.wire && begun.level == s.level;
    CallsHaveNoStarts(items);
    QueuedWithoutPin(s.level, false, calls);
    WiredNoStarts(0, calls);
    NoStartsDropNothing(begun, Wired(0, calls));
    RunCommits(begun, Wired(0, calls));
    ItemsMean(items);
    LevelWithoutPin(begun, calls);
  }

  lemma {:induction false} LevelWithoutPin(s: State, events: seq<Event>)
    ensures Run(s, Wired(0, events)).level == s.level
    decreases |events|
  {
    if events != [] {
      var first := if events[0].Mode? then [] else [events[0]];
      RunConcat(s, first, Wired(0, events[1..]));
      RunShort(s, events[0], Stop);
      LevelWithoutPin(if events[0].Mode? then s else Step(s, events[0]), events[1..]);
    }
  }

  lemma {:induction false} MeansFit(items: seq<Item>)
    requires AllValid(items)
    ensures |Means(items)| <= |Encode(items)|
  {
    if items != [] {
      MeansFit(items[1..]);
    }
  }

  /** A delay begins before the command it belongs to is on the wire: in every program that fits the interpreter's
      counter the command is still queued, being the last byte committed. */
  lemma DelayBeforeItsCommand(s: State, before: seq<Item>, code: Octet, ms: Octet)
    requires AllValid(before) && |Encode(before)| + 3 < 0x100
    ensures
      var now := Run(Begun(s), AllCalls(before) + [Send(code), Wait(Milliseconds(ms))]);
      && Committed(now) == s.wire + Means(before) + [Sent(code, false)]
      && |now.pauses| > 0 && now.pauses[|now.pauses| - 1].ms == Milliseconds(ms)
      && now.pauses[|now.pauses| - 1].at < |Committed(now)|
  {
    ItemsCommitted(s, before);
    MeansFit(before);
    var was := Run(Begun(s), AllCalls(before));
    RunConcat(Begun(s), AllCalls(before), [Send(code), Wait(Milliseconds(ms))]);
    RunShort(was, Send(code), Wait(Milliseconds(ms)));
    QueuesOne(was, code);
    hide Step, Committed, Means;
    StepWaits(Step(was, Send(code)), Milliseconds(ms));
  }

  /** A send that does not fill the cache leaves its byte in it. */
  lemma QueuesOne(s: State, code: Octet)
    requires |s.cache| + 1 < CAPACITY
    ensures
      var after := Step(s, Send(code));
      Committed(after) == Committed(s) + [Sent(code, s.level)] && |after.wire| < |Committed(after)|
  {
    TagConcat(s.cache, [code], s.level);
  }

  lemma StepWaits(s: State, ms: int)
    ensures
      var after := Step(s, Wait(ms));
      Committed(after) == Committed(s) && after.pauses == s.pauses + [Pause(ms, |s.wire|)]
  {
  }
}
