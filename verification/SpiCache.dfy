/** Bytes queued for the SPI wire, and the data/command line that qualifies them. */
module SpiCache {
  import opened Bits

  const CAPACITY := 1024
  const CHUNK := 32

  /** A byte on the wire, or on its way there, with the level of the data/command line. */
  datatype Sent = Sent(byte: Octet, data: bool)

  /** A delay, and how many bytes had gone over the wire when it began. */
  datatype Pause = Pause(ms: int, at: nat)

  datatype State = State(cache: seq<Octet>, level: bool, wire: seq<Sent>, pauses: seq<Pause>)

  datatype Event = Start | Stop | Send(byte: Octet) | Mode(data: bool) | Wait(ms: int)

  function Tag(bytes: seq<Octet>, level: bool): (sent: seq<Sent>)
    ensures |sent| == |bytes|
  {
    seq(|bytes|, i requires 0 <= i < |bytes| => Sent(bytes[i], level))
  }

  lemma TagConcat(a: seq<Octet>, b: seq<Octet>, level: bool)
    ensures Tag(a + b, level) == Tag(a, level) + Tag(b, level)
  {
  }

  lemma NothingTagged(level: bool)
    ensures Tag([], level) == []
  {
  }

  function Flush(s: State): State {
    s.(cache := [], wire := s.wire + Tag(s.cache, s.level))
  }

  /** What one call does. */
  function Step(s: State, e: Event): State {
    match e
    case Start => s.(cache := [])
    case Stop => Flush(s)
    case Send(b) =>
      var more := s.(cache := s.cache + [b]);
      if |more.cache| >= CAPACITY then Flush(more) else more
    case Mode(data) => Flush(s).(level := data)
    case Wait(ms) => s.(pauses := s.pauses + [Pause(ms, |s.wire|)])
  }

  function Run(s: State, events: seq<Event>): State
    decreases |events|
  {
    if events == [] then s else Run(Step(s, events[0]), events[1..])
  }

  lemma {:induction false} RunConcat(s: State, a: seq<Event>, b: seq<Event>)
    ensures Run(s, a + b) == Run(Run(s, a), b)
    decreases |a|
  {
    if a == [] {
      assert a + b == b;
    } else {
      assert (a + b)[0] == a[0] && (a + b)[1..] == a[1..] + b;
      RunConcat(Step(s, a[0]), a[1..], b);
    }
  }

  lemma RunShort(s: State, a: Event, b: Event)
    ensures Run(s, [a]) == Step(s, a) && Run(s, [a, b]) == Step(Step(s, a), b)
  {
    hide Step;
    assert [a, b][1..] == [b] && [b][1..] == [] && [a][1..] == [];
    assert Run(Step(s, a), [b]) == Run(Step(Step(s, a), b), []);
  }

  /** The transmit transactions of the driver, flattened. */
  datatype Transaction = Transaction(bytes: seq<Octet>, data: bool)

  function Flat(ts: seq<Transaction>): seq<Sent> {
    if ts == [] then [] else Flat(ts[..|ts| - 1]) + Tag(ts[|ts| - 1].bytes, ts[|ts| - 1].data)
  }

  lemma FlatMore(ts: seq<Transaction>, t: Transaction)
    ensures Flat(ts + [t]) == Flat(ts) + Tag(t.bytes, t.data)
  {
    assert (ts + [t])[..|ts|] == ts;
  }

  /** Transactions were added, all of 32 bytes but perhaps the last, under one level. */
  ghost predicate FullChunks(before: seq<Transaction>, after: seq<Transaction>, level: bool) {
    && |before| <= |after| && after[..|before|] == before
    && forall i | |before| <= i < |after| ::
         after[i].data == level && 1 <= |after[i].bytes| <= 32 && (i + 1 < |after| ==> |after[i].bytes| == 32)
  }

  lemma ChunkSent(ts0: seq<Transaction>, ts: seq<Transaction>, t: Transaction, all: seq<Octet>, data: nat)
    requires data + |t.bytes| <= |all| && t.bytes == all[data..data + |t.bytes|]
    requires Flat(ts) == Flat(ts0) + Tag(all[..data], t.data)
    ensures Flat(ts + [t]) == Flat(ts0) + Tag(all[..data + |t.bytes|], t.data)
  {
    hide Tag, Flat;
    FlatMore(ts, t);
    TagConcat(all[..data], t.bytes, t.data);
    assert all[..data + |t.bytes|] == all[..data] + t.bytes;
    Regroup(Flat(ts0), Tag(all[..data], t.data), Tag(t.bytes, t.data));
  }

  lemma NoChunks(before: seq<Transaction>, level: bool)
    ensures FullChunks(before, before, level)
  {
  }

  lemma ChunkAdded(before: seq<Transaction>, after: seq<Transaction>, t: Transaction, level: bool)
    requires FullChunks(before, after, level) && t.data == level && 1 <= |t.bytes| <= 32
    requires |after| > |before| ==> |after[|after| - 1].bytes| == 32
    ensures FullChunks(before, after + [t], level)
  {
  }

  /** The SPI back end, the data/command pin, and a record of what has happened on the wire. */
  class Bus {
    const cache: array<Octet>
    var count: int
    const dcPin: int
    var level: bool
    var transactions: seq<Transaction>
    var pauses: seq<Pause>

    constructor (dcPin: int)
      ensures Valid() && fresh(cache) && this.dcPin == dcPin && Abs() == State([], false, [], [])
    {
      cache := new Octet[CAPACITY](_ => 0);
      count, this.dcPin, level, transactions, pauses := 0, dcPin, false, [], [];
    }

    /** The cache is never full between calls, and no transaction exceeds the chunk size. */
    ghost predicate Valid()
      reads this
    {
      && cache.Length == CAPACITY && 0 <= count < CAPACITY
      && forall i | 0 <= i < |transactions| :: 1 <= |transactions[i].bytes| <= CHUNK
    }

    ghost function Abs(): State
      requires Valid()
      reads this, cache
    {
      State(cache[..count], level, Flat(transactions), pauses)
    }

    /** `platform_spi_send_cache`. */
    method SendCache()
      requires cache.Length == CAPACITY && 0 <= count <= CAPACITY
      requires forall i | 0 <= i < |transactions| :: 1 <= |transactions[i].bytes| <= CHUNK
      modifies this`count, this`transactions
      ensures Valid() && count == 0
      ensures Flat(transactions) == old(Flat(transactions)) + Tag(old(cache[..count]), level)
      ensures FullChunks(old(transactions), transactions, level)
    {
      hide Tag, Flat, FullChunks;
      var data := 0;
      ghost var ts0, all := transactions, cache[..count];
      NoChunks(transactions, level);
      NothingTagged(level);
      assert all[..0] == [];
      while count > 0
        invariant 0 <= data && 0 <= count && data + count == |all|
        invariant forall i | 0 <= i < |transactions| :: 1 <= |transactions[i].bytes| <= CHUNK
        invariant Flat(transactions) == Flat(ts0) + Tag(all[..data], level)
        invariant FullChunks(ts0, transactions, level)
        invariant count > 0 && |transactions| > |ts0| ==> |transactions[|transactions| - 1].bytes| == 32
      {
        var size := if count > CHUNK then CHUNK else count;
        var t := Transaction(cache[data..data + size], level);
        assert t.bytes == all[data..data + size];
        ChunkSent(ts0, transactions, t, all, data);
        ChunkAdded(ts0, transactions, t, level);
        transactions := transactions + [t];
        data := data + size;
        count := count - size;
      }
      assert all[..data] == all;
      count := 0;
    }

    /** `platform_spi_start`: bytes still queued are dropped. */
    method Start()
      requires Valid()
      modifies this`count
      ensures Valid() && Abs() == Step(old(Abs()), Event.Start)
    {
      count := 0;
    }

    /** `platform_spi_stop`. */
    method Stop()
      requires Valid()
      modifies this`count, this`transactions
      ensures Valid() && Abs() == Step(old(Abs()), Event.Stop)
    {
      SendCache();
    }

    /** `platform_spi_send`. */
    method Send(data: Octet)
      requires Valid()
      modifies this`count, this`transactions, cache
      ensures Valid() && Abs() == Step(old(Abs()), Event.Send(data))
      ensures count == if old(count) == 1023 then 0 else old(count) + 1
    {
      cache[count] := data;
      count := count + 1;
      assert cache[..count] == old(cache[..count]) + [data];
      if count >= CAPACITY {
        SendCache();
      }
    }

    /** `digitalWrite`: a write to the data/command pin first sends what is queued under the old level. */
    method DigitalWrite(pin: int, value: bool)
      requires Valid()
      modifies this`count, this`transactions, this`level
      ensures Valid() && Abs() == if pin == dcPin then Step(old(Abs()), Mode(value)) else old(Abs())
    {
      hide Tag, Flat;
      if pin == dcPin {
        SendCache();
        level := value;
        assert cache[..count] == [];
      }
    }

    /** `ssd1306_spiDataMode`: nothing without a data/command pin. */
    method DataMode(data: bool)
      requires Valid()
      modifies this`count, this`transactions, this`level
      ensures Valid() && Abs() == if dcPin != 0 then Step(old(Abs()), Mode(data)) else old(Abs())
    {
      if dcPin != 0 {
        DigitalWrite(dcPin, data);
      }
    }

    /** `delay`, which does not touch the queue. */
    method Delay(ms: int)
      requires Valid()
      modifies this`pauses
      ensures Valid() && Abs() == Step(old(Abs()), Wait(ms))
    {
      pauses := pauses + [Pause(ms, |Flat(transactions)|)];
    }
  }

  // What a run leaves on the wire

  /** The bytes as they were queued, each with the level of the line at that time. */
  function Queued(level: bool, events: seq<Event>): seq<Sent>
    decreases |events|
  {
    if events == [] then []
    else
      match events[0]
      case Send(b) => [Sent(b, level)] + Queued(level, events[1..])
      case Mode(data) => Queued(data, events[1..])
      case _ => Queued(level, events[1..])
  }

  /** On the wire already, or bound for it under the current level. */
  function Committed(s: State): seq<Sent> {
    s.wire + Tag(s.cache, s.level)
  }

  /** How many bytes the starts of a run drop. */
  function Dropped(s: State, events: seq<Event>): nat
    decreases |events|
  {
    if events == [] then 0
    else (if events[0].Start? then |s.cache| else 0) + Dropped(Step(s, events[0]), events[1..])
  }

  lemma StepCommits(s: State, e: Event)
    ensures e.Start? ==> |Committed(Step(s, e))| + |s.cache| == |Committed(s)|
    ensures !e.Start? || s.cache == [] ==> Committed(Step(s, e)) == Committed(s) + Queued(s.level, [e])
    ensures Step(s, e).level == if e.Mode? then e.data else s.level
  {
    if e.Send? {
      TagConcat(s.cache, [e.byte], s.level);
      assert Queued(s.level, [e]) == [Sent(e.byte, s.level)];
    }
  }

  lemma QueuedFirst(level: bool, events: seq<Event>)
    requires events != []
    ensures
      var next := if events[0].Mode? then events[0].data else level;
      Queued(level, events) == Queued(level, [events[0]]) + Queued(next, events[1..])
  {
    assert [events[0]][1..] == [];
  }

  /** Bytes reach the wire in the order and under the level in which they were queued; all that can be lost is
      what a start drops. */
  lemma {:induction false} RunCommits(s: State, events: seq<Event>)
    ensures |Committed(Run(s, events))| + Dropped(s, events) == |Committed(s)| + |Queued(s.level, events)|
    ensures Dropped(s, events) == 0 ==> Committed(Run(s, events)) == Committed(s) + Queued(s.level, events)
    decreases |events|
  {
    if events != [] {
      StepCommits(s, events[0]);
      QueuedFirst(s.level, events);
      hide Committed, Queued, Step;
      RunCommits(Step(s, events[0]), events[1..]);
      if Dropped(s, events) == 0 {
        var e := events[0];
        Regroup(Committed(s), Queued(s.level, [e]), Queued(Step(s, e).level, events[1..]));
      }
    }
  }

  /** Every queued byte is committed, in order and with its level, exactly when no start finds bytes queued. */
  lemma NothingLost(s: State, events: seq<Event>)
    ensures Committed(Run(s, events)) == Committed(s) + Queued(s.level, events) <==> Dropped(s, events) == 0
  {
    RunCommits(s, events);
  }

  /** Sends only between a start and the next stop; nothing left open. */
  predicate Bracketed(open: bool, events: seq<Event>)
    decreases |events|
  {
    if events == [] then !open
    else
      match events[0]
      case Start => !open && Bracketed(true, events[1..])
      case Stop => open && Bracketed(false, events[1..])
      case Send(_) => open && Bracketed(true, events[1..])
      case Mode(_) => Bracketed(open, events[1..])
      case Wait(_) => Bracketed(open, events[1..])
  }

  lemma {:induction false} BracketedDropsNothing(s: State, open: bool, events: seq<Event>)
    requires Bracketed(open, events) && (open || s.cache == [])
    ensures Dropped(s, events) == 0 && Run(s, events).cache == []
    decreases |events|
  {
    if events != [] {
      var next := if events[0].Start? || events[0].Send? then true else if events[0].Stop? then false else open;
      BracketedDropsNothing(Step(s, events[0]), next, events[1..]);
    }
  }

  /** In every well-bracketed run the wire carries exactly the queued bytes, each under the level at which it was
      queued, and nothing stays in the cache. */
  lemma WireIsQueue(s: State, events: seq<Event>)
    requires Bracketed(false, events) && s.cache == []
    ensures Run(s, events).cache == []
    ensures Run(s, events).wire == s.wire + Queued(s.level, events)
  {
    BracketedDropsNothing(s, false, events);
    RunCommits(s, events);
    NothingTagged(s.level);
    NothingTagged(Run(s, events).level);
    assert Committed(s) == s.wire && Committed(Run(s, events)) == Run(s, events).wire;
  }
}
