/** The metering pipeline: energy integration on the server, a lossy link, the client's latest value, and the
    exported counter. */
module Meter {

  const CHANNELS_PER_SENSOR := 3

  function Abs(x: real): (a: real)
    ensures a >= 0.0 && (a == x || a == -x)
  {
    if x < 0.0 then -x else x
  }

  /** A measurement: microseconds, milliamperes, milliampere-seconds. */
  datatype Measurement = Measurement(timestamp: int, current: real, energy: real)

  const ZERO := Measurement(0, 0.0, 0.0)

  /** A reading of a sensor, signed, and when it was taken. */
  datatype Reading = Reading(current: real, at: int)

  // Channels and sensors

  /** `get_ina3221_for_channel`, counted from zero. */
  function SensorOf(channel: int): int {
    (channel + (CHANNELS_PER_SENSOR - 1)) / CHANNELS_PER_SENSOR - 1
  }

  /** `get_channel`, counted from zero. */
  function InputOf(channel: int): int {
    if channel % CHANNELS_PER_SENSOR == 0 then 2
    else if channel % CHANNELS_PER_SENSOR == 2 then 1
    else 0
  }

  /** Channels correspond one to one to the inputs of the sensors. */
  lemma ChannelsAreInputs(sensors: nat, channel: int, sensor: int, input: int)
    requires 1 <= channel <= sensors * 3
    requires 0 <= sensor < sensors && 0 <= input < 3
    ensures 0 <= SensorOf(channel) < sensors && 0 <= InputOf(channel) < 3
    ensures (SensorOf(channel), InputOf(channel)) == (sensor, input) <==> channel == sensor * 3 + input + 1
  {
  }

  // Energy

  /** What a reading adds when the one before it was taken at `before`: milliamperes times seconds. */
  function Share(before: int, r: Reading): real {
    Abs(r.current) * ((r.at - before) as real / 1000000.0)
  }

  /** `exec_measurement`: the charge since the previous measurement is added. */
  function Integrated(previous: Measurement, r: Reading): Measurement {
    Measurement(r.at, Abs(r.current), previous.energy + Share(previous.timestamp, r))
  }

  /** The sum of |I| * dt over readings, beginning at time `start`. */
  function Charge(start: int, readings: seq<Reading>): real {
    if readings == [] then 0.0
    else
      var n := |readings| - 1;
      var before := if n == 0 then start else readings[n - 1].at;
      Charge(start, readings[..n]) + Share(before, readings[n])
  }

  /** The measurement a channel must hold after its readings. */
  ghost predicate Measures(m: Measurement, start: int, readings: seq<Reading>) {
    && m.energy == Charge(start, readings)
    && m.timestamp == (if readings == [] then start else readings[|readings| - 1].at)
    && m.current == (if readings == [] then 0.0 else Abs(readings[|readings| - 1].current))
  }

  lemma IntegratedMeasures(m: Measurement, start: int, readings: seq<Reading>, r: Reading)
    requires Measures(m, start, readings)
    ensures Measures(Integrated(m, r), start, readings + [r])
  {
    hide Share;
    assert (readings + [r])[..|readings|] == readings;
  }

  /** A current of steady size, whatever its direction, charges in proportion to the time that has passed. */
  lemma {:induction false} SteadyCharge(start: int, readings: seq<Reading>, size: real)
    requires size >= 0.0
    requires forall i | 0 <= i < |readings| :: readings[i].current == size || readings[i].current == -size
    ensures readings == [] ==> Charge(start, readings) == 0.0
    ensures readings != [] ==>
              Charge(start, readings) == size * (readings[|readings| - 1].at - start) as real / 1000000.0
  {
    if readings != [] {
      SteadyCharge(start, readings[..|readings| - 1], size);
    }
  }

  /** Charge adds up: what follows a reading is charged from that reading's time on. */
  lemma {:induction false} ChargeAddsUp(start: int, before: seq<Reading>, after: seq<Reading>)
    ensures Charge(start, before + after)
            == Charge(start, before) + Charge(if before == [] then start else before[|before| - 1].at, after)
  {
    hide Share;
    var all, mid := before + after, if before == [] then start else before[|before| - 1].at;
    if after == [] {
      assert all == before;
    } else {
      var n := |after| - 1;
      assert all[..|all| - 1] == before + after[..n] && all[|all| - 1] == after[n];
      ChargeAddsUp(start, before, after[..n]);
      var last := if n == 0 then mid else after[n - 1].at;
      assert Charge(mid, after) == Charge(mid, after[..n]) + Share(last, after[n]);
      assert Charge(start, all) == Charge(start, all[..|all| - 1]) + Share(last, after[n]);
    }
  }

  lemma ChargeGrows(m: Measurement, r: Reading)
    requires m.timestamp <= r.at
    ensures Integrated(m, r).energy >= m.energy
  {
    var dt := (r.at - m.timestamp) as real / 1000000.0;
    assert dt >= 0.0 && Abs(r.current) >= 0.0;
    assert Abs(r.current) * dt >= 0.0;
  }

  /** The measurements after channel `c` has been sampled. */
  function Sampled(channels: seq<Measurement>, c: int, r: Reading): seq<Measurement>
    requires 1 <= c <= |channels|
  {
    channels[c - 1 := Integrated(channels[c - 1], r)]
  }

  /** Readings of the sensors' inputs. */
  predicate Wiring(inputs: seq<seq<Reading>>, channels: nat) {
    && channels == |inputs| * CHANNELS_PER_SENSOR
    && forall i | 0 <= i < |inputs| :: |inputs[i]| == CHANNELS_PER_SENSOR
  }

  /** The reading of the input that a channel is connected to. */
  function InputReading(inputs: seq<seq<Reading>>, channels: nat, c: int): Reading
    requires Wiring(inputs, channels) && 1 <= c <= channels
  {
    inputs[SensorOf(c)][InputOf(c)]
  }

  /** The measurements after channels 1 to `n` have been sampled in turn. */
  function SampledUpTo(channels: seq<Measurement>, inputs: seq<seq<Reading>>, n: nat): (after: seq<Measurement>)
    requires Wiring(inputs, |channels|) && n <= |channels|
    ensures |after| == |channels|
  {
    if n == 0 then channels
    else Sampled(SampledUpTo(channels, inputs, n - 1), n, InputReading(inputs, |channels|, n))
  }

  /** Each channel has integrated its own reading, once. */
  lemma {:induction false} SampledChannel(channels: seq<Measurement>, inputs: seq<seq<Reading>>, n: nat, c: int)
    requires Wiring(inputs, |channels|) && n <= |channels| && 1 <= c <= |channels|
    ensures SampledUpTo(channels, inputs, n)[c - 1] ==
              if c <= n then Integrated(channels[c - 1], InputReading(inputs, |channels|, c)) else channels[c - 1]
  {
    if n > 0 {
      SampledChannel(channels, inputs, n - 1, c);
    }
  }

  /** One pass gives input `j` of sensor `i` to channel 3i + j + 1. */
  lemma PassIntegrates(channels: seq<Measurement>, inputs: seq<seq<Reading>>, i: int, j: int)
    requires Wiring(inputs, |channels|) && 0 <= i < |inputs| && 0 <= j < CHANNELS_PER_SENSOR
    ensures
      var c := i * CHANNELS_PER_SENSOR + j;
      SampledUpTo(channels, inputs, |channels|)[c] == Integrated(channels[c], inputs[i][j])
  {
    var c := i * CHANNELS_PER_SENSOR + j + 1;
    ChannelsAreInputs(|inputs|, c, i, j);
    SampledChannel(channels, inputs, |channels|, c);
  }

  /** The measurements of all channels. */
  class Sampler {
    const sensors: nat
    const measurements: array<Measurement>

    constructor (sensors: nat, times: seq<int>)
      requires |times| == sensors * CHANNELS_PER_SENSOR
      ensures this.sensors == sensors && fresh(measurements)
      ensures measurements.Length == |times|
      ensures forall c | 0 <= c < |times| :: Measures(measurements[c], times[c], [])
    {
      this.sensors := sensors;
      measurements := new Measurement[|times|](_ => ZERO);
      new;
      for c := 0 to |times|
        invariant forall k | 0 <= k < c :: measurements[k] == Measurement(times[k], 0.0, 0.0)
      {
        measurements[c] := ZERO.(timestamp := times[c]);
      }
    }

    /** One pass of the sampling loop; `inputs` are the readings of the sensors' inputs when they are taken. */
    method SampleAll(inputs: seq<seq<Reading>>)
      requires |inputs| == sensors && Wiring(inputs, measurements.Length)
      modifies measurements
      ensures measurements[..] == SampledUpTo(old(measurements[..]), inputs, measurements.Length)
    {
      var channel := 1;
      while channel <= measurements.Length
        invariant 1 <= channel <= measurements.Length + 1
        invariant measurements[..] == SampledUpTo(old(measurements[..]), inputs, channel - 1)
      {
        ChannelsAreInputs(sensors, channel, 0, 0);
        var reading := inputs[SensorOf(channel)][InputOf(channel)];
        assert measurements[..][channel - 1] == measurements[channel - 1];
        measurements[channel - 1] := Integrated(measurements[channel - 1], reading);
        channel := channel + 1;
      }
    }
  }

  // The exported counter

  /** The largest of zero and the values offered. */
  function Highest(offers: seq<real>): real {
    if offers == [] then 0.0
    else
      var h, last := Highest(offers[..|offers| - 1]), offers[|offers| - 1];
      if last > h then last else h
  }

  lemma HighestMore(offers: seq<real>, v: real)
    ensures Highest(offers + [v]) == if v > Highest(offers) then v else Highest(offers)
  {
    assert (offers + [v])[..|offers|] == offers;
  }

  /** The largest offer is one of them, or zero, and none exceeds it. */
  lemma {:induction false} HighestIsMaximum(offers: seq<real>)
    ensures Highest(offers) >= 0.0 && (Highest(offers) == 0.0 || Highest(offers) in offers)
    ensures forall i | 0 <= i < |offers| :: offers[i] <= Highest(offers)
  {
    if offers != [] {
      HighestIsMaximum(offers[..|offers| - 1]);
    }
  }

  /** The counter's value, what the Prometheus counter shows, and the values offered so far. */
  datatype Exported = Exported(value: real, total: real, offers: seq<real>)
  {
    predicate Valid() {
      value == total == Highest(offers)
    }
  }

  /** `increment_counter_to`: lower and negative values are rejected. */
  function Offered(x: Exported, v: real): Exported {
    if v < 0.0 || v < x.value then x.(offers := x.offers + [v])
    else Exported(v, x.total + (v - x.value), x.offers + [v])
  }

  /** An offer keeps the counter at the highest offer and never lowers it. */
  lemma OfferedIsHighest(x: Exported, v: real)
    requires x.Valid()
    ensures Offered(x, v).Valid() && Offered(x, v).total >= x.total
    ensures x.value <= Offered(x, v).value && (Offered(x, v).value == x.value || Offered(x, v).value == v)
  {
    HighestIsMaximum(x.offers);
    HighestMore(x.offers, v);
  }

  /** `CounterWrapper` with the Prometheus counter it wraps, which only supports increments. */
  class CounterWrapper {
    var value: real
    var total: real
    ghost var offers: seq<real>

    ghost function Abs(): Exported
      reads this
    {
      Exported(value, total, offers)
    }

    constructor ()
      ensures Abs() == Exported(0.0, 0.0, [])
    {
      value, total, offers := 0.0, 0.0, [];
    }

    method Inc(amount: real)
      requires amount >= 0.0
      modifies this`total
      ensures total == old(total) + amount
    {
      total := total + amount;
    }

    method IncrementTo(v: real)
      modifies this
      ensures Abs() == Offered(old(Abs()), v)
    {
      offers := offers + [v];
      if v < 0.0 || v < value {
        return;
      }
      Inc(v - value);
      value := v;
    }

    /** `update_metrics`, without the gauge: milliampere-seconds to ampere-seconds. */
    method UpdateMetrics(m: Measurement)
      modifies this
      ensures Abs() == Offered(old(Abs()), m.energy / 1000.0)
    {
      IncrementTo(m.energy / 1000.0);
    }
  }

  // The whole pipeline

  /** The reply loop copies the latest measurement field by field. */
  datatype Replier = Replier(fieldsRead: nat, draft: Measurement)

  datatype World = World(
    starts: seq<int>, readings: seq<seq<Reading>>, channels: seq<Measurement>,
    sent: seq<Measurement>, latest: Measurement, replier: Replier, replies: seq<Measurement>,
    exported: Exported)

  datatype Event =
    | Sample(channel: int, reading: Reading)
    | SendMeasurement
    | Receive(datagram: nat)
    | ReadField
    | Reply
    | Update(reply: nat)
    | ClientRestart

  /** Clocks do not run backwards; any datagram ever sent may arrive, at any time, any number of times or never. */
  predicate Enabled(w: World, e: Event) {
    match e
    case Sample(c, r) => 1 <= c <= |w.channels| && |w.readings| == |w.channels| && w.channels[c - 1].timestamp <= r.at
    case SendMeasurement => true
    case Receive(i) => i < |w.sent|
    case ReadField => w.replier.fieldsRead < 3
    case Reply => w.replier.fieldsRead == 3
    case Update(i) => i < |w.replies|
    case ClientRestart => true
  }

  function CopyField(r: Replier, latest: Measurement): Replier {
    Replier(r.fieldsRead + 1,
            if r.fieldsRead == 0 then ZERO.(timestamp := latest.timestamp)
            else if r.fieldsRead == 1 then r.draft.(current := latest.current)
            else r.draft.(energy := latest.energy))
  }

  /** One step of any part of the system, for the client subscribed to channel `ch`. */
  function Step(w: World, ch: int, e: Event): World
    requires 1 <= ch <= |w.channels| && Enabled(w, e)
  {
    match e
    case Sample(c, r) =>
      w.(channels := Sampled(w.channels, c, r),
         readings := w.readings[c - 1 := w.readings[c - 1] + [r]])
    case SendMeasurement => w.(sent := w.sent + [w.channels[ch - 1]])
    case Receive(i) => w.(latest := w.sent[i])
    case ReadField => w.(replier := CopyField(w.replier, w.latest))
    case Reply => w.(replies := w.replies + [w.replier.draft], replier := Replier(0, ZERO))
    case Update(i) => w.(exported := Offered(w.exported, w.replies[i].energy / 1000.0))
    case ClientRestart => w.(latest := ZERO, replier := Replier(0, ZERO))
  }

  predicate Legal(w: World, ch: int, events: seq<Event>)
    requires 1 <= ch <= |w.channels|
    decreases |events|
  {
    events == [] || (Enabled(w, events[0]) && Legal(Step(w, ch, events[0]), ch, events[1..]))
  }

  function Run(w: World, ch: int, events: seq<Event>): World
    requires 1 <= ch <= |w.channels| && Legal(w, ch, events)
    decreases |events|
  {
    if events == [] then w else Run(Step(w, ch, events[0]), ch, events[1..])
  }

  /** A measurement no channel value of `ch` has ever been below. */
  predicate Behind(m: Measurement, w: World, ch: int)
    requires 1 <= ch <= |w.channels|
  {
    0.0 <= m.energy <= w.channels[ch - 1].energy
  }

  ghost predicate Inv(w: World, ch: int)
    requires 1 <= ch <= |w.channels|
  {
    && |w.starts| == |w.readings| == |w.channels|
    && (forall c | 0 <= c < |w.channels| :: Measures(w.channels[c], w.starts[c], w.readings[c]))
    && (forall i | 0 <= i < |w.sent| :: Behind(w.sent[i], w, ch))
    && (forall i | 0 <= i < |w.replies| :: Behind(w.replies[i], w, ch))
    && Behind(w.latest, w, ch) && Behind(w.replier.draft, w, ch)
    && w.exported.Valid() && 0.0 <= w.exported.value * 1000.0 <= w.channels[ch - 1].energy
  }

  /** After `init_measurements`, with nothing sent yet. */
  function Started(starts: seq<int>): World {
    World(starts, seq(|starts|, _ => []), seq(|starts|, i requires 0 <= i < |starts| => ZERO.(timestamp := starts[i])),
          [], ZERO, Replier(0, ZERO), [], Exported(0.0, 0.0, []))
  }

  lemma SampleKeepsInv(w: World, ch: int, c: int, r: Reading)
    requires 1 <= ch <= |w.channels| && Inv(w, ch) && Enabled(w, Sample(c, r))
    ensures Inv(Step(w, ch, Sample(c, r)), ch)
  {
    IntegratedMeasures(w.channels[c - 1], w.starts[c - 1], w.readings[c - 1], r);
    ChargeGrows(w.channels[c - 1], r);
    hide Integrated, Measures, Exported.Valid, Offered;
    var after := Step(w, ch, Sample(c, r));
    assert after.channels[ch - 1].energy >= w.channels[ch - 1].energy;
  }

  lemma StepKeepsInv(w: World, ch: int, e: Event)
    requires 1 <= ch <= |w.channels| && Inv(w, ch) && Enabled(w, e)
    ensures |Step(w, ch, e).channels| == |w.channels| && Inv(Step(w, ch, e), ch)
    ensures Step(w, ch, e).exported.total >= w.exported.total
  {
    hide Integrated, Measures, Offered, Exported.Valid;
    match e
    case Sample(c, r) => SampleKeepsInv(w, ch, c, r);
    case Update(i) => OfferedIsHighest(w.exported, w.replies[i].energy / 1000.0);
    case _ =>
  }

  /** In no run does the exported counter decrease. */
  lemma {:induction false} RunKeepsInv(w: World, ch: int, events: seq<Event>)
    requires 1 <= ch <= |w.channels| && Inv(w, ch) && Legal(w, ch, events)
    ensures |Run(w, ch, events).channels| == |w.channels| && Inv(Run(w, ch, events), ch)
    ensures Run(w, ch, events).exported.total >= w.exported.total
    decreases |events|
  {
    if events != [] {
      StepKeepsInv(w, ch, events[0]);
      RunKeepsInv(Step(w, ch, events[0]), ch, events[1..]);
    }
  }

  /** In every interleaving of sampling, sending, losing, duplicating, reordering, replying and updating, each
      channel's energy is the charge of its own readings, and the exported counter is the largest value accepted
      and at most the server's energy. */
  lemma CounterIsSafe(starts: seq<int>, ch: int, events: seq<Event>)
    requires 1 <= ch <= |starts| && Legal(Started(starts), ch, events)
    ensures
      var w := Run(Started(starts), ch, events);
      && |w.channels| == |w.readings| == |starts|
      && w.exported.total == Highest(w.exported.offers) && w.exported.total <= w.channels[ch - 1].energy / 1000.0
      && w.starts == starts && forall c | 0 <= c < |starts| :: w.channels[c].energy == Charge(starts[c], w.readings[c])
  {
    var begun := Started(starts);
    assert Inv(begun, ch);
    RunKeepsInv(begun, ch, events);
    StartsStay(begun, ch, events);
  }

  /** A measurement sent, received, read field by field, replied and exported. */
  function Delivery(w: World): seq<Event> {
    [SendMeasurement, Receive(|w.sent|), ReadField, ReadField, ReadField, Reply, Update(|w.replies|)]
  }

  /** Energy arrives: from any state in which no reply is being read, a delivery replies with the channel's measurement
      and leaves the counter at its energy in ampere-seconds, or where it was if that is higher. */
  lemma Delivers(w: World, ch: int)
    requires 1 <= ch <= |w.channels| && Inv(w, ch) && w.replier.fieldsRead == 0
    ensures Legal(w, ch, Delivery(w))
    ensures
      var after, m := Run(w, ch, Delivery(w)), w.channels[ch - 1];
      && after.channels == w.channels && after.replies == w.replies + [m]
      && after.exported.value == after.exported.total
      && after.exported.total == if m.energy / 1000.0 > w.exported.total then m.energy / 1000.0 else w.exported.total
  {
    var events, m := Delivery(w), w.channels[ch - 1];
    var w1 := Step(w, ch, events[0]);
    var w2 := Step(w1, ch, events[1]);
    var w3 := Step(w2, ch, events[2]);
    var w4 := Step(w3, ch, events[3]);
    var w5 := Step(w4, ch, events[4]);
    assert w5.replier == Replier(3, m);
    var w6 := Step(w5, ch, events[5]);
    assert w6.replies == w.replies + [m];
    var w7 := Step(w6, ch, events[6]);
    hide Step, Inv;
    RunsThrough(w, w1, w2, w3, w4, w5, w6, w7, ch, events);
  }

  /** A reply is read field by field: what arrives in between mixes datagrams, each field from the latest one when it
      is read. */
  lemma RepliesMix(w: World, ch: int, i: nat, j: nat, k: nat)
    requires 1 <= ch <= |w.channels| && w.replier.fieldsRead == 0 && i < |w.sent| && j < |w.sent| && k < |w.sent|
    ensures
      var events := [Receive(i), ReadField, Receive(j), ReadField, Receive(k), ReadField, Reply];
      && Legal(w, ch, events)
      && Run(w, ch, events).replies
         == w.replies + [Measurement(w.sent[i].timestamp, w.sent[j].current, w.sent[k].energy)]
  {
    var events := [Receive(i), ReadField, Receive(j), ReadField, Receive(k), ReadField, Reply];
    var w1 := Step(w, ch, events[0]);
    var w2 := Step(w1, ch, events[1]);
    var w3 := Step(w2, ch, events[2]);
    var w4 := Step(w3, ch, events[3]);
    var w5 := Step(w4, ch, events[4]);
    var w6 := Step(w5, ch, events[5]);
    var w7 := Step(w6, ch, events[6]);
    hide Step;
    RunsThrough(w, w1, w2, w3, w4, w5, w6, w7, ch, events);
  }

  /** A client that restarts forgets what it received: until the next datagram it replies with zeroes, which do not
      change the counter. */
  lemma RestartRepliesZero(w: World, ch: int)
    requires 1 <= ch <= |w.channels| && Inv(w, ch)
    ensures
      var events := [ClientRestart, ReadField, ReadField, ReadField, Reply, Update(|w.replies|), ClientRestart];
      && Legal(w, ch, events)
      && Run(w, ch, events).replies == w.replies + [Measurement(0, 0.0, 0.0)]
      && Run(w, ch, events).exported.total == w.exported.total
  {
    var events := [ClientRestart, ReadField, ReadField, ReadField, Reply, Update(|w.replies|), ClientRestart];
    var w1 := Step(w, ch, events[0]);
    var w2 := Step(w1, ch, events[1]);
    var w3 := Step(w2, ch, events[2]);
    var w4 := Step(w3, ch, events[3]);
    var w5 := Step(w4, ch, events[4]);
    assert w5.replies == w.replies + [ZERO];
    var w6 := Step(w5, ch, events[5]);
    var w7 := Step(w6, ch, events[6]);
    hide Step, Inv;
    RunsThrough(w, w1, w2, w3, w4, w5, w6, w7, ch, events);
  }

  lemma RunsThrough(w: World, w1: World, w2: World, w3: World, w4: World, w5: World, w6: World, w7: World, ch: int,
                    events: seq<Event>)
    requires |events| == 7 && 1 <= ch <= |w.channels|
    requires |w.channels| == |w1.channels| == |w2.channels| == |w3.channels| == |w4.channels| == |w5.channels|
    requires |w5.channels| == |w6.channels| == |w7.channels|
    requires Enabled(w, events[0]) && w1 == Step(w, ch, events[0])
    requires Enabled(w1, events[1]) && w2 == Step(w1, ch, events[1])
    requires Enabled(w2, events[2]) && w3 == Step(w2, ch, events[2])
    requires Enabled(w3, events[3]) && w4 == Step(w3, ch, events[3])
    requires Enabled(w4, events[4]) && w5 == Step(w4, ch, events[4])
    requires Enabled(w5, events[5]) && w6 == Step(w5, ch, events[5])
    requires Enabled(w6, events[6]) && w7 == Step(w6, ch, events[6])
    ensures Legal(w, ch, events) && Run(w, ch, events) == w7
  {
    hide Step, Enabled;
    assert Legal(w7, ch, []) && Run(w7, ch, []) == w7;
    assert events[6..] == [events[6]] && events[6..][1..] == [];
    assert Legal(w6, ch, events[6..]) && Run(w6, ch, events[6..]) == w7;
    assert events[5..][1..] == events[6..];
    assert Legal(w5, ch, events[5..]) && Run(w5, ch, events[5..]) == w7;
    assert events[4..][1..] == events[5..];
    assert Legal(w4, ch, events[4..]) && Run(w4, ch, events[4..]) == w7;
    assert events[3..][1..] == events[4..];
    assert Legal(w3, ch, events[3..]) && Run(w3, ch, events[3..]) == w7;
    assert events[2..][1..] == events[3..];
    assert Legal(w2, ch, events[2..]) && Run(w2, ch, events[2..]) == w7;
    assert events[1..][1..] == events[2..];
    assert Legal(w1, ch, events[1..]) && Run(w1, ch, events[1..]) == w7;
  }

  lemma {:induction false} StartsStay(w: World, ch: int, events: seq<Event>)
    requires 1 <= ch <= |w.channels| && Legal(w, ch, events)
    ensures Run(w, ch, events).starts == w.starts
    decreases |events|
  {
    if events != [] {
      StartsStay(Step(w, ch, events[0]), ch, events[1..]);
    }
  }

  /** A pass of the sampling loop as steps of the pipeline. */
  function Pass(inputs: seq<seq<Reading>>, channels: nat, n: nat): seq<Event>
    requires Wiring(inputs, channels) && n <= channels
  {
    if n == 0 then [] else Pass(inputs, channels, n - 1) + [Sample(n, InputReading(inputs, channels, n))]
  }

  lemma {:induction false} RunMore(w: World, ch: int, events: seq<Event>, e: Event)
    requires 1 <= ch <= |w.channels| && Inv(w, ch) && Legal(w, ch, events)
    ensures 1 <= ch <= |Run(w, ch, events).channels|
    ensures Enabled(Run(w, ch, events), e) ==>
              Legal(w, ch, events + [e]) && Run(w, ch, events + [e]) == Step(Run(w, ch, events), ch, e)
    decreases |events|
  {
    RunKeepsInv(w, ch, events);
    if events == [] {
      assert [] + [e] == [e] && [e][1..] == [];
    } else {
      assert (events + [e])[0] == events[0] && (events + [e])[1..] == events[1..] + [e];
      StepKeepsInv(w, ch, events[0]);
      RunMore(Step(w, ch, events[0]), ch, events[1..], e);
    }
  }

  /** The sampling loop is those steps: they are legal when no reading is older than its channel's last one, and leave
      the measurements that the loop leaves. */
  lemma {:induction false} PassIsSteps(w: World, ch: int, inputs: seq<seq<Reading>>, n: nat)
    requires 1 <= ch <= |w.channels| && Inv(w, ch) && Wiring(inputs, |w.channels|) && n <= |w.channels|
    requires forall c | 1 <= c <= |w.channels| ::
               w.channels[c - 1].timestamp <= InputReading(inputs, |w.channels|, c).at
    ensures Legal(w, ch, Pass(inputs, |w.channels|, n))
    ensures Run(w, ch, Pass(inputs, |w.channels|, n)).channels == SampledUpTo(w.channels, inputs, n)
  {
    if n > 0 {
      hide Inv, Integrated, InputReading, SampledUpTo;
      var before := Pass(inputs, |w.channels|, n - 1);
      PassIsSteps(w, ch, inputs, n - 1);
      RunKeepsInv(w, ch, before);
      SampledChannel(w.channels, inputs, n - 1, n);
      RunMore(w, ch, before, Sample(n, InputReading(inputs, |w.channels|, n)));
    }
  }
}
