/**
 The whole driver as a machine over reports from the device and bytes from the MIDI input
 (driver/src/main.cpp), and what holds across its modules in every run.
 */
module DriverRuns {
  import opened Bits
  import opened MidiEvents
  import opened Controls
  import opened InputReports
  import opened OutputReports
  import opened Scaling
  import opened IOMapping
  import opened IOMapperRuns
  import opened EncoderRuns

  const BATCH_SIZE: nat := 1024

  datatype Stimulus = Report(report: seq<byte>) | MidiBytes(bytes: seq<byte>) {
    /** A report of the right size. */
    predicate Ok() {
      Report? ==> IsReport(report)
    }

    /** A report of the device itself. */
    predicate IsOwnReport() {
      Report? && IsReport(report) && report[0] == INPUT_REPORT_ID
    }
  }

  /**
   The decoded input, the unread MIDI bytes, the events processed so far and the report buffer.
   The lights and latches are those of the mapper after these events.
   */
  datatype DriverState = DriverState(input: InputState, unread: seq<byte>, history: seq<Input>, report: seq<byte>) {
    predicate Valid() {
      input.positions.Valid() && AllOk(history)
    }
  }

  function WorldOf(cfg: Config, history: seq<Input>): (w: World)
    requires cfg.Valid() && AllOk(history)
    ensures w.Valid()
  {
    Run(cfg, Initial(DARK_LEDS), history)
  }

  function Start(input: InputState): DriverState {
    DriverState(input, [], [], OutReport(DARK_LEDS))
  }

  function HidInputs(events: seq<InputEvent>): seq<Input> {
    seq(|events|, k requires 0 <= k < |events| => FromHid(events[k]))
  }

  function MidiInputs(events: seq<MidiEvent>): seq<Input> {
    seq(|events|, k requires 0 <= k < |events| => FromMidi(events[k]))
  }

  /** The first n events of the unread bytes, fewer if there are fewer, and the bytes left. */
  function Drain(unread: seq<byte>, n: nat): (seq<MidiEvent>, seq<byte>) {
    if n == 0 then ([], unread)
    else
      var (events, rest) := Drain(unread, n - 1);
      if rest == [] then (events, rest)
      else (events + [ParseOne(rest).0], rest[ParseOne(rest).1..])
  }

  lemma PrefixStep(events: seq<MidiEvent>, rest: seq<byte>, all: seq<MidiEvent>)
    requires rest != [] && events + ParseAll(rest) == all
    ensures (events + [ParseOne(rest).0]) + ParseAll(rest[ParseOne(rest).1..]) == all
  {
    var (event, m) := ParseOne(rest);
    assert ParseAll(rest) == [event] + ParseAll(rest[m..]);
    assert events + ([event] + ParseAll(rest[m..])) == (events + [event]) + ParseAll(rest[m..]);
  }

  /** A batch takes the first events of the parse and leaves exactly the others. */
  lemma {:induction false} DrainTakesPrefix(unread: seq<byte>, n: nat)
    ensures Drain(unread, n).0 + ParseAll(Drain(unread, n).1) == ParseAll(unread)
    ensures |Drain(unread, n).0| <= n
    ensures |Drain(unread, n).0| < n ==> Drain(unread, n).1 == []
  {
    hide ParseOne;
    hide ParseAll;
    if n == 0 {
      assert [] + ParseAll(unread) == ParseAll(unread);
    } else {
      DrainTakesPrefix(unread, n - 1);
      if Drain(unread, n - 1).1 != [] {
        PrefixStep(Drain(unread, n - 1).0, Drain(unread, n - 1).1, ParseAll(unread));
      }
    }
  }

  /** What a batch leaves starts at a message boundary. */
  lemma {:induction false} DrainStopsAtBoundary(unread: seq<byte>, n: nat)
    requires unread == [] || n > 0 || StartsWithStatus(unread)
    ensures Drain(unread, n).1 == [] || StartsWithStatus(Drain(unread, n).1)
  {
    if n > 1 {
      DrainStopsAtBoundary(unread, n - 1);
    } else if n == 1 {
      assert Drain(unread, 0) == ([], unread);
    }
  }

  /** Nothing is left to do once the buffer is empty. */
  lemma {:induction false} DrainIsDone(unread: seq<byte>, n: nat, limit: nat, events: seq<MidiEvent>)
    requires n <= limit && Drain(unread, n) == (events, [])
    ensures Drain(unread, limit) == (events, [])
    decreases limit
  {
    hide ParseOne;
    if n < limit { DrainIsDone(unread, n, limit - 1, events); }
  }

  predicate Listened(cfg: Config, e: MidiEvent)
    requires cfg.Valid()
  {
    exists i: nat :: i < MATRIX_BUTTONS_NUM && Matches(cfg, i, e)
  }

  /** The change flag after a batch: that of its last event. */
  predicate LastListened(cfg: Config, events: seq<MidiEvent>)
    requires cfg.Valid()
  {
    events != [] && Listened(cfg, events[|events| - 1])
  }

  lemma DrainedAreOk(unread: seq<byte>, n: nat)
    ensures AllOk(MidiInputs(Drain(unread, n).0))
  {
    var events := Drain(unread, n).0;
    DrainTakesPrefix(unread, n);
    ParsedEventsAreWellFormed(unread);
    forall k | 0 <= k < |events| ensures MidiInputs(events)[k].Ok() {
      assert events[k] == ParseAll(unread)[k];
      assert events[k] in ParseAll(unread);
    }
  }

  lemma EventsAreOk(before: InputState, report: seq<byte>)
    requires before.positions.Valid() && Report(report).Ok()
    ensures AllOk(HidInputs(Events(before.positions, NextState(before, report).positions)))
  {
    var after := NextState(before, report);
    var events := Events(before.positions, after.positions);
    if report[0] != INPUT_REPORT_ID { ForeignReportIsSilent(before, report); }
    forall k | 0 <= k < |events| ensures events[k].Valid() {
      assert events[k] in events;
      EventsAreExact(before.positions, after.positions, events[k]);
    }
  }

  function DriverStep(cfg: Config, s: DriverState, stimulus: Stimulus): (t: DriverState)
    requires cfg.Valid() && s.Valid() && stimulus.Ok()
    ensures t.Valid()
  {
    match stimulus
    case Report(report) =>
      var input := NextState(s.input, report);
      EventsAreOk(s.input, report);
      var history := s.history + HidInputs(Events(s.input.positions, input.positions));
      DriverState(input, s.unread, history, OutReport(WorldOf(cfg, history).leds))
    case MidiBytes(bytes) =>
      var (events, rest) := Drain(s.unread + bytes, BATCH_SIZE);
      DrainedAreOk(s.unread + bytes, BATCH_SIZE);
      var history := s.history + MidiInputs(events);
      DriverState(s.input, rest, history,
                  if LastListened(cfg, events) then OutReport(WorldOf(cfg, history).leds) else s.report)
  }

  predicate AllStimuliOk(stimuli: seq<Stimulus>) {
    forall k :: 0 <= k < |stimuli| ==> stimuli[k].Ok()
  }

  function DriverRun(cfg: Config, s: DriverState, stimuli: seq<Stimulus>): (t: DriverState)
    requires cfg.Valid() && s.Valid() && AllStimuliOk(stimuli)
    ensures t.Valid()
  {
    if stimuli == [] then s
    else DriverStep(cfg, DriverRun(cfg, s, stimuli[..|stimuli| - 1]), stimuli[|stimuli| - 1])
  }

  // ---- The output report stays in range ----

  lemma WorldInRange(cfg: Config, history: seq<Input>)
    requires cfg.Valid() && AllOk(history) && LightsInRange(cfg)
    ensures WorldOf(cfg, history).leds.InRange()
    ensures SevenBit(OutReport(WorldOf(cfg, history).leds))
  {
    RunKeepsRange(cfg, Initial(DARK_LEDS), history);
    InRangeIsSevenBit(WorldOf(cfg, history).leds);
  }

  /** Whatever reports and whatever MIDI bytes arrive, in any order, the device gets seven-bit values. */
  lemma {:induction false} ReportsStaySevenBit(cfg: Config, input: InputState, stimuli: seq<Stimulus>)
    requires cfg.Valid() && LightsInRange(cfg) && input.positions.Valid() && AllStimuliOk(stimuli)
    ensures SevenBit(DriverRun(cfg, Start(input), stimuli).report)
  {
    if stimuli == [] {
      WorldInRange(cfg, []);
    } else {
      ReportsStaySevenBit(cfg, input, stimuli[..|stimuli| - 1]);
      WorldInRange(cfg, DriverRun(cfg, Start(input), stimuli).history);
    }
  }

  // ---- Draining in batches ----

  lemma {:induction false} HeardAppendMidi(history: seq<Input>, events: seq<MidiEvent>)
    ensures Heard(history + MidiInputs(events)) == Heard(history) + events
    decreases |events|
  {
    var more := MidiInputs(events);
    if events == [] {
      assert history + more == history;
    } else {
      var fewer, last := events[..|events| - 1], events[|events| - 1];
      HeardAppendMidi(history, fewer);
      assert (history + more)[..|history + more| - 1] == history + MidiInputs(fewer);
      assert (history + more)[|history + more| - 1] == FromMidi(last);
      assert Heard(history) + events == (Heard(history) + fewer) + [last];
    }
  }

  lemma {:induction false} HeardAppendHid(history: seq<Input>, events: seq<InputEvent>)
    ensures Heard(history + HidInputs(events)) == Heard(history)
    decreases |events|
  {
    var more := HidInputs(events);
    if events == [] {
      assert history + more == history;
    } else {
      var fewer := events[..|events| - 1];
      HeardAppendHid(history, fewer);
      assert (history + more)[..|history + more| - 1] == history + HidInputs(fewer);
    }
  }

  /** All bytes that have arrived on the MIDI input. */
  function Arrived(stimuli: seq<Stimulus>): seq<byte> {
    if stimuli == [] then []
    else
      var last := stimuli[|stimuli| - 1];
      Arrived(stimuli[..|stimuli| - 1]) + (if last.MidiBytes? then last.bytes else [])
  }

  /** Bytes arrive in whole messages. */
  predicate AtBoundaries(stimuli: seq<Stimulus>) {
    forall k :: 0 <= k < |stimuli| && stimuli[k].MidiBytes? ==>
      stimuli[k].bytes == [] || StartsWithStatus(stimuli[k].bytes)
  }

  /**
   When bytes arrive in whole messages, batching loses and invents nothing: the events processed so
   far and those still unread are together the events of all bytes that have arrived.
   */
  lemma {:induction false} NothingLostOrInvented(cfg: Config, input: InputState, stimuli: seq<Stimulus>)
    requires cfg.Valid() && input.positions.Valid() && AllStimuliOk(stimuli) && AtBoundaries(stimuli)
    ensures var s := DriverRun(cfg, Start(input), stimuli);
            && (s.unread == [] || StartsWithStatus(s.unread))
            && (Arrived(stimuli) == [] || StartsWithStatus(Arrived(stimuli)))
            && Heard(s.history) + ParseAll(s.unread) == ParseAll(Arrived(stimuli))
  {
    hide Drain;
    hide ParseOne;
    hide Events;
    if stimuli != [] {
      var earlier, last := stimuli[..|stimuli| - 1], stimuli[|stimuli| - 1];
      NothingLostOrInvented(cfg, input, earlier);
      var s := DriverRun(cfg, Start(input), earlier);
      match last {
        case Report(report) =>
          HeardAppendHid(s.history, Events(s.input.positions, NextState(s.input, report).positions));
          assert Arrived(earlier) + [] == Arrived(earlier);
        case MidiBytes(bytes) =>
          BatchConserves(s.history, s.unread, bytes, Arrived(earlier));
      }
    }
  }

  lemma BatchConserves(history: seq<Input>, unread: seq<byte>, bytes: seq<byte>, arrived: seq<byte>)
    requires unread == [] || StartsWithStatus(unread)
    requires bytes == [] || StartsWithStatus(bytes)
    requires arrived == [] || StartsWithStatus(arrived)
    requires Heard(history) + ParseAll(unread) == ParseAll(arrived)
    ensures var (events, rest) := Drain(unread + bytes, BATCH_SIZE);
            && (rest == [] || StartsWithStatus(rest))
            && (arrived + bytes == [] || StartsWithStatus(arrived + bytes))
            && Heard(history + MidiInputs(events)) + ParseAll(rest) == ParseAll(arrived + bytes)
  {
    hide Drain;
    hide ParseAll;
    hide Heard;
    var (events, rest) := Drain(unread + bytes, BATCH_SIZE);
    DrainTakesPrefix(unread + bytes, BATCH_SIZE);
    DrainStopsAtBoundary(unread + bytes, BATCH_SIZE);
    ParseAllAppend(unread, bytes);
    ParseAllAppend(arrived, bytes);
    HeardAppendMidi(history, events);
    Rejoin(Heard(history), events, ParseAll(rest), ParseAll(unread), ParseAll(bytes));
  }

  lemma Rejoin<T>(done: seq<T>, now: seq<T>, later: seq<T>, old1: seq<T>, new1: seq<T>)
    requires now + later == old1 + new1
    ensures (done + now) + later == (done + old1) + new1
  {
    assert (done + now) + later == done + (now + later);
  }

  // ---- From the bytes that arrive to the lights of the device ----

  lemma AllParsedAreOk(bytes: seq<byte>)
    ensures AllHearable(ParseAll(bytes))
  {
    ParsedEventsAreWellFormed(bytes);
    forall k | 0 <= k < |ParseAll(bytes)| ensures ParseAll(bytes)[k].data2 <= MIDI_MAX {
      assert ParseAll(bytes)[k] in ParseAll(bytes);
    }
  }

  /**
   When bytes arrive in whole messages, a matrix button in a MIDI mode has the colour that the parse
   of all arrived bytes gives it, as far as it has been processed: all of it once nothing is unread.
   Every report from the device makes the driver write that colour out, whatever the batches' flags.
   */
  lemma LightsFollowBytes(cfg: Config, input: InputState, stimuli: seq<Stimulus>, i: nat)
    requires cfg.Valid() && input.positions.Valid() && AllStimuliOk(stimuli) && AtBoundaries(stimuli)
    requires i < MATRIX_BUTTONS_NUM && cfg.modes.Of(Matrix)[i] != Hid
    ensures var s := DriverRun(cfg, Start(input), stimuli);
            var events := ParseAll(Arrived(stimuli));
            var n := |events| - |ParseAll(s.unread)|;
            var color := WorldOf(cfg, s.history).leds.matrix[i];
            && 0 <= n <= |events| && AllHearable(events) && (s.unread == [] ==> n == |events|)
            && LastMatchColors(cfg, events[..n], i, DARK, color)
            && (stimuli != [] && stimuli[|stimuli| - 1].Report? ==>
                  color == Color(s.report[i * 3 + MATRIX], s.report[i * 3 + 1 + MATRIX], s.report[i * 3 + 2 + MATRIX]))
  {
    hide ParseAll;
    hide Run;
    hide Heard;
    hide Drain;
    hide Events;
    hide LastMatchColors;
    var s := DriverRun(cfg, Start(input), stimuli);
    var events := ParseAll(Arrived(stimuli));
    NothingLostOrInvented(cfg, input, stimuli);
    AllParsedAreOk(Arrived(stimuli));
    MidiLightRun(cfg, DARK_LEDS, s.history, i);
    assert events[..|Heard(s.history)|] == Heard(s.history);
    assert s.unread == [] ==> ParseAll(s.unread) == [] by { ParseAllOfNothing(); }
    ReadMatrix(WorldOf(cfg, s.history).leds, i);
  }

  lemma ParseAllOfNothing()
    ensures ParseAll([]) == []
  {
  }

  // ---- The MIDI output on the wire ----

  /** A configuration whose messages fit the MIDI format. */
  predicate WireSafe(cfg: Config)
    requires cfg.Valid()
  {
    && cfg.outChannel < 16
    && (forall g: ButtonGroup, i: nat :: i < g.Size() ==> cfg.notes.Of(g)[i] < 128)
    && (forall g: EncoderGroup, i: nat :: i < ENCODERS_NUM ==> cfg.controllers.Of(g)[i] < 128)
    && cfg.wheelController < 128 && cfg.wheelInc < 128 && cfg.wheelDec < 128
    && cfg.noteOnVelocity < 128 && cfg.noteOffVelocity < 128
  }

  /** Encoder positions of twelve bits, as the protocol has them. */
  predicate TwelveBit(inputs: seq<Input>) {
    forall k :: 0 <= k < |inputs| && inputs[k].FromHid? && inputs[k].event.EncoderEvent? ==>
      inputs[k].event.value <= FADERS_MAX
  }

  lemma {:induction false} SentIsPrintable(cfg: Config, leds: Leds, inputs: seq<Input>)
    requires cfg.Valid() && WireSafe(cfg) && leds.Valid() && AllOk(inputs) && TwelveBit(inputs)
    ensures forall s :: s in Run(cfg, Initial(leds), inputs).sent ==> Printable(s.message)
  {
    if inputs != [] {
      var earlier, input := inputs[..|inputs| - 1], inputs[|inputs| - 1];
      SentIsPrintable(cfg, leds, earlier);
      var w := Run(cfg, Initial(leds), earlier);
      if input.FromHid? {
        var midi := HidStep(cfg, w.last, w.leds, input.event).midi;
        assert midi.Some? ==> Printable(midi.value);
      }
    }
  }

  /** The bytes sent by the driver over a run. */
  function Output(cfg: Config, history: seq<Input>): seq<byte>
    requires cfg.Valid() && WireSafe(cfg) && AllOk(history) && TwelveBit(history)
  {
    SentIsPrintable(cfg, DARK_LEDS, history);
    var messages := AllMessages(WorldOf(cfg, history).sent);
    assert forall m :: m in messages ==> Printable(m);
    Print(messages)
  }

  /** Parsing the driver's output gives back exactly the messages of the mapper. */
  lemma OutputParsesBack(cfg: Config, history: seq<Input>)
    requires cfg.Valid() && WireSafe(cfg) && AllOk(history) && TwelveBit(history)
    ensures ParseAll(Output(cfg, history)) == AllMessages(WorldOf(cfg, history).sent)
  {
    SentIsPrintable(cfg, DARK_LEDS, history);
    var messages := AllMessages(WorldOf(cfg, history).sent);
    assert forall m :: m in messages ==> Printable(m);
    ParsePrint(messages);
  }

  // ---- End to end: from the faders of the device to a listener behind the wire ----

  predicate Moved(history: seq<Input>, g: EncoderGroup, i: nat) {
    exists k :: 0 <= k < |history| && Moves(history[k], g, i)
  }

  /** Inputs that move an encoder only to one value leave exactly that value as the latest. */
  lemma {:induction false} LatestAfter(history: seq<Input>, more: seq<Input>, g: EncoderGroup, i: nat, v: uint16)
    requires AllOk(history) && AllOk(more)
    requires forall k :: 0 <= k < |more| && Moves(more[k], g, i) ==> more[k].event.value == v
    ensures AllOk(history + more)
    ensures Latest(history + more, g, i) == if Moved(more, g, i) then ScaleEncoder(v) else Latest(history, g, i)
    decreases |more|
  {
    if more == [] {
      assert history + more == history;
    } else {
      var fewer, last := more[..|more| - 1], more[|more| - 1];
      LatestAfter(history, fewer, g, i, v);
      assert (history + more)[..|history + more| - 1] == history + fewer;
      assert forall k :: 0 <= k < |fewer| ==> fewer[k] == more[k];
      if Moves(last, g, i) {
        assert more[|more| - 1] == last;
      } else {
        assert Moved(more, g, i) <==> Moved(fewer, g, i);
      }
    }
  }

  lemma MovedAppend(a: seq<Input>, b: seq<Input>, g: EncoderGroup, i: nat)
    ensures Moved(a + b, g, i) <==> Moved(a, g, i) || Moved(b, g, i)
  {
    if Moved(a, g, i) {
      var k :| 0 <= k < |a| && Moves(a[k], g, i);
      assert (a + b)[k] == a[k];
    }
    if Moved(b, g, i) {
      var k :| 0 <= k < |b| && Moves(b[k], g, i);
      assert (a + b)[|a| + k] == b[k];
    }
  }

  lemma MoreHeardMovesNothing(history: seq<Input>, events: seq<MidiEvent>, g: EncoderGroup, i: nat)
    requires AllOk(history) && AllOk(MidiInputs(events))
    ensures AllOk(history + MidiInputs(events))
    ensures Latest(history + MidiInputs(events), g, i) == Latest(history, g, i)
    ensures Moved(history + MidiInputs(events), g, i) <==> Moved(history, g, i)
  {
    LatestAfter(history, MidiInputs(events), g, i, 0);
    MovedAppend(history, MidiInputs(events), g, i);
  }

  lemma ReportMovesEncoder(s: DriverState, report: seq<byte>, g: EncoderGroup, i: nat)
    requires s.Valid() && Report(report).Ok() && i < ENCODERS_NUM
    ensures var next := NextState(s.input, report).positions;
            var before, after := s.input.positions.encoders.Of(g)[i], next.encoders.Of(g)[i];
            var history := s.history + HidInputs(Events(s.input.positions, next));
            && AllOk(history)
            && (before != after ==> Latest(history, g, i) == ScaleEncoder(after) && Moved(history, g, i))
            && (before == after ==> Latest(history, g, i) == Latest(s.history, g, i))
            && (before == after ==> (Moved(history, g, i) <==> Moved(s.history, g, i)))
  {
    hide Events;
    hide Latest;
    hide Decode;
    EventsAreOk(s.input, report);
    var next := NextState(s.input, report).positions;
    var before, after := s.input.positions.encoders.Of(g)[i], next.encoders.Of(g)[i];
    var events := Events(s.input.positions, next);
    var more := HidInputs(events);
    forall k | 0 <= k < |more| && Moves(more[k], g, i)
      ensures before != after && more[k].event.value == after
    {
      assert events[k] in events;
      EventsAreExact(s.input.positions, next, events[k]);
    }
    MovedAppend(s.history, more, g, i);
    if before != after {
      var e := EncoderEvent(g, i, after);
      EventsAreExact(s.input.positions, next, e);
      var k :| 0 <= k < |events| && events[k] == e;
      assert Moves(more[k], g, i) && more[k].Ok();
      LatestAfter(s.history, more, g, i, after);
    } else {
      LatestAfter(s.history, more, g, i, 0);
    }
  }

  /** Some report of the device shows the encoder away from what memory held at the start. */
  predicate LeavesStart(input: InputState, stimuli: seq<Stimulus>, g: EncoderGroup, i: nat)
    requires input.positions.Valid() && i < ENCODERS_NUM
  {
    exists k :: 0 <= k < |stimuli| && ShowsMove(input, stimuli[k], g, i)
  }

  predicate ShowsMove(input: InputState, stimulus: Stimulus, g: EncoderGroup, i: nat)
    requires input.positions.Valid() && i < ENCODERS_NUM
  {
    && stimulus.IsOwnReport()
    && Decode(stimulus.report).positions.encoders.Of(g)[i] != input.positions.encoders.Of(g)[i]
  }

  lemma LeavesStartSnoc(input: InputState, stimuli: seq<Stimulus>, g: EncoderGroup, i: nat)
    requires input.positions.Valid() && i < ENCODERS_NUM && stimuli != []
    ensures LeavesStart(input, stimuli, g, i) <==>
            || LeavesStart(input, stimuli[..|stimuli| - 1], g, i)
            || ShowsMove(input, stimuli[|stimuli| - 1], g, i)
  {
    hide ShowsMove;
    var earlier := stimuli[..|stimuli| - 1];
    if LeavesStart(input, earlier, g, i) {
      var k :| 0 <= k < |earlier| && ShowsMove(input, earlier[k], g, i);
      assert ShowsMove(input, stimuli[k], g, i);
    }
    if LeavesStart(input, stimuli, g, i) && !ShowsMove(input, stimuli[|stimuli| - 1], g, i) {
      var k :| 0 <= k < |stimuli| && ShowsMove(input, stimuli[k], g, i);
      assert ShowsMove(input, earlier[k], g, i);
    }
  }

  /** An encoder that a report has shown elsewhere is known exactly; any other still has the value memory held. */
  predicate EncoderTracked(input: InputState, s: DriverState, moved: bool, g: EncoderGroup, i: nat)
    requires input.positions.Valid() && s.Valid() && i < ENCODERS_NUM
  {
    var now := s.input.positions.encoders.Of(g)[i];
    && (Moved(s.history, g, i) <==> moved)
    && (moved ==> Latest(s.history, g, i) == ScaleEncoder(now))
    && (!moved ==> now == input.positions.encoders.Of(g)[i] && Latest(s.history, g, i) == 0)
  }

  lemma {:induction false} LatestIsCurrent(cfg: Config, input: InputState, stimuli: seq<Stimulus>,
                                           g: EncoderGroup, i: nat)
    requires cfg.Valid() && input.positions.Valid() && AllStimuliOk(stimuli) && i < ENCODERS_NUM
    ensures EncoderTracked(input, DriverRun(cfg, Start(input), stimuli), LeavesStart(input, stimuli, g, i), g, i)
  {
    if stimuli != [] {
      hide Latest;
      hide Events;
      hide Moved;
      hide Drain;
      hide LeavesStart;
      hide Run;
      var earlier, last := stimuli[..|stimuli| - 1], stimuli[|stimuli| - 1];
      LatestIsCurrent(cfg, input, earlier, g, i);
      LeavesStartSnoc(input, stimuli, g, i);
      var s := DriverRun(cfg, Start(input), earlier);
      match last {
        case Report(report) => ReportMovesEncoder(s, report, g, i);
        case MidiBytes(bytes) =>
          DrainedAreOk(s.unread + bytes, BATCH_SIZE);
          MoreHeardMovesNothing(s.history, Drain(s.unread + bytes, BATCH_SIZE).0, g, i);
      }
    }
  }

  /** Reports with encoder positions of twelve bits. */
  predicate TwelveBitReports(stimuli: seq<Stimulus>) {
    forall k, g: EncoderGroup, i: nat :: 0 <= k < |stimuli| && stimuli[k].IsOwnReport() && i < ENCODERS_NUM ==>
      Decode(stimuli[k].report).positions.encoders.Of(g)[i] <= FADERS_MAX
  }

  lemma EventsAreTwelveBit(before: Positions, after: Positions)
    requires before.Valid() && after.Valid()
    requires forall g: EncoderGroup, i: nat :: i < ENCODERS_NUM && before.encoders.Of(g)[i] != after.encoders.Of(g)[i] ==>
               after.encoders.Of(g)[i] <= FADERS_MAX
    ensures TwelveBit(HidInputs(Events(before, after)))
  {
    hide Events;
    var events := Events(before, after);
    forall k | 0 <= k < |events| && events[k].EncoderEvent? ensures events[k].value <= FADERS_MAX {
      assert events[k] in events;
      EventsAreExact(before, after, events[k]);
    }
  }

  lemma {:induction false} HistoryIsTwelveBit(cfg: Config, input: InputState, stimuli: seq<Stimulus>)
    requires cfg.Valid() && input.positions.Valid() && AllStimuliOk(stimuli) && TwelveBitReports(stimuli)
    ensures TwelveBit(DriverRun(cfg, Start(input), stimuli).history)
  {
    if stimuli != [] {
      hide Events;
      hide Decode;
      hide Drain;
      var earlier, last := stimuli[..|stimuli| - 1], stimuli[|stimuli| - 1];
      HistoryIsTwelveBit(cfg, input, earlier);
      var s := DriverRun(cfg, Start(input), earlier);
      if last.Report? {
        EventsAreTwelveBit(s.input.positions, NextState(s.input, last.report).positions);
      }
    }
  }

  /** What a listener that parses the driver's bytes holds for an encoder after a run. */
  function HeldAfter(cfg: Config, input: InputState, stimuli: seq<Stimulus>, g: EncoderGroup, i: nat): byte
    requires cfg.Valid() && WireSafe(cfg) && input.positions.Valid() && AllStimuliOk(stimuli)
    requires TwelveBitReports(stimuli) && i < ENCODERS_NUM
  {
    HistoryIsTwelveBit(cfg, input, stimuli);
    Held(ParseAll(Output(cfg, DriverRun(cfg, Start(input), stimuli).history)),
         cfg.outChannel, cfg.controllers.Of(g)[i])
  }

  /** Where an encoder stands after a run. */
  function PositionAfter(cfg: Config, input: InputState, stimuli: seq<Stimulus>, g: EncoderGroup, i: nat): uint16
    requires cfg.Valid() && input.positions.Valid() && AllStimuliOk(stimuli) && i < ENCODERS_NUM
  {
    DriverRun(cfg, Start(input), stimuli).input.positions.encoders.Of(g)[i]
  }

  lemma {:induction false} MovedIsTwelveBit(cfg: Config, input: InputState, stimuli: seq<Stimulus>,
                                            g: EncoderGroup, i: nat)
    requires cfg.Valid() && input.positions.Valid() && AllStimuliOk(stimuli) && i < ENCODERS_NUM
    requires TwelveBitReports(stimuli) && LeavesStart(input, stimuli, g, i)
    ensures PositionAfter(cfg, input, stimuli, g, i) <= FADERS_MAX
  {
    hide Events;
    hide Decode;
    hide Drain;
    var earlier, last := stimuli[..|stimuli| - 1], stimuli[|stimuli| - 1];
    LeavesStartSnoc(input, stimuli, g, i);
    if !last.IsOwnReport() { MovedIsTwelveBit(cfg, input, earlier, g, i); }
  }

  /**
   From the device to a listener that parses the driver's bytes: for every fader and knob that some
   report has shown away from what memory held at the start, the listener holds the scaled present
   position; for any other it holds 0, whatever the (uninitialised) memory was.
   */
  lemma EndToEnd(cfg: Config, input: InputState, stimuli: seq<Stimulus>, g: EncoderGroup, i: nat)
    requires cfg.Valid() && WireSafe(cfg) && DistinctControllers(cfg) && input.positions.Valid()
    requires AllStimuliOk(stimuli) && TwelveBitReports(stimuli) && i < ENCODERS_NUM
    ensures var now, held := PositionAfter(cfg, input, stimuli, g, i), HeldAfter(cfg, input, stimuli, g, i);
            if LeavesStart(input, stimuli, g, i) then now <= FADERS_MAX && held == ScaleEncoder(now)
            else now == input.positions.encoders.Of(g)[i] && held == 0
  {
    hide LeavesStart;
    hide Latest;
    hide DriverRun;
    hide Run;
    var s := DriverRun(cfg, Start(input), stimuli);
    HistoryIsTwelveBit(cfg, input, stimuli);
    LatestIsCurrent(cfg, input, stimuli, g, i);
    ListenerKnows(cfg, DARK_LEDS, s.history, g, i);
    OutputParsesBack(cfg, s.history);
    if LeavesStart(input, stimuli, g, i) { MovedIsTwelveBit(cfg, input, stimuli, g, i); }
  }

  /** The device has reported its controls. */
  predicate HasOwnReport(stimuli: seq<Stimulus>) {
    exists k :: 0 <= k < |stimuli| && stimuli[k].IsOwnReport()
  }

  /** The listener holds the scaled position of the encoder. */
  predicate HeardRight(cfg: Config, input: InputState, stimuli: seq<Stimulus>, g: EncoderGroup, i: nat)
    requires cfg.Valid() && WireSafe(cfg) && input.positions.Valid() && AllStimuliOk(stimuli)
    requires TwelveBitReports(stimuli) && i < ENCODERS_NUM
  {
    var now := PositionAfter(cfg, input, stimuli, g, i);
    now <= FADERS_MAX && HeldAfter(cfg, input, stimuli, g, i) == ScaleEncoder(now)
  }

  /**
   Once the device has reported, the listener is right about an encoder exactly when a report has shown
   it away from what memory held at the start, or memory held one of the 17 positions that scale to 0.
   */
  lemma HeardRightIff(cfg: Config, input: InputState, stimuli: seq<Stimulus>, g: EncoderGroup, i: nat)
    requires cfg.Valid() && WireSafe(cfg) && DistinctControllers(cfg) && input.positions.Valid()
    requires AllStimuliOk(stimuli) && TwelveBitReports(stimuli) && HasOwnReport(stimuli) && i < ENCODERS_NUM
    ensures HeardRight(cfg, input, stimuli, g, i) <==>
            LeavesStart(input, stimuli, g, i) || input.positions.encoders.Of(g)[i] <= 16
  {
    hide HeldAfter;
    hide PositionAfter;
    hide Decode;
    var initial := input.positions.encoders.Of(g)[i];
    EndToEnd(cfg, input, stimuli, g, i);
    if !LeavesStart(input, stimuli, g, i) {
      var k :| 0 <= k < |stimuli| && stimuli[k].IsOwnReport();
      assert !ShowsMove(input, stimuli[k], g, i);
      ScaledValueIsUnique(initial, 0);
    }
  }

  /** In every run with a report of the device, the listener is right about the encoder. */
  ghost predicate AlwaysHeard(cfg: Config, input: InputState, g: EncoderGroup, i: nat)
    requires cfg.Valid() && WireSafe(cfg) && input.positions.Valid() && i < ENCODERS_NUM
  {
    forall stimuli: seq<Stimulus> ::
      AllStimuliOk(stimuli) && TwelveBitReports(stimuli) && HasOwnReport(stimuli) ==>
        HeardRight(cfg, input, stimuli, g, i)
  }

  /** A device at rest with all faders and knobs at one position. */
  function AllEncodersAt(v: uint16): (s: InputState)
    ensures s.positions.Valid()
    ensures forall g: EncoderGroup, i: nat :: i < ENCODERS_NUM ==> s.positions.encoders.Of(g)[i] == v
  {
    var buttons :=
      PerButton(Fill(false, MATRIX_BUTTONS_NUM), Fill(false, SPECIAL_BUTTONS_NUM), Fill(false, STOP_BUTTONS_NUM));
    assert forall g: ButtonGroup :: |buttons.Of(g)| == g.Size();
    InputState(INPUT_REPORT_ID, Positions(buttons, 0, PerEncoder(Fill(v, ENCODERS_NUM), Fill(v, ENCODERS_NUM))))
  }

  /** The one report of a device whose encoders are all at v. */
  function ReportAt(v: uint16): seq<Stimulus> {
    [Report(Encode(AllEncodersAt(v)))]
  }

  lemma ReportAtShows(v: uint16, input: InputState, g: EncoderGroup, i: nat)
    requires v <= FADERS_MAX && input.positions.Valid() && i < ENCODERS_NUM
    ensures AllStimuliOk(ReportAt(v)) && TwelveBitReports(ReportAt(v)) && HasOwnReport(ReportAt(v))
    ensures LeavesStart(input, ReportAt(v), g, i) <==> input.positions.encoders.Of(g)[i] != v
  {
    hide Encode;
    hide Decode;
    var report := Report(Encode(AllEncodersAt(v)));
    DecodeEncode(AllEncodersAt(v));
    assert ReportAt(v)[0] == report;
    assert Decode(report.report).reportId == report.report[0] by { IdIsFirst(report.report); }
    assert report.IsOwnReport();
    assert ShowsMove(input, report, g, i) <==> input.positions.encoders.Of(g)[i] != v;
  }

  lemma IdIsFirst(report: seq<byte>)
    requires IsReport(report)
    ensures Decode(report).reportId == report[0]
  {
  }

  /**
   What memory holds at the start decides, before the run: the listener is right about an encoder in
   every run in which the device reports exactly when memory held one of the positions that scale to 0,
   or a value that no position has.
   */
  lemma AlwaysHeardIff(cfg: Config, input: InputState, g: EncoderGroup, i: nat)
    requires cfg.Valid() && WireSafe(cfg) && DistinctControllers(cfg)
    requires input.positions.Valid() && i < ENCODERS_NUM
    ensures var initial := input.positions.encoders.Of(g)[i];
            AlwaysHeard(cfg, input, g, i) <==> initial <= 16 || initial > FADERS_MAX
  {
    hide HeardRight;
    var initial := input.positions.encoders.Of(g)[i];
    if initial <= 16 || initial > FADERS_MAX {
      forall stimuli: seq<Stimulus> | AllStimuliOk(stimuli) && TwelveBitReports(stimuli) && HasOwnReport(stimuli)
        ensures HeardRight(cfg, input, stimuli, g, i)
      {
        HeardRightIff(cfg, input, stimuli, g, i);
        if initial > FADERS_MAX { ImpossibleMemoryIsLeft(input, stimuli, g, i); }
      }
    } else {
      ReportAtShows(initial, input, g, i);
      HeardRightIff(cfg, input, ReportAt(initial), g, i);
    }
  }

  lemma ImpossibleMemoryIsLeft(input: InputState, stimuli: seq<Stimulus>, g: EncoderGroup, i: nat)
    requires input.positions.Valid() && i < ENCODERS_NUM && input.positions.encoders.Of(g)[i] > FADERS_MAX
    requires TwelveBitReports(stimuli) && HasOwnReport(stimuli)
    ensures LeavesStart(input, stimuli, g, i)
  {
    hide Decode;
    var k :| 0 <= k < |stimuli| && stimuli[k].IsOwnReport();
    assert ShowsMove(input, stimuli[k], g, i);
  }

  /**
   A fader that the device reports as all the way up is heard as 127, unless the memory of the driver
   happened to hold that position at the start: then it is not reported, and heard as 0.
   */
  lemma UpFaderIsHeardUnlessInMemory(cfg: Config, input: InputState)
    requires cfg.Valid() && WireSafe(cfg) && DistinctControllers(cfg) && input.positions.Valid()
    ensures var stimuli := ReportAt(FADERS_MAX);
            && AllStimuliOk(stimuli) && TwelveBitReports(stimuli)
            && PositionAfter(cfg, input, stimuli, Fader, 0) == FADERS_MAX && ScaleEncoder(FADERS_MAX) == 127
            && HeldAfter(cfg, input, stimuli, Fader, 0)
               == if input.positions.encoders.faders[0] == FADERS_MAX then 0 else 127
  {
    hide HeldAfter;
    hide Encode;
    hide Decode;
    hide Events;
    var stimuli := ReportAt(FADERS_MAX);
    ReportAtShows(FADERS_MAX, input, Fader, 0);
    ScaleIsMonotone(0, FADERS_MAX);
    EndToEnd(cfg, input, stimuli, Fader, 0);
    assert PositionAfter(cfg, input, stimuli, Fader, 0) == FADERS_MAX by {
      PositionAfterOneReport(cfg, input, FADERS_MAX, Fader, 0);
    }
  }

  lemma PositionAfterOneReport(cfg: Config, input: InputState, v: uint16, g: EncoderGroup, i: nat)
    requires cfg.Valid() && input.positions.Valid() && i < ENCODERS_NUM && AllStimuliOk(ReportAt(v))
    ensures PositionAfter(cfg, input, ReportAt(v), g, i) == v
  {
    hide Encode;
    hide Decode;
    hide Events;
    hide Run;
    var stimuli := ReportAt(v);
    var report := Encode(AllEncodersAt(v));
    DecodeEncode(AllEncodersAt(v));
    IdIsFirst(report);
    assert stimuli[..0] == [] && stimuli[|stimuli| - 1] == Report(report);
    assert DriverRun(cfg, Start(input), []) == Start(input);
  }
}
