/** What a listener on the MIDI output knows about the faders and knobs. */
module EncoderRuns {
  import opened Bits
  import opened MidiEvents
  import opened Controls
  import opened OutputReports
  import opened Scaling
  import opened IOMapping
  import opened IOMapperRuns

  /** All messages, oldest first. */
  function AllMessages(sent: seq<Sent>): seq<MidiEvent> {
    seq(|sent|, k requires 0 <= k < |sent| => sent[k].message)
  }

  /** The value a listener holds for a controller: the last one it was sent, 0 before any. */
  function Held(messages: seq<MidiEvent>, channel: byte, controller: byte): byte {
    if messages == [] then 0
    else
      var m := messages[|messages| - 1];
      if m.kind == ControlChange && m.channel == channel && m.data1 == controller then m.data2
      else Held(messages[..|messages| - 1], channel, controller)
  }

  predicate Moves(input: Input, g: EncoderGroup, i: nat) {
    input.FromHid? && input.event.EncoderEvent? && input.event.encoder == g && input.event.index == i
  }

  /** The scaled last position reported for an encoder, 0 before any report. */
  function Latest(inputs: seq<Input>, g: EncoderGroup, i: nat): byte
    requires AllOk(inputs)
  {
    if inputs == [] then 0
    else
      var input := inputs[|inputs| - 1];
      if Moves(input, g, i) then ScaleEncoder(input.event.value) else Latest(inputs[..|inputs| - 1], g, i)
  }

  lemma {:induction false} MemoryIsLatest(cfg: Config, leds: Leds, inputs: seq<Input>, g: EncoderGroup, i: nat)
    requires cfg.Valid() && leds.Valid() && AllOk(inputs) && i < ENCODERS_NUM
    ensures Run(cfg, Initial(leds), inputs).last.encoders.Of(g)[i] == Latest(inputs, g, i)
  {
    if inputs != [] {
      MemoryIsLatest(cfg, leds, inputs[..|inputs| - 1], g, i);
      StepMemory(cfg, Run(cfg, Initial(leds), inputs[..|inputs| - 1]), inputs[|inputs| - 1], g, i);
    }
  }

  lemma StepMemory(cfg: Config, w: World, input: Input, g: EncoderGroup, i: nat)
    requires cfg.Valid() && w.Valid() && input.Ok() && i < ENCODERS_NUM
    ensures Step(cfg, w, input).last.encoders.Of(g)[i]
         == if Moves(input, g, i) then ScaleEncoder(input.event.value) else w.last.encoders.Of(g)[i]
  {
  }

  /** No two encoders share a controller number, and none shares the wheel's. */
  predicate DistinctControllers(cfg: Config)
    requires cfg.Valid()
  {
    && (forall g: EncoderGroup, i: nat, h: EncoderGroup, j: nat ::
          i < ENCODERS_NUM && j < ENCODERS_NUM && cfg.controllers.Of(g)[i] == cfg.controllers.Of(h)[j] ==>
            g == h && i == j)
    && (forall g: EncoderGroup, i: nat :: i < ENCODERS_NUM ==> cfg.controllers.Of(g)[i] != cfg.wheelController)
  }

  /** The listener's value of an encoder in a world. */
  function Known(cfg: Config, w: World, g: EncoderGroup, i: nat): byte
    requires cfg.Valid() && i < ENCODERS_NUM
  {
    Held(AllMessages(w.sent), cfg.outChannel, cfg.controllers.Of(g)[i])
  }

  lemma HeldSnoc(sent: seq<Sent>, s: Sent, channel: byte, controller: byte)
    ensures Held(AllMessages(sent + [s]), channel, controller)
         == if s.message.kind == ControlChange && s.message.channel == channel && s.message.data1 == controller
            then s.message.data2 else Held(AllMessages(sent), channel, controller)
  {
    var all := AllMessages(sent + [s]);
    assert all[..|all| - 1] == AllMessages(sent);
  }

  lemma StepKnown(cfg: Config, w: World, input: Input, g: EncoderGroup, i: nat)
    requires cfg.Valid() && w.Valid() && input.Ok() && i < ENCODERS_NUM && DistinctControllers(cfg)
    requires Known(cfg, w, g, i) == w.last.encoders.Of(g)[i]
    ensures Known(cfg, Step(cfg, w, input), g, i) == Step(cfg, w, input).last.encoders.Of(g)[i]
  {
    StepMemory(cfg, w, input, g, i);
    if input.FromHid? {
      var midi := HidStep(cfg, w.last, w.leds, input.event).midi;
      if midi.Some? {
        HeldSnoc(w.sent, Sent(input.event, midi.value), cfg.outChannel, cfg.controllers.Of(g)[i]);
      }
    }
  }

  lemma {:induction false} ListenerKnows(cfg: Config, leds: Leds, inputs: seq<Input>, g: EncoderGroup, i: nat)
    requires cfg.Valid() && leds.Valid() && AllOk(inputs) && i < ENCODERS_NUM && DistinctControllers(cfg)
    ensures var w := Run(cfg, Initial(leds), inputs);
            Known(cfg, w, g, i) == w.last.encoders.Of(g)[i] == Latest(inputs, g, i)
  {
    MemoryIsLatest(cfg, leds, inputs, g, i);
    if inputs != [] {
      var earlier := inputs[..|inputs| - 1];
      ListenerKnows(cfg, leds, earlier, g, i);
      StepKnown(cfg, Run(cfg, Initial(leds), earlier), inputs[|inputs| - 1], g, i);
    }
  }

  /** An encoder message always tells the listener something new. */
  lemma {:induction false} NoRedundantMessage(cfg: Config, leds: Leds, inputs: seq<Input>, k: nat)
    requires cfg.Valid() && leds.Valid() && AllOk(inputs) && DistinctControllers(cfg)
    requires var sent := Run(cfg, Initial(leds), inputs).sent; k < |sent| && sent[k].cause.EncoderEvent?
    ensures var sent := Run(cfg, Initial(leds), inputs).sent;
            var m := sent[k].message;
            m.kind == ControlChange && m.data2 != Held(AllMessages(sent[..k]), m.channel, m.data1)
    decreases |inputs|
  {
    var earlier, input := inputs[..|inputs| - 1], inputs[|inputs| - 1];
    var w := Run(cfg, Initial(leds), earlier);
    var r := Step(cfg, w, input);
    if k < |w.sent| {
      assert r.sent[k] == w.sent[k] && r.sent[..k] == w.sent[..k];
      NoRedundantMessage(cfg, leds, earlier, k);
    } else {
      var e := input.event;
      assert r.sent[k].cause == e && r.sent[..k] == w.sent;
      ListenerKnows(cfg, leds, earlier, e.encoder, e.index);
    }
  }

  // ---- The messages of a single encoder, whatever the configuration ----

  /** The messages an encoder has caused, oldest first. */
  function MessagesOf(sent: seq<Sent>, g: EncoderGroup, i: nat): seq<MidiEvent> {
    if sent == [] then []
    else
      var s := sent[|sent| - 1];
      MessagesOf(sent[..|sent| - 1], g, i) + (if Moves(FromHid(s.cause), g, i) then [s.message] else [])
  }

  /** Messages of one controller, none of which repeats the value before it or the initial 0. */
  predicate NoRepeats(cfg: Config, messages: seq<MidiEvent>, g: EncoderGroup, i: nat)
    requires cfg.Valid() && i < ENCODERS_NUM
  {
    && (forall k :: 0 <= k < |messages| ==> messages[k] == EncoderMessage(cfg, g, i, messages[k].data2))
    && (forall k :: 0 <= k < |messages| ==> messages[k].data2 != ValueBefore(messages, k))
  }

  /** The value of the message before the k-th, 0 before the first. */
  function ValueBefore(messages: seq<MidiEvent>, k: nat): byte
    requires k <= |messages|
  {
    if k == 0 then 0 else messages[k - 1].data2
  }

  lemma StepMessagesOf(cfg: Config, w: World, input: Input, g: EncoderGroup, i: nat)
    requires cfg.Valid() && w.Valid() && input.Ok() && i < ENCODERS_NUM
    ensures var v := Step(cfg, w, input).last.encoders.Of(g)[i];
            MessagesOf(Step(cfg, w, input).sent, g, i) == MessagesOf(w.sent, g, i)
              + (if Moves(input, g, i) && v != w.last.encoders.Of(g)[i] then [EncoderMessage(cfg, g, i, v)] else [])
  {
    if input.FromHid? {
      var midi := HidStep(cfg, w.last, w.leds, input.event).midi;
      if midi.Some? {
        var more := w.sent + [Sent(input.event, midi.value)];
        assert more[..|w.sent|] == w.sent;
      }
    }
  }

  /**
   For every configuration, also one whose encoders share controllers: an encoder's own messages never
   repeat a value, the first is not 0, and the last is the scaled last position.
   */
  lemma {:induction false} OwnMessagesNeverRepeat(cfg: Config, leds: Leds, inputs: seq<Input>, g: EncoderGroup, i: nat)
    requires cfg.Valid() && leds.Valid() && AllOk(inputs) && i < ENCODERS_NUM
    ensures var messages := MessagesOf(Run(cfg, Initial(leds), inputs).sent, g, i);
            NoRepeats(cfg, messages, g, i) && ValueBefore(messages, |messages|) == Latest(inputs, g, i)
  {
    hide Step;
    hide NoRepeats;
    hide Latest;
    hide MessagesOf;
    hide ScaleEncoder;
    MemoryIsLatest(cfg, leds, inputs, g, i);
    if inputs != [] {
      var earlier, input := inputs[..|inputs| - 1], inputs[|inputs| - 1];
      var w := Run(cfg, Initial(leds), earlier);
      OwnMessagesNeverRepeat(cfg, leds, earlier, g, i);
      MemoryIsLatest(cfg, leds, earlier, g, i);
      StepMessagesOf(cfg, w, input, g, i);
      StepMemory(cfg, w, input, g, i);
      var messages, v := MessagesOf(w.sent, g, i), Step(cfg, w, input).last.encoders.Of(g)[i];
      if Moves(input, g, i) && v != w.last.encoders.Of(g)[i] {
        NoRepeatsSnoc(cfg, messages, g, i, v);
      } else {
        assert messages + [] == messages;
      }
    } else {
      assert MessagesOf([], g, i) == [] && NoRepeats(cfg, [], g, i) && Latest([], g, i) == 0 by { NothingSentYet(cfg, g, i); }
    }
  }

  lemma NothingSentYet(cfg: Config, g: EncoderGroup, i: nat)
    requires cfg.Valid() && i < ENCODERS_NUM
    ensures MessagesOf([], g, i) == [] && NoRepeats(cfg, [], g, i) && Latest([], g, i) == 0
  {
  }

  lemma NoRepeatsSnoc(cfg: Config, messages: seq<MidiEvent>, g: EncoderGroup, i: nat, v: byte)
    requires cfg.Valid() && i < ENCODERS_NUM
    requires NoRepeats(cfg, messages, g, i) && v != ValueBefore(messages, |messages|)
    ensures var more := messages + [EncoderMessage(cfg, g, i, v)];
            NoRepeats(cfg, more, g, i) && ValueBefore(more, |more|) == v
  {
    var more := messages + [EncoderMessage(cfg, g, i, v)];
    forall k | 0 <= k < |more| ensures more[k].data2 != ValueBefore(more, k) {
      assert ValueBefore(more, k) == ValueBefore(messages, k);
    }
  }

  // ---- Distinct controllers are exactly what the listener needs ----

  lemma RunOne(cfg: Config, leds: Leds, e: InputEvent)
    requires cfg.Valid() && leds.Valid() && e.Valid()
    ensures Run(cfg, Initial(leds), [FromHid(e)]) == Step(cfg, Initial(leds), FromHid(e))
  {
    assert [FromHid(e)][..0] == [];
  }

  lemma RunTwo(cfg: Config, leds: Leds, d: InputEvent, e: InputEvent)
    requires cfg.Valid() && leds.Valid() && d.Valid() && e.Valid()
    ensures Run(cfg, Initial(leds), [FromHid(d), FromHid(e)])
         == Step(cfg, Step(cfg, Initial(leds), FromHid(d)), FromHid(e))
  {
    assert [FromHid(d), FromHid(e)][..1] == [FromHid(d)];
    RunOne(cfg, leds, d);
  }

  /** Moving one of two encoders with the same controller misleads the listener about the other. */
  lemma SharedControllerMisleads(cfg: Config, leds: Leds, g: EncoderGroup, i: nat, h: EncoderGroup, j: nat)
      returns (inputs: seq<Input>)
    requires cfg.Valid() && leds.Valid() && i < ENCODERS_NUM && j < ENCODERS_NUM && (g != h || i != j)
    requires cfg.controllers.Of(g)[i] == cfg.controllers.Of(h)[j]
    ensures AllOk(inputs) && Known(cfg, Run(cfg, Initial(leds), inputs), h, j) != Latest(inputs, h, j)
  {
    var e := EncoderEvent(g, i, FADERS_MAX);
    inputs := [FromHid(e)];
    RunOne(cfg, leds, e);
    ScaleIsMonotone(0, FADERS_MAX);
    HeldSnoc([], Sent(e, EncoderMessage(cfg, g, i, 127)), cfg.outChannel, cfg.controllers.Of(h)[j]);
    assert inputs[..0] == [];
  }

  /** So does turning a wheel that shares an encoder's controller. */
  lemma SharedWheelMisleads(cfg: Config, leds: Leds, g: EncoderGroup, i: nat) returns (inputs: seq<Input>)
    requires cfg.Valid() && leds.Valid() && i < ENCODERS_NUM
    requires cfg.controllers.Of(g)[i] == cfg.wheelController
    ensures AllOk(inputs) && Known(cfg, Run(cfg, Initial(leds), inputs), g, i) != Latest(inputs, g, i)
  {
    var turn := WheelEvent(1, 1);
    var message := WheelMessage(cfg, 1);
    if cfg.wheelInc != 0 {
      inputs := [FromHid(turn)];
      RunOne(cfg, leds, turn);
      HeldSnoc([], Sent(turn, message), cfg.outChannel, cfg.wheelController);
      assert inputs[..0] == [];
    } else {
      var move := EncoderEvent(g, i, FADERS_MAX);
      inputs := [FromHid(move), FromHid(turn)];
      RunTwo(cfg, leds, move, turn);
      ScaleIsMonotone(0, FADERS_MAX);
      HeldSnoc([Sent(move, EncoderMessage(cfg, g, i, 127))], Sent(turn, message), cfg.outChannel, cfg.wheelController);
      assert inputs[..1] == [FromHid(move)];
    }
  }

  /** The listener is right about every encoder in every run. */
  ghost predicate AlwaysKnown(cfg: Config, leds: Leds)
    requires cfg.Valid() && leds.Valid()
  {
    forall inputs: seq<Input>, g: EncoderGroup, i: nat :: AllOk(inputs) && i < ENCODERS_NUM ==>
      Known(cfg, Run(cfg, Initial(leds), inputs), g, i) == Latest(inputs, g, i)
  }

  lemma ListenerIsRightIff(cfg: Config, leds: Leds)
    requires cfg.Valid() && leds.Valid()
    ensures AlwaysKnown(cfg, leds) <==> DistinctControllers(cfg)
  {
    if DistinctControllers(cfg) {
      forall inputs: seq<Input>, g: EncoderGroup, i: nat | AllOk(inputs) && i < ENCODERS_NUM
        ensures Known(cfg, Run(cfg, Initial(leds), inputs), g, i) == Latest(inputs, g, i)
      {
        ListenerKnows(cfg, leds, inputs, g, i);
      }
    } else if g: EncoderGroup, i: nat :| i < ENCODERS_NUM && cfg.controllers.Of(g)[i] == cfg.wheelController {
      var inputs := SharedWheelMisleads(cfg, leds, g, i);
      assert !AlwaysKnown(cfg, leds);
    } else {
      var g: EncoderGroup, i: nat, h: EncoderGroup, j: nat :|
        && i < ENCODERS_NUM && j < ENCODERS_NUM
        && cfg.controllers.Of(g)[i] == cfg.controllers.Of(h)[j] && (g != h || i != j);
      var inputs := SharedControllerMisleads(cfg, leds, g, i, h, j);
      assert !AlwaysKnown(cfg, leds);
    }
  }
}
