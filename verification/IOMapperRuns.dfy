/** What the mapper guarantees over every interleaving of HID and MIDI events. */
module IOMapperRuns {
  import opened Wrappers
  import opened Bits
  import opened MidiEvents
  import opened Controls
  import opened OutputReports
  import opened Scaling
  import opened IOMapping

  // ---- Single MIDI events ----

  /** A MIDI event acts once: repeating it changes nothing more. */
  lemma MidiStepIdempotent(cfg: Config, leds: Leds, e: MidiEvent)
    requires cfg.Valid() && leds.Valid() && e.data2 <= MIDI_MAX
    ensures MidiStep(cfg, MidiStep(cfg, leds, e), e) == MidiStep(cfg, leds, e)
  {
    var once := MidiStep(cfg, leds, e);
    assert MidiStep(cfg, once, e).matrix == once.matrix;
  }

  /** A colour is a configured one, dimmed component by component. */
  predicate Truncated(c: Color, f: real, full: Color) {
    IntegerPart(c.blue, f, full.blue) && IntegerPart(c.red, f, full.red) && IntegerPart(c.green, f, full.green)
  }

  predicate Rounded(c: Color, f: real, full: Color) {
    Nearest(c.blue, f, full.blue) && Nearest(c.red, f, full.red) && Nearest(c.green, f, full.green)
  }

  /**
   What each matrix button listens to: in note mode to its note, switched on to the high and off to the
   low colour; in controller mode to its controller's value; only on the input channel, and to nothing else.
   */
  lemma MatrixButtonListens(cfg: Config, leds: Leds, e: MidiEvent, i: nat)
    requires cfg.Valid() && leds.Valid() && e.data2 <= MIDI_MAX && i < MATRIX_BUTTONS_NUM
    ensures var before, after, mode := leds.matrix[i], MidiStep(cfg, leds, e).matrix[i], cfg.modes.Of(Matrix)[i];
            var note := e.channel == cfg.inChannel && mode == MidiNote && e.data1 == cfg.notes.Of(Matrix)[i];
            var control := e.channel == cfg.inChannel && mode == MidiCC && e.data1 == cfg.matrixControllers[i];
            if note && e.kind == NoteOn then Truncated(after, cfg.highColor, cfg.colors[i])
            else if note && e.kind == NoteOff then Truncated(after, cfg.lowColor, cfg.colors[i])
            else if control && e.kind == ControlChange then Truncated(after, e.data2 as real / 127.0, cfg.colors[i])
            else after == before
  {
    hide DimTruncated;
    hide IntegerPart;
    hide ControllerFactor;
    var f, c := MidiFactor(cfg, e), cfg.colors[i];
    DimIsProduct(f, c.blue);
    DimIsProduct(f, c.red);
    DimIsProduct(f, c.green);
    ControllerFactorIsShare(e.data2);
  }

  /** Two MIDI events commute exactly when no button listening to both takes different colours. */
  lemma MidiStepsCommuteIff(cfg: Config, leds: Leds, d: MidiEvent, e: MidiEvent)
    requires cfg.Valid() && leds.Valid() && d.data2 <= MIDI_MAX && e.data2 <= MIDI_MAX
    ensures MidiStep(cfg, MidiStep(cfg, leds, d), e) == MidiStep(cfg, MidiStep(cfg, leds, e), d)
      <==> forall i: nat :: i < MATRIX_BUTTONS_NUM && Matches(cfg, i, d) && Matches(cfg, i, e) ==>
             MidiColor(cfg, i, d) == MidiColor(cfg, i, e)
  {
    var de, ed := MidiStep(cfg, MidiStep(cfg, leds, d), e), MidiStep(cfg, MidiStep(cfg, leds, e), d);
    forall i: nat | i < MATRIX_BUTTONS_NUM
      ensures de.matrix[i] == if Matches(cfg, i, e) then MidiColor(cfg, i, e)
                              else if Matches(cfg, i, d) then MidiColor(cfg, i, d) else leds.matrix[i]
      ensures ed.matrix[i] == if Matches(cfg, i, d) then MidiColor(cfg, i, d)
                              else if Matches(cfg, i, e) then MidiColor(cfg, i, e) else leds.matrix[i]
    {
    }
    assert de == ed <==> de.matrix == ed.matrix;
    assert de.matrix == ed.matrix <==> forall i: nat :: i < MATRIX_BUTTONS_NUM ==> de.matrix[i] == ed.matrix[i];
  }

  /** Full brightness shows the configured colour itself, whichever way it is set; none shows black. */
  lemma FullLightIsConfiguredColor(cfg: Config, i: nat, e: MidiEvent)
    requires cfg.Valid() && i < MATRIX_BUTTONS_NUM && e.data2 <= MIDI_MAX
    ensures cfg.highColor == 1.0 ==> HidColor(cfg, i, true) == cfg.colors[i]
    ensures cfg.lowColor == 0.0 ==> HidColor(cfg, i, false) == Color(0, 0, 0)
    ensures cfg.highColor == 1.0 && e.kind == NoteOn ==> MidiColor(cfg, i, e) == cfg.colors[i]
    ensures cfg.lowColor == 0.0 && e.kind == NoteOff ==> MidiColor(cfg, i, e) == Color(0, 0, 0)
    ensures e.kind == ControlChange && e.data2 == MIDI_MAX ==> MidiColor(cfg, i, e) == cfg.colors[i]
    ensures e.kind == ControlChange && e.data2 == 0 ==> MidiColor(cfg, i, e) == Color(0, 0, 0)
  {
    var c := cfg.colors[i];
    DimEnds(0.0, c.blue);
    DimEnds(0.0, c.red);
    DimEnds(0.0, c.green);
    assert 127.0 * (1.0 / 127.0) == 1.0;
  }

  /** The same note sets at most a slightly darker colour by MIDI than by HID: one truncates, the other rounds. */
  lemma MidiNoteNearHid(cfg: Config, i: nat, e: MidiEvent)
    requires cfg.Valid() && i < MATRIX_BUTTONS_NUM && e.data2 <= MIDI_MAX && (e.kind == NoteOn || e.kind == NoteOff)
    ensures var m, h := MidiColor(cfg, i, e), HidColor(cfg, i, e.kind == NoteOn);
            && m.blue <= h.blue <= m.blue + 1
            && m.red <= h.red <= m.red + 1
            && m.green <= h.green <= m.green + 1
  {
    var f := if e.kind == NoteOn then cfg.highColor else cfg.lowColor;
    DimEnds(f, cfg.colors[i].blue);
    DimEnds(f, cfg.colors[i].red);
    DimEnds(f, cfg.colors[i].green);
  }

  /** The wheel's message tells the direction of the shorter way round the 256 positions. */
  lemma WheelMessageTellsDirection(cfg: Config, before: byte, after: byte)
    ensures WheelMessage(cfg, Int8(after - before)).data2
         == if 1 <= (after - before) % 256 <= 127 then cfg.wheelInc else cfg.wheelDec
  {
  }

  // ---- Runs ----

  datatype Input = FromHid(event: InputEvent) | FromMidi(midi: MidiEvent) {
    predicate Ok() {
      match this
      case FromHid(e) => e.Valid()
      case FromMidi(e) => e.data2 <= MIDI_MAX
    }
  }

  /** A message the mapper has sent and the HID event that caused it. */
  datatype Sent = Sent(cause: InputEvent, message: MidiEvent)

  datatype World = World(last: LastInput, leds: Leds, sent: seq<Sent>) {
    predicate Valid() {
      last.Valid() && leds.Valid()
    }
  }

  function Initial(leds: Leds): World {
    World(INITIAL_INPUT, leds, [])
  }

  function Record(sent: seq<Sent>, e: InputEvent, midi: Option<MidiEvent>): seq<Sent> {
    if midi.Some? then sent + [Sent(e, midi.value)] else sent
  }

  function Step(cfg: Config, w: World, input: Input): (r: World)
    requires cfg.Valid() && w.Valid() && input.Ok()
    ensures r.Valid()
  {
    match input
    case FromHid(e) =>
      var h := HidStep(cfg, w.last, w.leds, e);
      World(h.last, h.leds, Record(w.sent, e, h.midi))
    case FromMidi(e) => World(w.last, MidiStep(cfg, w.leds, e), w.sent)
  }

  predicate AllOk(inputs: seq<Input>) {
    forall k :: 0 <= k < |inputs| ==> inputs[k].Ok()
  }

  function Run(cfg: Config, w: World, inputs: seq<Input>): (r: World)
    requires cfg.Valid() && w.Valid() && AllOk(inputs)
    ensures r.Valid()
  {
    if inputs == [] then w else Step(cfg, Run(cfg, w, inputs[..|inputs| - 1]), inputs[|inputs| - 1])
  }

  // ---- Brightness stays within seven bits ----

  predicate LightsInRange(cfg: Config)
    requires cfg.Valid()
  {
    && (forall i :: 0 <= i < MATRIX_BUTTONS_NUM ==> cfg.colors[i].InRange())
    && cfg.low < MAX_BRIGHTNESS && cfg.high < MAX_BRIGHTNESS
  }

  lemma StepKeepsRange(cfg: Config, w: World, input: Input)
    requires cfg.Valid() && w.Valid() && input.Ok() && LightsInRange(cfg) && w.leds.InRange()
    ensures Step(cfg, w, input).leds.InRange()
    ensures Step(cfg, w, input).leds.reportId == w.leds.reportId
  {
    var r := Step(cfg, w, input).leds;
    match input {
      case FromHid(ButtonEvent(g, i, _)) =>
      case FromHid(EncoderEvent(_, _, _)) =>
      case FromHid(WheelEvent(_, _)) =>
      case FromMidi(e) =>
        forall i: nat | i < MATRIX_BUTTONS_NUM ensures r.matrix[i].InRange() {
          assert cfg.colors[i].InRange() && w.leds.matrix[i].InRange();
        }
    }
  }

  /** Every write of an output report meets its assertions, whatever events came before. */
  lemma {:induction false} RunKeepsRange(cfg: Config, w: World, inputs: seq<Input>)
    requires cfg.Valid() && w.Valid() && AllOk(inputs) && LightsInRange(cfg) && w.leds.InRange()
    ensures Run(cfg, w, inputs).leds.InRange()
    ensures Run(cfg, w, inputs).leds.reportId == w.leds.reportId
  {
    if inputs != [] {
      var earlier := inputs[..|inputs| - 1];
      RunKeepsRange(cfg, w, earlier);
      StepKeepsRange(cfg, Run(cfg, w, earlier), inputs[|inputs| - 1]);
    }
  }

  // ---- Buttons: messages, latches and lights ----

  predicate IsButton(e: InputEvent, g: ButtonGroup, i: nat) {
    e.ButtonEvent? && e.group == g && e.index == i
  }

  /** The messages a button has caused, oldest first. */
  function Messages(sent: seq<Sent>, g: ButtonGroup, i: nat): seq<MidiEvent> {
    if sent == [] then []
    else
      var s := sent[|sent| - 1];
      Messages(sent[..|sent| - 1], g, i) + (if IsButton(s.cause, g, i) then [s.message] else [])
  }

  /** The press and release states a button has gone through. */
  function Gestures(inputs: seq<Input>, g: ButtonGroup, i: nat): seq<bool> {
    if inputs == [] then []
    else
      var s := inputs[|inputs| - 1];
      Gestures(inputs[..|inputs| - 1], g, i)
      + (if s.FromHid? && IsButton(s.event, g, i) then [s.event.pressed] else [])
  }

  function Presses(gestures: seq<bool>): nat {
    if gestures == [] then 0
    else Presses(gestures[..|gestures| - 1]) + (if gestures[|gestures| - 1] then 1 else 0)
  }

  lemma MessagesSnoc(sent: seq<Sent>, s: Sent, g: ButtonGroup, i: nat)
    ensures Messages(sent + [s], g, i) == Messages(sent, g, i) + (if IsButton(s.cause, g, i) then [s.message] else [])
  {
    assert (sent + [s])[..|sent|] == sent;
  }

  lemma GesturesSnoc(inputs: seq<Input>, g: ButtonGroup, i: nat)
    requires inputs != []
    ensures var input := inputs[|inputs| - 1];
            Gestures(inputs, g, i) == Gestures(inputs[..|inputs| - 1], g, i)
              + (if ActsOn(input, g, i) then [input.event.pressed] else [])
  {
  }

  predicate ActsOn(input: Input, g: ButtonGroup, i: nat) {
    input.FromHid? && IsButton(input.event, g, i)
  }

  /** The light of a button: a colour, or one level three times. */
  function Light(leds: Leds, g: ButtonGroup, i: nat): Color
    requires leds.Valid() && i < g.Size()
  {
    match g
    case Matrix => leds.matrix[i]
    case Special => Color(leds.special[i], leds.special[i], leds.special[i])
    case Stop => Color(leds.stop[i], leds.stop[i], leds.stop[i])
  }

  function HidLight(cfg: Config, g: ButtonGroup, i: nat, on: bool): Color
    requires cfg.Valid() && i < g.Size()
  {
    match g
    case Matrix => HidColor(cfg, i, on)
    case Special => Color(HidLevel(cfg, on), HidLevel(cfg, on), HidLevel(cfg, on))
    case Stop => Color(HidLevel(cfg, on), HidLevel(cfg, on), HidLevel(cfg, on))
  }

  /** The HID light after a gesture that switched the button to s, if it did. */
  function LightAfter(cfg: Config, g: ButtonGroup, i: nat, s: Option<bool>, before: Color): Color
    requires cfg.Valid() && i < g.Size()
  {
    if s.Some? && cfg.modes.Of(g)[i] == Hid then HidLight(cfg, g, i, s.value) else before
  }

  lemma GestureSetsLatch(cfg: Config, w: World, g: ButtonGroup, i: nat, pressed: bool)
    requires cfg.Valid() && w.Valid() && i < g.Size()
    ensures var r := Step(cfg, w, FromHid(ButtonEvent(g, i, pressed)));
            var s := Switch(cfg.toggle.Of(g)[i], w.last.buttons.Of(g)[i], pressed);
            && r.last.buttons.Of(g)[i] == (if s.Some? then s.value else w.last.buttons.Of(g)[i])
            && Light(r.leds, g, i) == LightAfter(cfg, g, i, s, Light(w.leds, g, i))
  {
  }

  lemma GestureSends(cfg: Config, w: World, g: ButtonGroup, i: nat, pressed: bool)
    requires cfg.Valid() && w.Valid() && i < g.Size()
    ensures var r := Step(cfg, w, FromHid(ButtonEvent(g, i, pressed)));
            var s := Switch(cfg.toggle.Of(g)[i], w.last.buttons.Of(g)[i], pressed);
            Messages(r.sent, g, i)
              == Messages(w.sent, g, i) + (if s.Some? then [ButtonMessage(cfg, g, i, s.value)] else [])
  {
    var s := Switch(cfg.toggle.Of(g)[i], w.last.buttons.Of(g)[i], pressed);
    var e := ButtonEvent(g, i, pressed);
    if s.Some? { MessagesSnoc(w.sent, Sent(e, ButtonMessage(cfg, g, i, s.value)), g, i); }
  }

  lemma OthersLeaveLatch(cfg: Config, w: World, input: Input, g: ButtonGroup, i: nat)
    requires cfg.Valid() && w.Valid() && input.Ok() && i < g.Size() && !ActsOn(input, g, i)
    ensures Step(cfg, w, input).last.buttons.Of(g)[i] == w.last.buttons.Of(g)[i]
  {
  }

  lemma OthersLeaveLight(cfg: Config, w: World, input: Input, g: ButtonGroup, i: nat)
    requires cfg.Valid() && w.Valid() && input.Ok() && i < g.Size() && !ActsOn(input, g, i)
    requires cfg.modes.Of(g)[i] == Hid || g != Matrix
    ensures Light(Step(cfg, w, input).leds, g, i) == Light(w.leds, g, i)
  {
    match input {
      case FromHid(ButtonEvent(h, j, _)) =>
      case FromHid(_) =>
      case FromMidi(e) =>
    }
  }

  lemma OthersSendNothing(cfg: Config, w: World, input: Input, g: ButtonGroup, i: nat)
    requires cfg.Valid() && w.Valid() && input.Ok() && i < g.Size() && !ActsOn(input, g, i)
    ensures Messages(Step(cfg, w, input).sent, g, i) == Messages(w.sent, g, i)
  {
    if input.FromHid? {
      var midi := HidStep(cfg, w.last, w.leds, input.event).midi;
      if midi.Some? { MessagesSnoc(w.sent, Sent(input.event, midi.value), g, i); }
    }
  }

  // A single button on its own: the states it switches to over its gestures.

  predicate Latch(ons: seq<bool>) {
    ons != [] && ons[|ons| - 1]
  }

  function Switched(ons: seq<bool>, s: Option<bool>): seq<bool> {
    if s.Some? then ons + [s.value] else ons
  }

  function Ons(toggle: bool, gestures: seq<bool>): seq<bool> {
    if gestures == [] then []
    else
      var ons := Ons(toggle, gestures[..|gestures| - 1]);
      Switched(ons, Switch(toggle, Latch(ons), gestures[|gestures| - 1]))
  }

  lemma OnsSnoc(toggle: bool, gestures: seq<bool>, pressed: bool)
    ensures var ons := Ons(toggle, gestures);
            Ons(toggle, gestures + [pressed]) == Switched(ons, Switch(toggle, Latch(ons), pressed))
  {
    assert (gestures + [pressed])[..|gestures|] == gestures;
  }

  function ButtonMessages(cfg: Config, g: ButtonGroup, i: nat, ons: seq<bool>): seq<MidiEvent>
    requires cfg.Valid() && i < g.Size()
  {
    seq(|ons|, k requires 0 <= k < |ons| => ButtonMessage(cfg, g, i, ons[k]))
  }

  /** What the world shows of a button: its latch, its messages and, in HID mode, its light. */
  predicate Shows(cfg: Config, w: World, g: ButtonGroup, i: nat, ons: seq<bool>, initial: Color)
    requires cfg.Valid() && w.Valid() && i < g.Size()
  {
    && w.last.buttons.Of(g)[i] == Latch(ons)
    && Messages(w.sent, g, i) == ButtonMessages(cfg, g, i, ons)
    && (cfg.modes.Of(g)[i] == Hid ==>
          Light(w.leds, g, i) == if ons == [] then initial else HidLight(cfg, g, i, Latch(ons)))
    && (cfg.modes.Of(g)[i] != Hid && g != Matrix ==> Light(w.leds, g, i) == initial)
  }

  lemma ShowsStep(cfg: Config, w: World, input: Input, g: ButtonGroup, i: nat, ons: seq<bool>, initial: Color)
    requires cfg.Valid() && w.Valid() && input.Ok() && i < g.Size() && Shows(cfg, w, g, i, ons, initial)
    ensures Shows(cfg, Step(cfg, w, input), g, i,
                  if ActsOn(input, g, i)
                  then Switched(ons, Switch(cfg.toggle.Of(g)[i], Latch(ons), input.event.pressed))
                  else ons,
                  initial)
  {
    if ActsOn(input, g, i) {
      var pressed := input.event.pressed;
      assert input == FromHid(ButtonEvent(g, i, pressed));
      GestureSetsLatch(cfg, w, g, i, pressed);
      GestureSends(cfg, w, g, i, pressed);
      var s := Switch(cfg.toggle.Of(g)[i], Latch(ons), pressed);
      assert ButtonMessages(cfg, g, i, Switched(ons, s))
          == ButtonMessages(cfg, g, i, ons) + (if s.Some? then [ButtonMessage(cfg, g, i, s.value)] else []);
    } else {
      OthersLeaveLatch(cfg, w, input, g, i);
      OthersSendNothing(cfg, w, input, g, i);
      if cfg.modes.Of(g)[i] == Hid || g != Matrix { OthersLeaveLight(cfg, w, input, g, i); }
    }
  }

  /**
   Over any run, whatever other buttons, encoders and MIDI events are interleaved, a button's latch,
   its messages and its HID light are those of the button on its own. In a MIDI mode, a matrix button
   has the colour of the last event it listens to; a special or stop button keeps its initial light
   for ever.
   */
  lemma {:induction false} ButtonRun(cfg: Config, leds: Leds, inputs: seq<Input>, g: ButtonGroup, i: nat)
    requires cfg.Valid() && leds.Valid() && AllOk(inputs) && i < g.Size()
    ensures Shows(cfg, Run(cfg, Initial(leds), inputs), g, i,
                  Ons(cfg.toggle.Of(g)[i], Gestures(inputs, g, i)), Light(leds, g, i))
    ensures AllHearable(Heard(inputs))
    ensures g == Matrix && cfg.modes.Of(g)[i] != Hid ==>
              LastMatchColors(cfg, Heard(inputs), i, leds.matrix[i], Run(cfg, Initial(leds), inputs).leds.matrix[i])
  {
    HeardIsHearable(inputs);
    if g == Matrix && cfg.modes.Of(g)[i] != Hid { MidiLightRun(cfg, leds, inputs, i); }
    ButtonRunShows(cfg, leds, inputs, g, i);
  }

  lemma {:induction false} ButtonRunShows(cfg: Config, leds: Leds, inputs: seq<Input>, g: ButtonGroup, i: nat)
    requires cfg.Valid() && leds.Valid() && AllOk(inputs) && i < g.Size()
    ensures Shows(cfg, Run(cfg, Initial(leds), inputs), g, i,
                  Ons(cfg.toggle.Of(g)[i], Gestures(inputs, g, i)), Light(leds, g, i))
  {
    hide Step;
    hide Switch;
    hide Light;
    if inputs != [] {
      var earlier, input := inputs[..|inputs| - 1], inputs[|inputs| - 1];
      ButtonRunShows(cfg, leds, earlier, g, i);
      var gestures := Gestures(earlier, g, i);
      GesturesSnoc(inputs, g, i);
      if ActsOn(input, g, i) {
        OnsSnoc(cfg.toggle.Of(g)[i], gestures, input.event.pressed);
      } else {
        assert gestures + [] == gestures;
      }
      ShowsStep(cfg, Run(cfg, Initial(leds), earlier), input, g, i,
                Ons(cfg.toggle.Of(g)[i], gestures), Light(leds, g, i));
    }
  }

  /** A toggle button switches once per press and never on release, strictly alternating from on. */
  lemma {:induction false} ToggleAlternates(gestures: seq<bool>)
    ensures |Ons(true, gestures)| == Presses(gestures)
    ensures forall k :: 0 <= k < |Ons(true, gestures)| ==> Ons(true, gestures)[k] == (k % 2 == 0)
    ensures Latch(Ons(true, gestures)) == (Presses(gestures) % 2 == 1)
  {
    if gestures != [] { ToggleAlternates(gestures[..|gestures| - 1]); }
  }

  /** Any other button follows its gestures. */
  lemma {:induction false} MomentaryFollows(gestures: seq<bool>)
    ensures Ons(false, gestures) == gestures
  {
    if gestures != [] { MomentaryFollows(gestures[..|gestures| - 1]); }
  }

  /**
   In terms of messages: one per press, alternately NOTE_ON and NOTE_OFF, starting with NOTE_ON, and
   the latch is the parity of the presses.
   */
  lemma {:induction false} ToggleMessages(cfg: Config, leds: Leds, inputs: seq<Input>, g: ButtonGroup, i: nat)
    requires cfg.Valid() && leds.Valid() && AllOk(inputs) && i < g.Size() && cfg.toggle.Of(g)[i]
    ensures var w := Run(cfg, Initial(leds), inputs);
            var presses := Presses(Gestures(inputs, g, i));
            && |Messages(w.sent, g, i)| == presses
            && (forall k :: 0 <= k < presses ==>
                  Messages(w.sent, g, i)[k] ==
                    if k % 2 == 0 then MidiEvent(NoteOn, cfg.outChannel, cfg.notes.Of(g)[i], cfg.noteOnVelocity)
                    else MidiEvent(NoteOff, cfg.outChannel, cfg.notes.Of(g)[i], cfg.noteOffVelocity))
            && w.last.buttons.Of(g)[i] == (presses % 2 == 1)
  {
    hide Run;
    hide Messages;
    hide Light;
    hide Ons;
    ButtonRun(cfg, leds, inputs, g, i);
    ToggleAlternates(Gestures(inputs, g, i));
  }

  /** Any other button sends NOTE_ON for each press and NOTE_OFF for each release. */
  lemma {:induction false} MomentaryMessages(cfg: Config, leds: Leds, inputs: seq<Input>, g: ButtonGroup, i: nat)
    requires cfg.Valid() && leds.Valid() && AllOk(inputs) && i < g.Size() && !cfg.toggle.Of(g)[i]
    ensures var w := Run(cfg, Initial(leds), inputs);
            var gestures := Gestures(inputs, g, i);
            && |Messages(w.sent, g, i)| == |gestures|
            && (forall k :: 0 <= k < |gestures| ==>
                  Messages(w.sent, g, i)[k] ==
                    if gestures[k] then MidiEvent(NoteOn, cfg.outChannel, cfg.notes.Of(g)[i], cfg.noteOnVelocity)
                    else MidiEvent(NoteOff, cfg.outChannel, cfg.notes.Of(g)[i], cfg.noteOffVelocity))
            && w.last.buttons.Of(g)[i] == (gestures != [] && gestures[|gestures| - 1])
  {
    hide Run;
    hide Messages;
    hide Light;
    hide Ons;
    ButtonRun(cfg, leds, inputs, g, i);
    MomentaryFollows(Gestures(inputs, g, i));
  }

  /** A light as configured: the high or low level, or the button's colour at high or low brightness. */
  predicate ShowsConfigured(cfg: Config, leds: Leds, g: ButtonGroup, i: nat, on: bool)
    requires cfg.Valid() && leds.Valid() && i < g.Size()
  {
    match g
    case Matrix => Rounded(leds.matrix[i], if on then cfg.highColor else cfg.lowColor, cfg.colors[i])
    case Special => leds.special[i] == if on then cfg.high else cfg.low
    case Stop => leds.stop[i] == if on then cfg.high else cfg.low
  }

  lemma LightInConfiguration(cfg: Config, leds: Leds, g: ButtonGroup, i: nat)
    requires cfg.Valid() && leds.Valid() && i < g.Size()
    ensures forall on :: Light(leds, g, i) == HidLight(cfg, g, i, on) ==> ShowsConfigured(cfg, leds, g, i, on)
  {
    if g == Matrix {
      hide DimRounded;
      hide Nearest;
      var c := cfg.colors[i];
      forall on: bool
        ensures Light(leds, g, i) == HidLight(cfg, g, i, on) ==> ShowsConfigured(cfg, leds, g, i, on)
      {
        var f := if on then cfg.highColor else cfg.lowColor;
        DimIsProduct(f, c.blue);
        DimIsProduct(f, c.red);
        DimIsProduct(f, c.green);
      }
    }
  }

  /** The light of a HID-mode button that has sent a message is the one its last message announced. */
  lemma {:induction false} LightFollowsMessages(cfg: Config, leds: Leds, inputs: seq<Input>, g: ButtonGroup, i: nat)
    requires cfg.Valid() && leds.Valid() && AllOk(inputs) && i < g.Size() && cfg.modes.Of(g)[i] == Hid
    ensures var w := Run(cfg, Initial(leds), inputs);
            var messages := Messages(w.sent, g, i);
            Light(w.leds, g, i) == if messages == [] then Light(leds, g, i)
                                   else HidLight(cfg, g, i, messages[|messages| - 1].kind == NoteOn)
    ensures var w := Run(cfg, Initial(leds), inputs);
            var messages := Messages(w.sent, g, i);
            messages != [] ==> ShowsConfigured(cfg, w.leds, g, i, messages[|messages| - 1].kind == NoteOn)
  {
    LightInConfiguration(cfg, Run(cfg, Initial(leds), inputs).leds, g, i);
    hide ShowsConfigured;
    hide Run;
    hide Messages;
    hide Light;
    hide HidLight;
    hide Ons;
    ButtonRun(cfg, leds, inputs, g, i);
  }

  // ---- Matrix buttons in a MIDI mode: the light follows the messages heard ----

  /** The MIDI events among the inputs. */
  function Heard(history: seq<Input>): seq<MidiEvent> {
    if history == [] then []
    else
      var input := history[|history| - 1];
      var earlier := Heard(history[..|history| - 1]);
      if input.FromMidi? then earlier + [input.midi] else earlier
  }

  predicate AllHearable(events: seq<MidiEvent>) {
    forall k :: 0 <= k < |events| ==> events[k].data2 <= MIDI_MAX
  }

  /** The k-th event is the last one that a matrix button listens to. */
  predicate IsLastMatch(cfg: Config, events: seq<MidiEvent>, i: nat, k: nat)
    requires cfg.Valid() && i < MATRIX_BUTTONS_NUM && k < |events|
  {
    Matches(cfg, i, events[k]) && forall j :: k < j < |events| ==> !Matches(cfg, i, events[j])
  }

  /** The colour is that of the last event the button listens to, or the initial one if there is none. */
  predicate LastMatchColors(cfg: Config, events: seq<MidiEvent>, i: nat, initial: Color, color: Color)
    requires cfg.Valid() && i < MATRIX_BUTTONS_NUM && AllHearable(events)
  {
    && ((forall k :: 0 <= k < |events| ==> !Matches(cfg, i, events[k])) ==> color == initial)
    && forall k: nat :: k < |events| && IsLastMatch(cfg, events, i, k) ==> color == MidiColor(cfg, i, events[k])
  }

  lemma {:induction false} HeardIsHearable(inputs: seq<Input>)
    requires AllOk(inputs)
    ensures AllHearable(Heard(inputs))
  {
    if inputs != [] { HeardIsHearable(inputs[..|inputs| - 1]); }
  }

  lemma LastMatchSnoc(cfg: Config, events: seq<MidiEvent>, e: MidiEvent, i: nat, initial: Color, color: Color)
    requires cfg.Valid() && i < MATRIX_BUTTONS_NUM && AllHearable(events) && e.data2 <= MIDI_MAX
    requires LastMatchColors(cfg, events, i, initial, color)
    ensures LastMatchColors(cfg, events + [e], i, initial,
                            if Matches(cfg, i, e) then MidiColor(cfg, i, e) else color)
  {
    hide MidiColor;
    hide Matches;
    var more := events + [e];
    assert more[|events|] == e;
    forall k: nat | k < |more| && IsLastMatch(cfg, more, i, k)
      ensures MidiColor(cfg, i, more[k]) == if Matches(cfg, i, e) then MidiColor(cfg, i, e) else color
    {
      if k < |events| {
        assert !Matches(cfg, i, more[|events|]);
        assert forall j :: k < j < |events| ==> more[j] == events[j];
        assert IsLastMatch(cfg, events, i, k);
      }
    }
    if forall k :: 0 <= k < |more| ==> !Matches(cfg, i, more[k]) {
      assert forall k :: 0 <= k < |events| ==> more[k] == events[k];
    }
  }

  lemma OnlyMatchesColor(cfg: Config, w: World, input: Input, i: nat)
    requires cfg.Valid() && w.Valid() && input.Ok() && i < MATRIX_BUTTONS_NUM && cfg.modes.Of(Matrix)[i] != Hid
    ensures Step(cfg, w, input).leds.matrix[i]
         == if input.FromMidi? && Matches(cfg, i, input.midi) then MidiColor(cfg, i, input.midi) else w.leds.matrix[i]
  {
    hide MidiColor;
  }

  /**
   Over any run, whatever presses, movements and other MIDI events are interleaved, a matrix button in
   a MIDI mode has the colour of the last MIDI event it listens to, and before any its initial one.
   */
  lemma {:induction false} MidiLightRun(cfg: Config, leds: Leds, inputs: seq<Input>, i: nat)
    requires cfg.Valid() && leds.Valid() && AllOk(inputs)
    requires i < MATRIX_BUTTONS_NUM && cfg.modes.Of(Matrix)[i] != Hid
    ensures AllHearable(Heard(inputs))
    ensures LastMatchColors(cfg, Heard(inputs), i, leds.matrix[i], Run(cfg, Initial(leds), inputs).leds.matrix[i])
  {
    HeardIsHearable(inputs);
    if inputs != [] {
      hide Step;
      hide LastMatchColors;
      hide MidiColor;
      var earlier, input := inputs[..|inputs| - 1], inputs[|inputs| - 1];
      MidiLightRun(cfg, leds, earlier, i);
      var w := Run(cfg, Initial(leds), earlier);
      OnlyMatchesColor(cfg, w, input, i);
      if input.FromMidi? { LastMatchSnoc(cfg, Heard(earlier), input.midi, i, leds.matrix[i], w.leds.matrix[i]); }
    }
  }

  /** Every button in note mode: the matrix on note 1, the special buttons on 2, the stop buttons on 3. */
  const LIT_BY_NOTES := Config(
    PerButton(Fill(false, MATRIX_BUTTONS_NUM), Fill(false, SPECIAL_BUTTONS_NUM), Fill(false, STOP_BUTTONS_NUM)),
    PerButton(Fill(1, MATRIX_BUTTONS_NUM), Fill(2, SPECIAL_BUTTONS_NUM), Fill(3, STOP_BUTTONS_NUM)),
    PerEncoder(Fill(0, ENCODERS_NUM), Fill(0, ENCODERS_NUM)),
    0, 0, 0,
    PerButton(Fill(MidiNote, MATRIX_BUTTONS_NUM), Fill(MidiNote, SPECIAL_BUTTONS_NUM), Fill(MidiNote, STOP_BUTTONS_NUM)),
    Fill(0, MATRIX_BUTTONS_NUM),
    Fill(Color(127, 127, 127), MATRIX_BUTTONS_NUM),
    0.0, 1.0, 0, 127, 0, 0, 127, 0)

  /** The note on of a stop button in note mode leaves it dark, while that of a matrix button lights it. */
  lemma StopButtonStaysDark()
    ensures LIT_BY_NOTES.Valid() && DARK_LEDS.Valid()
    ensures forall g: ButtonGroup, i: nat :: i < g.Size() ==>
              var input := FromMidi(MidiEvent(NoteOn, LIT_BY_NOTES.inChannel, LIT_BY_NOTES.notes.Of(g)[i], 127));
              && LIT_BY_NOTES.modes.Of(g)[i] == MidiNote && input.Ok()
              && Light(Step(LIT_BY_NOTES, Initial(DARK_LEDS), input).leds, g, i)
                 == if g == Matrix then Color(127, 127, 127) else Color(0, 0, 0)
  {
    DimEnds(1.0, 127);
  }

  // ---- The wheel, and what no input touches ----

  /** The messages the wheel has caused, and the directions it has been turned in. */
  function WheelMessages(sent: seq<Sent>): seq<MidiEvent> {
    if sent == [] then []
    else
      var s := sent[|sent| - 1];
      WheelMessages(sent[..|sent| - 1]) + (if s.cause.WheelEvent? then [s.message] else [])
  }

  function Turns(inputs: seq<Input>): seq<int> {
    if inputs == [] then []
    else
      var input := inputs[|inputs| - 1];
      Turns(inputs[..|inputs| - 1])
      + (if input.FromHid? && input.event.WheelEvent? then [input.event.direction] else [])
  }

  lemma WheelMessagesSnoc(sent: seq<Sent>, s: Sent)
    ensures WheelMessages(sent + [s]) == WheelMessages(sent) + (if s.cause.WheelEvent? then [s.message] else [])
  {
    assert (sent + [s])[..|sent|] == sent;
  }

  /** Every turn of the wheel sends one message: its controller with the increment or decrement value. */
  lemma {:induction false} WheelRun(cfg: Config, leds: Leds, inputs: seq<Input>)
    requires cfg.Valid() && leds.Valid() && AllOk(inputs)
    ensures var messages, turns := WheelMessages(Run(cfg, Initial(leds), inputs).sent), Turns(inputs);
            && |messages| == |turns|
            && forall k :: 0 <= k < |turns| ==>
                 messages[k] == MidiEvent(ControlChange, cfg.outChannel, cfg.wheelController,
                                          if turns[k] > 0 then cfg.wheelInc else cfg.wheelDec)
  {
    if inputs != [] {
      var earlier, input := inputs[..|inputs| - 1], inputs[|inputs| - 1];
      WheelRun(cfg, leds, earlier);
      var w := Run(cfg, Initial(leds), earlier);
      WheelStep(cfg, w, input);
    }
  }

  lemma WheelStep(cfg: Config, w: World, input: Input)
    requires cfg.Valid() && w.Valid() && input.Ok()
    ensures WheelMessages(Step(cfg, w, input).sent) == WheelMessages(w.sent)
              + (if input.FromHid? && input.event.WheelEvent?
                 then [WheelMessage(cfg, input.event.direction)] else [])
  {
    if input.FromHid? {
      var midi := HidStep(cfg, w.last, w.leds, input.event).midi;
      if midi.Some? { WheelMessagesSnoc(w.sent, Sent(input.event, midi.value)); }
    }
  }

  /** The displays and the report id are those of the start for ever. */
  lemma {:induction false} DisplaysStay(cfg: Config, leds: Leds, inputs: seq<Input>)
    requires cfg.Valid() && leds.Valid() && AllOk(inputs)
    ensures var r := Run(cfg, Initial(leds), inputs).leds;
            r.left == leds.left && r.right == leds.right && r.reportId == leds.reportId
  {
    if inputs != [] {
      DisplaysStay(cfg, leds, inputs[..|inputs| - 1]);
      StepLeavesDisplays(cfg, Run(cfg, Initial(leds), inputs[..|inputs| - 1]), inputs[|inputs| - 1]);
    }
  }

  lemma StepLeavesDisplays(cfg: Config, w: World, input: Input)
    requires cfg.Valid() && w.Valid() && input.Ok()
    ensures var r := Step(cfg, w, input).leds;
            r.left == w.leds.left && r.right == w.leds.right && r.reportId == w.leds.reportId
  {
  }
}
