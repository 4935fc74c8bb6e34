/**
 The mapper of driver/src/tkf1/IOMapper.cpp: configuration, what one HID event or one MIDI event
 does, and the class whose methods do it in place.
 */
module IOMapping {
  import opened Wrappers
  import opened Bits
  import opened MidiEvents
  import opened Controls
  import opened OutputReports
  import opened F1Devices
  import opened Scaling

  /** Who controls a button's light. */
  datatype BrightnessMode = MidiNote | MidiCC | Hid

  datatype Config = Config(
    toggle: PerButton<bool>,
    notes: PerButton<byte>,
    controllers: PerEncoder<byte>,
    wheelController: byte,
    wheelDec: byte,
    wheelInc: byte,
    modes: PerButton<BrightnessMode>,
    matrixControllers: seq<byte>,
    colors: seq<Color>,
    lowColor: Factor,
    highColor: Factor,
    low: byte,
    high: byte,
    outChannel: byte,
    inChannel: byte,
    noteOnVelocity: byte,
    noteOffVelocity: byte)
  {
    predicate Valid() {
      && toggle.Valid() && notes.Valid() && modes.Valid() && controllers.Valid()
      && |matrixControllers| == |colors| == MATRIX_BUTTONS_NUM
    }
  }

  /** The mapper's memory: a latch per button and the last value sent per encoder. */
  datatype LastInput = LastInput(buttons: PerButton<bool>, encoders: PerEncoder<byte>) {
    predicate Valid() {
      buttons.Valid() && encoders.Valid()
    }
  }

  const INITIAL_INPUT := LastInput(
    PerButton(Fill(false, MATRIX_BUTTONS_NUM), Fill(false, SPECIAL_BUTTONS_NUM), Fill(false, STOP_BUTTONS_NUM)),
    PerEncoder(Fill(0, ENCODERS_NUM), Fill(0, ENCODERS_NUM)))

  // ---- HID input ----

  /** The state a button event switches to, if it switches anything. */
  function Switch(toggle: bool, latch: bool, pressed: bool): Option<bool> {
    if toggle then (if pressed then Some(!latch) else None) else Some(pressed)
  }

  function ButtonMessage(cfg: Config, g: ButtonGroup, i: nat, on: bool): MidiEvent
    requires cfg.Valid() && i < g.Size()
  {
    MidiEvent(if on then NoteOn else NoteOff, cfg.outChannel, cfg.notes.Of(g)[i],
              if on then cfg.noteOnVelocity else cfg.noteOffVelocity)
  }

  function EncoderMessage(cfg: Config, g: EncoderGroup, i: nat, value: byte): MidiEvent
    requires cfg.Valid() && i < ENCODERS_NUM
  {
    MidiEvent(ControlChange, cfg.outChannel, cfg.controllers.Of(g)[i], value)
  }

  function WheelMessage(cfg: Config, direction: int): MidiEvent {
    MidiEvent(ControlChange, cfg.outChannel, cfg.wheelController, if direction > 0 then cfg.wheelInc else cfg.wheelDec)
  }

  function HidColor(cfg: Config, i: nat, on: bool): Color
    requires cfg.Valid() && i < MATRIX_BUTTONS_NUM
  {
    var f := if on then cfg.highColor else cfg.lowColor;
    var c := cfg.colors[i];
    Color(DimRounded(f, c.blue), DimRounded(f, c.red), DimRounded(f, c.green))
  }

  function HidLevel(cfg: Config, on: bool): byte {
    if on then cfg.high else cfg.low
  }

  /** Lights a button unless a MIDI mode controls it. */
  function LightHid(cfg: Config, leds: Leds, g: ButtonGroup, i: nat, on: bool): (r: Leds)
    requires cfg.Valid() && leds.Valid() && i < g.Size()
    ensures r.Valid()
  {
    if cfg.modes.Of(g)[i] != Hid then leds
    else match g
      case Matrix => leds.(matrix := leds.matrix[i := HidColor(cfg, i, on)])
      case Special => leds.(special := leds.special[i := HidLevel(cfg, on)])
      case Stop => leds.(stop := leds.stop[i := HidLevel(cfg, on)])
  }

  datatype HidResult = HidResult(last: LastInput, leds: Leds, midi: Option<MidiEvent>)

  function ButtonStep(cfg: Config, last: LastInput, leds: Leds, g: ButtonGroup, i: nat, pressed: bool): (r: HidResult)
    requires cfg.Valid() && last.Valid() && leds.Valid() && i < g.Size()
  {
    match Switch(cfg.toggle.Of(g)[i], last.buttons.Of(g)[i], pressed)
    case None => HidResult(last, leds, None)
    case Some(on) =>
      HidResult(
        last.(buttons := With(last.buttons, g, last.buttons.Of(g)[i := on])),
        LightHid(cfg, leds, g, i, on),
        Some(ButtonMessage(cfg, g, i, on)))
  }

  function EncoderStep(cfg: Config, last: LastInput, leds: Leds, g: EncoderGroup, i: nat, value: uint16): HidResult
    requires cfg.Valid() && last.Valid() && i < ENCODERS_NUM
  {
    var v := ScaleEncoder(value);
    if v == last.encoders.Of(g)[i] then HidResult(last, leds, None)
    else HidResult(
      last.(encoders := WithEncoders(last.encoders, g, last.encoders.Of(g)[i := v])),
      leds,
      Some(EncoderMessage(cfg, g, i, v)))
  }

  function HidStep(cfg: Config, last: LastInput, leds: Leds, e: InputEvent): (r: HidResult)
    requires cfg.Valid() && last.Valid() && leds.Valid() && e.Valid()
    ensures r.last.Valid() && r.leds.Valid()
  {
    match e
    case ButtonEvent(g, i, pressed) => ButtonStep(cfg, last, leds, g, i, pressed)
    case EncoderEvent(g, i, value) => EncoderStep(cfg, last, leds, g, i, value)
    case WheelEvent(direction, _) => HidResult(last, leds, Some(WheelMessage(cfg, direction)))
  }

  // ---- MIDI input: only matrix buttons listen ----

  predicate Matches(cfg: Config, i: nat, e: MidiEvent)
    requires cfg.Valid() && i < MATRIX_BUTTONS_NUM
  {
    && e.channel == cfg.inChannel
    && match cfg.modes.Of(Matrix)[i]
       case Hid => false
       case MidiCC => e.kind == ControlChange && e.data1 == cfg.matrixControllers[i]
       case MidiNote => (e.kind == NoteOn || e.kind == NoteOff) && e.data1 == cfg.notes.Of(Matrix)[i]
  }

  function MidiFactor(cfg: Config, e: MidiEvent): Factor
    requires e.data2 <= MIDI_MAX
  {
    if e.kind == ControlChange then ControllerFactor(e.data2)
    else if e.kind == NoteOn then cfg.highColor
    else cfg.lowColor
  }

  function MidiColor(cfg: Config, i: nat, e: MidiEvent): Color
    requires cfg.Valid() && i < MATRIX_BUTTONS_NUM && e.data2 <= MIDI_MAX
  {
    var f := MidiFactor(cfg, e);
    var c := cfg.colors[i];
    Color(DimTruncated(f, c.blue), DimTruncated(f, c.red), DimTruncated(f, c.green))
  }

  function MatrixAfter(cfg: Config, leds: Leds, e: MidiEvent, n: nat): (m: seq<Color>)
    requires cfg.Valid() && leds.Valid() && e.data2 <= MIDI_MAX && n <= MATRIX_BUTTONS_NUM
    ensures |m| == MATRIX_BUTTONS_NUM
  {
    seq(MATRIX_BUTTONS_NUM, i requires 0 <= i < MATRIX_BUTTONS_NUM =>
      if i < n && Matches(cfg, i, e) then MidiColor(cfg, i, e) else leds.matrix[i])
  }

  function MidiStep(cfg: Config, leds: Leds, e: MidiEvent): (r: Leds)
    requires cfg.Valid() && leds.Valid() && e.data2 <= MIDI_MAX
    ensures r.Valid()
  {
    leds.(matrix := MatrixAfter(cfg, leds, e, MATRIX_BUTTONS_NUM))
  }

  // ---- The class ----

  class IOMapper {
    const cfg: Config
    var last: LastInput

    ghost predicate Valid()
      reads this
    {
      cfg.Valid() && last.Valid()
    }

    constructor (cfg: Config)
      requires cfg.Valid()
      ensures Valid() && this.cfg == cfg && last == INITIAL_INPUT
    {
      this.cfg := cfg;
      last := INITIAL_INPUT;
    }

    method ProcessButton(g: ButtonGroup, i: nat, pressed: bool) returns (midi: Option<MidiEvent>, on: bool)
      requires Valid() && i < g.Size()
      modifies this`last
      ensures Valid() && last.encoders == old(last.encoders)
      ensures match Switch(cfg.toggle.Of(g)[i], old(last.buttons.Of(g)[i]), pressed)
              case None => midi == None && last == old(last)
              case Some(s) =>
                && on == s && midi == Some(ButtonMessage(cfg, g, i, s))
                && last.buttons == With(old(last.buttons), g, old(last.buttons.Of(g))[i := s])
    {
      var latch := last.buttons.Of(g);
      if cfg.toggle.Of(g)[i] && pressed {
        var kind := if latch[i] then NoteOff else NoteOn;
        latch := latch[i := !latch[i]];
        last := last.(buttons := With(last.buttons, g, latch));
        var velocity := if kind == NoteOn then cfg.noteOnVelocity else cfg.noteOffVelocity;
        return Some(MidiEvent(kind, cfg.outChannel, cfg.notes.Of(g)[i], velocity)), latch[i];
      }
      if cfg.toggle.Of(g)[i] && !pressed {
        return None, false;
      }
      var kind := if pressed then NoteOn else NoteOff;
      latch := latch[i := pressed];
      last := last.(buttons := With(last.buttons, g, latch));
      var velocity := if kind == NoteOn then cfg.noteOnVelocity else cfg.noteOffVelocity;
      return Some(MidiEvent(kind, cfg.outChannel, cfg.notes.Of(g)[i], velocity)), pressed;
    }

    method ProcessEncoder(g: EncoderGroup, i: nat, value: uint16) returns (midi: Option<MidiEvent>)
      requires Valid() && i < ENCODERS_NUM
      modifies this`last
      ensures Valid()
      ensures forall leds :: EncoderStep(cfg, old(last), leds, g, i, value) == HidResult(last, leds, midi)
    {
      var v := ScaleEncoder(value);
      if v == last.encoders.Of(g)[i] {
        return None;
      }
      last := last.(encoders := WithEncoders(last.encoders, g, last.encoders.Of(g)[i := v]));
      return Some(MidiEvent(ControlChange, cfg.outChannel, cfg.controllers.Of(g)[i], v));
    }

    method ButtonLight(output: OutputState, g: ButtonGroup, i: nat, on: bool)
      requires Valid() && output.leds.Valid() && i < g.Size()
      modifies output
      ensures output.leds == LightHid(cfg, old(output.leds), g, i, on)
    {
      if cfg.modes.Of(g)[i] != Hid {
        return;
      }
      match g {
        case Matrix =>
          var brightness := if on then cfg.highColor else cfg.lowColor;
          var c := cfg.colors[i];
          var red, green := DimRounded(brightness, c.red), DimRounded(brightness, c.green);
          var blue := DimRounded(brightness, c.blue);
          output.leds := output.leds.(matrix := output.leds.matrix[i := Color(blue, red, green)]);
        case Special =>
          output.leds := output.leds.(special := output.leds.special[i := if on then cfg.high else cfg.low]);
        case Stop =>
          output.leds := output.leds.(stop := output.leds.stop[i := if on then cfg.high else cfg.low]);
      }
    }

    method ProcessHidInput(e: InputEvent, output: OutputState) returns (midi: Option<MidiEvent>)
      requires Valid() && output.leds.Valid() && e.Valid()
      modifies this`last, output
      ensures Valid()
      ensures HidStep(cfg, old(last), old(output.leds), e) == HidResult(last, output.leds, midi)
    {
      match e {
        case ButtonEvent(g, i, pressed) =>
          var on;
          midi, on := ProcessButton(g, i, pressed);
          if midi.Some? {
            ButtonLight(output, g, i, on);
          }
        case EncoderEvent(g, i, value) =>
          midi := ProcessEncoder(g, i, value);
        case WheelEvent(direction, _) =>
          midi := Some(MidiEvent(ControlChange, cfg.outChannel, cfg.wheelController,
                                 if direction > 0 then cfg.wheelInc else cfg.wheelDec));
      }
    }

    method ProcessButtonCC(e: MidiEvent, output: OutputState, i: nat) returns (changed: bool)
      requires Valid() && output.leds.Valid() && i < MATRIX_BUTTONS_NUM && e.data2 <= MIDI_MAX
      requires e.channel == cfg.inChannel && cfg.modes.Of(Matrix)[i] == MidiCC
      modifies output
      ensures changed == Matches(cfg, i, e)
      ensures output.leds == old(output.leds).(matrix :=
                if changed then old(output.leds).matrix[i := MidiColor(cfg, i, e)] else old(output.leds).matrix)
    {
      if e.kind != ControlChange {
        return false;
      }
      if e.data1 != cfg.matrixControllers[i] {
        return false;
      }
      var brightness := ControllerFactor(e.data2);
      var c := cfg.colors[i];
      var red, green := DimTruncated(brightness, c.red), DimTruncated(brightness, c.green);
      var blue := DimTruncated(brightness, c.blue);
      output.leds := output.leds.(matrix := output.leds.matrix[i := Color(blue, red, green)]);
      return true;
    }

    method ProcessButtonNote(e: MidiEvent, output: OutputState, i: nat) returns (changed: bool)
      requires Valid() && output.leds.Valid() && i < MATRIX_BUTTONS_NUM && e.data2 <= MIDI_MAX
      requires e.channel == cfg.inChannel && cfg.modes.Of(Matrix)[i] == MidiNote
      modifies output
      ensures changed == Matches(cfg, i, e)
      ensures output.leds == old(output.leds).(matrix :=
                if changed then old(output.leds).matrix[i := MidiColor(cfg, i, e)] else old(output.leds).matrix)
    {
      if e.kind != NoteOn && e.kind != NoteOff {
        return false;
      }
      if e.data1 != cfg.notes.Of(Matrix)[i] {
        return false;
      }
      var brightness := if e.kind == NoteOn then cfg.highColor else cfg.lowColor;
      var c := cfg.colors[i];
      var red, green := DimTruncated(brightness, c.red), DimTruncated(brightness, c.green);
      var blue := DimTruncated(brightness, c.blue);
      output.leds := output.leds.(matrix := output.leds.matrix[i := Color(blue, red, green)]);
      return true;
    }

    /** The result tells whether any button listened to the event. */
    method ProcessMidiEvent(e: MidiEvent, output: OutputState) returns (changed: bool)
      requires Valid() && output.leds.Valid() && e.data2 <= MIDI_MAX
      modifies output
      ensures output.leds == MidiStep(cfg, old(output.leds), e)
      ensures changed <==> exists i: nat :: i < MATRIX_BUTTONS_NUM && Matches(cfg, i, e)
      ensures !changed <==>
              forall i: nat :: i < MATRIX_BUTTONS_NUM && e.channel == cfg.inChannel ==>
                && (cfg.modes.Of(Matrix)[i] == MidiNote && (e.kind == NoteOn || e.kind == NoteOff) ==>
                      e.data1 != cfg.notes.Of(Matrix)[i])
                && (cfg.modes.Of(Matrix)[i] == MidiCC && e.kind == ControlChange ==>
                      e.data1 != cfg.matrixControllers[i])
      ensures !changed ==> output.leds == old(output.leds)
    {
      ghost var before := output.leds;
      assert forall i: nat :: i < MATRIX_BUTTONS_NUM ==>
        (Matches(cfg, i, e) <==>
           && e.channel == cfg.inChannel
           && ((cfg.modes.Of(Matrix)[i] == MidiNote && (e.kind == NoteOn || e.kind == NoteOff)
                && e.data1 == cfg.notes.Of(Matrix)[i])
               || (cfg.modes.Of(Matrix)[i] == MidiCC && e.kind == ControlChange
                   && e.data1 == cfg.matrixControllers[i])));
      if e.channel != cfg.inChannel {
        assert output.leds.matrix == MatrixAfter(cfg, before, e, MATRIX_BUTTONS_NUM);
        return false;
      }
      changed := false;
      assert before.matrix == MatrixAfter(cfg, before, e, 0);
      for i := 0 to MATRIX_BUTTONS_NUM
        invariant output.leds == before.(matrix := MatrixAfter(cfg, before, e, i))
        invariant changed <==> exists k: nat :: k < i && Matches(cfg, k, e)
      {
        var c := false;
        match cfg.modes.Of(Matrix)[i] {
          case Hid =>
          case MidiCC => c := ProcessButtonCC(e, output, i);
          case MidiNote => c := ProcessButtonNote(e, output, i);
        }
        changed := changed || c;
        assert output.leds.matrix == MatrixAfter(cfg, before, e, i + 1);
      }
      if !changed {
        assert before.matrix == MatrixAfter(cfg, before, e, MATRIX_BUTTONS_NUM);
      }
    }
  }
}
