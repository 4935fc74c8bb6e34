/**
 From end to end of the driver: from the bits of the device's reports to the bytes sent back to it, and
 from the bytes on the MIDI input to the same place.
 */
module DriverLights {
  import opened Bits
  import opened MidiEvents
  import opened Controls
  import opened InputReports
  import opened OutputReports
  import opened Scaling
  import opened IOMapping
  import opened IOMapperRuns
  import opened DriverRuns

  // ---- The events processed are those of the reports ----

  /** The reports among the stimuli, and the HID events among the inputs. */
  function Reports(stimuli: seq<Stimulus>): (reports: seq<seq<byte>>)
    requires AllStimuliOk(stimuli)
    ensures forall r :: r in reports ==> IsReport(r)
  {
    if stimuli == [] then []
    else
      var last := stimuli[|stimuli| - 1];
      Reports(stimuli[..|stimuli| - 1]) + (if last.Report? then [last.report] else [])
  }

  function HidPart(history: seq<Input>): seq<InputEvent> {
    if history == [] then []
    else
      var input := history[|history| - 1];
      HidPart(history[..|history| - 1]) + (if input.FromHid? then [input.event] else [])
  }

  lemma {:induction false} HidPartAppendHid(history: seq<Input>, events: seq<InputEvent>)
    ensures HidPart(history + HidInputs(events)) == HidPart(history) + events
    decreases |events|
  {
    var more := HidInputs(events);
    if events == [] {
      assert history + more == history;
    } else {
      var fewer, last := events[..|events| - 1], events[|events| - 1];
      HidPartAppendHid(history, fewer);
      assert (history + more)[..|history + more| - 1] == history + HidInputs(fewer);
      assert (history + more)[|history + more| - 1] == FromHid(last);
      assert HidPart(history) + events == (HidPart(history) + fewer) + [last];
    }
  }

  lemma {:induction false} HidPartAppendMidi(history: seq<Input>, events: seq<MidiEvent>)
    ensures HidPart(history + MidiInputs(events)) == HidPart(history)
    decreases |events|
  {
    var more := MidiInputs(events);
    if events == [] {
      assert history + more == history;
    } else {
      var fewer := events[..|events| - 1];
      HidPartAppendMidi(history, fewer);
      assert (history + more)[..|history + more| - 1] == history + MidiInputs(fewer);
    }
  }

  /** The driver handles exactly the events of the reports, in order, whatever MIDI comes between them. */
  lemma {:induction false} HistoryIsEventsOfReports(cfg: Config, input: InputState, stimuli: seq<Stimulus>)
    requires cfg.Valid() && input.positions.Valid() && AllStimuliOk(stimuli)
    ensures var s := DriverRun(cfg, Start(input), stimuli);
            s.input == StateAfter(input, Reports(stimuli)) && HidPart(s.history) == EventsOver(input, Reports(stimuli))
  {
    if stimuli != [] {
      hide Events;
      hide Drain;
      hide NextState;
      hide Run;
      hide HidPart;
      hide StateAfter;
      hide EventsOver;
      var earlier, last := stimuli[..|stimuli| - 1], stimuli[|stimuli| - 1];
      HistoryIsEventsOfReports(cfg, input, earlier);
      var s := DriverRun(cfg, Start(input), earlier);
      match last {
        case Report(report) =>
          HidPartAppendHid(s.history, Events(s.input.positions, NextState(s.input, report).positions));
          OneMoreReport(input, Reports(earlier), report);
        case MidiBytes(bytes) =>
          HidPartAppendMidi(s.history, Drain(s.unread + bytes, BATCH_SIZE).0);
          assert Reports(earlier) + [] == Reports(earlier);
      }
    } else {
      assert StateAfter(input, []) == input && EventsOver(input, []) == [];
    }
  }

  lemma OneMoreReport(input: InputState, reports: seq<seq<byte>>, report: seq<byte>)
    requires input.positions.Valid() && IsReport(report) && forall r :: r in reports ==> IsReport(r)
    ensures var before, more := StateAfter(input, reports), reports + [report];
            && StateAfter(input, more) == NextState(before, report)
            && EventsOver(input, more)
               == EventsOver(input, reports) + Events(before.positions, NextState(before, report).positions)
  {
    hide Events;
    hide NextState;
    assert (reports + [report])[..|reports|] == reports;
  }

  /** Replaying HID events moves a button to where its last gesture left it. */
  lemma {:induction false} LastGestureReplayed(p: Positions, history: seq<Input>, g: ButtonGroup, i: nat)
    requires p.Valid() && AllOk(history) && i < g.Size()
    ensures var r, gestures := Replay(p, HidPart(history)), Gestures(history, g, i);
            && r.Valid()
            && r.buttons.Of(g)[i] == if gestures == [] then p.buttons.Of(g)[i] else gestures[|gestures| - 1]
  {
    if history != [] {
      var earlier, input := history[..|history| - 1], history[|history| - 1];
      LastGestureReplayed(p, earlier, g, i);
      if input.FromHid? {
        var events := HidPart(earlier);
        assert (events + [input.event])[..|events|] == events;
        assert Replay(p, HidPart(history)) == Apply(Replay(p, events), input.event);
        ApplyButton(Replay(p, events), input.event, g, i);
      } else {
        assert HidPart(history) == HidPart(earlier);
      }
    }
  }

  lemma ApplyButton(p: Positions, e: InputEvent, g: ButtonGroup, i: nat)
    requires p.Valid() && e.Valid() && i < g.Size()
    ensures Apply(p, e).Valid()
    ensures Apply(p, e).buttons.Of(g)[i] == if IsButton(e, g, i) then e.pressed else p.buttons.Of(g)[i]
  {
    var r := Apply(p, e);
    forall h: ButtonGroup ensures |r.buttons.Of(h)| == h.Size() {
      assert |p.buttons.Of(h)| == h.Size();
    }
  }

  /** The last gesture of a button is its position in the last report. */
  lemma LastGestureIsPosition(cfg: Config, input: InputState, stimuli: seq<Stimulus>, g: ButtonGroup, i: nat)
    requires cfg.Valid() && input.positions.Valid() && AllStimuliOk(stimuli) && i < g.Size()
    ensures var s := DriverRun(cfg, Start(input), stimuli);
            var gestures := Gestures(s.history, g, i);
            s.input.positions.buttons.Of(g)[i]
              == if gestures == [] then input.positions.buttons.Of(g)[i] else gestures[|gestures| - 1]
  {
    hide DriverStep;
    hide Replay;
    hide Gestures;
    HistoryIsEventsOfReports(cfg, input, stimuli);
    ReplayOverRun(input, Reports(stimuli));
    LastGestureReplayed(input.positions, DriverRun(cfg, Start(input), stimuli).history, g, i);
  }

  // ---- From the bits of a report to the bytes sent back ----

  /** The colour of a matrix button in an output report. */
  function ColorAt(report: seq<byte>, i: nat): Color
    requires |report| == OUTPUT_REPORT_SIZE && i < MATRIX_BUTTONS_NUM
  {
    Color(report[0x19 + 3 * i], report[0x1a + 3 * i], report[0x1b + 3 * i])
  }

  /** A report shows a button as configured, switched on or off. The wheel has no light. */
  predicate ReportShows(cfg: Config, report: seq<byte>, g: ButtonGroup, i: nat, on: bool)
    requires cfg.Valid() && |report| == OUTPUT_REPORT_SIZE && i < g.Size()
  {
    match g
    case Matrix => Rounded(ColorAt(report, i), if on then cfg.highColor else cfg.lowColor, cfg.colors[i])
    case Special => i > 0 ==> report[0x10 + i] == if on then cfg.high else cfg.low
    case Stop => report[0x49 + 2 * (3 - i)] == report[0x4a + 2 * (3 - i)] == if on then cfg.high else cfg.low
  }

  predicate ReportShowsDark(report: seq<byte>, g: ButtonGroup, i: nat)
    requires |report| == OUTPUT_REPORT_SIZE && i < g.Size()
  {
    match g
    case Matrix => ColorAt(report, i) == Color(0, 0, 0)
    case Special => i > 0 ==> report[0x10 + i] == 0
    case Stop => report[0x49 + 2 * (3 - i)] == report[0x4a + 2 * (3 - i)] == 0
  }

  lemma ReadLight(cfg: Config, leds: Leds, g: ButtonGroup, i: nat)
    requires cfg.Valid() && leds.Valid() && i < g.Size()
    ensures forall on :: ShowsConfigured(cfg, leds, g, i, on) ==> ReportShows(cfg, OutReport(leds), g, i, on)
    ensures Light(leds, g, i) == Color(0, 0, 0) ==> ReportShowsDark(OutReport(leds), g, i)
  {
    match g {
      case Matrix => ReadMatrix(leds, i);
      case Special => if i > 0 { ReadSpecial(leds, i); }
      case Stop => ReadStop(leds, 3 - i);
    }
  }

  /** After a report of any device the driver sends the lights of all events so far, those of this report too. */
  lemma ReportIsFresh(cfg: Config, input: InputState, stimuli: seq<Stimulus>)
    requires cfg.Valid() && input.positions.Valid() && AllStimuliOk(stimuli)
    requires stimuli != [] && stimuli[|stimuli| - 1].Report?
    ensures var s := DriverRun(cfg, Start(input), stimuli);
            s.report == OutReport(WorldOf(cfg, s.history).leds) && s.report[0] == 0x80
  {
    hide Run;
    hide Events;
    hide Drain;
    DisplaysStay(cfg, DARK_LEDS, DriverRun(cfg, Start(input), stimuli).history);
  }

  /**
   Whatever MIDI bytes and other controls come between, every report from the device is answered with a
   report in which each HID-mode button shows its last message: dark before any, and then the configured
   light for NOTE_ON or NOTE_OFF, at the button's place.
   */
  lemma AnswerShowsButton(cfg: Config, input: InputState, stimuli: seq<Stimulus>, g: ButtonGroup, i: nat)
    requires cfg.Valid() && input.positions.Valid() && AllStimuliOk(stimuli) && i < g.Size()
    requires stimuli != [] && stimuli[|stimuli| - 1].Report? && cfg.modes.Of(g)[i] == Hid
    ensures var s := DriverRun(cfg, Start(input), stimuli);
            var messages := Messages(WorldOf(cfg, s.history).sent, g, i);
            && |s.report| == OUTPUT_REPORT_SIZE
            && if messages == [] then ReportShowsDark(s.report, g, i)
               else ReportShows(cfg, s.report, g, i, messages[|messages| - 1].kind == NoteOn)
  {
    hide DriverRun;
    hide Run;
    hide Messages;
    hide OutReport;
    hide ShowsConfigured;
    hide ReportShows;
    hide ReportShowsDark;
    hide HidLight;
    var s := DriverRun(cfg, Start(input), stimuli);
    var w := WorldOf(cfg, s.history);
    ReportIsFresh(cfg, input, stimuli);
    LightFollowsMessages(cfg, DARK_LEDS, s.history, g, i);
    ReadLight(cfg, w.leds, g, i);
  }

  /**
   For a button that does not toggle, this means its position in the report just read: pressed or
   released since it first differed from what memory held at the start.
   */
  lemma AnswerShowsPosition(cfg: Config, input: InputState, stimuli: seq<Stimulus>, g: ButtonGroup, i: nat)
    requires cfg.Valid() && input.positions.Valid() && AllStimuliOk(stimuli) && i < g.Size()
    requires stimuli != [] && stimuli[|stimuli| - 1].Report? && cfg.modes.Of(g)[i] == Hid && !cfg.toggle.Of(g)[i]
    ensures var s := DriverRun(cfg, Start(input), stimuli);
            var now := s.input.positions.buttons.Of(g)[i];
            && |s.report| == OUTPUT_REPORT_SIZE
            && (ReportShows(cfg, s.report, g, i, now)
                || (ReportShowsDark(s.report, g, i) && now == input.positions.buttons.Of(g)[i]))
  {
    hide DriverRun;
    hide Run;
    hide Messages;
    hide Gestures;
    hide ReportShows;
    hide ReportShowsDark;
    AnswerShowsButton(cfg, input, stimuli, g, i);
    LastGestureIsPosition(cfg, input, stimuli, g, i);
    MomentaryMessages(cfg, DARK_LEDS, DriverRun(cfg, Start(input), stimuli).history, g, i);
  }

  // ---- From the bytes of a MIDI message to the bytes sent to the device ----

  /** A batch takes everything that is unread if that is less than a full batch. */
  lemma SmallBatchTakesAll(unread: seq<byte>)
    requires |ParseAll(unread)| < 1024
    ensures Drain(unread, BATCH_SIZE) == (ParseAll(unread), [])
  {
    hide ParseAll;
    hide Drain;
    var (events, rest) := Drain(unread, BATCH_SIZE);
    DrainTakesPrefix(unread, BATCH_SIZE);
    assert |events| < BATCH_SIZE && rest == [];
    ParseAllOfNothing();
    assert events + [] == events;
  }

  lemma OneMoreHeard(cfg: Config, history: seq<Input>, e: MidiEvent)
    requires cfg.Valid() && AllOk(history) && e.data2 <= MIDI_MAX
    ensures history + MidiInputs([e]) == history + [FromMidi(e)] && AllOk(history + [FromMidi(e)])
    ensures WorldOf(cfg, history + [FromMidi(e)]).leds == MidiStep(cfg, WorldOf(cfg, history).leds, e)
  {
    assert (history + [FromMidi(e)])[..|history|] == history;
  }

  /** One message arrives with nothing unread: it is handled, and the report is written if a button listened. */
  lemma OneMessageArrives(cfg: Config, s: DriverState, bytes: seq<byte>, e: MidiEvent)
    requires cfg.Valid() && s.Valid() && s.unread == [] && ParseAll(bytes) == [e] && e.data2 <= MIDI_MAX
    ensures var t, leds := DriverStep(cfg, s, MidiBytes(bytes)), MidiStep(cfg, WorldOf(cfg, s.history).leds, e);
            && t.unread == [] && WorldOf(cfg, t.history).leds == leds
            && t.report == if Listened(cfg, e) then OutReport(leds) else s.report
  {
    hide ParseAll;
    hide Drain;
    hide Run;
    hide MidiStep;
    hide Listened;
    assert s.unread + bytes == bytes;
    SmallBatchTakesAll(bytes);
    OneMoreHeard(cfg, s.history, e);
  }

  /** The three bytes of a message, by their numbers. */
  lemma ThreeBytes(status: byte, x: byte, y: byte)
    requires 128 <= status && x < 128 && y < 128
    ensures |ParseAll([status, x, y])| == 1
    ensures var e := ParseAll([status, x, y])[0];
            && HasKindOf(e.kind, status) && e.channel == status % 16
            && (status < 0xf0 ==> e.data1 == x && e.data2 == y)
  {
    hide ParseAll;
    assert [status, x, y] == [status] + [x, y];
    ParsedBytes(status, [x, y]);
  }

  /** What a matrix button shows after a message has been handled and written. */
  function ColorAfter(cfg: Config, s: DriverState, bytes: seq<byte>, i: nat): Color
    requires cfg.Valid() && s.Valid() && i < MATRIX_BUTTONS_NUM
    requires |s.report| == OUTPUT_REPORT_SIZE
  {
    ColorAt(DriverStep(cfg, s, MidiBytes(bytes)).report, i)
  }

  lemma MessageSetsColor(cfg: Config, s: DriverState, status: byte, x: byte, y: byte, i: nat) returns (e: MidiEvent)
    requires cfg.Valid() && s.Valid() && |s.report| == OUTPUT_REPORT_SIZE && s.unread == []
    requires 128 <= status < 0xf0 && x < 128 && y < 128 && i < MATRIX_BUTTONS_NUM
    ensures HasKindOf(e.kind, status) && e.channel == status % 16 && e.data1 == x && e.data2 == y
    ensures Matches(cfg, i, e) ==>
              ColorAfter(cfg, s, [status, x, y], i) == MidiStep(cfg, WorldOf(cfg, s.history).leds, e).matrix[i]
  {
    hide ParseAll;
    hide DriverStep;
    hide OutReport;
    hide MidiStep;
    hide Run;
    hide Matches;
    ThreeBytes(status, x, y);
    e := ParseAll([status, x, y])[0];
    assert ParseAll([status, x, y]) == [e];
    OneMessageArrives(cfg, s, [status, x, y], e);
    if Matches(cfg, i, e) { ReadMatrix(MidiStep(cfg, WorldOf(cfg, s.history).leds, e), i); }
  }

  /**
   Byte for byte: after any run that left nothing unread, a note on, a note off or a control change on the
   input channel makes the next output report show the button that listens to it, dimmed by the high or
   low factor or by the controller's value.
   */
  lemma MidiBytesReachDevice(cfg: Config, input: InputState, stimuli: seq<Stimulus>, i: nat, y: byte)
    requires cfg.Valid() && input.positions.Valid() && AllStimuliOk(stimuli) && cfg.inChannel < 16
    requires i < MATRIX_BUTTONS_NUM && cfg.notes.Of(Matrix)[i] < 128 && cfg.matrixControllers[i] < 128 && y < 128
    requires DriverRun(cfg, Start(input), stimuli).unread == []
    ensures var s, full := DriverRun(cfg, Start(input), stimuli), cfg.colors[i];
            var note, control := cfg.notes.Of(Matrix)[i], cfg.matrixControllers[i];
            && |s.report| == OUTPUT_REPORT_SIZE
            && (cfg.modes.Of(Matrix)[i] == MidiNote ==>
                  && Truncated(ColorAfter(cfg, s, [0x90 + cfg.inChannel, note, y], i), cfg.highColor, full)
                  && Truncated(ColorAfter(cfg, s, [0x80 + cfg.inChannel, note, y], i), cfg.lowColor, full))
            && (cfg.modes.Of(Matrix)[i] == MidiCC ==>
                  Truncated(ColorAfter(cfg, s, [0xb0 + cfg.inChannel, control, y], i), y as real / 127.0, full))
  {
    hide DriverStep;
    hide ColorAfter;
    hide ParseAll;
    hide MidiStep;
    hide Truncated;
    hide Run;
    ReportHasSize(cfg, input, stimuli);
    var s := DriverRun(cfg, Start(input), stimuli);
    var leds := WorldOf(cfg, s.history).leds;
    var note, control := cfg.notes.Of(Matrix)[i], cfg.matrixControllers[i];
    var on := MessageSetsColor(cfg, s, 0x90 + cfg.inChannel, note, y, i);
    MatrixButtonListens(cfg, leds, on, i);
    var off := MessageSetsColor(cfg, s, 0x80 + cfg.inChannel, note, y, i);
    MatrixButtonListens(cfg, leds, off, i);
    var change := MessageSetsColor(cfg, s, 0xb0 + cfg.inChannel, control, y, i);
    MatrixButtonListens(cfg, leds, change, i);
  }

  lemma {:induction false} ReportHasSize(cfg: Config, input: InputState, stimuli: seq<Stimulus>)
    requires cfg.Valid() && input.positions.Valid() && AllStimuliOk(stimuli)
    ensures |DriverRun(cfg, Start(input), stimuli).report| == OUTPUT_REPORT_SIZE
  {
    if stimuli != [] {
      hide Events;
      hide Drain;
      hide Run;
      ReportHasSize(cfg, input, stimuli[..|stimuli| - 1]);
    }
  }

  // ---- When a batch is flushed ----

  /**
   A batch is written to the device exactly if its last event found a listener. So from an up-to-date
   report the next one is up to date exactly if that is so or the lights look the same as before.
   */
  lemma BatchIsFlushedIff(cfg: Config, s: DriverState, bytes: seq<byte>)
    requires cfg.Valid() && s.Valid() && s.report == OutReport(WorldOf(cfg, s.history).leds)
    ensures var t := DriverStep(cfg, s, MidiBytes(bytes));
            t.report == OutReport(WorldOf(cfg, t.history).leds) <==>
              || LastListened(cfg, Drain(s.unread + bytes, BATCH_SIZE).0)
              || LookAlike(WorldOf(cfg, s.history).leds, WorldOf(cfg, t.history).leds)
  {
    hide Drain;
    hide OutReport;
    hide LastListened;
    hide LookAlike;
    hide Run;
    var t := DriverStep(cfg, s, MidiBytes(bytes));
    ReportShowsLights(WorldOf(cfg, s.history).leds, WorldOf(cfg, t.history).leds);
  }

  /** A note that a button listens to, and in the same batch a message that none does: the change stays unseen. */
  lemma ChangeIsNotFlushed(input: InputState)
    requires input.positions.Valid()
    ensures LIT_BY_NOTES.Valid()
    ensures var t := DriverStep(LIT_BY_NOTES, Start(input), MidiBytes([0x90, 1, 127] + [0xe0, 0, 0]));
            && t.unread == []
            && WorldOf(LIT_BY_NOTES, t.history).leds.matrix[0] == Color(127, 127, 127)
            && t.report == OutReport(DARK_LEDS)
  {
    hide ParseAll;
    hide Drain;
    hide OutReport;
    StopButtonStaysDark();
    var on, bend := [0x90, 1, 127], [0xe0, 0, 0];
    ThreeBytes(0x90, 1, 127);
    ThreeBytes(0xe0, 0, 0);
    var d, e := ParseAll(on)[0], ParseAll(bend)[0];
    BothParsed(on, bend);
    assert [] + (on + bend) == on + bend;
    SmallBatchTakesAll(on + bend);
    assert ParseAll(on + bend) == [d, e];
    TwoHeard(LIT_BY_NOTES, d, e);
    DimEnds(1.0, 127);
    assert !Listened(LIT_BY_NOTES, e);
  }

  lemma BothParsed(a: seq<byte>, b: seq<byte>)
    requires StartsWithStatus(a) && StartsWithStatus(b)
    ensures ParseAll(a + b) == ParseAll(a) + ParseAll(b)
  {
    ParseAllAppend(a, b);
  }

  lemma TwoHeard(cfg: Config, d: MidiEvent, e: MidiEvent)
    requires cfg.Valid() && d.data2 <= MIDI_MAX && e.data2 <= MIDI_MAX
    ensures AllOk(MidiInputs([d, e])) && [] + MidiInputs([d, e]) == MidiInputs([d, e])
    ensures WorldOf(cfg, MidiInputs([d, e])).leds == MidiStep(cfg, MidiStep(cfg, DARK_LEDS, d), e)
  {
    hide MidiStep;
    OneMoreHeard(cfg, [], d);
    OneMoreHeard(cfg, [FromMidi(d)], e);
    assert [] + [FromMidi(d)] == [FromMidi(d)];
    assert MidiInputs([d, e]) == [FromMidi(d)] + [FromMidi(e)];
    assert WorldOf(cfg, []).leds == DARK_LEDS;
  }
}
