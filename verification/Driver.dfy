/** The driver's two loops (driver/src/main.cpp) on the device, the mapper and the JACK buffers. */
module Drivers {
  import opened Bits
  import opened MidiEvents
  import opened Controls
  import opened InputReports
  import opened OutputReports
  import opened F1Devices
  import opened Scaling
  import opened IOMapping
  import opened IOMapperRuns
  import opened DriverRuns

  class Driver {
    const device: F1Device
    const mapper: IOMapper
    /** The unread bytes of the JACK input buffer, as one sequence. */
    var unread: seq<byte>
    /** The messages handed to the JACK output buffer. */
    var sent: seq<MidiEvent>
    /** The events processed so far. */
    ghost var history: seq<Input>

    ghost function Repr(): set<object>
      reads this
    {
      {this, device, device.output, device.inReport, device.outReport, mapper}
    }

    /** The mapper and the lights are what the processed events make of them. */
    ghost predicate Linked()
      reads Repr()
    {
      && device.Valid() && mapper.Valid() && LightsInRange(mapper.cfg) && AllOk(history)
      && device.output.leds == WorldOf(mapper.cfg, history).leds
      && mapper.last == WorldOf(mapper.cfg, history).last
      && sent == EncoderRuns.AllMessages(WorldOf(mapper.cfg, history).sent)
    }

    ghost predicate Valid()
      reads Repr()
    {
      Linked() && SevenBit(device.outReport[..])
    }

    ghost function View(): DriverState
      reads Repr()
    {
      DriverState(device.input, unread, history, device.outReport[..])
    }

    constructor (cfg: Config, initial: InputState)
      requires cfg.Valid() && LightsInRange(cfg) && initial.positions.Valid()
      ensures Valid() && fresh(Repr()) && mapper.cfg == cfg
      ensures View() == Start(initial)
    {
      device := new F1Device(initial);
      mapper := new IOMapper(cfg);
      unread, sent, history := [], [], [];
      new;
      WorldInRange(cfg, []);
    }

    /** One HID event: the mapper's memory, the lights and perhaps a message. */
    method ProcessHid(e: InputEvent)
      requires Linked() && e.Valid()
      modifies this`sent, this`history, mapper`last, device.output
      ensures Linked() && history == old(history) + [FromHid(e)]
    {
      ghost var cfg := mapper.cfg;
      ghost var w := WorldOf(cfg, history);
      var midi := mapper.ProcessHidInput(e, device.output);
      if midi.Some? {
        sent := sent + [midi.value];
      }
      RunSnoc(cfg, history, FromHid(e));
      history := history + [FromHid(e)];
      assert sent == EncoderRuns.AllMessages(Record(w.sent, e, midi));
    }

    /** One MIDI event; the result tells whether a button listened to it. */
    method ProcessMidi(e: MidiEvent) returns (changed: bool)
      requires Linked() && e.data2 <= MIDI_MAX
      modifies this`history, device.output
      ensures Linked() && history == old(history) + [FromMidi(e)]
      ensures changed == Listened(mapper.cfg, e)
    {
      changed := mapper.ProcessMidiEvent(e, device.output);
      RunSnoc(mapper.cfg, history, FromMidi(e));
      history := history + [FromMidi(e)];
    }

    /** Fills the report buffer; the range assertions hold because the state is linked to a run. */
    method Write()
      requires Linked()
      modifies device.outReport
      ensures Valid()
      ensures device.outReport[..] == OutReport(WorldOf(mapper.cfg, history).leds)
    {
      WorldInRange(mapper.cfg, history);
      device.UpdateOutReport();
    }

    /** The event handler, called once per event of a report. */
    method ProcessAll(events: seq<InputEvent>)
      requires Linked() && AllOk(HidInputs(events))
      modifies this`sent, this`history, mapper`last, device.output
      ensures Linked() && history == old(history) + HidInputs(events)
    {
      hide WorldOf;
      hide EncoderRuns.AllMessages;
      ghost var before := history;
      for k := 0 to |events|
        invariant Linked()
        invariant history == before + HidInputs(events[..k])
      {
        assert HidInputs(events)[k].Ok();
        ProcessHid(events[k]);
        assert HidInputs(events[..k + 1]) == HidInputs(events[..k]) + [FromHid(events[k])];
      }
      assert events[..|events|] == events;
    }

    /** One round of the input thread. */
    method HandleReport(report: seq<byte>)
      requires Valid() && Report(report).Ok()
      modifies Repr()
      ensures Valid()
      ensures View() == DriverStep(mapper.cfg, old(View()), Report(report))
    {
      EventsAreOk(device.input, report);
      device.ReadEvents(report);
      ProcessAll(device.inputEvents);
      Write();
    }

    /** `*jack >> event`: parses one event and advances the read pointer behind it. */
    method ReadEvent() returns (event: MidiEvent)
      modifies this`unread
      ensures (event, old(unread)[ParseOne(old(unread)).1..]) == (ParseOne(old(unread)).0, unread)
    {
      var next;
      event, next := Parse(unread, 0);
      assert unread[0..] == unread;
      unread := unread[next..];
    }

    /** Reads and processes one event. */
    method ProcessNext() returns (changed: bool)
      requires Linked()
      modifies this`unread, this`history, device.output
      ensures Linked()
      ensures unread == old(unread)[ParseOne(old(unread)).1..]
      ensures history == old(history) + [FromMidi(ParseOne(old(unread)).0)]
      ensures changed == Listened(mapper.cfg, ParseOne(old(unread)).0)
    {
      ParsedEventsAreWellFormed(unread);
      var event := ReadEvent();
      changed := ProcessMidi(event);
    }

    /** One batch of the main loop, of at most limit events; the result is the change flag of its last event. */
    method ProcessBatch(limit: nat) returns (writeHid: bool)
      requires Linked()
      modifies this`unread, this`history, device.output
      ensures Linked()
      ensures unread == Drain(old(unread), limit).1
      ensures history == old(history) + MidiInputs(Drain(old(unread), limit).0)
      ensures writeHid == LastListened(mapper.cfg, Drain(old(unread), limit).0)
    {
      hide ParseOne;
      ghost var all, before := unread, history;
      writeHid := false;
      var i := 0;
      assert before + MidiInputs([]) == before;
      while |unread| > 0 && i < limit
        invariant Linked()
        invariant 0 <= i <= limit
        invariant unread == Drain(all, i).1
        invariant history == before + MidiInputs(Drain(all, i).0)
        invariant writeHid == LastListened(mapper.cfg, Drain(all, i).0)
        decreases limit - i
      {
        MidiInputsSnoc(before, Drain(all, i).0, ParseOne(unread).0);
        writeHid := ProcessNext();
        i := i + 1;
      }
      if |unread| == 0 { DrainIsDone(all, i, limit, Drain(all, i).0); }
    }

    /**
     Bytes arrive, and the main loop runs one batch. The report is written when the last event of the
     batch changed something.
     */
    method HandleMidi(bytes: seq<byte>)
      requires Valid()
      modifies Repr()
      ensures Valid()
      ensures View() == DriverStep(mapper.cfg, old(View()), MidiBytes(bytes))
    {
      unread := unread + bytes;
      DrainedAreOk(unread, BATCH_SIZE);
      var writeHid := ProcessBatch(BATCH_SIZE);
      if writeHid {
        Write();
      }
    }
  }

  lemma MidiInputsSnoc(before: seq<Input>, events: seq<MidiEvent>, event: MidiEvent)
    ensures before + MidiInputs(events + [event]) == (before + MidiInputs(events)) + [FromMidi(event)]
  {
    assert MidiInputs(events + [event]) == MidiInputs(events) + [FromMidi(event)];
  }

  lemma RunSnoc(cfg: Config, history: seq<Input>, input: Input)
    requires cfg.Valid() && AllOk(history) && input.Ok()
    ensures AllOk(history + [input])
    ensures WorldOf(cfg, history + [input]) == Step(cfg, WorldOf(cfg, history), input)
  {
    assert (history + [input])[..|history|] == history;
  }
}
