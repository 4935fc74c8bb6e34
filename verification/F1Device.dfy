/** The device class of driver/src/tkf1/F1Device.cpp: its buffers, its states and its loops. */
module F1Devices {
  import opened Bits
  import opened Changes
  import opened Controls
  import opened InputReports
  import opened OutputReports

  /** The output state the device hands out by reference. */
  class OutputState {
    var leds: Leds

    constructor ()
      ensures leds == DARK_LEDS
    {
      leds := DARK_LEDS;
    }
  }

  class F1Device {
    var input: InputState
    var oldInput: InputState
    const output: OutputState
    const inReport: array<byte>
    const outReport: array<byte>
    var inputEvents: seq<InputEvent>

    ghost predicate Valid()
      reads this, output
    {
      && inReport.Length == INPUT_REPORT_SIZE
      && outReport.Length == OUTPUT_REPORT_SIZE
      && inReport != outReport
      && input.positions.Valid()
      && oldInput.positions.Valid()
      && output.leds.Valid()
    }

    /** The input state of a new device is whatever the memory holds. */
    constructor (initial: InputState)
      requires initial.positions.Valid()
      ensures Valid() && fresh(output) && fresh(inReport) && fresh(outReport)
      ensures input == oldInput == initial
      ensures output.leds == DARK_LEDS && outReport[..] == OutReport(DARK_LEDS)
    {
      input, oldInput, inputEvents := initial, initial, [];
      output := new OutputState();
      inReport := new byte[INPUT_REPORT_SIZE](_ => 0);
      outReport := new byte[OUTPUT_REPORT_SIZE](_ => 0);
      new;
      UpdateOutReport();
    }

    // ---- Input ----

    method ReadMatrix() returns (matrix: seq<bool>)
      requires Valid()
      ensures matrix == Decode(inReport[..]).positions.buttons.matrix
    {
      matrix := input.positions.buttons.matrix;
      assert |input.positions.buttons.Of(Matrix)| == 16;
      for i := 0 to 2
        invariant |matrix| == 16
        invariant forall k :: 0 <= k < 8 * i ==> matrix[k] == MatrixButton(inReport[..], k)
      {
        for j := 0 to 8
          invariant |matrix| == 16
          invariant forall k :: 0 <= k < 8 * i + j ==> matrix[k] == MatrixButton(inReport[..], k)
        {
          matrix := matrix[j + 8 * i := BitAnd(Shl(1, 7 - j), inReport[i + 1]) != 0];
        }
      }
    }

    method ReadSpecial() returns (special: seq<bool>)
      requires Valid()
      ensures special == Decode(inReport[..]).positions.buttons.special
    {
      special := input.positions.buttons.special;
      assert |input.positions.buttons.Of(Special)| == 9;
      for i := 2 to 8
        invariant |special| == 9
        invariant forall k :: 0 <= k < i - 2 ==> special[k] == SpecialButton(inReport[..], k)
      {
        special := special[i - 2 := BitAnd(Shl(1, i), inReport[3]) != 0];
      }
      for i := 1 to 4
        invariant |special| == 9
        invariant forall k :: 0 <= k < i + 5 ==> special[k] == SpecialButton(inReport[..], k)
      {
        special := special[i + 5 := BitAnd(Shl(1, i), inReport[4]) != 0];
      }
    }

    method ReadStop() returns (stop: seq<bool>)
      requires Valid()
      ensures stop == Decode(inReport[..]).positions.buttons.stop
    {
      stop := input.positions.buttons.stop;
      assert |input.positions.buttons.Of(Stop)| == 4;
      for i := 0 to 4
        invariant |stop| == 4
        invariant forall k :: 0 <= k < i ==> stop[k] == StopButton(inReport[..], k)
      {
        stop := stop[i := BitAnd(Shl(1, 4 + (3 - i)), inReport[4]) != 0];
      }
    }

    method ReadEncoders() returns (encoders: PerEncoder<uint16>)
      requires Valid()
      ensures encoders == Decode(inReport[..]).positions.encoders
    {
      encoders := input.positions.encoders;
      for i := 0 to 4
        invariant encoders.Valid()
        invariant forall k :: 0 <= k < i ==> encoders.knobs[k] == KnobValue(inReport[..], k)
      {
        var knob: uint16 := Word(inReport[6 + i * 2], inReport[7 + i * 2]);
        encoders := encoders.(knobs := encoders.knobs[i := knob]);
      }
      for i := 0 to 4
        invariant encoders.Valid()
        invariant forall k :: 0 <= k < 4 ==> encoders.knobs[k] == KnobValue(inReport[..], k)
        invariant forall k :: 0 <= k < i ==> encoders.faders[k] == FaderValue(inReport[..], k)
      {
        AndOnes(inReport[15 + i * 2], 8);
        var fader: uint16 := Word(inReport[14 + i * 2], BitAnd(inReport[15 + i * 2], 0xff));
        encoders := encoders.(faders := encoders.faders[i := fader]);
      }
    }

    /** The old state is saved first, so a foreign report leaves both states equal. */
    method UpdateInState()
      requires Valid()
      modifies this`input, this`oldInput
      ensures Valid()
      ensures oldInput == old(input)
      ensures input == NextState(old(input), inReport[..])
      ensures if inReport[0] == 0x01 then Encode(input) == ClearDontCare(inReport[..]) else input == old(input)
    {
      OwnReportIsRead(input, inReport[..]);
      oldInput := input;
      if inReport[0] != INPUT_REPORT_ID {
        return;
      }
      var matrix := ReadMatrix();
      var special := ReadSpecial();
      var stop := ReadStop();
      var encoders := ReadEncoders();
      input := InputState(inReport[0], Positions(PerButton(matrix, special, stop), inReport[5], encoders));
      assert input == Decode(inReport[..]);
    }

    method ChangedButtons(g: ButtonGroup) returns (events: seq<InputEvent>)
      requires Valid()
      ensures events == GroupEvents(oldInput.positions, input.positions, g)
    {
      var before, after := oldInput.positions.buttons.Of(g), input.positions.buttons.Of(g);
      events := [];
      for i := 0 to g.Size()
        invariant events == ButtonEvents(g, Diff(before, after, i))
      {
        if after[i] != before[i] {
          events := events + [ButtonEvent(g, i, after[i])];
        }
      }
    }

    method ChangedEncoders(g: EncoderGroup) returns (events: seq<InputEvent>)
      requires Valid()
      ensures events == BankEvents(oldInput.positions, input.positions, g)
    {
      var before, after := oldInput.positions.encoders.Of(g), input.positions.encoders.Of(g);
      events := [];
      for i := 0 to ENCODERS_NUM
        invariant events == EncoderEvents(g, Diff(before, after, i))
      {
        if after[i] != before[i] {
          events := events + [EncoderEvent(g, i, after[i])];
        }
      }
    }

    method ChangedWheel() returns (events: seq<InputEvent>)
      requires Valid()
      ensures events == WheelEvents(oldInput.positions, input.positions)
    {
      events := [];
      if input.positions.wheel != oldInput.positions.wheel {
        var diff := input.positions.wheel - oldInput.positions.wheel;
        events := [WheelEvent(Int8(diff), input.positions.wheel)];
      }
    }

    method GenerateInputEvents()
      requires Valid()
      modifies this`inputEvents
      ensures Valid()
      ensures inputEvents == Events(oldInput.positions, input.positions)
    {
      var matrix := ChangedButtons(Matrix);
      var special := ChangedButtons(Special);
      var stop := ChangedButtons(Stop);
      var faders := ChangedEncoders(Fader);
      var knobs := ChangedEncoders(Knob);
      var wheel := ChangedWheel();
      inputEvents := matrix + special + stop + faders + knobs + wheel;
    }

    /** Reads one report (given by the file descriptor) and collects the events of the change. */
    method ReadEvents(report: seq<byte>)
      requires Valid() && IsReport(report)
      modifies this, inReport
      ensures Valid()
      ensures inReport[..] == report
      ensures oldInput == old(input) && input == NextState(old(input), report)
      ensures inputEvents == Events(old(input).positions, input.positions)
      ensures Replay(old(input).positions, inputEvents) == input.positions
    {
      forall i | 0 <= i < INPUT_REPORT_SIZE {
        inReport[i] := report[i];
      }
      assert inReport[..] == report;
      UpdateInState();
      GenerateInputEvents();
      ReplayEvents(oldInput.positions, input.positions);
    }

    // ---- Output ----

    /** Positions lo to hi show the output state, all others are as before. */
    twostate predicate Wrote(lo: nat, hi: nat)
      requires Valid() && lo <= hi <= OUTPUT_REPORT_SIZE
      reads this, output, outReport
    {
      && (forall k: nat :: lo <= k < hi ==> outReport[k] == OutByte(output.leds, k))
      && (forall k: nat :: k < lo || hi <= k < OUTPUT_REPORT_SIZE ==> outReport[k] == old(outReport[k]))
    }

    method WriteMatrix()
      requires Valid() && output.leds.InRange()
      modifies outReport
      ensures Wrote(25, 73)
    {
      for i := 0 to MATRIX_BUTTONS_NUM
        invariant forall k: nat :: 25 <= k < 25 + 3 * i ==> outReport[k] == OutByte(output.leds, k)
        invariant forall k: nat :: k < 25 || 73 <= k < OUTPUT_REPORT_SIZE ==> outReport[k] == old(outReport[k])
      {
        var c := output.leds.matrix[i];
        assert c.red < MAX_BRIGHTNESS;
        assert c.green < MAX_BRIGHTNESS;
        assert c.blue < MAX_BRIGHTNESS;
        outReport[i * 3 + MATRIX] := c.blue;
        outReport[i * 3 + 1 + MATRIX] := c.red;
        outReport[i * 3 + 2 + MATRIX] := c.green;
      }
    }

    method WriteStop()
      requires Valid() && output.leds.InRange()
      modifies outReport
      ensures Wrote(73, 81)
    {
      for i := 0 to STOP_BUTTONS_NUM
        invariant forall k: nat :: 73 <= k < 73 + 2 * i ==> outReport[k] == OutByte(output.leds, k)
        invariant forall k: nat :: k < 73 ==> outReport[k] == old(outReport[k])
      {
        var brightness := output.leds.stop[3 - i];
        assert brightness < MAX_BRIGHTNESS;
        outReport[i * 2 + STOP1] := brightness;
        outReport[i * 2 + STOP2] := brightness;
      }
    }

    /** The first special button, the wheel, has no light. */
    method WriteSpecial()
      requires Valid() && output.leds.InRange()
      modifies outReport
      ensures Wrote(17, 25)
    {
      for i := 1 to SPECIAL_BUTTONS_NUM
        invariant forall k: nat :: 17 <= k < 16 + i ==> outReport[k] == OutByte(output.leds, k)
        invariant forall k: nat :: k < 17 || 25 <= k < OUTPUT_REPORT_SIZE ==> outReport[k] == old(outReport[k])
      {
        var brightness := output.leds.special[i];
        assert brightness < MAX_BRIGHTNESS;
        outReport[i + SPECIAL] := brightness;
      }
    }

    method SegmentValue(d: Digit, i: nat) returns (value: byte)
      ensures value == d.Segment(i)
    {
      MaskReadsDigit(d.segments, i);
      var lit := Shr(BitAnd(d.segments, Shl(1, i)), i);
      assert lit == 0 || lit == 1;
      value := lit * d.brightness;
    }

    method WriteDisplay()
      requires Valid() && output.leds.InRange()
      modifies outReport
      ensures Wrote(1, 17)
    {
      assert output.leds.left.brightness < MAX_BRIGHTNESS;
      assert output.leds.right.brightness < MAX_BRIGHTNESS;
      for i := 1 to SEGMENTS_PER_DISPLAY
        invariant forall k: nat :: 2 <= k < 1 + i ==> outReport[k] == OutByte(output.leds, k)
        invariant forall k: nat :: 10 <= k < 9 + i ==> outReport[k] == OutByte(output.leds, k)
        invariant forall k: nat :: k < 1 || 17 <= k < OUTPUT_REPORT_SIZE ==> outReport[k] == old(outReport[k])
      {
        var left := SegmentValue(output.leds.left, i);
        var right := SegmentValue(output.leds.right, i);
        outReport[SEGMENT_LEFT + i] := left;
        outReport[SEGMENT_RIGHT + i] := right;
      }
      assert output.leds.left.dot < MAX_BRIGHTNESS;
      assert output.leds.right.dot < MAX_BRIGHTNESS;
      outReport[SEGMENT_LEFT] := output.leds.left.dot;
      outReport[SEGMENT_RIGHT] := output.leds.right.dot;
    }

    /** Whatever the buffer held before, it now holds the report of the output state. */
    method UpdateOutReport()
      requires Valid() && output.leds.InRange()
      modifies outReport
      ensures outReport[..] == OutReport(output.leds)
    {
      outReport[0] := output.leds.reportId;
      WriteMatrix();
      WriteStop();
      WriteSpecial();
      WriteDisplay();
      assert forall k: nat :: k < OUTPUT_REPORT_SIZE ==> outReport[k] == OutByte(output.leds, k);
    }
  }
}
