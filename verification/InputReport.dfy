/**
 The layout of the 22-byte input report. Decode follows the driver's mask tests
 (driver/src/tkf1/F1Device.cpp); Encode writes the layout of hid-messages/protocol.md, bit by bit.
 */
module InputReports {
  import opened Bits
  import opened Controls

  const INPUT_REPORT_ID: byte := 0x01
  const INPUT_REPORT_SIZE: nat := 22

  datatype InputState = InputState(reportId: byte, positions: Positions)

  predicate IsReport(r: seq<byte>) {
    |r| == INPUT_REPORT_SIZE
  }

  /** Two bytes, least significant first: `lo | hi << 8`. */
  function Word(lo: byte, hi: byte): (w: uint16)
    ensures w == lo + 256 * hi
  {
    ShlEight(hi);
    OrDisjoint(hi, lo, 8);
    BitOr(lo, Shl(hi, 8))
  }

  lemma ShlMore(x: nat, n: nat)
    ensures Shl(x, n + 4) == 16 * Shl(x, n)
  {
    assert Shl(x, n + 1) == 2 * Shl(x, n);
    assert Shl(x, n + 2) == 2 * Shl(x, n + 1);
    assert Shl(x, n + 3) == 2 * Shl(x, n + 2);
    assert Shl(x, n + 4) == 2 * Shl(x, n + 3);
  }

  lemma ShlEight(x: nat)
    ensures Shl(x, 8) == 256 * x && Shl(1, 8) == 256
  {
    ShlMore(x, 4);
    ShlMore(x, 0);
    ShlMore(1, 4);
    ShlMore(1, 0);
  }

  // ---- Decoding: one function per loop of update_in_state ----

  function MatrixButton(r: seq<byte>, k: nat): bool
    requires IsReport(r) && k < MATRIX_BUTTONS_NUM
  {
    TestBit(r[k / 8 + 1], 7 - k % 8)
  }

  function SpecialButton(r: seq<byte>, k: nat): bool
    requires IsReport(r) && k < SPECIAL_BUTTONS_NUM
  {
    if k < 6 then TestBit(r[3], k + 2) else TestBit(r[4], k - 5)
  }

  function StopButton(r: seq<byte>, k: nat): bool
    requires IsReport(r) && k < STOP_BUTTONS_NUM
  {
    TestBit(r[4], 4 + (3 - k))
  }

  function KnobValue(r: seq<byte>, k: nat): uint16
    requires IsReport(r) && k < ENCODERS_NUM
  {
    Word(r[6 + k * 2], r[7 + k * 2])
  }

  function FaderValue(r: seq<byte>, k: nat): uint16
    requires IsReport(r) && k < ENCODERS_NUM
  {
    Word(r[14 + k * 2], r[15 + k * 2])
  }

  function Decode(r: seq<byte>): (s: InputState)
    requires IsReport(r)
    ensures s.positions.Valid()
  {
    InputState(
      r[0],
      Positions(
        PerButton(
          seq(MATRIX_BUTTONS_NUM, k requires 0 <= k < MATRIX_BUTTONS_NUM => MatrixButton(r, k)),
          seq(SPECIAL_BUTTONS_NUM, k requires 0 <= k < SPECIAL_BUTTONS_NUM => SpecialButton(r, k)),
          seq(STOP_BUTTONS_NUM, k requires 0 <= k < STOP_BUTTONS_NUM => StopButton(r, k))),
        r[5],
        PerEncoder(
          seq(ENCODERS_NUM, k requires 0 <= k < ENCODERS_NUM => FaderValue(r, k)),
          seq(ENCODERS_NUM, k requires 0 <= k < ENCODERS_NUM => KnobValue(r, k)))))
  }

  /** What a report makes of the input state: one with a foreign id changes nothing. */
  function NextState(s: InputState, r: seq<byte>): (t: InputState)
    requires IsReport(r) && s.positions.Valid()
    ensures t.positions.Valid()
  {
    if r[0] != INPUT_REPORT_ID then s else Decode(r)
  }

  // ---- Encoding: the documented layout ----

  function ByteOf(bits: seq<bool>): byte
    requires |bits| == 8
  {
    FromBitsBound(bits);
    FromBits(bits)
  }

  /** One half of the button matrix: the first button is bit 7. */
  function MatrixBits(matrix: seq<bool>, half: nat): (bits: seq<bool>)
    requires |matrix| == MATRIX_BUTTONS_NUM && half < 2
    ensures |bits| == 8
  {
    seq(8, i requires 0 <= i < 8 => matrix[8 * half + 7 - i])
  }

  /** Bits 0 and 1 are don't care, then wheel button, browse, size, type, reverse, shift. */
  function LowerBits(special: seq<bool>): (bits: seq<bool>)
    requires |special| == SPECIAL_BUTTONS_NUM
    ensures |bits| == 8
  {
    [false, false, special[0], special[1], special[2], special[3], special[4], special[5]]
  }

  /** Bit 0 is don't care, then capture, quant, sync and the stop buttons from 4 to 1. */
  function UpperBits(special: seq<bool>, stop: seq<bool>): (bits: seq<bool>)
    requires |special| == SPECIAL_BUTTONS_NUM && |stop| == STOP_BUTTONS_NUM
    ensures |bits| == 8
  {
    [false, special[6], special[7], special[8], stop[3], stop[2], stop[1], stop[0]]
  }

  /** The j-th byte of four words, least significant byte first. */
  function WordByte(words: seq<uint16>, j: nat): byte
    requires |words| == ENCODERS_NUM && j < 8
  {
    if j % 2 == 0 then words[j / 2] % 256 else words[j / 2] / 256
  }

  function EncodedByte(s: InputState, i: nat): byte
    requires s.positions.Valid() && i < INPUT_REPORT_SIZE
  {
    var b := s.positions.buttons;
    assert |b.Of(Matrix)| == 16 && |b.Of(Special)| == 9 && |b.Of(Stop)| == 4;
    if i == 0 then s.reportId
    else if i == 1 then ByteOf(MatrixBits(b.matrix, 0))
    else if i == 2 then ByteOf(MatrixBits(b.matrix, 1))
    else if i == 3 then ByteOf(LowerBits(b.special))
    else if i == 4 then ByteOf(UpperBits(b.special, b.stop))
    else if i == 5 then s.positions.wheel
    else if i < 14 then WordByte(s.positions.encoders.knobs, i - 6)
    else WordByte(s.positions.encoders.faders, i - 14)
  }

  function Encode(s: InputState): (r: seq<byte>)
    requires s.positions.Valid()
    ensures IsReport(r)
  {
    seq(INPUT_REPORT_SIZE, i requires 0 <= i < INPUT_REPORT_SIZE => EncodedByte(s, i))
  }

  // ---- Round trips ----

  lemma TestWritten(bits: seq<bool>, i: nat)
    requires |bits| == 8 && i < 8
    ensures TestBit(ByteOf(bits), i) == bits[i]
  {
    MaskReadsDigit(ByteOf(bits), i);
    DigitOfFromBits(bits, i);
  }

  lemma WriteTested(b: byte, bits: seq<bool>)
    requires |bits| == 8
    requires forall i: nat :: i < 8 ==> bits[i] == Bit(b, i)
    ensures ByteOf(bits) == b
  {
    FromBitsOfDigits(b, bits);
  }

  lemma EncodedMatrix(s: InputState, k: nat)
    requires s.positions.Valid() && k < |s.positions.buttons.Of(Matrix)| == MATRIX_BUTTONS_NUM
    ensures MatrixButton(Encode(s), k) == s.positions.buttons.matrix[k]
  {
    var bits := MatrixBits(s.positions.buttons.matrix, k / 8);
    assert Encode(s)[k / 8 + 1] == ByteOf(bits);
    TestWritten(bits, 7 - k % 8);
  }

  lemma EncodedSpecial(s: InputState, k: nat)
    requires s.positions.Valid() && k < |s.positions.buttons.Of(Special)| == SPECIAL_BUTTONS_NUM
    requires |s.positions.buttons.Of(Stop)| == STOP_BUTTONS_NUM
    ensures SpecialButton(Encode(s), k) == s.positions.buttons.special[k]
  {
    var b := s.positions.buttons;
    var lower, upper := LowerBits(b.special), UpperBits(b.special, b.stop);
    if k < 6 {
      assert Encode(s)[3] == ByteOf(lower);
      TestWritten(lower, k + 2);
    } else {
      assert Encode(s)[4] == ByteOf(upper);
      TestWritten(upper, k - 5);
    }
  }

  lemma EncodedStop(s: InputState, k: nat)
    requires s.positions.Valid() && k < |s.positions.buttons.Of(Stop)| == STOP_BUTTONS_NUM
    requires |s.positions.buttons.Of(Special)| == SPECIAL_BUTTONS_NUM
    ensures StopButton(Encode(s), k) == s.positions.buttons.stop[k]
  {
    var upper := UpperBits(s.positions.buttons.special, s.positions.buttons.stop);
    assert Encode(s)[4] == ByteOf(upper);
    TestWritten(upper, 7 - k);
  }

  lemma DecodeEncodeButton(s: InputState, g: ButtonGroup, k: nat)
    requires s.positions.Valid() && k < g.Size()
    ensures Decode(Encode(s)).positions.buttons.Of(g)[k] == s.positions.buttons.Of(g)[k]
  {
    var b := s.positions.buttons;
    assert |b.Of(Matrix)| == 16 && |b.Of(Special)| == 9 && |b.Of(Stop)| == 4;
    match g {
      case Matrix => EncodedMatrix(s, k);
      case Special => EncodedSpecial(s, k);
      case Stop => EncodedStop(s, k);
    }
  }

  lemma DecodeEncodeWords(s: InputState, k: nat)
    requires s.positions.Valid() && k < ENCODERS_NUM
    ensures KnobValue(Encode(s), k) == s.positions.encoders.knobs[k]
    ensures FaderValue(Encode(s), k) == s.positions.encoders.faders[k]
  {
    hide Word;
    hide ByteOf;
    var e := s.positions.encoders;
    assert WordByte(e.knobs, 2 * k) == e.knobs[k] % 256 && WordByte(e.knobs, 2 * k + 1) == e.knobs[k] / 256;
    assert WordByte(e.faders, 2 * k) == e.faders[k] % 256 && WordByte(e.faders, 2 * k + 1) == e.faders[k] / 256;
  }

  /** No two inputs share a bit: an encoded state decodes to itself. */
  lemma DecodeEncode(s: InputState)
    requires s.positions.Valid()
    ensures Decode(Encode(s)) == s
  {
    var d := Decode(Encode(s)).positions;
    forall g: ButtonGroup ensures d.buttons.Of(g) == s.positions.buttons.Of(g) {
      forall k: nat | k < g.Size() ensures d.buttons.Of(g)[k] == s.positions.buttons.Of(g)[k] {
        DecodeEncodeButton(s, g, k);
      }
    }
    SamePerButton(d.buttons, s.positions.buttons);
    forall k: nat | k < ENCODERS_NUM
      ensures d.encoders.knobs[k] == s.positions.encoders.knobs[k]
      ensures d.encoders.faders[k] == s.positions.encoders.faders[k]
    {
      DecodeEncodeWords(s, k);
    }
    assert d.encoders.knobs == s.positions.encoders.knobs;
    assert d.encoders.faders == s.positions.encoders.faders;
  }

  lemma SamePerButton<T>(a: PerButton<T>, b: PerButton<T>)
    requires forall g: ButtonGroup :: a.Of(g) == b.Of(g)
    ensures a == b
  {
    assert a.Of(Matrix) == b.Of(Matrix) && a.Of(Special) == b.Of(Special) && a.Of(Stop) == b.Of(Stop);
  }

  /** The three don't-care bits cleared. */
  function ClearDontCare(r: seq<byte>): seq<byte>
    requires IsReport(r)
  {
    r[3 := r[3] - r[3] % 4][4 := r[4] - r[4] % 2]
  }

  lemma DecodedMatrixByte(r: seq<byte>, half: nat)
    requires IsReport(r) && half < 2
    ensures ByteOf(MatrixBits(Decode(r).positions.buttons.matrix, half)) == r[half + 1]
  {
    hide ByteOf;
    hide TestBit;
    hide Word;
    var bits := MatrixBits(Decode(r).positions.buttons.matrix, half);
    forall i: nat | i < 8 ensures bits[i] == Bit(r[half + 1], i) {
      MaskReadsDigit(r[half + 1], i);
      assert bits[i] == MatrixButton(r, 8 * half + 7 - i);
    }
    WriteTested(r[half + 1], bits);
  }

  lemma DecodedLowerByte(r: seq<byte>)
    requires IsReport(r)
    ensures ByteOf(LowerBits(Decode(r).positions.buttons.special)) == r[3] - r[3] % 4
  {
    hide ByteOf;
    hide TestBit;
    hide Word;
    var bits := LowerBits(Decode(r).positions.buttons.special);
    var b := r[3] - r[3] % 4;
    assert b / 2 / 2 == r[3] / 2 / 2;
    forall i: nat | i < 8 ensures bits[i] == Bit(b, i) {
      if i < 2 {
        assert b % 2 == 0 && b / 2 % 2 == 0;
        assert Bit(b, 1) == Bit(b / 2, 0);
      } else {
        DigitTail(r[3], i - 2);
        DigitTail(b, i - 2);
        MaskReadsDigit(r[3], i);
        assert bits[i] == SpecialButton(r, i - 2);
      }
    }
    WriteTested(b, bits);
  }

  lemma DigitTail(b: nat, i: nat)
    ensures Bit(b, i + 2) == Bit(b / 2 / 2, i)
    ensures Bit(b, i + 1) == Bit(b / 2, i)
  {
    assert Bit(b, i + 2) == Bit(b / 2, i + 1) == Bit(b / 2 / 2, i);
  }

  lemma DecodedUpperByte(r: seq<byte>)
    requires IsReport(r)
    ensures var b := Decode(r).positions.buttons;
            ByteOf(UpperBits(b.special, b.stop)) == r[4] - r[4] % 2
  {
    hide ByteOf;
    hide TestBit;
    hide Word;
    var buttons := Decode(r).positions.buttons;
    var bits := UpperBits(buttons.special, buttons.stop);
    var b := r[4] - r[4] % 2;
    assert b / 2 == r[4] / 2;
    forall i: nat | i < 8 ensures bits[i] == Bit(b, i) {
      if i > 0 {
        DigitTail(r[4], i - 1);
        DigitTail(b, i - 1);
        MaskReadsDigit(r[4], i);
        if i < 4 {
          assert bits[i] == buttons.special[i + 5] == SpecialButton(r, i + 5);
        } else {
          assert bits[i] == buttons.stop[7 - i] == StopButton(r, 7 - i);
        }
      }
    }
    WriteTested(b, bits);
  }

  lemma DecodedWordByte(r: seq<byte>, i: nat)
    requires IsReport(r) && 6 <= i < INPUT_REPORT_SIZE
    ensures EncodedByte(Decode(r), i) == r[i]
  {
    hide Word;
    var k := if i < 14 then (i - 6) / 2 else (i - 14) / 2;
    var e := Decode(r).positions.encoders;
    assert e.knobs[k] == KnobValue(r, k) && e.faders[k] == FaderValue(r, k);
    assert KnobValue(r, k) % 256 == r[6 + k * 2] && KnobValue(r, k) / 256 == r[7 + k * 2];
    assert FaderValue(r, k) % 256 == r[14 + k * 2] && FaderValue(r, k) / 256 == r[15 + k * 2];
  }

  /** No documented bit is dropped: re-encoding a decoded report clears only the don't-care bits. */
  lemma EncodeDecode(r: seq<byte>)
    requires IsReport(r)
    ensures Encode(Decode(r)) == ClearDontCare(r)
  {
    forall i: nat | i < INPUT_REPORT_SIZE ensures EncodedByte(Decode(r), i) == ClearDontCare(r)[i] {
      if i == 1 || i == 2 { DecodedMatrixByte(r, i - 1); }
      else if i == 3 { DecodedLowerByte(r); }
      else if i == 4 { DecodedUpperByte(r); }
      else if i >= 6 { DecodedWordByte(r, i); }
    }
    assert forall i :: 0 <= i < INPUT_REPORT_SIZE ==> Encode(Decode(r))[i] == EncodedByte(Decode(r), i);
  }

  /** Two reports are read alike exactly when they differ in don't-care bits only. */
  lemma DecodeSeesExactlyDocumentedBits(r: seq<byte>, t: seq<byte>)
    requires IsReport(r) && IsReport(t)
    ensures Decode(r) == Decode(t) <==> ClearDontCare(r) == ClearDontCare(t)
  {
    EncodeDecode(r);
    EncodeDecode(t);
    DecodeEncode(Decode(r));
    DecodeEncode(Decode(t));
    assert Decode(ClearDontCare(r)) == Decode(r);
    assert Decode(ClearDontCare(t)) == Decode(t);
  }

  // ---- Runs of reports ----

  /** The input state after a run of reports. */
  function StateAfter(s: InputState, reports: seq<seq<byte>>): (t: InputState)
    requires s.positions.Valid() && forall r :: r in reports ==> IsReport(r)
    ensures t.positions.Valid()
  {
    if reports == [] then s
    else
      var last := reports[|reports| - 1];
      assert last in reports;
      NextState(StateAfter(s, reports[..|reports| - 1]), last)
  }

  /** A report of the device is read completely: written out again, the new state is that report. */
  lemma OwnReportIsRead(s: InputState, r: seq<byte>)
    requires s.positions.Valid() && IsReport(r)
    ensures r[0] == 0x01 ==> Encode(NextState(s, r)) == ClearDontCare(r)
    ensures r[0] != 0x01 ==> NextState(s, r) == s
  {
    hide Encode;
    hide Decode;
    hide ClearDontCare;
    EncodeDecode(r);
  }

  predicate IsOwn(r: seq<byte>) {
    IsReport(r) && r[0] == 0x01
  }

  /** The last of the device's own reports. */
  predicate IsLastOwn(reports: seq<seq<byte>>, k: nat)
    requires k < |reports|
  {
    IsOwn(reports[k]) && forall j :: k < j < |reports| ==> !IsOwn(reports[j])
  }

  /** After any run the state is, written out, the last own report; it is the initial one before any. */
  lemma {:induction false} RunReadsLastOwn(s: InputState, reports: seq<seq<byte>>)
    requires s.positions.Valid() && forall r :: r in reports ==> IsReport(r)
    ensures forall k: nat :: k < |reports| && IsLastOwn(reports, k) ==>
              IsReport(reports[k]) && Encode(StateAfter(s, reports)) == ClearDontCare(reports[k])
    ensures (forall r :: r in reports ==> !IsOwn(r)) ==> StateAfter(s, reports) == s
  {
    hide Encode;
    hide ClearDontCare;
    hide NextState;
    if reports != [] {
      var earlier, last := reports[..|reports| - 1], reports[|reports| - 1];
      assert last in reports;
      RunReadsLastOwn(s, earlier);
      OwnReportIsRead(StateAfter(s, earlier), last);
      forall k: nat | k < |reports| && IsLastOwn(reports, k)
        ensures IsReport(reports[k]) && Encode(StateAfter(s, reports)) == ClearDontCare(reports[k])
      {
        if k < |earlier| {
          assert forall j :: k < j < |earlier| ==> earlier[j] == reports[j];
          assert IsLastOwn(earlier, k);
        }
      }
    }
  }

  /** All events the driver generates over a run of reports. */
  function EventsOver(s: InputState, reports: seq<seq<byte>>): seq<InputEvent>
    requires s.positions.Valid() && forall r :: r in reports ==> IsReport(r)
  {
    if reports == [] then []
    else
      var earlier := reports[..|reports| - 1];
      EventsOver(s, earlier) + Events(StateAfter(s, earlier).positions, StateAfter(s, reports).positions)
  }

  /**
   A listener that starts from the driver's (arbitrary) initial positions and applies every event
   always knows the positions the driver has decoded.
   */
  lemma {:induction false} ReplayOverRun(s: InputState, reports: seq<seq<byte>>)
    requires s.positions.Valid() && forall r :: r in reports ==> IsReport(r)
    ensures Replay(s.positions, EventsOver(s, reports)) == StateAfter(s, reports).positions
  {
    if reports != [] {
      var earlier := reports[..|reports| - 1];
      ReplayOverRun(s, earlier);
      var before, after := StateAfter(s, earlier).positions, StateAfter(s, reports).positions;
      ReplayEvents(before, after);
      ReplayAppend(s.positions, EventsOver(s, earlier), Events(before, after));
    }
  }

  /** A report with a foreign id yields no events, whatever it contains. */
  lemma ForeignReportIsSilent(s: InputState, r: seq<byte>)
    requires s.positions.Valid() && IsReport(r) && r[0] != INPUT_REPORT_ID
    ensures NextState(s, r) == s && Events(s.positions, NextState(s, r).positions) == []
  {
    var events := Events(s.positions, s.positions);
    if events != [] {
      EventsAreExact(s.positions, s.positions, events[0]);
    }
  }
}
