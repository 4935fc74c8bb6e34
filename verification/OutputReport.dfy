/**
 The output state and the 81-byte output report. OutByte is the layout of
 hid-messages/outputs.md, position by position; the device class writes it loop by loop.
 */
module OutputReports {
  import opened Bits
  import opened Controls

  const OUTPUT_REPORT_ID: byte := 0x80
  const OUTPUT_REPORT_SIZE: nat := 81
  const MAX_BRIGHTNESS: byte := 128
  const SEGMENTS_PER_DISPLAY: nat := 8

  // Offsets in the report.
  const SEGMENT_RIGHT: nat := 0x01
  const SEGMENT_LEFT: nat := 0x09
  const SPECIAL: nat := 0x10
  const MATRIX: nat := 0x19
  const STOP1: nat := 0x49
  const STOP2: nat := 0x4a

  /** Seven-bit colours in the device's order: blue, red, green. */
  datatype Color = Color(blue: byte, red: byte, green: byte) {
    predicate InRange() {
      blue < MAX_BRIGHTNESS && red < MAX_BRIGHTNESS && green < MAX_BRIGHTNESS
    }
  }

  /** One digit of the display: a bit per lit segment, its brightness, and the dot's brightness. */
  datatype Digit = Digit(segments: byte, dot: byte, brightness: byte) {
    predicate InRange() {
      dot < MAX_BRIGHTNESS && brightness < MAX_BRIGHTNESS
    }

    function Segment(i: nat): byte {
      if Bit(segments, i) then brightness else 0
    }
  }

  datatype Leds = Leds(
    reportId: byte,
    matrix: seq<Color>,
    special: seq<byte>,
    stop: seq<byte>,
    left: Digit,
    right: Digit)
  {
    predicate Valid() {
      |matrix| == MATRIX_BUTTONS_NUM && |special| == SPECIAL_BUTTONS_NUM && |stop| == STOP_BUTTONS_NUM
    }

    /** The conditions asserted before a report is written. */
    predicate InRange()
      requires Valid()
    {
      && (forall i :: 0 <= i < MATRIX_BUTTONS_NUM ==> matrix[i].InRange())
      && (forall i :: 0 <= i < STOP_BUTTONS_NUM ==> stop[i] < MAX_BRIGHTNESS)
      && (forall i :: 1 <= i < SPECIAL_BUTTONS_NUM ==> special[i] < MAX_BRIGHTNESS)
      && left.InRange() && right.InRange()
    }
  }

  const DARK := Color(0, 0, 0)

  /** The output state of a new device: everything dark. */
  const DARK_LEDS := Leds(
    OUTPUT_REPORT_ID,
    Fill(DARK, MATRIX_BUTTONS_NUM),
    Fill(0, SPECIAL_BUTTONS_NUM),
    Fill(0, STOP_BUTTONS_NUM),
    Digit(0, 0, 0),
    Digit(0, 0, 0))

  function ColorByte(c: Color, k: nat): byte {
    if k == 0 then c.blue else if k == 1 then c.red else c.green
  }

  function DisplayByte(d: Digit, i: nat): byte {
    if i == 0 then d.dot else d.Segment(i)
  }

  function OutByte(leds: Leds, i: nat): byte
    requires leds.Valid() && i < OUTPUT_REPORT_SIZE
  {
    if i == 0 then leds.reportId
    else if i < 9 then DisplayByte(leds.right, i - 1)
    else if i < 17 then DisplayByte(leds.left, i - 9)
    else if i < 25 then leds.special[i - 16]
    else if i < 73 then ColorByte(leds.matrix[(i - 25) / 3], (i - 25) % 3)
    else leds.stop[3 - (i - 73) / 2]
  }

  function OutReport(leds: Leds): (r: seq<byte>)
    requires leds.Valid()
    ensures |r| == OUTPUT_REPORT_SIZE
  {
    seq(OUTPUT_REPORT_SIZE, i requires 0 <= i < OUTPUT_REPORT_SIZE => OutByte(leds, i))
  }

  /** A report that the device accepts: its id, and brightness values of seven bits. */
  predicate SevenBit(report: seq<byte>) {
    && |report| == OUTPUT_REPORT_SIZE
    && report[0] == OUTPUT_REPORT_ID
    && forall i :: 1 <= i < OUTPUT_REPORT_SIZE ==> report[i] < MAX_BRIGHTNESS
  }

  lemma InRangeIsSevenBit(leds: Leds)
    requires leds.Valid() && leds.InRange() && leds.reportId == OUTPUT_REPORT_ID
    ensures SevenBit(OutReport(leds))
  {
    forall i | 1 <= i < OUTPUT_REPORT_SIZE ensures OutReport(leds)[i] < MAX_BRIGHTNESS {
      assert OutReport(leds)[i] == OutByte(leds, i);
      if 25 <= i < 73 { assert leds.matrix[(i - 25) / 3].InRange(); }
    }
  }

  // ---- What can be read back from a report ----

  /** Two output states that look alike on the device. */
  predicate LookAlike(a: Leds, b: Leds)
    requires a.Valid() && b.Valid()
  {
    && a.reportId == b.reportId
    && a.matrix == b.matrix
    && a.stop == b.stop
    && a.special[1..] == b.special[1..]
    && a.left.dot == b.left.dot && a.right.dot == b.right.dot
    && (forall i: nat :: 1 <= i < SEGMENTS_PER_DISPLAY ==> a.left.Segment(i) == b.left.Segment(i))
    && (forall i: nat :: 1 <= i < SEGMENTS_PER_DISPLAY ==> a.right.Segment(i) == b.right.Segment(i))
  }

  lemma ReadMatrix(leds: Leds, k: nat)
    requires leds.Valid() && k < MATRIX_BUTTONS_NUM
    ensures var r := OutReport(leds);
            leds.matrix[k] == Color(r[k * 3 + MATRIX], r[k * 3 + 1 + MATRIX], r[k * 3 + 2 + MATRIX])
  {
    assert OutByte(leds, 3 * k + 25) == leds.matrix[k].blue;
    assert OutByte(leds, 3 * k + 26) == leds.matrix[k].red;
    assert OutByte(leds, 3 * k + 27) == leds.matrix[k].green;
  }

  /** Stop buttons are written in reverse order, each twice. */
  lemma ReadStop(leds: Leds, k: nat)
    requires leds.Valid() && k < STOP_BUTTONS_NUM
    ensures leds.stop[3 - k] == OutReport(leds)[k * 2 + STOP1] == OutReport(leds)[k * 2 + STOP2]
  {
    assert OutByte(leds, 73 + 2 * k) == OutByte(leds, 74 + 2 * k) == leds.stop[3 - k];
  }

  lemma ReadSpecial(leds: Leds, k: nat)
    requires leds.Valid() && 1 <= k < SPECIAL_BUTTONS_NUM
    ensures leds.special[k] == OutReport(leds)[k + SPECIAL]
  {
    assert OutByte(leds, k + 16) == leds.special[k];
  }

  lemma ReadDisplay(leds: Leds, k: nat)
    requires leds.Valid() && k < SEGMENTS_PER_DISPLAY
    ensures DisplayByte(leds.right, k) == OutReport(leds)[SEGMENT_RIGHT + k]
    ensures DisplayByte(leds.left, k) == OutReport(leds)[SEGMENT_LEFT + k]
  {
    assert OutByte(leds, 1 + k) == DisplayByte(leds.right, k);
    assert OutByte(leds, 9 + k) == DisplayByte(leds.left, k);
  }

  /**
   The displays, in positions and masks: the dots first, then each segment with its digit's brightness if
   its bit is set, and dark if it is not.
   */
  lemma ReportShowsSegments(leds: Leds, k: nat)
    requires leds.Valid() && 1 <= k < SEGMENTS_PER_DISPLAY
    ensures var r := OutReport(leds);
            && r[0x01] == leds.right.dot && r[0x09] == leds.left.dot
            && r[0x01 + k] == (if BitAnd(leds.right.segments, Shl(1, k)) != 0 then leds.right.brightness else 0)
            && r[0x09 + k] == (if BitAnd(leds.left.segments, Shl(1, k)) != 0 then leds.left.brightness else 0)
  {
    ReadDisplay(leds, 0);
    ReadDisplay(leds, k);
    MaskedSegment(leds.right, k);
    MaskedSegment(leds.left, k);
  }

  lemma MaskedSegment(d: Digit, k: nat)
    ensures d.Segment(k) == if BitAnd(d.segments, Shl(1, k)) != 0 then d.brightness else 0
  {
    MaskIsDigit(d.segments, k);
  }

  lemma SameReportLooksAlike(a: Leds, b: Leds)
    requires a.Valid() && b.Valid() && OutReport(a) == OutReport(b)
    ensures LookAlike(a, b)
  {
    assert OutReport(a)[0] == OutByte(a, 0) && OutReport(b)[0] == OutByte(b, 0);
    forall k: nat | k < MATRIX_BUTTONS_NUM ensures a.matrix[k] == b.matrix[k] {
      ReadMatrix(a, k);
      ReadMatrix(b, k);
    }
    forall k: nat | k < STOP_BUTTONS_NUM ensures a.stop[k] == b.stop[k] {
      ReadStop(a, 3 - k);
      ReadStop(b, 3 - k);
    }
    forall k: nat | 1 <= k < SPECIAL_BUTTONS_NUM ensures a.special[k] == b.special[k] {
      ReadSpecial(a, k);
      ReadSpecial(b, k);
    }
    forall k: nat | k < SEGMENTS_PER_DISPLAY
      ensures DisplayByte(a.left, k) == DisplayByte(b.left, k) && DisplayByte(a.right, k) == DisplayByte(b.right, k)
    {
      ReadDisplay(a, k);
      ReadDisplay(b, k);
    }
    assert DisplayByte(a.left, 0) == a.left.dot && DisplayByte(a.right, 0) == a.right.dot;
    assert forall k: nat :: 1 <= k < 8 ==>
      DisplayByte(a.left, k) == a.left.Segment(k) && DisplayByte(b.left, k) == b.left.Segment(k);
    assert forall k: nat :: 1 <= k < 8 ==>
      DisplayByte(a.right, k) == a.right.Segment(k) && DisplayByte(b.right, k) == b.right.Segment(k);
  }

  /**
   A report shows every light and nothing else: two output states give the same report exactly
   when they look alike. The only state without a light is the wheel button's brightness, unlit
   segments' brightness and the segment bit of the dot.
   */
  lemma ReportShowsLights(a: Leds, b: Leds)
    requires a.Valid() && b.Valid()
    ensures OutReport(a) == OutReport(b) <==> LookAlike(a, b)
  {
    if LookAlike(a, b) {
      forall i: nat | i < OUTPUT_REPORT_SIZE ensures OutByte(a, i) == OutByte(b, i) {
        if 17 <= i < 25 { assert a.special[1..][i - 17] == b.special[1..][i - 17]; }
      }
    } else if OutReport(a) == OutReport(b) {
      SameReportLooksAlike(a, b);
    }
  }
}
