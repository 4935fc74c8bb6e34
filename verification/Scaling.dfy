/** The scaling and rounding of driver/src/tkf1/IOMapper.cpp, over exact reals. */
module Scaling {
  import opened Bits
  import opened Controls

  const MIDI_MAX: byte := 127

  /** `value * (out_max / in_max)` */
  function ScaleReal(value: real, inMax: real, outMax: real): real
    requires inMax > 0.0
  {
    value * (outMax / inMax)
  }

  /** `std::round`: to the nearest integer, halves away from zero. */
  function Round(x: real): int {
    if x >= 0.0 then (x + 0.5).Floor else -((-x + 0.5).Floor)
  }

  /** A conversion to an integer type: towards zero. */
  function Truncate(x: real): int {
    if x >= 0.0 then x.Floor else -((-x).Floor)
  }

  /**
   An encoder position as a controller value: a seven-bit one within the protocol's twelve bits.
   Where the scaled value does not fit a byte, the low eight bits stand for what C++ leaves undefined.
   */
  function ScaleEncoder(v: uint16): (r: byte)
    ensures v <= FADERS_MAX ==> r <= MIDI_MAX
  {
    RoundIsNearest(v);
    Round(ScaleReal(v as real, FADERS_MAX as real, MIDI_MAX as real)) % 256
  }

  /** The nearest integer to 127 * v / 4095, in integers; no tie ever occurs. */
  lemma RoundIsNearest(v: uint16)
    ensures var r := Round(ScaleReal(v as real, FADERS_MAX as real, MIDI_MAX as real));
            0 <= r && -4095 < 2 * (127 * v - 4095 * r) < 4095 && (v <= FADERS_MAX ==> r <= 127)
  {
    var x := ScaleReal(v as real, 4095.0, 127.0);
    assert x == v as real * (127.0 / 4095.0);
    assert x * 4095.0 == v as real * 127.0;
    var r := Round(x);
    assert r as real <= x + 0.5 < r as real + 1.0;
    assert 8190.0 * r as real <= 2.0 * 127.0 * v as real + 4095.0 < 8190.0 * (r as real + 1.0);
    assert (8190 * r) as real <= (254 * v + 4095) as real < (8190 * (r + 1)) as real;
    assert 8190 * r <= 254 * v + 4095 < 8190 * (r + 1);
    // 254 * v - 8190 * r is even, so it is not -4095.
    assert (254 * v - 8190 * r) % 2 == 0;
  }

  /** An independent description of the scaled value: it is the only integer that close. */
  lemma ScaledValueIsUnique(v: uint16, r: int)
    requires v <= FADERS_MAX
    ensures r == ScaleEncoder(v) <==> -4095 < 2 * (127 * v - 4095 * r) < 4095
  {
    RoundIsNearest(v);
  }

  /** The exact value keeps a distance of at least 1/8190 from every tie. */
  lemma TiesAreFar(v: uint16, n: int)
    requires v <= FADERS_MAX
    ensures var distance := 2 * 127 * v - 4095 * (2 * n + 1); distance <= -1 || 1 <= distance
  {
    assert 2 * 127 * v - 4095 * (2 * n + 1) == 2 * (127 * v - 4095 * n - 2048) + 1;
  }

  /** So any computed value that is closer than that to the exact one rounds to the same controller value. */
  lemma NearbyValuesRoundAlike(v: uint16, y: real)
    requires v <= FADERS_MAX && y >= 0.0 && -1.0 < 8190.0 * y - 254.0 * v as real < 1.0
    ensures Round(y) == ScaleEncoder(v)
  {
    var r: int := ScaleEncoder(v);
    ScaledValueIsUnique(v, r);
    assert -4094 <= 254 * v - 8190 * r <= 4094;
    assert -4094.0 <= 254.0 * v as real - 8190.0 * r as real <= 4094.0;
    assert r as real <= y + 0.5 < r as real + 1.0;
  }

  /** Scaling is monotone, and onto: every controller value is reached, both ends at the ends. */
  lemma ScaleIsMonotone(v: uint16, w: uint16)
    requires v <= w <= FADERS_MAX
    ensures ScaleEncoder(v) <= ScaleEncoder(w)
    ensures ScaleEncoder(0) == 0 && ScaleEncoder(FADERS_MAX) == MIDI_MAX
  {
    RoundIsNearest(v);
    RoundIsNearest(w);
    ScaledValueIsUnique(0, 0);
    ScaledValueIsUnique(FADERS_MAX, 127);
  }

  lemma ScaleIsOnto(r: byte)
    requires r <= MIDI_MAX
    ensures exists v: uint16 :: v <= FADERS_MAX && ScaleEncoder(v) == r
  {
    var v: uint16 := (4095 * r + 63) / 127;
    assert -63 <= 127 * v - 4095 * r <= 63;
    ScaledValueIsUnique(v, r);
  }

  // ---- Brightness ----

  /** A brightness factor. */
  type Factor = f: real | 0.0 <= f <= 1.0 witness 0.0

  /** Dimmed for a press or release: rounded. */
  function DimRounded(f: Factor, c: byte): (r: byte)
    ensures r <= c
  {
    DimBound(f, c);
    Round(f * c as real)
  }

  /** Dimmed for a MIDI event: truncated. */
  function DimTruncated(f: Factor, c: byte): (r: byte)
    ensures r <= c
  {
    DimBound(f, c);
    Truncate(f * c as real)
  }

  lemma DimBound(f: Factor, c: byte)
    ensures 0 <= Round(f * c as real) <= c
    ensures 0 <= Truncate(f * c as real) <= c
  {
    var d: real := c as real;
    var x: real := f * d;
    ProductBound(f, d);
    assert x.Floor <= c && (x + 0.5).Floor <= c;
  }

  lemma ProductBound(f: Factor, c: real)
    requires c >= 0.0
    ensures 0.0 <= f * c <= c
  {
    assert f * c <= 1.0 * c;
  }

  /** Full and zero brightness are exact; the truncated light is never brighter than the rounded one. */
  lemma DimEnds(f: Factor, c: byte)
    ensures DimRounded(1.0, c) == DimTruncated(1.0, c) == c
    ensures DimRounded(0.0, c) == DimTruncated(0.0, c) == 0
    ensures DimTruncated(f, c) <= DimRounded(f, c) <= DimTruncated(f, c) + 1
  {
    ProductBound(f, c as real);
    assert 1.0 * c as real == c as real && 0.0 * c as real == 0.0;
  }

  /** The nearest integer to the product, and the integer part of it. */
  predicate Nearest(r: int, f: real, c: int) {
    r as real - 0.5 <= f * c as real < r as real + 0.5
  }

  predicate IntegerPart(r: int, f: real, c: int) {
    r as real <= f * c as real < r as real + 1.0
  }

  /** Both ways of dimming for every factor: the nearest integer to the product, and its integer part. */
  lemma DimIsProduct(f: Factor, c: byte)
    ensures Nearest(DimRounded(f, c), f, c) && IntegerPart(DimTruncated(f, c), f, c)
  {
    ProductBound(f, c as real);
  }

  /** A controller value is its share of 127. */
  lemma ControllerFactorIsShare(value: byte)
    requires value <= MIDI_MAX
    ensures ControllerFactor(value) == value as real / 127.0
  {
  }

  /** The factor of a controller value. */
  function ControllerFactor(value: byte): (f: Factor)
    requires value <= MIDI_MAX
  {
    assert 0.0 <= value as real * (1.0 / 127.0) <= 1.0;
    ScaleReal(value as real, MIDI_MAX as real, 1.0)
  }
}
