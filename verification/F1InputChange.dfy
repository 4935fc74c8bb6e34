/** The difference of two input states in the OSC driver (driver-osc/src/F1InputState.cpp). */
module F1InputChanges {
  import opened Bits
  import opened Changes
  import opened Controls

  /** Changed buttons by index, changed encoders with their new value, and the wheel. */
  datatype InputChange = InputChange(
    pressed: PerButton<nat>,
    released: PerButton<nat>,
    wheelDiff: int,
    wheel: byte,
    encoders: PerEncoder<Change<uint16>>)

  // ---- Specification ----

  function Pressed(before: seq<bool>, after: seq<bool>, n: nat): seq<nat>
    requires n <= |before| == |after|
  {
    if n == 0 then []
    else if !before[n - 1] && after[n - 1] then Pressed(before, after, n - 1) + [n - 1]
    else Pressed(before, after, n - 1)
  }

  function Released(before: seq<bool>, after: seq<bool>, n: nat): seq<nat>
    requires n <= |before| == |after|
  {
    if n == 0 then []
    else if before[n - 1] && !after[n - 1] then Released(before, after, n - 1) + [n - 1]
    else Released(before, after, n - 1)
  }

  function PressedIn(older: Positions, newer: Positions, g: ButtonGroup): seq<nat>
    requires older.Valid() && newer.Valid()
  {
    Pressed(older.buttons.Of(g), newer.buttons.Of(g), g.Size())
  }

  function ReleasedIn(older: Positions, newer: Positions, g: ButtonGroup): seq<nat>
    requires older.Valid() && newer.Valid()
  {
    Released(older.buttons.Of(g), newer.buttons.Of(g), g.Size())
  }

  function MovedIn(older: Positions, newer: Positions, g: EncoderGroup): seq<Change<uint16>>
    requires older.Valid() && newer.Valid()
  {
    Diff(older.encoders.Of(g), newer.encoders.Of(g), ENCODERS_NUM)
  }

  function ChangeBetween(newer: Positions, older: Positions): InputChange
    requires older.Valid() && newer.Valid()
  {
    InputChange(
      PerButton(PressedIn(older, newer, Matrix), PressedIn(older, newer, Special), PressedIn(older, newer, Stop)),
      PerButton(ReleasedIn(older, newer, Matrix), ReleasedIn(older, newer, Special), ReleasedIn(older, newer, Stop)),
      Int8(newer.wheel - older.wheel),
      newer.wheel,
      PerEncoder(MovedIn(older, newer, Fader), MovedIn(older, newer, Knob)))
  }

  // ---- The loops ----

  method DiffButtons(older: Positions, newer: Positions, g: ButtonGroup) returns (pressed: seq<nat>, released: seq<nat>)
    requires older.Valid() && newer.Valid()
    ensures pressed == PressedIn(older, newer, g) && released == ReleasedIn(older, newer, g)
  {
    var before, after := older.buttons.Of(g), newer.buttons.Of(g);
    pressed, released := [], [];
    for i := 0 to g.Size()
      invariant pressed == Pressed(before, after, i)
      invariant released == Released(before, after, i)
    {
      if before[i] == false && after[i] == true {
        pressed := pressed + [i];
      } else if before[i] == true && after[i] == false {
        released := released + [i];
      }
    }
  }

  method DiffEncoders(older: Positions, newer: Positions, g: EncoderGroup) returns (moved: seq<Change<uint16>>)
    requires older.Valid() && newer.Valid()
    ensures moved == MovedIn(older, newer, g)
  {
    var before, after := older.encoders.Of(g), newer.encoders.Of(g);
    moved := [];
    for i := 0 to ENCODERS_NUM
      invariant moved == Diff(before, after, i)
    {
      if after[i] != before[i] {
        moved := moved + [Change(i, after[i])];
      }
    }
  }

  /** `new_state - old_state` */
  method Minus(newer: Positions, older: Positions) returns (diff: InputChange)
    requires older.Valid() && newer.Valid()
    ensures diff == ChangeBetween(newer, older)
    ensures PatchPositions(older, diff) == newer && diff.wheel == newer.wheel
  {
    var pm, rm := DiffButtons(older, newer, Matrix);
    var psp, rsp := DiffButtons(older, newer, Special);
    var pst, rst := DiffButtons(older, newer, Stop);
    var wheelDiff := Int8(newer.wheel - older.wheel);
    var knobs := DiffEncoders(older, newer, Knob);
    var faders := DiffEncoders(older, newer, Fader);
    diff := InputChange(PerButton(pm, psp, pst), PerButton(rm, rsp, rst), wheelDiff, newer.wheel,
                        PerEncoder(faders, knobs));
    PatchGivesNewer(older, newer);
  }

  // ---- A receiver that patches its state ----

  function SetAll(s: seq<bool>, indices: seq<nat>, value: bool): (r: seq<bool>)
    ensures |r| == |s|
    ensures forall k: nat :: k < |s| ==> r[k] == if k in indices then value else s[k]
  {
    if indices == [] then s
    else
      var last := indices[|indices| - 1];
      var r := SetAll(s, indices[..|indices| - 1], value);
      if last < |s| then r[last := value] else r
  }

  function PatchButtons(s: seq<bool>, pressed: seq<nat>, released: seq<nat>): (r: seq<bool>)
    ensures |r| == |s|
  {
    SetAll(SetAll(s, pressed, true), released, false)
  }

  /** Encoder changes that name no encoder are dropped. */
  function PatchEncoders(s: seq<uint16>, changes: seq<Change<uint16>>): seq<uint16> {
    if forall c :: c in changes ==> c.index < |s| then Patch(s, changes) else s
  }

  function PatchPositions(p: Positions, c: InputChange): Positions {
    Positions(
      PerButton(
        PatchButtons(p.buttons.matrix, c.pressed.matrix, c.released.matrix),
        PatchButtons(p.buttons.special, c.pressed.special, c.released.special),
        PatchButtons(p.buttons.stop, c.pressed.stop, c.released.stop)),
      (p.wheel + c.wheelDiff) % 256,
      PerEncoder(
        PatchEncoders(p.encoders.faders, c.encoders.faders),
        PatchEncoders(p.encoders.knobs, c.encoders.knobs)))
  }

  // ---- The lists are exact ----

  predicate Ascending(s: seq<nat>) {
    forall i, j :: 0 <= i < j < |s| ==> s[i] < s[j]
  }

  lemma {:induction false} PressedIsExact(before: seq<bool>, after: seq<bool>, n: nat)
    requires n <= |before| == |after|
    ensures Ascending(Pressed(before, after, n))
    ensures forall k: nat :: k in Pressed(before, after, n) <==> k < n && !before[k] && after[k]
  {
    if n > 0 {
      PressedIsExact(before, after, n - 1);
      var p := Pressed(before, after, n - 1);
      assert forall i :: 0 <= i < |p| ==> p[i] in p;
    }
  }

  /** What is pressed in one direction is released in the other. */
  lemma {:induction false} RolesSwap(before: seq<bool>, after: seq<bool>, n: nat)
    requires n <= |before| == |after|
    ensures Released(before, after, n) == Pressed(after, before, n)
    ensures Released(after, before, n) == Pressed(before, after, n)
  {
    if n > 0 { RolesSwap(before, after, n - 1); }
  }

  /** A button is listed as pressed, as released, or not at all; never twice. */
  lemma ButtonListsAreExact(older: Positions, newer: Positions, g: ButtonGroup)
    requires older.Valid() && newer.Valid()
    ensures Ascending(PressedIn(older, newer, g)) && Ascending(ReleasedIn(older, newer, g))
    ensures ReleasedIn(older, newer, g) == PressedIn(newer, older, g)
    ensures forall k: nat :: !(k in PressedIn(older, newer, g) && k in ReleasedIn(older, newer, g))
    ensures forall k: nat :: k < g.Size() ==>
              (older.buttons.Of(g)[k] != newer.buttons.Of(g)[k] <==>
               k in PressedIn(older, newer, g) || k in ReleasedIn(older, newer, g))
  {
    var before, after := older.buttons.Of(g), newer.buttons.Of(g);
    PressedIsExact(before, after, g.Size());
    PressedIsExact(after, before, g.Size());
    RolesSwap(before, after, g.Size());
  }

  lemma PatchedGroup(older: Positions, newer: Positions, g: ButtonGroup)
    requires older.Valid() && newer.Valid()
    ensures PatchButtons(older.buttons.Of(g), PressedIn(older, newer, g), ReleasedIn(older, newer, g))
         == newer.buttons.Of(g)
  {
    var before, after := older.buttons.Of(g), newer.buttons.Of(g);
    PressedIsExact(before, after, g.Size());
    PressedIsExact(after, before, g.Size());
    RolesSwap(before, after, g.Size());
    var r := PatchButtons(before, PressedIn(older, newer, g), ReleasedIn(older, newer, g));
    forall k: nat | k < g.Size() ensures r[k] == after[k] {
    }
  }

  /** Patching the older state with the difference gives the newer one. */
  lemma PatchGivesNewer(older: Positions, newer: Positions)
    requires older.Valid() && newer.Valid()
    ensures PatchPositions(older, ChangeBetween(newer, older)) == newer
  {
    PatchedGroup(older, newer, Matrix);
    PatchedGroup(older, newer, Special);
    PatchedGroup(older, newer, Stop);
    PatchDiff(older.encoders.Of(Fader), newer.encoders.Of(Fader), ENCODERS_NUM);
    PatchDiff(older.encoders.Of(Knob), newer.encoders.Of(Knob), ENCODERS_NUM);
    WheelPatched(older.wheel, newer.wheel);
    assert PatchPositions(older, ChangeBetween(newer, older)).encoders == newer.encoders;
  }

  lemma WheelPatched(before: byte, after: byte)
    ensures (before + Int8(after - before)) % 256 == after
  {
    Int8Unique(after - before, Int8(after - before));
    var q := (after - before - Int8(after - before)) / 256;
    assert before + Int8(after - before) == after - 256 * q;
  }

  /** The wheel difference is the shortest signed way round: the only such value in -128..127. */
  lemma WheelDiffIsUnique(older: Positions, newer: Positions, d: int)
    requires older.Valid() && newer.Valid() && -128 <= d < 128
    ensures d == ChangeBetween(newer, older).wheelDiff <==> (newer.wheel - older.wheel - d) % 256 == 0
  {
    Int8Unique(newer.wheel - older.wheel, d);
  }

  /** The wheel's position is the newer one, and the difference leads to it from the older one. */
  lemma WheelFieldsAgree(older: Positions, newer: Positions)
    requires older.Valid() && newer.Valid()
    ensures var c := ChangeBetween(newer, older);
            c.wheel == newer.wheel && (older.wheel + c.wheelDiff) % 256 == c.wheel
  {
    WheelPatched(older.wheel, newer.wheel);
  }

  /** Encoders are listed in increasing order, exactly the changed ones, with their newer value. */
  lemma EncoderListsAreExact(older: Positions, newer: Positions, g: EncoderGroup, c: Change<uint16>)
    requires older.Valid() && newer.Valid()
    ensures Increasing(ChangeBetween(newer, older).encoders.Of(g))
    ensures c in ChangeBetween(newer, older).encoders.Of(g) <==>
            && c.index < ENCODERS_NUM
            && older.encoders.Of(g)[c.index] != newer.encoders.Of(g)[c.index] == c.value
  {
    DiffIncreases(older.encoders.Of(g), newer.encoders.Of(g), ENCODERS_NUM);
    DiffIsExact(older.encoders.Of(g), newer.encoders.Of(g), ENCODERS_NUM, c);
  }

  /** A difference without content is the difference of equal states. */
  lemma EmptyChangeIff(older: Positions, newer: Positions)
    requires older.Valid() && newer.Valid()
    ensures var c := ChangeBetween(newer, older);
            (c.pressed == PerButton([], [], []) == c.released && c.wheelDiff == 0 && c.encoders == PerEncoder([], []))
            <==> older == newer
  {
    PatchGivesNewer(older, newer);
    if older == newer {
      forall g: ButtonGroup ensures PressedIn(older, newer, g) == [] == ReleasedIn(older, newer, g) {
        NothingPressed(older.buttons.Of(g), g.Size());
      }
      forall g: EncoderGroup ensures MovedIn(older, newer, g) == [] {
        DiffOfSame(older.encoders.Of(g), ENCODERS_NUM);
      }
    }
  }

  lemma {:induction false} NothingPressed(s: seq<bool>, n: nat)
    requires n <= |s|
    ensures Pressed(s, s, n) == [] == Released(s, s, n)
  {
    if n > 0 { NothingPressed(s, n - 1); }
  }

  // ---- Runs ----

  predicate AllValid(states: seq<Positions>) {
    forall p :: p in states ==> p.Valid()
  }

  /** The sum of the wheel differences between consecutive states. */
  function WheelSum(states: seq<Positions>): int {
    if |states| <= 1 then 0
    else
      var n := |states|;
      WheelSum(states[..n - 1]) + Int8(states[n - 1].wheel - states[n - 2].wheel)
  }

  /** Over a run the wheel differences add up to the total change, modulo 256. */
  lemma {:induction false} WheelDiffsAddUp(states: seq<Positions>)
    requires states != []
    ensures (WheelSum(states) - (states[|states| - 1].wheel - states[0].wheel)) % 256 == 0
  {
    var n := |states|;
    if n > 1 {
      WheelDiffsAddUp(states[..n - 1]);
      var d := states[n - 1].wheel - states[n - 2].wheel;
      Int8Unique(d, Int8(d));
      AddMultiples(WheelSum(states[..n - 1]) - (states[n - 2].wheel - states[0].wheel), Int8(d) - d);
    }
  }

  lemma AddMultiples(a: int, b: int)
    requires a % 256 == 0 && (-b) % 256 == 0
    ensures (a + b) % 256 == 0
  {
  }

  /** The differences a main loop forwards, from the first state on. */
  function ChangesOver(states: seq<Positions>): seq<InputChange>
    requires AllValid(states)
  {
    if |states| <= 1 then []
    else
      var n := |states|;
      assert states[n - 1] in states && states[n - 2] in states;
      ChangesOver(states[..n - 1]) + [ChangeBetween(states[n - 1], states[n - 2])]
  }

  function PatchAll(p: Positions, changes: seq<InputChange>): Positions {
    if changes == [] then p
    else PatchPositions(PatchAll(p, changes[..|changes| - 1]), changes[|changes| - 1])
  }

  /** A receiver that knows the first state and patches every difference knows the last state. */
  lemma {:induction false} PatchesReachLast(states: seq<Positions>)
    requires states != [] && AllValid(states)
    ensures PatchAll(states[0], ChangesOver(states)) == states[|states| - 1]
  {
    hide PatchPositions;
    hide ChangeBetween;
    var n := |states|;
    if n > 1 {
      PatchesReachLast(states[..n - 1]);
      assert states[n - 1] in states && states[n - 2] in states;
      PatchGivesNewer(states[n - 2], states[n - 1]);
      var earlier := ChangesOver(states[..n - 1]);
      var changes := ChangesOver(states);
      assert changes == earlier + [ChangeBetween(states[n - 1], states[n - 2])];
      assert changes[..|changes| - 1] == earlier;
    }
  }
}
