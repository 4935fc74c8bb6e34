/** The controls of the F1 and the events that describe their changes (driver/src/tkf1/F1Device.hpp). */
module Controls {
  import opened Bits
  import opened Changes

  const MATRIX_BUTTONS_NUM: nat := 16
  const SPECIAL_BUTTONS_NUM: nat := 9
  const STOP_BUTTONS_NUM: nat := 4
  const ENCODERS_NUM: nat := 4
  const FADERS_MAX: uint16 := 0xfff

  datatype ButtonGroup = Matrix | Special | Stop {
    function Size(): nat {
      match this
      case Matrix => MATRIX_BUTTONS_NUM
      case Special => SPECIAL_BUTTONS_NUM
      case Stop => STOP_BUTTONS_NUM
    }
  }

  datatype EncoderGroup = Fader | Knob

  /** An array whose n elements are all x. */
  function Fill<T>(x: T, n: nat): (s: seq<T>)
    ensures |s| == n && forall i :: 0 <= i < n ==> s[i] == x
  {
    seq(n, _ => x)
  }

  /** One value for every button. */
  datatype PerButton<+T> = PerButton(matrix: seq<T>, special: seq<T>, stop: seq<T>) {
    predicate Valid() {
      forall g: ButtonGroup :: |Of(g)| == g.Size()
    }

    function Of(g: ButtonGroup): seq<T> {
      match g
      case Matrix => matrix
      case Special => special
      case Stop => stop
    }
  }

  function With<T>(p: PerButton<T>, g: ButtonGroup, s: seq<T>): (r: PerButton<T>)
    ensures r.Of(g) == s
    ensures forall h: ButtonGroup :: h != g ==> r.Of(h) == p.Of(h)
  {
    match g
    case Matrix => p.(matrix := s)
    case Special => p.(special := s)
    case Stop => p.(stop := s)
  }

  /** One value for every fader and knob. */
  datatype PerEncoder<+T> = PerEncoder(faders: seq<T>, knobs: seq<T>) {
    predicate Valid() {
      |faders| == |knobs| == ENCODERS_NUM
    }

    function Of(g: EncoderGroup): seq<T> {
      match g
      case Fader => faders
      case Knob => knobs
    }
  }

  function WithEncoders<T>(p: PerEncoder<T>, g: EncoderGroup, s: seq<T>): (r: PerEncoder<T>)
    ensures r.Of(g) == s
    ensures forall h: EncoderGroup :: h != g ==> r.Of(h) == p.Of(h)
  {
    match g
    case Fader => p.(faders := s)
    case Knob => p.(knobs := s)
  }

  /** The positions of all controls. */
  datatype Positions = Positions(buttons: PerButton<bool>, wheel: byte, encoders: PerEncoder<uint16>) {
    predicate Valid() {
      buttons.Valid() && encoders.Valid()
    }
  }

  datatype InputEvent =
    | ButtonEvent(group: ButtonGroup, index: nat, pressed: bool)
    | EncoderEvent(encoder: EncoderGroup, index: nat, value: uint16)
    | WheelEvent(direction: int, position: byte)
  {
    predicate Valid() {
      match this
      case ButtonEvent(g, i, _) => i < g.Size()
      case EncoderEvent(_, i, _) => i < ENCODERS_NUM
      case WheelEvent(d, _) => -128 <= d < 128
    }
  }

  function ButtonEvents(g: ButtonGroup, changes: seq<Change<bool>>): seq<InputEvent> {
    seq(|changes|, i requires 0 <= i < |changes| => ButtonEvent(g, changes[i].index, changes[i].value))
  }

  function EncoderEvents(g: EncoderGroup, changes: seq<Change<uint16>>): seq<InputEvent> {
    seq(|changes|, i requires 0 <= i < |changes| => EncoderEvent(g, changes[i].index, changes[i].value))
  }

  /** The events of one button group. */
  function GroupEvents(before: Positions, after: Positions, g: ButtonGroup): seq<InputEvent>
    requires before.Valid() && after.Valid()
  {
    ButtonEvents(g, Diff(before.buttons.Of(g), after.buttons.Of(g), g.Size()))
  }

  /** The events of the faders or knobs. */
  function BankEvents(before: Positions, after: Positions, g: EncoderGroup): seq<InputEvent>
    requires before.Valid() && after.Valid()
  {
    EncoderEvents(g, Diff(before.encoders.Of(g), after.encoders.Of(g), ENCODERS_NUM))
  }

  function WheelEvents(before: Positions, after: Positions): seq<InputEvent> {
    if before.wheel == after.wheel then []
    else [WheelEvent(Int8(after.wheel - before.wheel), after.wheel)]
  }

  /** All events of a change of positions, in the order of the source's loops. */
  function Events(before: Positions, after: Positions): seq<InputEvent>
    requires before.Valid() && after.Valid()
  {
    GroupEvents(before, after, Matrix) + GroupEvents(before, after, Special) + GroupEvents(before, after, Stop)
    + BankEvents(before, after, Fader) + BankEvents(before, after, Knob) + WheelEvents(before, after)
  }

  // ---- A listener that replays events ----

  function Apply(p: Positions, e: InputEvent): Positions {
    match e
    case ButtonEvent(g, i, pressed) =>
      var s := p.buttons.Of(g);
      if i < |s| then p.(buttons := With(p.buttons, g, s[i := pressed])) else p
    case EncoderEvent(g, i, value) =>
      var s := p.encoders.Of(g);
      if i < |s| then p.(encoders := WithEncoders(p.encoders, g, s[i := value])) else p
    case WheelEvent(_, position) => p.(wheel := position)
  }

  function Replay(p: Positions, events: seq<InputEvent>): Positions {
    if events == [] then p else Apply(Replay(p, events[..|events| - 1]), events[|events| - 1])
  }

  lemma {:induction false} ReplayAppend(p: Positions, a: seq<InputEvent>, b: seq<InputEvent>)
    ensures Replay(p, a + b) == Replay(Replay(p, a), b)
    decreases |b|
  {
    if b == [] {
      assert a + b == a;
    } else {
      ReplayAppend(p, a, b[..|b| - 1]);
      assert (a + b)[..|a + b| - 1] == a + b[..|b| - 1];
    }
  }

  lemma {:induction false} ReplayButtons(p: Positions, g: ButtonGroup, changes: seq<Change<bool>>)
    requires forall c :: c in changes ==> c.index < |p.buttons.Of(g)|
    ensures Replay(p, ButtonEvents(g, changes)) == p.(buttons := With(p.buttons, g, Patch(p.buttons.Of(g), changes)))
    decreases |changes|
  {
    var events := ButtonEvents(g, changes);
    if changes != [] {
      var fewer, last := changes[..|changes| - 1], changes[|changes| - 1];
      assert last in changes;
      ReplayButtons(p, g, fewer);
      assert events[..|events| - 1] == ButtonEvents(g, fewer);
    }
  }

  lemma {:induction false} ReplayEncoders(p: Positions, g: EncoderGroup, changes: seq<Change<uint16>>)
    requires forall c :: c in changes ==> c.index < |p.encoders.Of(g)|
    ensures Replay(p, EncoderEvents(g, changes))
         == p.(encoders := WithEncoders(p.encoders, g, Patch(p.encoders.Of(g), changes)))
    decreases |changes|
  {
    var events := EncoderEvents(g, changes);
    if changes != [] {
      var fewer, last := changes[..|changes| - 1], changes[|changes| - 1];
      assert last in changes;
      ReplayEncoders(p, g, fewer);
      assert events[..|events| - 1] == EncoderEvents(g, fewer);
    }
  }

  lemma ReplayGroup(p: Positions, before: Positions, after: Positions, g: ButtonGroup)
    requires before.Valid() && after.Valid() && p.buttons.Of(g) == before.buttons.Of(g)
    ensures Replay(p, GroupEvents(before, after, g)) == p.(buttons := With(p.buttons, g, after.buttons.Of(g)))
  {
    PatchDiff(before.buttons.Of(g), after.buttons.Of(g), g.Size());
    ReplayButtons(p, g, Diff(before.buttons.Of(g), after.buttons.Of(g), g.Size()));
  }

  lemma ReplayBank(p: Positions, before: Positions, after: Positions, g: EncoderGroup)
    requires before.Valid() && after.Valid() && p.encoders.Of(g) == before.encoders.Of(g)
    ensures Replay(p, BankEvents(before, after, g)) == p.(encoders := WithEncoders(p.encoders, g, after.encoders.Of(g)))
  {
    PatchDiff(before.encoders.Of(g), after.encoders.Of(g), ENCODERS_NUM);
    ReplayEncoders(p, g, Diff(before.encoders.Of(g), after.encoders.Of(g), ENCODERS_NUM));
  }

  /** Replaying the events of a change on the old positions gives the new positions. */
  lemma ReplayEvents(before: Positions, after: Positions)
    requires before.Valid() && after.Valid()
    ensures Replay(before, Events(before, after)) == after
  {
    var m, sp := GroupEvents(before, after, Matrix), GroupEvents(before, after, Special);
    var st := GroupEvents(before, after, Stop);
    var f, k, w := BankEvents(before, after, Fader), BankEvents(before, after, Knob), WheelEvents(before, after);
    ReplayAppend(before, m + sp + st + f + k, w);
    ReplayAppend(before, m + sp + st + f, k);
    ReplayAppend(before, m + sp + st, f);
    ReplayAppend(before, m + sp, st);
    ReplayAppend(before, m, sp);
    ReplayGroup(before, before, after, Matrix);
    var p1 := Replay(before, m);
    ReplayGroup(p1, before, after, Special);
    var p2 := Replay(p1, sp);
    ReplayGroup(p2, before, after, Stop);
    var p3 := Replay(p2, st);
    ReplayBank(p3, before, after, Fader);
    var p4 := Replay(p3, f);
    ReplayBank(p4, before, after, Knob);
    var p5 := Replay(p4, k);
    assert p5.buttons == after.buttons;
    assert p5.encoders == after.encoders;
    LastApplied(p5, w);
  }

  lemma LastApplied(p: Positions, events: seq<InputEvent>)
    requires |events| <= 1
    ensures Replay(p, events) == if events == [] then p else Apply(p, events[0])
  {
  }

  // ---- Exactly one event per changed control ----

  /** An event tells the truth: its control moved, and it is now where the event says. */
  predicate Reports(before: Positions, after: Positions, e: InputEvent)
    requires before.Valid() && after.Valid()
  {
    match e
    case ButtonEvent(g, i, pressed) =>
      i < g.Size() && before.buttons.Of(g)[i] != after.buttons.Of(g)[i] && after.buttons.Of(g)[i] == pressed
    case EncoderEvent(g, i, value) =>
      i < ENCODERS_NUM && before.encoders.Of(g)[i] != after.encoders.Of(g)[i] && after.encoders.Of(g)[i] == value
    case WheelEvent(d, position) =>
      && before.wheel != after.wheel && after.wheel == position
      && -128 <= d < 128 && (after.wheel - before.wheel - d) % 256 == 0
  }

  lemma InGroup(before: Positions, after: Positions, g: ButtonGroup, e: InputEvent)
    requires before.Valid() && after.Valid()
    ensures e in GroupEvents(before, after, g) <==> e.ButtonEvent? && e.group == g && Reports(before, after, e)
  {
    var changes := Diff(before.buttons.Of(g), after.buttons.Of(g), g.Size());
    if e.ButtonEvent? && e.group == g {
      var c := Change(e.index, e.pressed);
      DiffIsExact(before.buttons.Of(g), after.buttons.Of(g), g.Size(), c);
      if c in changes {
        var k :| 0 <= k < |changes| && changes[k] == c;
        assert ButtonEvents(g, changes)[k] == e;
      }
    }
  }

  lemma InBank(before: Positions, after: Positions, g: EncoderGroup, e: InputEvent)
    requires before.Valid() && after.Valid()
    ensures e in BankEvents(before, after, g) <==> e.EncoderEvent? && e.encoder == g && Reports(before, after, e)
  {
    var changes := Diff(before.encoders.Of(g), after.encoders.Of(g), ENCODERS_NUM);
    if e.EncoderEvent? && e.encoder == g {
      var c := Change(e.index, e.value);
      DiffIsExact(before.encoders.Of(g), after.encoders.Of(g), ENCODERS_NUM, c);
      if c in changes {
        var k :| 0 <= k < |changes| && changes[k] == c;
        assert EncoderEvents(g, changes)[k] == e;
      }
    }
  }

  /** The events are exactly the true reports: every changed control appears, no unchanged one does. */
  lemma EventsAreExact(before: Positions, after: Positions, e: InputEvent)
    requires before.Valid() && after.Valid()
    ensures e in Events(before, after) <==> Reports(before, after, e)
  {
    InGroup(before, after, Matrix, e);
    InGroup(before, after, Special, e);
    InGroup(before, after, Stop, e);
    InBank(before, after, Fader, e);
    InBank(before, after, Knob, e);
    if e.WheelEvent? && -128 <= e.direction < 128 { Int8Unique(after.wheel - before.wheel, e.direction); }
  }

  /** Numbers the 38 controls in the order in which their changes are reported. */
  function ControlNumber(e: InputEvent): nat {
    match e
    case ButtonEvent(Matrix, i, _) => i
    case ButtonEvent(Special, i, _) => 16 + i
    case ButtonEvent(Stop, i, _) => 25 + i
    case EncoderEvent(Fader, i, _) => 29 + i
    case EncoderEvent(Knob, i, _) => 33 + i
    case WheelEvent(_, _) => 37
  }

  predicate Ordered(events: seq<InputEvent>, lo: nat, hi: nat) {
    && (forall i, j :: 0 <= i < j < |events| ==> ControlNumber(events[i]) < ControlNumber(events[j]))
    && (forall i :: 0 <= i < |events| ==> lo <= ControlNumber(events[i]) < hi)
  }

  lemma OrderedGroup(before: Positions, after: Positions, g: ButtonGroup)
    requires before.Valid() && after.Valid()
    ensures var lo := ControlNumber(ButtonEvent(g, 0, false));
            Ordered(GroupEvents(before, after, g), lo, lo + g.Size())
  {
    var changes := Diff(before.buttons.Of(g), after.buttons.Of(g), g.Size());
    DiffIncreases(before.buttons.Of(g), after.buttons.Of(g), g.Size());
    DiffInRange(before.buttons.Of(g), after.buttons.Of(g), g.Size());
    assert forall i :: 0 <= i < |changes| ==> changes[i] in changes;
  }

  lemma OrderedBank(before: Positions, after: Positions, g: EncoderGroup)
    requires before.Valid() && after.Valid()
    ensures var lo := ControlNumber(EncoderEvent(g, 0, 0));
            Ordered(BankEvents(before, after, g), lo, lo + ENCODERS_NUM)
  {
    var changes := Diff(before.encoders.Of(g), after.encoders.Of(g), ENCODERS_NUM);
    DiffIncreases(before.encoders.Of(g), after.encoders.Of(g), ENCODERS_NUM);
    DiffInRange(before.encoders.Of(g), after.encoders.Of(g), ENCODERS_NUM);
    assert forall i :: 0 <= i < |changes| ==> changes[i] in changes;
  }

  lemma OrderedConcat(a: seq<InputEvent>, b: seq<InputEvent>, lo: nat, mid: nat, hi: nat)
    requires lo <= mid <= hi && Ordered(a, lo, mid) && Ordered(b, mid, hi)
    ensures Ordered(a + b, lo, hi)
  {
  }

  /** Each control is reported at most once per change, in the order of the control numbers. */
  lemma EventsAreOrdered(before: Positions, after: Positions)
    requires before.Valid() && after.Valid()
    ensures Ordered(Events(before, after), 0, 38)
  {
    var m, sp := GroupEvents(before, after, Matrix), GroupEvents(before, after, Special);
    var st := GroupEvents(before, after, Stop);
    var f, k, w := BankEvents(before, after, Fader), BankEvents(before, after, Knob), WheelEvents(before, after);
    OrderedGroup(before, after, Matrix);
    OrderedGroup(before, after, Special);
    OrderedGroup(before, after, Stop);
    OrderedBank(before, after, Fader);
    OrderedBank(before, after, Knob);
    OrderedConcat(m, sp, 0, 16, 25);
    OrderedConcat(m + sp, st, 0, 25, 29);
    OrderedConcat(m + sp + st, f, 0, 29, 33);
    OrderedConcat(m + sp + st + f, k, 0, 33, 37);
    OrderedConcat(m + sp + st + f + k, w, 0, 37, 38);
  }
}
