/**
 The MIDI parser and printer of driver/src/io/MidiEvent.hpp: status bytes have the top bit set,
 data bytes do not (MIDI 1.0 Detailed Specification, Table II). There is no running status.
 */
module MidiEvents {
  import opened Bits

  const STATUS_BYTE_MASK: byte := 0x80
  const TYPE_MASK: byte := 0xf0
  const CHANNEL_MASK: byte := 0x0f

  datatype Kind =
    | NoteOff
    | NoteOn
    | PolyphonicAftertouch
    | ControlChange
    | ProgramChange
    | MonophonicAftertouch
    | PitchBend
    | SystemMessage
  {
    function Code(): byte {
      match this
      case NoteOff => 0x80
      case NoteOn => 0x90
      case PolyphonicAftertouch => 0xa0
      case ControlChange => 0xb0
      case ProgramChange => 0xc0
      case MonophonicAftertouch => 0xd0
      case PitchBend => 0xe0
      case SystemMessage => 0xf0
    }
  }

  /** The cast of a masked status byte to the enumeration. */
  function KindOf(code: byte): Kind {
    if code == 0x80 then NoteOff
    else if code == 0x90 then NoteOn
    else if code == 0xa0 then PolyphonicAftertouch
    else if code == 0xb0 then ControlChange
    else if code == 0xc0 then ProgramChange
    else if code == 0xd0 then MonophonicAftertouch
    else if code == 0xe0 then PitchBend
    else SystemMessage
  }

  datatype MidiEvent = MidiEvent(kind: Kind, channel: byte, data1: byte, data2: byte) {
    /** What the parser can return: a channel nibble and two data bytes. */
    predicate WellFormed() {
      channel < 16 && data1 < 128 && data2 < 128
    }
  }

  const DEFAULT_EVENT := MidiEvent(NoteOff, 0, 0, 0)

  predicate IsStatusByte(b: byte) {
    b >= 128
  }

  /** The source tests the top bit with a mask. */
  lemma StatusByteIsTopBit(b: byte)
    ensures IsStatusByte(b) <==> BitAnd(b, STATUS_BYTE_MASK) != 0
  {
    AndHigh(b / 128, b % 128, 1, 7);
    AndOnes(b / 128, 1);
    assert Shl(b / 128, 7) + b % 128 == b by { ShlFour(b / 128); ShlByThree(b / 128); }
    assert Shl(1, 7) == STATUS_BYTE_MASK;
  }

  /** The printer always writes three bytes and asserts that the event is no system message. */
  function ToBytes(e: MidiEvent): seq<byte>
    requires e.kind != SystemMessage
  {
    OrByte(e.kind.Code(), e.channel);
    [BitOr(e.kind.Code(), e.channel), e.data1, e.data2]
  }

  lemma OrByte(a: byte, b: byte)
    ensures BitOr(a, b) < 256
  {
    OrBound(a, b, 8);
  }

  // ---- Specification of the parser, on the bytes from the iterator to the end ----

  predicate AllData(s: seq<byte>) {
    forall i :: 0 <= i < |s| ==> !IsStatusByte(s[i])
  }

  predicate StartsWithStatus(s: seq<byte>) {
    s != [] && IsStatusByte(s[0])
  }

  /** The number of data bytes before the first status byte. */
  function LeadingData(s: seq<byte>): (n: nat)
    ensures n <= |s|
    ensures n == |s| || IsStatusByte(s[n])
  {
    if s == [] || IsStatusByte(s[0]) then 0 else 1 + LeadingData(s[1..])
  }

  lemma {:induction false} LeadingDataIsFirst(s: seq<byte>, n: nat)
    requires n <= |s|
    requires forall i :: 0 <= i < n ==> !IsStatusByte(s[i])
    requires n == |s| || IsStatusByte(s[n])
    ensures LeadingData(s) == n
  {
    if n > 0 { LeadingDataIsFirst(s[1..], n - 1); }
  }

  lemma {:induction false} LeadingDataIsData(s: seq<byte>, i: nat)
    requires i < LeadingData(s)
    ensures !IsStatusByte(s[i])
  {
    if i > 0 { LeadingDataIsData(s[1..], i - 1); }
  }

  /** The i-th data byte of a message whose bytes after the status byte start s; a missing one stays 0. */
  function DataByte(s: seq<byte>, i: nat): byte {
    if i < LeadingData(s) then s[i] else 0
  }

  function StatusKind(status: byte): Kind {
    KindOf(status - status % 16)
  }

  function StatusChannel(status: byte): byte {
    status % 16
  }

  /** The event of a message: its status byte and the bytes that follow. */
  function EventOf(status: byte, rest: seq<byte>): MidiEvent
  {
    var kind := StatusKind(status);
    if kind == SystemMessage then MidiEvent(kind, StatusChannel(status), 0, 0)
    else MidiEvent(kind, StatusChannel(status), DataByte(rest, 0), DataByte(rest, 1))
  }

  /** One parse: the event and the number of bytes consumed. */
  function ParseOne(s: seq<byte>): (r: (MidiEvent, nat))
    ensures r.1 <= |s|
    ensures s != [] ==> 0 < r.1
    ensures r.1 == |s| || IsStatusByte(s[r.1])
  {
    var n := LeadingData(s);
    if n == |s| then (DEFAULT_EVENT, n)
    else (EventOf(s[n], s[n + 1..]), n + 1 + LeadingData(s[n + 1..]))
  }

  /** Repeated parsing until the end. */
  function ParseAll(s: seq<byte>): seq<MidiEvent> {
    if s == [] then [] else [ParseOne(s).0] + ParseAll(s[ParseOne(s).1..])
  }

  // ---- The parser itself ----

  /** Advances past data bytes: the loop that occurs three times in the parser. */
  method SkipData(buf: seq<byte>, start: nat) returns (it: nat)
    requires start <= |buf|
    ensures start <= it <= |buf|
    ensures it == start + LeadingData(buf[start..])
  {
    it := start;
    while it != |buf| && !IsStatusByte(buf[it])
      invariant start <= it <= |buf|
      invariant LeadingData(buf[start..]) == it - start + LeadingData(buf[it..])
      decreases |buf| - it
    {
      assert buf[it..][1..] == buf[it + 1..];
      it := it + 1;
    }
  }

  /** The loop that fills the two data bytes; `it` is left behind the last one taken. */
  method ReadData(buf: seq<byte>, start: nat) returns (raw: array<byte>, it: nat)
    requires start <= |buf|
    ensures start <= it <= |buf|
    ensures LeadingData(buf[start..]) == it - start + LeadingData(buf[it..])
    ensures fresh(raw) && raw[..] == [DataByte(buf[start..], 0), DataByte(buf[start..], 1)]
  {
    raw := new byte[2] [0, 0];
    it := start;
    var i := 0;
    while i != raw.Length && it != |buf| && !IsStatusByte(buf[it])
      invariant 0 <= i <= 2 && it == start + i <= |buf|
      invariant LeadingData(buf[start..]) == i + LeadingData(buf[it..])
      invariant forall k :: 0 <= k < 2 ==> raw[k] == if k < i then buf[start + k] else 0
      decreases 2 - i
    {
      assert buf[it..][1..] == buf[it + 1..];
      raw[i] := buf[it];
      i, it := i + 1, it + 1;
    }
    assert i < 2 ==> LeadingData(buf[start..]) == i;
  }

  /** The message at a status byte, up to the next status byte. */
  method ParseMessage(buf: seq<byte>, start: nat) returns (event: MidiEvent, next: nat)
    requires start < |buf| && IsStatusByte(buf[start])
    ensures event == EventOf(buf[start], buf[start + 1..])
    ensures next == start + 1 + LeadingData(buf[start + 1..]) <= |buf|
  {
    var status := buf[start];
    MaskedNibbles(status);
    event := DEFAULT_EVENT.(kind := KindOf(BitAnd(status, TYPE_MASK)), channel := BitAnd(status, CHANNEL_MASK));
    var it := start + 1;
    if event.kind == SystemMessage {
      it := SkipData(buf, it);
    } else {
      var raw;
      raw, it := ReadData(buf, it);
      event := event.(data1 := raw[..][0], data2 := raw[..][1]);
    }
    next := SkipData(buf, it);
  }

  method Parse(buf: seq<byte>, start: nat) returns (event: MidiEvent, next: nat)
    requires start <= |buf|
    ensures start <= next <= |buf|
    ensures (event, next - start) == ParseOne(buf[start..])
  {
    hide EventOf;
    var it := SkipData(buf, start);
    if it == |buf| {
      return DEFAULT_EVENT, |buf|;
    }
    assert buf[it + 1..] == buf[start..][it - start + 1..];
    event, next := ParseMessage(buf, it);
  }

  // ---- What a parsed event can hold ----

  lemma MaskedNibbles(b: byte)
    ensures BitAnd(b, TYPE_MASK) == b - b % 16
    ensures BitAnd(b, CHANNEL_MASK) == b % 16
  {
    ShlFour(b / 16);
    ShlFour(15);
    AndHigh(b / 16, b % 16, 15, 4);
    AndOnes(b / 16, 4);
    AndLow(b / 16, b % 16, 4);
  }

  lemma ShlByThree(x: nat)
    ensures Shl(x, 7) == 8 * Shl(x, 4)
  {
    assert Shl(x, 7) == 2 * Shl(x, 6) == 4 * Shl(x, 5);
  }

  lemma ShlFour(x: nat)
    ensures Shl(x, 4) == 16 * x
    ensures Shl(1, 4) == 16
  {
    assert Shl(x, 4) == 2 * Shl(x, 3) == 4 * Shl(x, 2) == 8 * Shl(x, 1);
  }

  /** Whatever bytes arrive, the parser returns a channel below 16 and data bytes below 128. */
  lemma ParsedEventsAreWellFormed(s: seq<byte>)
    ensures ParseOne(s).0.WellFormed()
    ensures forall e :: e in ParseAll(s) ==> e.WellFormed()
  {
    var n := LeadingData(s);
    if n < |s| {
      var rest := s[n + 1..];
      forall i: nat | i < LeadingData(rest) ensures rest[i] < 128 {
        LeadingDataIsData(rest, i);
      }
    }
    if s != [] { ParsedEventsAreWellFormed(s[ParseOne(s).1..]); }
  }

  lemma KindOfCode(kind: Kind)
    ensures kind.Code() % 16 == 0 && kind.Code() >= 128 && KindOf(kind.Code()) == kind
  {
  }

  /** The printer's status byte carries exactly the kind and the channel. */
  lemma StatusByteOf(e: MidiEvent)
    requires e.channel < 16 && e.kind != SystemMessage
    ensures var b := ToBytes(e)[0];
            IsStatusByte(b) && StatusKind(b) == e.kind && StatusChannel(b) == e.channel
  {
    hide BitOr;
    hide KindOf;
    var code := e.kind.Code();
    KindOfCode(e.kind);
    DisjointNibbles(code, e.channel);
  }

  lemma DisjointNibbles(code: byte, channel: byte)
    requires code % 16 == 0 && channel < 16
    ensures BitOr(code, channel) == code + channel
  {
    assert code == 16 * (code / 16);
    ShlFour(code / 16);
    OrDisjoint(code / 16, channel, 4);
  }

  // ---- Splitting the input at message boundaries ----

  predicate HasStatus(s: seq<byte>) {
    LeadingData(s) < |s|
  }

  lemma {:induction false} LeadingDataAppend(a: seq<byte>, b: seq<byte>)
    requires b == [] || StartsWithStatus(b)
    ensures LeadingData(a + b) == LeadingData(a)
  {
    if a == [] {
      assert a + b == b;
    } else {
      assert (a + b)[1..] == a[1..] + b;
      LeadingDataAppend(a[1..], b);
    }
  }

  lemma ParseOneAppend(a: seq<byte>, b: seq<byte>)
    requires HasStatus(a)
    requires b == [] || StartsWithStatus(b)
    ensures ParseOne(a + b) == ParseOne(a)
  {
    hide EventOf;
    var n := LeadingData(a);
    LeadingDataAppend(a, b);
    var rest := a[n + 1..];
    assert (a + b)[n + 1..] == rest + b;
    EventOfAppend(a[n], rest, b);
  }

  lemma EventOfAppend(status: byte, rest: seq<byte>, b: seq<byte>)
    requires b == [] || StartsWithStatus(b)
    ensures EventOf(status, rest + b) == EventOf(status, rest)
    ensures LeadingData(rest + b) == LeadingData(rest)
  {
    LeadingDataAppend(rest, b);
  }

  lemma ParseAllStep(a: seq<byte>, b: seq<byte>, rest: seq<byte>)
    requires HasStatus(a) && rest == a[ParseOne(a).1..]
    requires b == [] || StartsWithStatus(b)
    ensures ParseAll(a) == [ParseOne(a).0] + ParseAll(rest)
    ensures ParseAll(a + b) == [ParseOne(a).0] + ParseAll(rest + b)
  {
    ParseOneAppend(a, b);
    assert (a + b)[ParseOne(a).1..] == rest + b;
  }

  lemma RestStartsMessage(a: seq<byte>)
    ensures var rest := a[ParseOne(a).1..]; rest == [] || HasStatus(rest)
  {
  }

  lemma SameHead<T>(whole: seq<T>, left: seq<T>, right: seq<T>, head: T, tail: seq<T>)
    requires left == [head] + tail && whole == [head] + (tail + right)
    ensures whole == left + right
  {
  }

  /** Draining at message boundaries loses and invents nothing. */
  lemma {:induction false} ParseAllAppend(a: seq<byte>, b: seq<byte>)
    requires a == [] || HasStatus(a)
    requires b == [] || StartsWithStatus(b)
    ensures ParseAll(a + b) == ParseAll(a) + ParseAll(b)
    decreases |a|
  {
    hide ParseOne;
    if a == [] {
      assert a + b == b;
    } else {
      hide LeadingData;
      var rest := a[ParseOne(a).1..];
      RestStartsMessage(a);
      ParseAllAppend(rest, b);
      ParseAllStep(a, b, rest);
      SameHead(ParseAll(a + b), ParseAll(a), ParseAll(b), ParseOne(a).0, ParseAll(rest));
    }
  }

  function CountStatus(s: seq<byte>): nat {
    if s == [] then 0 else (if IsStatusByte(s[0]) then 1 else 0) + CountStatus(s[1..])
  }

  lemma {:induction false} CountStatusAfterData(s: seq<byte>)
    ensures CountStatus(s) == CountStatus(s[LeadingData(s)..])
    ensures CountStatus(s) > 0 <==> HasStatus(s)
  {
    if s != [] && !IsStatusByte(s[0]) {
      CountStatusAfterData(s[1..]);
      assert s[LeadingData(s)..] == s[1..][LeadingData(s[1..])..];
    }
  }

  /**
   One event per status byte; a non-empty input without any yields a single default event.
   */
  lemma {:induction false} EventCount(s: seq<byte>)
    ensures |ParseAll(s)| == if HasStatus(s) then CountStatus(s) else if s == [] then 0 else 1
    ensures !HasStatus(s) && s != [] ==> ParseAll(s) == [DEFAULT_EVENT]
    decreases |s|
  {
    CountStatusAfterData(s);
    var n := LeadingData(s);
    if n < |s| {
      var rest := s[n + 1..];
      assert s[n..][1..] == rest;
      CountStatusAfterData(rest);
      var m := ParseOne(s).1;
      assert s[m..] == rest[LeadingData(rest)..];
      EventCount(s[m..]);
      CountStatusAfterData(s[m..]);
    } else if s != [] {
      assert s[n..] == [];
    }
  }

  lemma ParseOneSkips(noise: seq<byte>, s: seq<byte>)
    requires !HasStatus(noise) && StartsWithStatus(s)
    ensures ParseOne(noise + s) == (ParseOne(s).0, |noise| + ParseOne(s).1)
  {
    hide EventOf;
    LeadingDataAppend(noise, s);
    assert (noise + s)[|noise| + 1..] == s[1..];
  }

  lemma ParseAllUnfolds(s: seq<byte>)
    requires s != []
    ensures ParseAll(s) == [ParseOne(s).0] + ParseAll(s[ParseOne(s).1..])
  {
  }

  /** Data bytes in front of the first status byte do not matter. */
  lemma LeadingNoiseIsDropped(noise: seq<byte>, s: seq<byte>)
    requires !HasStatus(noise) && StartsWithStatus(s)
    ensures ParseAll(noise + s) == ParseAll(s)
  {
    hide ParseOne;
    hide ParseAll;
    ParseOneSkips(noise, s);
    ParseAllUnfolds(s);
    ParseAllUnfolds(noise + s);
    var m := ParseOne(s).1;
    assert (noise + s)[|noise| + m..] == s[m..];
  }

  // ---- Splitting the input anywhere ----

  lemma {:induction false} CountStatusAppend(a: seq<byte>, b: seq<byte>)
    ensures CountStatus(a + b) == CountStatus(a) + CountStatus(b)
  {
    if a == [] {
      assert a + b == b;
    } else {
      assert (a + b)[1..] == a[1..] + b;
      CountStatusAppend(a[1..], b);
    }
  }

  /** A part without a status byte yields a default event of its own, but none inside a longer input. */
  lemma StrayPartCounts(a: seq<byte>, b: seq<byte>)
    requires a != [] && b != [] && !(HasStatus(a) && HasStatus(b))
    ensures |ParseAll(a + b)| < |ParseAll(a)| + |ParseAll(b)|
  {
    hide ParseAll;
    hide LeadingData;
    EventCount(a);
    EventCount(b);
    EventCount(a + b);
    CountStatusAppend(a, b);
    CountStatusAfterData(a);
    CountStatusAfterData(b);
    CountStatusAfterData(a + b);
  }

  /** The number of data bytes behind the last status byte. */
  function TrailingData(s: seq<byte>): (n: nat)
    ensures n <= |s|
    ensures forall i :: |s| - n <= i < |s| ==> !IsStatusByte(s[i])
    ensures n == |s| || IsStatusByte(s[|s| - 1 - n])
  {
    if s == [] || IsStatusByte(s[|s| - 1]) then 0 else 1 + TrailingData(s[..|s| - 1])
  }

  /** Where the last message begins. */
  function LastMessage(s: seq<byte>): (n: nat)
    requires HasStatus(s)
    ensures n < |s| && IsStatusByte(s[n])
    ensures forall i :: n < i < |s| ==> !IsStatusByte(s[i])
  {
    |s| - 1 - TrailingData(s)
  }

  /**
   The bytes that a split cuts off the last message of the front part change nothing: that message is a
   system message, or every data byte it lacks is cut off as a zero or missing altogether.
   */
  predicate CutIsHarmless(a: seq<byte>, b: seq<byte>)
    requires HasStatus(a)
  {
    var n := LastMessage(a);
    var had := |a| - 1 - n;
    StatusKind(a[n]) == SystemMessage || forall i :: 0 <= i < LeadingData(b) && had + i < 2 ==> b[i] == 0
  }

  lemma SingleMessage(status: byte, data: seq<byte>)
    requires IsStatusByte(status) && AllData(data)
    ensures ParseAll([status] + data) == [EventOf(status, data)]
  {
    hide EventOf;
    var s := [status] + data;
    LeadingDataIsFirst(data, |data|);
    assert s[1..] == data;
    assert ParseOne(s) == (EventOf(status, data), |s|);
    assert s[|s|..] == [];
  }

  /** What is parsed before a status byte: nothing if there are only stray data bytes. */
  function Front(s: seq<byte>): seq<MidiEvent> {
    if HasStatus(s) then ParseAll(s) else []
  }

  lemma ParseBehindFront(a: seq<byte>, b: seq<byte>)
    requires StartsWithStatus(b)
    ensures ParseAll(a + b) == Front(a) + ParseAll(b)
  {
    hide ParseAll;
    hide LeadingData;
    if HasStatus(a) { ParseAllAppend(a, b); } else { LeadingNoiseIsDropped(a, b); }
  }

  /** An input cut in its last message: the events of both parts, and of the whole. */
  lemma CutMessage(front: seq<byte>, status: byte, data: seq<byte>, cut: seq<byte>, rest: seq<byte>)
    requires IsStatusByte(status) && AllData(data) && AllData(cut) && StartsWithStatus(rest)
    ensures ParseAll(front + ([status] + data)) == Front(front) + [EventOf(status, data)]
    ensures ParseAll(cut + rest) == ParseAll(rest)
    ensures ParseAll(front + ([status] + (data + cut) + rest))
         == Front(front) + ([EventOf(status, data + cut)] + ParseAll(rest))
  {
    hide ParseAll;
    hide LeadingData;
    hide EventOf;
    hide Front;
    SingleMessage(status, data);
    ParseBehindFront(front, [status] + data);
    LeadingDataIsFirst(cut, |cut|);
    LeadingNoiseIsDropped(cut, rest);
    SingleMessage(status, data + cut);
    LeadingDataIsFirst([status] + (data + cut), 0);
    ParseAllAppend([status] + (data + cut), rest);
    ParseBehindFront(front, [status] + (data + cut) + rest);
  }

  lemma CutChangesEvent(status: byte, data: seq<byte>, cut: seq<byte>)
    requires AllData(data) && AllData(cut)
    ensures EventOf(status, data + cut) == EventOf(status, data) <==>
            StatusKind(status) == SystemMessage || forall i :: 0 <= i < |cut| && |data| + i < 2 ==> cut[i] == 0
  {
    hide StatusKind;
    hide LeadingData;
    LeadingDataIsFirst(data, |data|);
    LeadingDataIsFirst(data + cut, |data + cut|);
    if forall i :: 0 <= i < |cut| && |data| + i < 2 ==> cut[i] == 0 {
      assert forall i: nat :: i < 2 ==> DataByte(data + cut, i) == DataByte(data, i);
    } else {
      var i :| 0 <= i < |cut| && |data| + i < 2 && cut[i] != 0;
      assert DataByte(data + cut, |data| + i) == cut[i] && DataByte(data, |data| + i) == 0;
    }
  }

  lemma SameMiddle<T>(front: seq<T>, x: T, y: T, rest: seq<T>)
    ensures front + ([x] + rest) == (front + [y]) + rest <==> x == y
  {
    assert (front + ([x] + rest))[|front|] == x;
    assert ((front + [y]) + rest)[|front|] == y;
  }

  lemma CutApart<T>(a: seq<T>, n: nat, b: seq<T>, k: nat)
    requires n < |a| && k <= |b|
    ensures a == a[..n] + ([a[n]] + a[n + 1..]) && b == b[..k] + b[k..]
    ensures a + b == a[..n] + ([a[n]] + (a[n + 1..] + b[..k]) + b[k..])
  {
  }

  lemma SplitInMessages(a: seq<byte>, b: seq<byte>)
    requires HasStatus(a) && HasStatus(b)
    ensures ParseAll(a + b) == ParseAll(a) + ParseAll(b) <==> CutIsHarmless(a, b)
  {
    hide ParseAll;
    hide EventOf;
    hide Front;
    hide LeadingData;
    hide LastMessage;
    hide StatusKind;
    var n, k := LastMessage(a), LeadingData(b);
    var front, data, cut, rest := a[..n], a[n + 1..], b[..k], b[k..];
    forall i | 0 <= i < |cut| ensures !IsStatusByte(cut[i]) { LeadingDataIsData(b, i); }
    CutApart(a, n, b, k);
    CutMessage(front, a[n], data, cut, rest);
    CutChangesEvent(a[n], data, cut);
    SameMiddle(Front(front), EventOf(a[n], data + cut), EventOf(a[n], data), ParseAll(rest));
  }

  /**
   Exactly when an input may be split: at either end, or between two parts with status bytes if the cut
   does no harm to the message it goes through. At a message boundary it never does.
   */
  lemma SplitIsHarmlessIff(a: seq<byte>, b: seq<byte>)
    ensures ParseAll(a + b) == ParseAll(a) + ParseAll(b) <==>
            a == [] || b == [] || (HasStatus(a) && HasStatus(b) && CutIsHarmless(a, b))
    ensures HasStatus(a) && StartsWithStatus(b) ==> CutIsHarmless(a, b)
  {
    if a == [] {
      assert a + b == b;
    } else if b == [] {
      assert a + b == a;
    } else if HasStatus(a) && HasStatus(b) {
      SplitInMessages(a, b);
    } else {
      StrayPartCounts(a, b);
    }
  }

  // ---- Printing and parsing back ----

  /** A message as it arrives: an event and data bytes that follow its three bytes. */
  datatype NoisyMessage = NoisyMessage(event: MidiEvent, noise: seq<byte>)

  predicate Printable(e: MidiEvent) {
    e.WellFormed() && e.kind != SystemMessage
  }

  function Wire(msgs: seq<NoisyMessage>): seq<byte>
    requires forall m :: m in msgs ==> Printable(m.event)
  {
    if msgs == [] then [] else
    assert msgs[0] in msgs && Printable(msgs[0].event);
    ToBytes(msgs[0].event) + msgs[0].noise + Wire(msgs[1..])
  }

  function EventsOf(msgs: seq<NoisyMessage>): seq<MidiEvent> {
    seq(|msgs|, i requires 0 <= i < |msgs| => msgs[i].event)
  }

  lemma OneMessageParses(e: MidiEvent, noise: seq<byte>)
    requires Printable(e) && AllData(noise)
    ensures StartsWithStatus(ToBytes(e) + noise) && HasStatus(ToBytes(e) + noise)
    ensures ParseAll(ToBytes(e) + noise) == [e]
  {
    var s := ToBytes(e) + noise;
    StatusByteOf(e);
    var rest := s[1..];
    assert rest == [e.data1, e.data2] + noise;
    assert AllData(rest);
    assert LeadingData(rest) == |rest|;
    assert ParseOne(s) == (e, |s|);
    assert s[|s|..] == [];
  }

  lemma {:induction false} ParseWire(msgs: seq<NoisyMessage>)
    requires forall m :: m in msgs ==> Printable(m.event) && AllData(m.noise)
    ensures ParseAll(Wire(msgs)) == EventsOf(msgs)
    ensures msgs != [] ==> StartsWithStatus(Wire(msgs))
  {
    hide ParseOne;
    hide LeadingData;
    if msgs != [] {
      var head := ToBytes(msgs[0].event) + msgs[0].noise;
      OneMessageParses(msgs[0].event, msgs[0].noise);
      ParseWire(msgs[1..]);
      ParseAllAppend(head, Wire(msgs[1..]));
      assert EventsOf(msgs) == [msgs[0].event] + EventsOf(msgs[1..]);
    }
  }

  /**
   Parsing printed messages returns exactly these messages, whatever data bytes stand before the
   first and after each of them.
   */
  lemma {:induction false} ParseNoisyWire(lead: seq<byte>, msgs: seq<NoisyMessage>)
    requires msgs != [] && AllData(lead)
    requires forall m :: m in msgs ==> Printable(m.event) && AllData(m.noise)
    ensures ParseAll(lead + Wire(msgs)) == EventsOf(msgs)
  {
    ParseWire(msgs);
    LeadingDataIsFirst(lead, |lead|);
    LeadingNoiseIsDropped(lead, Wire(msgs));
  }

  /** The bytes the JACK write callback sends for a list of events. */
  function Print(events: seq<MidiEvent>): seq<byte>
    requires forall e :: e in events ==> Printable(e)
  {
    Wire(seq(|events|, i requires 0 <= i < |events| => NoisyMessage(events[i], [])))
  }

  lemma ParsePrint(events: seq<MidiEvent>)
    requires forall e :: e in events ==> Printable(e)
    ensures ParseAll(Print(events)) == events
  {
    var msgs := seq(|events|, i requires 0 <= i < |events| => NoisyMessage(events[i], []));
    ParseWire(msgs);
    assert EventsOf(msgs) == events;
  }

  /** Printing what was parsed is a normal form: parsing it again changes nothing. */
  lemma ReprintIsStable(s: seq<byte>)
    requires forall e :: e in ParseAll(s) ==> e.kind != SystemMessage
    ensures forall e :: e in ParseAll(s) ==> Printable(e)
    ensures ParseAll(Print(ParseAll(s))) == ParseAll(s)
  {
    ParsedEventsAreWellFormed(s);
    ParsePrint(ParseAll(s));
  }

  // ---- Table II of the MIDI specification, number by number ----

  /** The bytes of every message that is printed. */
  lemma PrintedBytes(c: byte, x: byte, y: byte)
    requires c < 16
    ensures ToBytes(MidiEvent(NoteOff, c, x, y)) == [0x80 + c, x, y]
    ensures ToBytes(MidiEvent(NoteOn, c, x, y)) == [0x90 + c, x, y]
    ensures ToBytes(MidiEvent(PolyphonicAftertouch, c, x, y)) == [0xa0 + c, x, y]
    ensures ToBytes(MidiEvent(ControlChange, c, x, y)) == [0xb0 + c, x, y]
    ensures ToBytes(MidiEvent(ProgramChange, c, x, y)) == [0xc0 + c, x, y]
    ensures ToBytes(MidiEvent(MonophonicAftertouch, c, x, y)) == [0xd0 + c, x, y]
    ensures ToBytes(MidiEvent(PitchBend, c, x, y)) == [0xe0 + c, x, y]
  {
    hide BitOr;
    DisjointNibbles(0x80, c);
    DisjointNibbles(0x90, c);
    DisjointNibbles(0xa0, c);
    DisjointNibbles(0xb0, c);
    DisjointNibbles(0xc0, c);
    DisjointNibbles(0xd0, c);
    DisjointNibbles(0xe0, c);
  }

  /** The kind that the high half of a status byte stands for. */
  predicate HasKindOf(kind: Kind, status: byte) {
    match status / 16
    case 8 => kind == NoteOff
    case 9 => kind == NoteOn
    case 10 => kind == PolyphonicAftertouch
    case 11 => kind == ControlChange
    case 12 => kind == ProgramChange
    case 13 => kind == MonophonicAftertouch
    case 14 => kind == PitchBend
    case _ => kind == SystemMessage
  }

  /**
   What one message parses to, however many data bytes it has: kind and channel are the halves of its
   status byte, missing data bytes are 0, surplus ones are dropped, and those of system messages all are.
   */
  lemma ParsedBytes(status: byte, data: seq<byte>)
    requires 128 <= status && AllData(data)
    ensures var events := ParseAll([status] + data);
            && |events| == 1
            && HasKindOf(events[0].kind, status) && events[0].channel == status % 16
            && events[0].data1 == (if status < 0xf0 && |data| > 0 then data[0] else 0)
            && events[0].data2 == (if status < 0xf0 && |data| > 1 then data[1] else 0)
  {
    hide ParseAll;
    SingleMessage(status, data);
    LeadingDataIsFirst(data, |data|);
    assert status - status % 16 == 16 * (status / 16);
  }
}
