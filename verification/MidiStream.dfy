/**
 The iterator of driver/src/io/MidiStream.cpp over the unread bytes of the ring buffer. It caches
 where the element it was last dereferenced at ends; the end position stands for "not cached".
 */
module MidiStreams {
  import opened Bits
  import opened MidiEvents

  class StreamIterator {
    const bytes: seq<byte>
    var pos: nat
    var next: nat

    /** The cache holds the end position or the end of the element at the current position. */
    ghost predicate Valid()
      reads this
    {
      && pos <= |bytes|
      && next <= |bytes|
      && (next == |bytes| || next == pos + ParseOne(bytes[pos..]).1)
    }

    /** The events from the current position on. */
    ghost function Remaining(): seq<MidiEvent>
      reads this
      requires Valid()
    {
      ParseAll(bytes[pos..])
    }

    /** `begin()` */
    constructor (bytes: seq<byte>)
      ensures Valid() && this.bytes == bytes && pos == 0
      ensures Remaining() == ParseAll(bytes)
    {
      this.bytes := bytes;
      pos := 0;
      next := |bytes|;
      new;
      assert this.bytes[pos..] == bytes;
    }

    predicate IsEnd()
      reads this
    {
      pos == |bytes|
    }

    /** `operator*`: past the end it yields the default event. */
    method Deref() returns (event: MidiEvent)
      requires Valid()
      modifies this
      ensures Valid() && pos == old(pos) && Remaining() == old(Remaining())
      ensures next == pos + ParseOne(bytes[pos..]).1
      ensures event == if Remaining() == [] then DEFAULT_EVENT else Remaining()[0]
    {
      event, next := Parse(bytes, pos);
    }

    /** `operator++`: one event fewer, whether or not the current one was looked at. */
    method Increment()
      requires Valid()
      modifies this
      ensures Valid() && next == |bytes|
      ensures Remaining() == if old(Remaining()) == [] then [] else old(Remaining())[1..]
      ensures !old(IsEnd()) ==> old(pos) < pos
      ensures IsEnd() || IsStatusByte(bytes[pos])
    {
      if next == |bytes| {
        var _ := Deref();
      }
      assert bytes[pos..][ParseOne(bytes[pos..]).1..] == bytes[next..];
      pos := next;
      next := |bytes|;
      assert bytes[|bytes|..] == [];
    }

    /** What `advance_read_ptr` leaves in the ring buffer. */
    method AdvanceReadPtr() returns (unread: seq<byte>)
      requires Valid()
      ensures unread == bytes[pos..] && ParseAll(unread) == Remaining()
    {
      unread := bytes[pos..];
    }
  }

  datatype Op = Look | Advance

  /** The events a list yields when it is looked at and advanced in the order of ops. */
  function Observe(events: seq<MidiEvent>, ops: seq<Op>): seq<MidiEvent> {
    if ops == [] then []
    else match ops[0]
      case Look => [if events == [] then DEFAULT_EVENT else events[0]] + Observe(events, ops[1..])
      case Advance => Observe(if events == [] then [] else events[1..], ops[1..])
  }

  /** One operation of a client; rest stands for all it will do afterwards. */
  method Perform(it: StreamIterator, op: Op, ghost rest: seq<Op>) returns (seen: seq<MidiEvent>)
    requires it.Valid()
    modifies it
    ensures it.Valid()
    ensures seen + Observe(it.Remaining(), rest) == Observe(old(it.Remaining()), [op] + rest)
  {
    assert ([op] + rest)[1..] == rest;
    seen := [];
    match op {
      case Look =>
        var event := it.Deref();
        seen := [event];
      case Advance =>
        it.Increment();
    }
  }

  /**
   Any client, however it interleaves `*it` and `++it`, sees the list of repeated parses: the cache
   is not observable.
   */
  method Drive(bytes: seq<byte>, ops: seq<Op>) returns (seen: seq<MidiEvent>)
    ensures seen == Observe(ParseAll(bytes), ops)
  {
    hide ParseOne;
    hide ParseAll;
    var it := new StreamIterator(bytes);
    seen := [];
    ghost var all := Observe(ParseAll(bytes), ops);
    var i := 0;
    while i < |ops|
      invariant 0 <= i <= |ops|
      invariant it.Valid() && fresh(it)
      invariant seen + Observe(it.Remaining(), ops[i..]) == all
    {
      assert ops[i..] == [ops[i]] + ops[i + 1..];
      var more := Perform(it, ops[i], ops[i + 1..]);
      assert seen + (more + Observe(it.Remaining(), ops[i + 1..])) == all;
      seen := seen + more;
      i := i + 1;
    }
  }

  /** The range-based for loop over a stream. */
  method Collect(bytes: seq<byte>) returns (events: seq<MidiEvent>)
    ensures events == ParseAll(bytes)
  {
    hide ParseOne;
    var it := new StreamIterator(bytes);
    events := [];
    while !it.IsEnd()
      invariant it.Valid() && it.bytes == bytes && fresh(it)
      invariant events + it.Remaining() == ParseAll(bytes)
      decreases |bytes| - it.pos
    {
      var event := it.Deref();
      events := events + [event];
      it.Increment();
    }
  }
}
