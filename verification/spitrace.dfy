/** The byte-level SPI bus the AVR driver talks through, as an abstract trace:
    every byte shifted out, every byte shifted in, bare clock pulses, reset
    pulses and delays are appended to a log, and the bytes the chip answers
    with come from a scripted stream. */
module SpiTrace {

  type Byte = bv8

  datatype Event =
    | Sent(b: Byte)      // one byte shifted out to the chip
    | Received(b: Byte)  // one byte shifted in from the chip
    | ExtraClock         // one clock pulse whose sampled bit is ignored
    | ResetPulse         // the bus-level reset of the target
    | WaitMs(ms: int)    // a delay, in milliseconds
    | WaitUs(us: int)    // a delay, in microseconds

  /** `log` is what happened on the bus so far; `miso` the bytes the chip
      will answer with, in order. */
  datatype Bus = Bus(log: seq<Event>, miso: seq<Byte>)

  /** A bus state together with a value read from it. */
  datatype Got<T> = Got(bus: Bus, val: T)

  /** The byte actually shifted out for an `int` argument: its low eight bits
      in two's complement. */
  function Lo8(x: int): (b: Byte)
    ensures b as int == x % 256
  {
    ByteCast(x % 256);
    (x % 256) as Byte
  }

  /** The byte whose value is `m`, counted up from zero. */
  function ByteOf(m: int): (b: Byte)
    requires 0 <= m < 256
    ensures b as int == m
  {
    if m == 0 then 0 else ByteOf(m - 1) + 1
  }

  /** Converting a value in `0 .. 255` to a byte keeps the value. */
  lemma ByteCast(m: int)
    requires 0 <= m < 256
    ensures (m as Byte) as int == m
  {
    assert ByteOf(m) == m as Byte;
  }

  /** The `i`-th scripted answer; once the script is exhausted the data line
      idles high and reads as `0xFF`. */
  function At(s: seq<Byte>, i: nat): Byte
  {
    if i < |s| then s[i] else 0xFF
  }

  /** The script after `n` answers have been consumed. */
  function Drop(s: seq<Byte>, n: nat): seq<Byte>
  {
    if n <= |s| then s[n..] else []
  }

  function Sends(bytes: seq<Byte>): (evs: seq<Event>)
    ensures |evs| == |bytes|
    ensures forall i :: 0 <= i < |bytes| ==> evs[i] == Sent(bytes[i])
  {
    if |bytes| == 0 then [] else [Sent(bytes[0])] + Sends(bytes[1..])
  }

  /** Shifts out `bytes`, in order. */
  function SendBytes(bus: Bus, bytes: seq<Byte>): Bus
  {
    bus.(log := bus.log + Sends(bytes))
  }

  /** Records an event that consumes no answer (a delay, a pulse). */
  function Mark(bus: Bus, e: Event): Bus
  {
    bus.(log := bus.log + [e])
  }

  /** Shifts in one byte: the next scripted answer. */
  function Receive(bus: Bus): Got<Byte>
  {
    var b := At(bus.miso, 0);
    Got(Bus(bus.log + [Received(b)], Drop(bus.miso, 1)), b)
  }

  lemma AtDrop(s: seq<Byte>, n: nat, i: nat)
    ensures At(Drop(s, n), i) == At(s, n + i)
  {
  }

  lemma DropDrop(s: seq<Byte>, a: nat, b: nat)
    ensures Drop(Drop(s, a), b) == Drop(s, a + b)
  {
  }

  lemma SendsAppend(a: seq<Byte>, b: seq<Byte>)
    ensures Sends(a + b) == Sends(a) + Sends(b)
  {
  }

  lemma AppendAssoc(a: seq<Event>, b: seq<Event>, c: seq<Event>)
    ensures a + (b + c) == a + b + c
  {
  }

  /** How many times `e` occurs in `log`. */
  function CountOf(log: seq<Event>, e: Event): nat
  {
    if |log| == 0 then 0 else (if log[0] == e then 1 else 0) + CountOf(log[1..], e)
  }

  lemma {:induction false} CountOfAppend(a: seq<Event>, b: seq<Event>, e: Event)
    ensures CountOf(a + b, e) == CountOf(a, e) + CountOf(b, e)
    decreases |a|
  {
    if |a| == 0 {
      assert a + b == b;
    } else {
      assert (a + b)[0] == a[0];
      assert (a + b)[1..] == a[1..] + b;
      CountOfAppend(a[1..], b, e);
    }
  }

  /** Shifting bytes out produces no event other than `Sent`. */
  lemma {:induction false} CountOfSends(bytes: seq<Byte>, e: Event)
    requires !e.Sent?
    ensures CountOf(Sends(bytes), e) == 0
    decreases |bytes|
  {
    if |bytes| > 0 {
      assert Sends(bytes)[1..] == Sends(bytes[1..]);
      CountOfSends(bytes[1..], e);
    }
  }

  lemma CountOfShort(a: Event, b: Event, e: Event)
    ensures CountOf([], e) == 0
    ensures CountOf([a], e) == if a == e then 1 else 0
    ensures CountOf([a, b], e) == (if a == e then 1 else 0) + (if b == e then 1 else 0)
  {
    assert [a][1..] == [];
    assert [a, b][1..] == [b];
    assert [b][1..] == [];
    assert CountOf([a, b], e) == (if a == e then 1 else 0) + CountOf([b], e);
  }
}
