/** The Microwire transport: bits clocked out on DI and in from DO under
    a software-driven clock, MSB-first words, the ready poll after a write,
    the bit delay per speed tier, and the address width of a memory size.

    The lines are modelled as a log of level changes, samples and delays,
    with the levels the chip drives on DO supplied by a scripted sequence
    (a missing chip leaves DO low, so the script reads `false` past its end). */
module MicroBus {
  import Bits

  datatype Signal =
    | Clock(high: bool)      // the clock line driven to a level
    | DataIn(high: bool)     // DI, host to chip, driven to a level
    | ResetLine(high: bool)  // the reset (chip select) line driven to a level
    | SampleOut(bit: bool)   // DO, chip to host, sampled
    | DelayUs(us: int)
    | DelayMs(ms: int)

  /** `log` is what happened on the lines; `dout` the levels the chip will
      present on DO at the next samples, in order. */
  datatype Wire = Wire(log: seq<Signal>, dout: seq<bool>)

  datatype Sampled<T> = Sampled(wire: Wire, val: T)

  function DoAt(s: seq<bool>, i: nat): bool
  {
    i < |s| && s[i]
  }

  function DropBits(s: seq<bool>, n: nat): seq<bool>
  {
    if n <= |s| then s[n..] else []
  }

  /** The first `n` samples of DO. */
  function TakeBits(s: seq<bool>, n: nat): (r: seq<bool>)
    ensures |r| == n && forall i :: 0 <= i < n ==> r[i] == DoAt(s, i)
  {
    seq(n, i requires 0 <= i < n => DoAt(s, i))
  }

  // ---- speed ----

  /** The speed tiers the bit delay distinguishes; every tier other than
      the three named ones gets the default. */
  datatype Speed = Turbo | Fast | Slow | OtherSpeed

  /** The bit delay of a tier, in microseconds: none for turbo, and under
      100 kHz (5 us) by default. */
  function SetDelay(s: Speed): (d: nat)
    ensures d <= 10
    ensures d == 0 <==> s == Turbo
    ensures s == Fast ==> d == 1
    ensures s == Slow ==> d == 10
    ensures s == OtherSpeed ==> d == 5
  {
    match s
    case Turbo => 0
    case Fast => 1
    case Slow => 10
    case OtherSpeed => 5
  }

  /** Distinct tiers get distinct delays, so the delay identifies the tier. */
  lemma DelaysDistinct(a: Speed, b: Speed)
    ensures a != b ==> SetDelay(a) != SetDelay(b)
  {
  }

  // ---- the line levels a log leaves, and what the chip sees ----

  datatype Lines = Lines(clk: bool, di: bool)

  function Apply(l: Lines, e: Signal): Lines
  {
    match e
    case Clock(h) => l.(clk := h)
    case DataIn(h) => l.(di := h)
    case _ => l
  }

  /** The clock and DI levels after `log`, from `l`. */
  function After(log: seq<Signal>, l: Lines): Lines
    decreases |log|
  {
    if |log| == 0 then l else After(log[1..], Apply(l, log[0]))
  }

  /** The DI level at each rising clock edge: the bits a Microwire chip
      latches. */
  function Latched(log: seq<Signal>, l: Lines): seq<bool>
    decreases |log|
  {
    if |log| == 0 then []
    else (if log[0] == Clock(true) && !l.clk then [l.di] else []) + Latched(log[1..], Apply(l, log[0]))
  }

  /** Every DO sample in `log` is taken while the clock is high. */
  predicate SampledHigh(log: seq<Signal>, l: Lines)
    decreases |log|
  {
    |log| == 0 || ((log[0].SampleOut? ==> l.clk) && SampledHigh(log[1..], Apply(l, log[0])))
  }

  /** The DO samples in `log`, in order. */
  function Samples(log: seq<Signal>): seq<bool>
    decreases |log|
  {
    if |log| == 0 then [] else (if log[0].SampleOut? then [log[0].bit] else []) + Samples(log[1..])
  }

  lemma {:induction false} AfterAppend(a: seq<Signal>, b: seq<Signal>, l: Lines)
    ensures After(a + b, l) == After(b, After(a, l))
    decreases |a|
  {
    if |a| == 0 {
      assert a + b == b;
    } else {
      assert (a + b)[1..] == a[1..] + b;
      AfterAppend(a[1..], b, Apply(l, a[0]));
    }
  }

  lemma {:induction false} LatchedAppend(a: seq<Signal>, b: seq<Signal>, l: Lines)
    ensures Latched(a + b, l) == Latched(a, l) + Latched(b, After(a, l))
    decreases |a|
  {
    if |a| == 0 {
      assert a + b == b;
    } else {
      assert (a + b)[0] == a[0];
      assert (a + b)[1..] == a[1..] + b;
      LatchedAppend(a[1..], b, Apply(l, a[0]));
    }
  }

  lemma {:induction false} SampledHighAppend(a: seq<Signal>, b: seq<Signal>, l: Lines)
    ensures SampledHigh(a + b, l) == (SampledHigh(a, l) && SampledHigh(b, After(a, l)))
    decreases |a|
  {
    if |a| == 0 {
      assert a + b == b;
    } else {
      assert (a + b)[0] == a[0];
      assert (a + b)[1..] == a[1..] + b;
      SampledHighAppend(a[1..], b, Apply(l, a[0]));
    }
  }

  lemma {:induction false} SamplesAppend(a: seq<Signal>, b: seq<Signal>)
    ensures Samples(a + b) == Samples(a) + Samples(b)
    decreases |a|
  {
    if |a| == 0 {
      assert a + b == b;
    } else {
      assert (a + b)[0] == a[0];
      assert (a + b)[1..] == a[1..] + b;
      SamplesAppend(a[1..], b);
    }
  }

  // ---- bits ----

  /** Clock low, drive DI, wait, raise the clock (the chip latches DI),
      wait, clock low. */
  function BitEvents(b: bool, d: int): seq<Signal>
  {
    [Clock(false), DataIn(b), DelayUs(d), Clock(true), DelayUs(d), Clock(false)]
  }

  /** Clock low, wait, raise the clock, wait, sample DO, clock low. */
  function SampleEvents(b: bool, d: int): seq<Signal>
  {
    [Clock(false), DelayUs(d), Clock(true), DelayUs(d), SampleOut(b), Clock(false)]
  }

  function SendDataBit(w: Wire, d: int, b: bool): Wire
  {
    w.(log := w.log + BitEvents(b, d))
  }

  function RecDataBit(w: Wire, d: int): (r: Sampled<bool>)
    ensures r.val == DoAt(w.dout, 0)
    ensures r.wire == Wire(w.log + SampleEvents(r.val, d), DropBits(w.dout, 1))
  {
    var b := DoAt(w.dout, 0);
    Sampled(Wire(w.log + SampleEvents(b, d), DropBits(w.dout, 1)), b)
  }

  lemma UnfoldAfter(s: seq<Signal>, l: Lines)
    requires |s| > 0
    ensures After(s, l) == After(s[1..], Apply(l, s[0]))
  {
  }

  lemma UnfoldLatched(s: seq<Signal>, l: Lines)
    requires |s| > 0
    ensures Latched(s, l) == (if s[0] == Clock(true) && !l.clk then [l.di] else []) + Latched(s[1..], Apply(l, s[0]))
  {
  }

  lemma UnfoldSampledHigh(s: seq<Signal>, l: Lines)
    requires |s| > 0
    ensures SampledHigh(s, l) == ((s[0].SampleOut? ==> l.clk) && SampledHigh(s[1..], Apply(l, s[0])))
  {
  }

  lemma UnfoldSamples(s: seq<Signal>)
    requires |s| > 0
    ensures Samples(s) == (if s[0].SampleOut? then [s[0].bit] else []) + Samples(s[1..])
  {
  }

  /** The observers over a six-event frame, one event at a time. */
  lemma AfterSix(s: seq<Signal>, l: Lines)
    requires |s| == 6
    ensures After(s, l) == Apply(Apply(Apply(Apply(Apply(Apply(l, s[0]), s[1]), s[2]), s[3]), s[4]), s[5])
  {
    var l1 := Apply(l, s[0]); var l2 := Apply(l1, s[1]); var l3 := Apply(l2, s[2]);
    var l4 := Apply(l3, s[3]); var l5 := Apply(l4, s[4]);
    assert s[1..][0] == s[1] && s[1..][1..] == s[2..];
    assert s[2..][0] == s[2] && s[2..][1..] == s[3..];
    assert s[3..][0] == s[3] && s[3..][1..] == s[4..];
    assert s[4..][0] == s[4] && s[4..][1..] == s[5..];
    assert s[5..][0] == s[5] && s[5..][1..] == [];
    UnfoldAfter(s, l);
    UnfoldAfter(s[1..], l1);
    UnfoldAfter(s[2..], l2);
    UnfoldAfter(s[3..], l3);
    UnfoldAfter(s[4..], l4);
    UnfoldAfter(s[5..], l5);
  }

  /** Sending a bit: the chip latches exactly that bit, on the one rising
      edge, and the clock is left low with DI at the bit. */
  lemma BitLatches(b: bool, d: int, l: Lines)
    ensures Latched(BitEvents(b, d), l) == [b]
    ensures After(BitEvents(b, d), l) == Lines(false, b)
    ensures Samples(BitEvents(b, d)) == []
  {
    var s := BitEvents(b, d);
    AfterSix(s, l);
    var l1 := l.(clk := false);
    var l2 := Lines(false, b);
    var l4 := Lines(true, b);
    assert s[1..][1..] == s[2..] && s[2..][1..] == s[3..] && s[3..][1..] == s[4..];
    assert s[4..][1..] == s[5..] && s[5..][1..] == [];
    UnfoldLatched(s[5..], l4);
    UnfoldLatched(s[4..], l4);
    UnfoldLatched(s[3..], l2);
    UnfoldLatched(s[2..], l2);
    UnfoldLatched(s[1..], l1);
    UnfoldLatched(s, l);
    UnfoldSamples(s[5..]);
    UnfoldSamples(s[4..]);
    UnfoldSamples(s[3..]);
    UnfoldSamples(s[2..]);
    UnfoldSamples(s[1..]);
    UnfoldSamples(s);
  }

  /** Receiving a bit: DO is sampled once, while the clock is high, and the
      clock is left low with DI untouched. */
  lemma SampleIsHigh(b: bool, d: int, l: Lines)
    ensures SampledHigh(SampleEvents(b, d), l)
    ensures Samples(SampleEvents(b, d)) == [b]
    ensures After(SampleEvents(b, d), l) == l.(clk := false)
  {
    var s := SampleEvents(b, d);
    AfterSix(s, l);
    var l1 := l.(clk := false);
    var l3 := l.(clk := true);
    assert s[1..][1..] == s[2..] && s[2..][1..] == s[3..] && s[3..][1..] == s[4..];
    assert s[4..][1..] == s[5..] && s[5..][1..] == [];
    UnfoldSampledHigh(s[5..], l3);
    UnfoldSampledHigh(s[4..], l3);
    UnfoldSampledHigh(s[3..], l3);
    UnfoldSampledHigh(s[2..], l1);
    UnfoldSampledHigh(s[1..], l1);
    UnfoldSampledHigh(s, l);
    UnfoldSamples(s[5..]);
    UnfoldSamples(s[4..]);
    UnfoldSamples(s[3..]);
    UnfoldSamples(s[2..]);
    UnfoldSamples(s[1..]);
    UnfoldSamples(s);
  }

  // ---- words ----

  /** The bit frames of `bits`, in order. */
  function WordEvents(bits: seq<bool>, d: int): seq<Signal>
    decreases |bits|
  {
    if |bits| == 0 then [] else WordEvents(bits[..|bits| - 1], d) + BitEvents(bits[|bits| - 1], d)
  }

  /** `SendDataWord(wo, wlen)`: clock low, bits `wlen-1` down to `0` of `wo`,
      then DI low. */
  function SendWordEvents(wo: int, wlen: int, d: int): seq<Signal>
  {
    [Clock(false)] + WordEvents(Bits.ToBitsMsb(wo, Bits.Iterations(wlen)), d) + [DataIn(false)]
  }

  lemma WordStep(bits: seq<bool>, i: nat, d: int)
    requires i < |bits|
    ensures WordEvents(bits[..i + 1], d) == WordEvents(bits[..i], d) + BitEvents(bits[i], d)
  {
    assert bits[..i + 1][..i] == bits[..i];
  }

  /** Sends the low `wlen` bits of `wo`, most significant first. */
  method SendDataWord(w: Wire, d: int, wo: int, wlen: int) returns (r: Wire)
    ensures r == w.(log := w.log + SendWordEvents(wo, wlen, d))
  {
    var n := Bits.Iterations(wlen);
    ghost var bits := Bits.ToBitsMsb(wo, n);
    r := w.(log := w.log + [Clock(false)]);
    var i := 0;
    while i < wlen
      invariant 0 <= i <= n
      invariant r == w.(log := w.log + [Clock(false)] + WordEvents(bits[..i], d))
    {
      var k := wlen - 1 - i;  // the bit position, counting down
      Bits.ToBitsMsbIndex(wo, n, i);
      WordStep(bits, i, d);
      r := SendDataBit(r, d, Bits.Bit(wo, k));
      i := i + 1;
    }
    assert bits[..n] == bits;
    r := r.(log := r.log + [DataIn(false)]);
  }

  /** What the chip latches from a word frame is the word's bits, most
      significant first; the frame leaves the clock and DI low. */
  lemma {:induction false} WordLatches(bits: seq<bool>, d: int, l: Lines)
    requires !l.clk
    ensures Latched(WordEvents(bits, d), l) == bits
    ensures !After(WordEvents(bits, d), l).clk
    ensures Samples(WordEvents(bits, d)) == []
    decreases |bits|
  {
    if |bits| > 0 {
      var init := bits[..|bits| - 1];
      WordLatches(init, d, l);
      AfterAppend(WordEvents(init, d), BitEvents(bits[|bits| - 1], d), l);
      LatchedAppend(WordEvents(init, d), BitEvents(bits[|bits| - 1], d), l);
      SamplesAppend(WordEvents(init, d), BitEvents(bits[|bits| - 1], d));
      BitLatches(bits[|bits| - 1], d, After(WordEvents(init, d), l));
      assert init + [bits[|bits| - 1]] == bits;
    }
  }

  /** `SendDataWord` delivers bit `wlen-1-i` of `wo` at the `i`-th rising
      edge, and reassembling what the chip latched gives `wo mod 2^wlen`. */
  lemma SendWordDelivers(wo: int, wlen: int, d: int, l: Lines)
    ensures Latched(SendWordEvents(wo, wlen, d), l) == Bits.ToBitsMsb(wo, Bits.Iterations(wlen))
    ensures Bits.FromBitsMsb(Latched(SendWordEvents(wo, wlen, d), l)) == wo % Bits.Pow2(Bits.Iterations(wlen))
    ensures After(SendWordEvents(wo, wlen, d), l) == Lines(false, false)
  {
    var bits := Bits.ToBitsMsb(wo, Bits.Iterations(wlen));
    var l1 := Apply(l, Clock(false));
    assert Latched([Clock(false)], l) == [] && After([Clock(false)], l) == l1 by {
      assert [Clock(false)][1..] == [];
    }
    AfterAppend([Clock(false)], WordEvents(bits, d), l);
    LatchedAppend([Clock(false)], WordEvents(bits, d), l);
    WordLatches(bits, d, l1);
    var l2 := After(WordEvents(bits, d), l1);
    assert Latched([DataIn(false)], l2) == [] && After([DataIn(false)], l2) == l2.(di := false) by {
      assert [DataIn(false)][1..] == [];
    }
    AfterAppend([Clock(false)] + WordEvents(bits, d), [DataIn(false)], l);
    LatchedAppend([Clock(false)] + WordEvents(bits, d), [DataIn(false)], l);
    Bits.BitsMsbRoundTrip(wo, Bits.Iterations(wlen));
  }

  /** The sample frames of `samples`, in order. */
  function RecWordEvents(samples: seq<bool>, d: int): seq<Signal>
    decreases |samples|
  {
    if |samples| == 0 then [] else RecWordEvents(samples[..|samples| - 1], d) + SampleEvents(samples[|samples| - 1], d)
  }

  /** The lines after `i` of the bits of a received word. */
  function Receiving(w: Wire, d: int, i: nat): Wire
  {
    Wire(w.log + [Clock(false)] + RecWordEvents(TakeBits(w.dout, i), d), DropBits(w.dout, i))
  }

  lemma RecAdvances(w: Wire, d: int, i: nat)
    ensures RecDataBit(Receiving(w, d, i), d) == Sampled(Receiving(w, d, i + 1), DoAt(w.dout, i))
  {
    var t := TakeBits(w.dout, i + 1);
    assert t[..i] == TakeBits(w.dout, i);
    assert DoAt(DropBits(w.dout, i), 0) == DoAt(w.dout, i);
    assert DropBits(DropBits(w.dout, i), 1) == DropBits(w.dout, i + 1);
  }

  lemma ValueStep(s: seq<bool>, i: nat, n: nat)
    requires i < n <= |s|
    ensures Bits.FromBitsMsb(s[..i + 1]) * Bits.Pow2(n - i - 1)
            == Bits.FromBitsMsb(s[..i]) * Bits.Pow2(n - i) + (if s[i] then Bits.Pow2(n - 1 - i) else 0)
  {
    assert s[..i + 1] == s[..i] + [s[i]];
    Bits.FromBitsMsbSnoc(s[..i], s[i]);
    var v, p := Bits.FromBitsMsb(s[..i]), Bits.Pow2(n - i - 1);
    assert Bits.Pow2(n - i) == 2 * p;
    ScaleStep(v, if s[i] then 1 else 0, p);
  }

  lemma ScaleStep(v: int, c: int, p: int)
    ensures (2 * v + c) * p == v * (2 * p) + c * p
  {
  }

  /** Receives a `wlen`-bit word, most significant bit first: the bit
      sampled at step `i` sets bit `wlen-1-i` of the result. */
  method RecDataWord(w: Wire, d: int, wlen: int) returns (r: Wire, val: int)
    ensures val == Bits.FromBitsMsb(TakeBits(w.dout, Bits.Iterations(wlen)))
    ensures r == Receiving(w, d, Bits.Iterations(wlen))
  {
    var n := Bits.Iterations(wlen);
    ghost var s := TakeBits(w.dout, n);
    r, val := w.(log := w.log + [Clock(false)]), 0;
    assert TakeBits(w.dout, 0) == [];
    assert s[..0] == [];
    var i := 0;
    while i < wlen
      invariant 0 <= i <= n
      invariant r == Receiving(w, d, i)
      invariant val == Bits.FromBitsMsb(s[..i]) * Bits.Pow2(n - i)
    {
      var k := wlen - 1 - i;  // the bit position, counting down
      RecAdvances(w, d, i);
      ValueStep(s, i, n);
      var g := RecDataBit(r, d);
      r := g.wire;
      if g.val {
        // bit `k` of `val` is still clear, so setting it adds `2^k`
        val := val + Bits.Pow2(k);
      }
      i := i + 1;
    }
    assert s[..n] == s;
  }

  /** Every DO sample of a received word is taken while the clock is high,
      and the samples are exactly the scripted DO levels. */
  lemma {:induction false} RecWordSamples(samples: seq<bool>, d: int, l: Lines)
    ensures SampledHigh(RecWordEvents(samples, d), l)
    ensures Samples(RecWordEvents(samples, d)) == samples
    decreases |samples|
  {
    if |samples| > 0 {
      var init := samples[..|samples| - 1];
      RecWordSamples(init, d, l);
      SampledHighAppend(RecWordEvents(init, d), SampleEvents(samples[|samples| - 1], d), l);
      SamplesAppend(RecWordEvents(init, d), SampleEvents(samples[|samples| - 1], d));
      SampleIsHigh(samples[|samples| - 1], d, After(RecWordEvents(init, d), l));
      assert init + [samples[|samples| - 1]] == samples;
    }
  }

  /** Loopback: when DO returns the bits a `SendDataWord(wo, wlen)` latched,
      `RecDataWord(wlen)` yields `wo mod 2^wlen`. */
  lemma Loopback(wo: int, wlen: int, d: int, l: Lines, rest: seq<bool>)
    ensures Bits.FromBitsMsb(TakeBits(Latched(SendWordEvents(wo, wlen, d), l) + rest, Bits.Iterations(wlen)))
            == wo % Bits.Pow2(Bits.Iterations(wlen))
  {
    SendWordDelivers(wo, wlen, d, l);
    var bits := Latched(SendWordEvents(wo, wlen, d), l);
    assert TakeBits(bits + rest, Bits.Iterations(wlen)) == bits;
  }

  // ---- the ready poll after a write ----

  /** Reset (chip select) pulsed low then high, clock low. */
  function ReadyPrelude(d: int): seq<Signal>
  {
    [Clock(false), ResetLine(false), DelayUs(d), ResetLine(true), DelayUs(d), Clock(false)]
  }

  /** The first sample from `from` to `t - 1` showing DO high (ready), or `t`. */
  function FirstHigh(dout: seq<bool>, t: nat, from: nat): (k: nat)
    requires from <= t
    ensures from <= k <= t
    ensures k < t ==> DoAt(dout, k)
    ensures forall i :: from <= i < k ==> !DoAt(dout, i)
    decreases t - from
  {
    if from == t || DoAt(dout, from) then from else FirstHigh(dout, t, from + 1)
  }

  /** The counter `k` of `for (k = timeout; k > 0 && !DO; k--)` when the
      loop ends. */
  function PollEnd(dout: seq<bool>, timeout: int): int
  {
    if timeout <= 0 then timeout else timeout - FirstHigh(dout, timeout, 0)
  }

  /** How many times that loop samples DO. */
  function PollSamples(dout: seq<bool>, timeout: int): nat
  {
    if timeout <= 0 then 0
    else var j := FirstHigh(dout, timeout, 0); if j < timeout then j + 1 else timeout
  }

  /** `n` samples of DO, with a 1 us wait after each low one. */
  function PollEvents(dout: seq<bool>, n: nat): seq<Signal>
  {
    if n == 0 then []
    else PollEvents(dout, n - 1) + [SampleOut(DoAt(dout, n - 1))] + (if DoAt(dout, n - 1) then [] else [DelayUs(1)])
  }

  function Polling(w: Wire, d: int, i: nat): Wire
  {
    Wire(w.log + ReadyPrelude(d) + PollEvents(w.dout, i), DropBits(w.dout, i))
  }

  /** The result `k ? OK : -1` as written: any non-zero final counter is
      success. */
  predicate ReadyAsWritten(dout: seq<bool>, timeout: int)
  {
    PollEnd(dout, timeout) != 0
  }

  /** The result as intended: success only when the counter is still
      positive, i.e. DO was seen high. */
  predicate ReadyIntended(dout: seq<bool>, timeout: int)
  {
    PollEnd(dout, timeout) > 0
  }

  /** Samples DO up to `timeout` times, one microsecond apart, until it is
      high; returns the final counter. */
  method PollReady(w: Wire, d: int, timeout: int) returns (r: Wire, k: int)
    ensures k == PollEnd(w.dout, timeout)
    ensures r == Polling(w, d, PollSamples(w.dout, timeout))
  {
    r := w.(log := w.log + ReadyPrelude(d));
    assert r == Polling(w, d, 0);
    k := timeout;
    var high := false;
    ghost var i: nat := 0;
    while k > 0 && !high
      invariant timeout > 0 ==> 0 <= i <= timeout && k == timeout - i + (if high then 1 else 0)
      invariant timeout <= 0 ==> k == timeout && i == 0 && !high
      invariant r == Polling(w, d, i)
      invariant forall j :: 0 <= j < i && (!high || j < i - 1) ==> !DoAt(w.dout, j)
      invariant high ==> i > 0 && DoAt(w.dout, i - 1)
      decreases k, if high then 0 else 1
    {
      var b := DoAt(r.dout, 0);
      assert b == DoAt(w.dout, i);
      assert DropBits(DropBits(w.dout, i), 1) == DropBits(w.dout, i + 1);
      r := Wire(r.log + [SampleOut(b)], DropBits(r.dout, 1));
      high := b;
      if !high {
        r := r.(log := r.log + [DelayUs(1)]);
        k := k - 1;
      }
      i := i + 1;
    }
    if high {
      FirstHighIs(w.dout, timeout, i - 1);
    } else if timeout > 0 {
      FirstHighIs(w.dout, timeout, timeout);
    }
  }

  lemma FirstHighIs(dout: seq<bool>, t: nat, k: nat)
    requires k <= t
    requires k < t ==> DoAt(dout, k)
    requires forall i :: 0 <= i < k ==> !DoAt(dout, i)
    ensures FirstHigh(dout, t, 0) == k
  {
  }

  /** `WaitReadyAfterWrite(timeout)` as written. */
  method WaitReadyAfterWrite(w: Wire, d: int, timeout: int) returns (r: Wire, ok: bool)
    ensures ok == ReadyAsWritten(w.dout, timeout)
    ensures r == Polling(w, d, PollSamples(w.dout, timeout))
  {
    var k;
    r, k := PollReady(w, d, timeout);
    ok := k != 0;
  }

  /** The wait with the intended result. */
  method WaitReadyIntended(w: Wire, d: int, timeout: int) returns (r: Wire, ok: bool)
    ensures ok == ReadyIntended(w.dout, timeout)
    ensures ok <==> exists i :: 0 <= i < timeout && DoAt(w.dout, i)
    ensures r == Polling(w, d, PollSamples(w.dout, timeout))
  {
    var k;
    r, k := PollReady(w, d, timeout);
    ok := k > 0;
    ReadyIntendedIff(w.dout, timeout);
  }

  /** The intended result is success exactly when DO is high at one of the
      first `timeout` samples, and the poll never samples more than
      `timeout` times nor past the first high sample. */
  lemma ReadyIntendedIff(dout: seq<bool>, timeout: int)
    ensures ReadyIntended(dout, timeout) <==> exists i :: 0 <= i < timeout && DoAt(dout, i)
    ensures PollSamples(dout, timeout) <= Bits.Iterations(timeout)
    ensures forall i :: 0 <= i < PollSamples(dout, timeout) - 1 ==> !DoAt(dout, i)
  {
    if timeout > 0 && FirstHigh(dout, timeout, 0) == timeout {
      assert forall i :: 0 <= i < timeout ==> !DoAt(dout, i);
    }
  }

  /** As written, the two results agree for every non-negative timeout. */
  lemma AsWrittenAgreesForNonNegative(dout: seq<bool>, timeout: int)
    requires timeout >= 0
    ensures ReadyAsWritten(dout, timeout) == ReadyIntended(dout, timeout)
  {
  }

  /** As written, a negative timeout reports the chip ready without a single
      sample of DO, even when DO would never go high. */
  lemma NegativeTimeoutReportsReady(timeout: int)
    requires timeout < 0
    ensures ReadyAsWritten([], timeout)
    ensures PollSamples([], timeout) == 0
    ensures !ReadyIntended([], timeout)
  {
  }

  // ---- address width ----

  /** `k` is the highest of bits 15 down to 1 set in `m`, or 0 when none is. */
  predicate IsTopBit(m: int, k: int)
  {
    0 <= k <= 15 && (k >= 1 ==> Bits.Bit(m, k)) && forall j :: k < j <= 15 ==> !Bits.Bit(m, j)
  }

  lemma TopBitUnique(m: int, a: int, b: int)
    requires IsTopBit(m, a) && IsTopBit(m, b)
    ensures a == b
  {
  }

  /** The address width of a memory of `memSize` units: -1 for a
      non-positive size, else one more than the position of the highest of
      bits 15..1 set in `memSize - 1`, plus one when `org` selects the
      byte organisation. */
  method CalcAddressSize(memSize: int, org: int) returns (r: int)
    ensures memSize <= 0 <==> r == -1
    ensures memSize > 0 ==> 1 <= r <= 17
    ensures memSize > 0 ==> IsTopBit(memSize - 1, r - 1 - (if org != 0 then 1 else 0))
  {
    if memSize <= 0 {
      return -1;
    }
    var m := memSize - 1;
    var k := 15;
    while k > 0 && !Bits.Bit(m, k)
      invariant 0 <= k <= 15
      invariant forall j :: k < j <= 15 ==> !Bits.Bit(m, j)
    {
      k := k - 1;
    }
    if org != 0 {
      k := k + 1;
    }
    r := k + 1;
  }

  lemma {:induction false} BitClearBelow(m: nat, n: nat)
    requires m < Bits.Pow2(n + 1) && !Bits.Bit(m, n)
    ensures m < Bits.Pow2(n)
    decreases n
  {
    if n > 0 {
      BitClearBelow(m / 2, n - 1);
    }
  }

  lemma {:induction false} BitSetAbove(m: nat, k: nat)
    requires Bits.Bit(m, k)
    ensures m >= Bits.Pow2(k)
    decreases k
  {
    if k > 0 {
      BitSetAbove(m / 2, k - 1);
    }
  }

  lemma {:induction false} TopClear(m: nat, top: nat, k: nat)
    requires k <= top && m < Bits.Pow2(top + 1)
    requires forall j :: k < j <= top ==> !Bits.Bit(m, j)
    ensures m < Bits.Pow2(k + 1)
    decreases top - k
  {
    if k < top {
      BitClearBelow(m, top);
      TopClear(m, top - 1, k);
    }
  }

  lemma Pow2Is16()
    ensures Bits.Pow2(16) == 65536
  {
    assert Bits.Pow2(4) == 16;
    assert Bits.Pow2(8) == 256;
    assert Bits.Pow2(12) == 4096;
  }

  /** For a memory of 2 to 65536 units in word organisation, the computed
      width `r` is the least that addresses every unit: `2^(r-1) < memSize <= 2^r`. */
  lemma {:induction false} AddressWidthSuffices(memSize: int, k: nat)
    requires 2 <= memSize <= 65536
    requires IsTopBit(memSize - 1, k)
    ensures Bits.Pow2(k) < memSize <= Bits.Pow2(k + 1)
  {
    var m := memSize - 1;
    Pow2Is16();
    TopClear(m, 15, k);
    if k >= 1 {
      BitSetAbove(m, k);
    } else {
      assert m < 2;
    }
  }
}
