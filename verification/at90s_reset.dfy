/** The programming-enable handshake that follows a reset of the target, and
    the chip erase built on it.

    Outside AT90S1200 mode the driver makes up to four attempts, each opening
    with a reset pulse and the settle delay, and each sending up to 32 probes
    `(0xAC, 0x53, ?, 0)`; a synchronised chip echoes `0x53` in the third byte.
    A probe answered with anything else is followed by one bare clock pulse,
    which shifts the chip's bit framing by one. The handshake succeeds at the
    first echo and stops probing there.

    In AT90S1200 mode (the chip does not echo) each of up to four attempts
    sends the enable frame, ignores its answer, and reads signature byte 0;
    the Atmel vendor code `0x1E` means success. */
module At90sReset {
  import opened SpiTrace
  import opened At90sConfig
  import At90sFrames
  import Bits

  const Attempts: nat := 4
  const ProbesPerAttempt: nat := 32
  const MaxProbes: nat := 128
  const Echo: Byte := 0x53
  const AtmelVendor: Byte := 0x1E

  function EnableFrame(): seq<Byte>
  {
    [At90sFrames.EnableProg0, At90sFrames.EnableProg1]
  }

  /** The reset pulse and settle delay that open every attempt. */
  function PulseEvents(delay: int): seq<Event>
  {
    [ResetPulse, WaitMs(delay)]
  }

  // ---- the echo handshake ----

  /** One probe answered with `b`: the enable frame, the answer, the trailing
      zero, and one bare clock pulse unless `b` is the echo. */
  function ProbeEvents(b: Byte): seq<Event>
  {
    Sends(EnableFrame()) + [Received(b)] + Sends([0]) + (if b != Echo then [ExtraClock] else [])
  }

  /** One probe on the bus: the answer is the next scripted byte. */
  function Probe(bus: Bus): (r: Got<Byte>)
    ensures r.val == At(bus.miso, 0)
    ensures r.bus == Bus(bus.log + ProbeEvents(r.val), Drop(bus.miso, 1))
  {
    var g := Receive(SendBytes(bus, EnableFrame()));
    var after := SendBytes(g.bus, [0]);
    Got(if g.val != Echo then Mark(after, ExtraClock) else after, g.val)
  }

  /** The events of the first `n` probes, answered in turn by `miso`; probe
      `i` opens a new attempt exactly when `i` is a multiple of 32. */
  function Probes(miso: seq<Byte>, delay: int, n: nat): seq<Event>
  {
    if n == 0 then []
    else Probes(miso, delay, n - 1)
         + (if (n - 1) % ProbesPerAttempt == 0 then PulseEvents(delay) else [])
         + ProbeEvents(At(miso, n - 1))
  }

  /** The index of the first echo among the answers `from .. 127`, or 128. */
  function FirstEcho(miso: seq<Byte>, from: nat): (k: nat)
    requires from <= MaxProbes
    ensures from <= k <= MaxProbes
    ensures k < MaxProbes ==> At(miso, k) == Echo
    ensures forall i :: from <= i < k ==> At(miso, i) != Echo
    decreases MaxProbes - from
  {
    if from == MaxProbes || At(miso, from) == Echo then from else FirstEcho(miso, from + 1)
  }

  /** The number of probes the handshake makes: through the first echo, or
      all 128. */
  function ProbeCount(miso: seq<Byte>): nat
  {
    var k := FirstEcho(miso, 0);
    if k < MaxProbes then k + 1 else MaxProbes
  }

  // ---- the AT90S1200 handshake ----

  /** One attempt answered with `a` to the enable frame (ignored) and `c` to
      the signature read. */
  function AttemptEvents(delay: int, a: Byte, c: Byte): seq<Event>
  {
    PulseEvents(delay) + Sends(EnableFrame()) + [Received(a)] + Sends([0])
    + Sends(At90sFrames.DeviceCodeFrame(0)) + [Received(c)]
  }

  /** One attempt on the bus; its value is the signature byte read. */
  function Try1200(bus: Bus, delay: int): (r: Got<Byte>)
    ensures r.val == At(bus.miso, 1)
    ensures r.bus == Bus(bus.log + AttemptEvents(delay, At(bus.miso, 0), r.val), Drop(bus.miso, 2))
  {
    var g := Receive(SendBytes(Mark(Mark(bus, ResetPulse), WaitMs(delay)), EnableFrame()));
    var c := At90sFrames.ReadDeviceCode(SendBytes(g.bus, [0]), 0);
    AtDrop(bus.miso, 1, 0);
    DropDrop(bus.miso, 1, 1);
    AttemptLog(bus.log, delay, g.val, c.val);
    c
  }

  lemma AttemptLog(log: seq<Event>, delay: int, a: Byte, c: Byte)
    ensures log + [ResetPulse] + [WaitMs(delay)] + Sends(EnableFrame()) + [Received(a)] + Sends([0])
            + Sends(At90sFrames.DeviceCodeFrame(0)) + [Received(c)]
            == log + AttemptEvents(delay, a, c)
  {
    var p, s1, s2, s3 := PulseEvents(delay), Sends(EnableFrame()), Sends([0]), Sends(At90sFrames.DeviceCodeFrame(0));
    assert log + [ResetPulse] + [WaitMs(delay)] == log + p;
    AppendAssoc(log, p, s1);
    AppendAssoc(log, p + s1, [Received(a)]);
    AppendAssoc(log, p + s1 + [Received(a)], s2);
    AppendAssoc(log, p + s1 + [Received(a)] + s2, s3);
    AppendAssoc(log, p + s1 + [Received(a)] + s2 + s3, [Received(c)]);
  }

  /** Attempt `k`: the answers `2k` (ignored) and `2k + 1` (signature byte 0). */
  function Attempt1200(miso: seq<Byte>, delay: int, k: nat): seq<Event>
  {
    AttemptEvents(delay, At(miso, 2 * k), At(miso, 2 * k + 1))
  }

  function Attempts1200(miso: seq<Byte>, delay: int, n: nat): seq<Event>
  {
    if n == 0 then [] else Attempts1200(miso, delay, n - 1) + Attempt1200(miso, delay, n - 1)
  }

  /** The first attempt `from .. 3` that reads the vendor code, or 4. */
  function FirstSignature(miso: seq<Byte>, from: nat): (k: nat)
    requires from <= Attempts
    ensures from <= k <= Attempts
    ensures k < Attempts ==> At(miso, 2 * k + 1) == AtmelVendor
    ensures forall i :: from <= i < k ==> At(miso, 2 * i + 1) != AtmelVendor
    decreases Attempts - from
  {
    if from == Attempts || At(miso, 2 * from + 1) == AtmelVendor then from
    else FirstSignature(miso, from + 1)
  }

  function AttemptCount1200(miso: seq<Byte>): nat
  {
    var k := FirstSignature(miso, 0);
    if k < Attempts then k + 1 else Attempts
  }

  // ---- the reset as a whole ----

  /** The events the reset appends, for the answers `miso`. */
  function ResetLog(miso: seq<Byte>, cfg: Config): seq<Event>
  {
    if cfg.old1200mode then Attempts1200(miso, cfg.resetDelay, AttemptCount1200(miso))
    else Probes(miso, cfg.resetDelay, ProbeCount(miso))
  }

  /** How many answers the reset consumes. */
  function ResetReads(miso: seq<Byte>, cfg: Config): nat
  {
    if cfg.old1200mode then 2 * AttemptCount1200(miso) else ProbeCount(miso)
  }

  /** Whether the reset reports success (the source's `1`). */
  predicate ResetOk(miso: seq<Byte>, cfg: Config)
  {
    if cfg.old1200mode then FirstSignature(miso, 0) < Attempts
    else FirstEcho(miso, 0) < MaxProbes
  }

  function ResetResult(bus: Bus, cfg: Config): Got<bool>
  {
    Got(Bus(bus.log + ResetLog(bus.miso, cfg), Drop(bus.miso, ResetReads(bus.miso, cfg))),
        ResetOk(bus.miso, cfg))
  }

  /** The handshake, as the driver runs it: nested bounded loops. */
  method Reset(bus: Bus, cfg: Config) returns (r: Bus, ok: bool)
    ensures Got(r, ok) == ResetResult(bus, cfg)
  {
    if cfg.old1200mode {
      r, ok := Reset1200(bus, cfg.resetDelay);
    } else {
      r, ok := ResetEcho(bus, cfg.resetDelay);
    }
  }

  /** The bus after the first `t` probes of the handshake. */
  function Handshake(bus: Bus, delay: int, t: nat): Bus
  {
    Bus(bus.log + Probes(bus.miso, delay, t), Drop(bus.miso, t))
  }

  /** A reset pulse and the settle delay. */
  function Pulsed(bus: Bus, delay: int): Bus
  {
    Mark(Mark(bus, ResetPulse), WaitMs(delay))
  }

  method ResetEcho(bus: Bus, delay: int) returns (r: Bus, ok: bool)
    ensures r == Handshake(bus, delay, ProbeCount(bus.miso))
    ensures ok == (FirstEcho(bus.miso, 0) < MaxProbes)
  {
    r, ok := bus, false;
    assert r == Handshake(bus, delay, 0);
    var j := 0;
    while j < Attempts
      invariant 0 <= j <= Attempts
      invariant r == Handshake(bus, delay, ProbesPerAttempt * j)
      invariant forall i :: 0 <= i < ProbesPerAttempt * j ==> At(bus.miso, i) != Echo
    {
      ghost var t;
      r, ok, t := ProbeAttempt(bus, delay, j, r);
      if ok {
        return;
      }
      j := j + 1;
    }
    FirstEchoIs(bus.miso, MaxProbes);
  }

  /** Attempt `j` of the handshake: the reset pulse, then up to 32 probes,
      stopping at the first echo. `t` counts the probes made so far. */
  method ProbeAttempt(bus: Bus, delay: int, j: nat, r0: Bus) returns (r: Bus, ok: bool, ghost t: nat)
    requires j < Attempts
    requires r0 == Handshake(bus, delay, ProbesPerAttempt * j)
    requires forall i :: 0 <= i < ProbesPerAttempt * j ==> At(bus.miso, i) != Echo
    ensures r == Handshake(bus, delay, t)
    ensures !ok ==> t == ProbesPerAttempt * (j + 1)
    ensures ok ==> t == FirstEcho(bus.miso, 0) + 1 && t <= MaxProbes
    ensures !ok ==> forall i :: 0 <= i < t ==> At(bus.miso, i) != Echo
  {
    r, ok, t := Pulsed(r0, delay), false, ProbesPerAttempt * j;
    var k := 0;
    while k < ProbesPerAttempt
      invariant 0 <= k <= ProbesPerAttempt
      invariant t == ProbesPerAttempt * j + k
      invariant r == ProbeStart(bus, delay, t, k)
      invariant forall i :: 0 <= i < t ==> At(bus.miso, i) != Echo
    {
      ProbeAdvances(bus, delay, t, j, k);
      var g := Probe(r);
      r := g.bus;
      if g.val == Echo {
        FirstEchoIs(bus.miso, t);
        ok, t := true, t + 1;
        return;
      }
      t := t + 1;
      k := k + 1;
    }
  }

  /** The bus before probe `t`, the `k`-th of its attempt: the first probe
      of an attempt follows the reset pulse. */
  function ProbeStart(bus: Bus, delay: int, t: nat, k: nat): Bus
  {
    if k == 0 then Pulsed(Handshake(bus, delay, t), delay) else Handshake(bus, delay, t)
  }

  /** Probe `t = 32j + k` continues the handshake, opening with the reset
      pulse exactly when `k = 0`. */
  lemma ProbeAdvances(bus: Bus, delay: int, t: nat, j: nat, k: nat)
    requires t == ProbesPerAttempt * j + k && k < ProbesPerAttempt
    ensures Probe(ProbeStart(bus, delay, t, k)) == Got(Handshake(bus, delay, t + 1), At(bus.miso, t))
  {
    Bits.DivModUnique(t, ProbesPerAttempt, j, k);
    AtDrop(bus.miso, t, 0);
    DropDrop(bus.miso, t, 1);
    var pulse := if k == 0 then PulseEvents(delay) else [];
    var start := if k == 0 then Pulsed(Handshake(bus, delay, t), delay) else Handshake(bus, delay, t);
    assert start.log == bus.log + Probes(bus.miso, delay, t) + pulse;
    AppendAssoc(bus.log, Probes(bus.miso, delay, t) + pulse, ProbeEvents(At(bus.miso, t)));
    AppendAssoc(bus.log, Probes(bus.miso, delay, t), pulse);
  }

  /** `FirstEcho` is the first echo: any index with an echo and none before it. */
  lemma FirstEchoIs(miso: seq<Byte>, k: nat)
    requires k <= MaxProbes
    requires k < MaxProbes ==> At(miso, k) == Echo
    requires forall i :: 0 <= i < k ==> At(miso, i) != Echo
    ensures FirstEcho(miso, 0) == k
  {
  }

  /** The bus after the first `k` attempts of the AT90S1200 handshake. */
  function Handshake1200(bus: Bus, delay: int, k: nat): Bus
  {
    Bus(bus.log + Attempts1200(bus.miso, delay, k), Drop(bus.miso, 2 * k))
  }

  method Reset1200(bus: Bus, delay: int) returns (r: Bus, ok: bool)
    ensures r == Handshake1200(bus, delay, AttemptCount1200(bus.miso))
    ensures ok == (FirstSignature(bus.miso, 0) < Attempts)
  {
    r, ok := bus, false;
    assert r == Handshake1200(bus, delay, 0);
    var k := 0;
    while k < Attempts
      invariant 0 <= k <= Attempts
      invariant r == Handshake1200(bus, delay, k)
      invariant FirstSignature(bus.miso, 0) >= k
    {
      r, ok := Attempt(bus, delay, k, r);
      if ok {
        assert AttemptCount1200(bus.miso) == k + 1;
        return;
      }
      k := k + 1;
    }
    assert AttemptCount1200(bus.miso) == Attempts;
  }

  /** Attempt `k` of the slow-clock handshake, reached with no vendor code
      read before it. */
  method Attempt(bus: Bus, delay: int, k: nat, r0: Bus) returns (r: Bus, ok: bool)
    requires k < Attempts && FirstSignature(bus.miso, 0) >= k
    requires r0 == Handshake1200(bus, delay, k)
    ensures r == Handshake1200(bus, delay, k + 1)
    ensures ok <==> FirstSignature(bus.miso, 0) == k
    ensures !ok ==> FirstSignature(bus.miso, 0) >= k + 1
  {
    AttemptAdvances(bus, delay, k);
    SignatureAttempt(bus.miso, k);
    var c := Try1200(r0, delay);
    r := c.bus;
    ok := c.val == AtmelVendor;
  }

  /** Attempt `k`, reached with no vendor code before it, is the first to read
      one exactly when its second byte is the vendor code. */
  lemma SignatureAttempt(miso: seq<Byte>, k: nat)
    requires k < Attempts && FirstSignature(miso, 0) >= k
    ensures At(miso, 2 * k + 1) == AtmelVendor <==> FirstSignature(miso, 0) == k
    ensures At(miso, 2 * k + 1) != AtmelVendor ==> FirstSignature(miso, 0) >= k + 1
  {
  }

  lemma AttemptAdvances(bus: Bus, delay: int, k: nat)
    ensures Try1200(Handshake1200(bus, delay, k), delay)
            == Got(Handshake1200(bus, delay, k + 1), At(bus.miso, 2 * k + 1))
  {
    var h := Handshake1200(bus, delay, k);
    var c := Try1200(h, delay);
    AtDrop(bus.miso, 2 * k, 0);
    AtDrop(bus.miso, 2 * k, 1);
    DropDrop(bus.miso, 2 * k, 2);
    var prev, step := Attempts1200(bus.miso, delay, k), Attempt1200(bus.miso, delay, k);
    assert step == AttemptEvents(delay, At(h.miso, 0), c.val);
    assert Attempts1200(bus.miso, delay, k + 1) == prev + step;
    AppendAssoc(bus.log, prev, step);
  }

  // ---- chip erase ----

  /** The chip-erase frame `(0xAC, 0x80, 0, 0)` and the erase delay. */
  function EraseCommandEvents(cfg: Config): seq<Event>
  {
    Sends(At90sFrames.ChipEraseFrame()) + [WaitMs(cfg.twdErase)]
  }

  /** The chip erase: the erase command and a reset, a dummy write of `0xFF`
      to program address 0 (which the ATtiny12 needs) and the programming
      delay, then the erase command and a reset again. The result is `OK`
      whatever the two handshakes answer. */
  method Erase(bus: Bus, cfg: Config) returns (r: Bus, st: Status)
    ensures st == Ok
    ensures var m1 := Drop(bus.miso, ResetReads(bus.miso, cfg));
            && r.log == bus.log + EraseCommandEvents(cfg) + ResetLog(bus.miso, cfg)
                        + Sends(At90sFrames.WriteProgFrame(0, 0xFF)) + [WaitMs(cfg.twdProg)]
                        + EraseCommandEvents(cfg) + ResetLog(m1, cfg)
            && r.miso == Drop(bus.miso, ResetReads(bus.miso, cfg) + ResetReads(m1, cfg))
  {
    var first := EraseCommand(bus, cfg);
    var r1, ok1 := Reset(first, cfg);
    var dummy := Mark(At90sFrames.WriteProgByte(r1, 0, 0xFF), WaitMs(cfg.twdProg));
    var second := EraseCommand(dummy, cfg);
    var ok2;
    r, ok2 := Reset(second, cfg);
    st := Ok;
    DropDrop(bus.miso, ResetReads(bus.miso, cfg), ResetReads(Drop(bus.miso, ResetReads(bus.miso, cfg)), cfg));
  }

  /** The chip-erase frame and the erase delay, sent on `bus`. */
  function EraseCommand(bus: Bus, cfg: Config): (r: Bus)
    ensures r == bus.(log := bus.log + EraseCommandEvents(cfg))
  {
    AppendAssoc(bus.log, Sends(At90sFrames.ChipEraseFrame()), [WaitMs(cfg.twdErase)]);
    Mark(SendBytes(bus, At90sFrames.ChipEraseFrame()), WaitMs(cfg.twdErase))
  }

  // ---- properties of the handshake ----

  /** The handshake succeeds exactly when one of the first 128 answers is the
      echo (outside AT90S1200 mode), or one of the four signature reads gives
      the vendor code (in it). */
  lemma ResetOkIff(miso: seq<Byte>, cfg: Config)
    ensures !cfg.old1200mode ==>
              (ResetOk(miso, cfg) <==> exists i :: 0 <= i < MaxProbes && At(miso, i) == Echo)
    ensures cfg.old1200mode ==>
              (ResetOk(miso, cfg) <==> exists k :: 0 <= k < Attempts && At(miso, 2 * k + 1) == AtmelVendor)
  {
    if !cfg.old1200mode && !ResetOk(miso, cfg) {
      assert forall i :: 0 <= i < MaxProbes ==> At(miso, i) != Echo;
    }
    if cfg.old1200mode && !ResetOk(miso, cfg) {
      assert forall k :: 0 <= k < Attempts ==> At(miso, 2 * k + 1) != AtmelVendor;
    }
  }

  /** At most 128 probes; on success the last probe is the first echo, so no
      probe follows it. */
  lemma ProbesStopAtEcho(miso: seq<Byte>)
    ensures 1 <= ProbeCount(miso) <= MaxProbes
    ensures forall i :: 0 <= i < ProbeCount(miso) - 1 ==> At(miso, i) != Echo
    ensures FirstEcho(miso, 0) < MaxProbes ==> At(miso, ProbeCount(miso) - 1) == Echo
    ensures FirstEcho(miso, 0) == MaxProbes ==> ProbeCount(miso) == MaxProbes
  {
  }

  /** Events of one probe: no reset pulse, and a clock pulse exactly when the
      answer is not the echo. */
  lemma ProbeEventsCount(b: Byte)
    ensures CountOf(ProbeEvents(b), ResetPulse) == 0
    ensures CountOf(ProbeEvents(b), ExtraClock) == if b != Echo then 1 else 0
  {
    var x := if b != Echo then [ExtraClock] else [];
    forall e | e == ResetPulse || e == ExtraClock
      ensures CountOf(ProbeEvents(b), e) == CountOf(x, e)
    {
      CountOfShort(Received(b), ExtraClock, e);
      CountOfSends(EnableFrame(), e);
      CountOfSends([0], e);
      CountOfAppend(Sends(EnableFrame()), [Received(b)], e);
      CountOfAppend(Sends(EnableFrame()) + [Received(b)], Sends([0]), e);
      CountOfAppend(Sends(EnableFrame()) + [Received(b)] + Sends([0]), x, e);
    }
    CountOfShort(ExtraClock, ExtraClock, ResetPulse);
    CountOfShort(ExtraClock, ExtraClock, ExtraClock);
  }

  /** The number of non-echo answers among the first `n`. */
  function NonEchoes(miso: seq<Byte>, n: nat): nat
  {
    if n == 0 then 0 else NonEchoes(miso, n - 1) + (if At(miso, n - 1) != Echo then 1 else 0)
  }

  /** `n` probes open `ceil(n / 32)` attempts, each with one reset pulse, and
      give one extra clock pulse per answer that is not the echo. */
  lemma ProbesCount(miso: seq<Byte>, delay: int, n: nat)
    ensures CountOf(Probes(miso, delay, n), ResetPulse) == (n + ProbesPerAttempt - 1) / ProbesPerAttempt
    ensures CountOf(Probes(miso, delay, n), ExtraClock) == NonEchoes(miso, n)
  {
    ProbesResetPulses(miso, delay, n);
    ProbesExtraClocks(miso, delay, n);
  }

  /** Probe `n - 1` adds the counts of its opening pulse, if any, and of its own events. */
  lemma ProbesStep(miso: seq<Byte>, delay: int, n: nat, e: Event)
    requires n > 0
    ensures CountOf(Probes(miso, delay, n), e)
            == CountOf(Probes(miso, delay, n - 1), e)
               + (if (n - 1) % ProbesPerAttempt == 0 then CountOf(PulseEvents(delay), e) else 0)
               + CountOf(ProbeEvents(At(miso, n - 1)), e)
  {
    var pulse := if (n - 1) % ProbesPerAttempt == 0 then PulseEvents(delay) else [];
    CountOfAppend(Probes(miso, delay, n - 1), pulse, e);
    CountOfAppend(Probes(miso, delay, n - 1) + pulse, ProbeEvents(At(miso, n - 1)), e);
  }

  lemma {:induction false} ProbesResetPulses(miso: seq<Byte>, delay: int, n: nat)
    ensures CountOf(Probes(miso, delay, n), ResetPulse) == (n + ProbesPerAttempt - 1) / ProbesPerAttempt
  {
    if n > 0 {
      ProbesResetPulses(miso, delay, n - 1);
      ProbesStep(miso, delay, n, ResetPulse);
      ProbeEventsCount(At(miso, n - 1));
      CountOfShort(ResetPulse, WaitMs(delay), ResetPulse);
      CeilStep(n - 1);
    }
  }

  lemma {:induction false} ProbesExtraClocks(miso: seq<Byte>, delay: int, n: nat)
    ensures CountOf(Probes(miso, delay, n), ExtraClock) == NonEchoes(miso, n)
  {
    if n > 0 {
      ProbesExtraClocks(miso, delay, n - 1);
      ProbesStep(miso, delay, n, ExtraClock);
      ProbeEventsCount(At(miso, n - 1));
      CountOfShort(ResetPulse, WaitMs(delay), ExtraClock);
    }
  }

  /** `ceil((m + 1) / 32)` steps up from `ceil(m / 32)` exactly when `m` is a
      multiple of 32. */
  lemma CeilStep(m: nat)
    ensures (m + ProbesPerAttempt) / ProbesPerAttempt
            == (m + ProbesPerAttempt - 1) / ProbesPerAttempt + (if m % ProbesPerAttempt == 0 then 1 else 0)
  {
    var q, r := m / ProbesPerAttempt, m % ProbesPerAttempt;
    if r == 0 {
      Bits.DivModUnique(m + ProbesPerAttempt, ProbesPerAttempt, q + 1, 0);
      Bits.DivModUnique(m + ProbesPerAttempt - 1, ProbesPerAttempt, q, ProbesPerAttempt - 1);
    } else {
      Bits.DivModUnique(m + ProbesPerAttempt, ProbesPerAttempt, q + 1, r);
      Bits.DivModUnique(m + ProbesPerAttempt - 1, ProbesPerAttempt, q + 1, r - 1);
    }
  }

  lemma {:induction false} NonEchoesBelowFirst(miso: seq<Byte>, n: nat)
    requires forall i :: 0 <= i < n ==> At(miso, i) != Echo
    ensures NonEchoes(miso, n) == n
  {
    if n > 0 {
      NonEchoesBelowFirst(miso, n - 1);
    }
  }

  /** The full handshake sends at most four reset pulses, and one extra clock
      pulse per failed probe: every probe but the echoed one. */
  lemma HandshakePulses(miso: seq<Byte>, delay: int)
    ensures CountOf(Probes(miso, delay, ProbeCount(miso)), ResetPulse) <= Attempts
    ensures CountOf(Probes(miso, delay, ProbeCount(miso)), ExtraClock)
            == ProbeCount(miso) - (if FirstEcho(miso, 0) < MaxProbes then 1 else 0)
  {
    var n := ProbeCount(miso);
    ProbesCount(miso, delay, n);
    ProbesStopAtEcho(miso);
    NonEchoesBelowFirst(miso, n - 1);
  }

  lemma {:induction false} Attempts1200Pulses(miso: seq<Byte>, delay: int, n: nat)
    ensures CountOf(Attempts1200(miso, delay, n), ResetPulse) == n
  {
    if n > 0 {
      Attempts1200Pulses(miso, delay, n - 1);
      AttemptPulses(delay, At(miso, 2 * (n - 1)), At(miso, 2 * (n - 1) + 1));
      CountOfAppend(Attempts1200(miso, delay, n - 1), Attempt1200(miso, delay, n - 1), ResetPulse);
    }
  }

  /** One AT90S1200 attempt sends exactly one reset pulse. */
  lemma AttemptPulses(delay: int, a: Byte, c: Byte)
    ensures CountOf(AttemptEvents(delay, a, c), ResetPulse) == 1
  {
    var e := ResetPulse;
    var p, s1, s2, s3 := PulseEvents(delay), Sends(EnableFrame()), Sends([0]), Sends(At90sFrames.DeviceCodeFrame(0));
    CountOfShort(ResetPulse, WaitMs(delay), e);
    CountOfShort(Received(a), Received(c), e);
    CountOfShort(Received(c), Received(a), e);
    CountOfSends(EnableFrame(), e);
    CountOfSends([0], e);
    CountOfSends(At90sFrames.DeviceCodeFrame(0), e);
    CountOfAppend(p, s1, e);
    CountOfAppend(p + s1, [Received(a)], e);
    CountOfAppend(p + s1 + [Received(a)], s2, e);
    CountOfAppend(p + s1 + [Received(a)] + s2, s3, e);
    CountOfAppend(p + s1 + [Received(a)] + s2 + s3, [Received(c)], e);
  }

  /** Every reset opens with a reset pulse and sends at most four of them. */
  lemma ResetLogShape(miso: seq<Byte>, cfg: Config)
    ensures |ResetLog(miso, cfg)| > 0 && ResetLog(miso, cfg)[0] == ResetPulse
    ensures CountOf(ResetLog(miso, cfg), ResetPulse) <= Attempts
  {
    if cfg.old1200mode {
      Attempts1200Pulses(miso, cfg.resetDelay, AttemptCount1200(miso));
      Attempts1200Head(miso, cfg.resetDelay, AttemptCount1200(miso));
    } else {
      HandshakePulses(miso, cfg.resetDelay);
      ProbesHead(miso, cfg.resetDelay, ProbeCount(miso));
    }
  }

  lemma {:induction false} ProbesHead(miso: seq<Byte>, delay: int, n: nat)
    requires n > 0
    ensures |Probes(miso, delay, n)| > 0 && Probes(miso, delay, n)[0] == ResetPulse
  {
    if n > 1 {
      ProbesHead(miso, delay, n - 1);
    }
  }

  lemma {:induction false} Attempts1200Head(miso: seq<Byte>, delay: int, n: nat)
    requires n > 0
    ensures |Attempts1200(miso, delay, n)| > 0 && Attempts1200(miso, delay, n)[0] == ResetPulse
  {
    if n > 1 {
      Attempts1200Head(miso, delay, n - 1);
    }
  }
}
