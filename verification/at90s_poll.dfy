/** Completion polling after a write, the blank-page check, and the page
    write of program memory.

    A poll re-reads one location up to a bound of times and stops at the
    first answer that satisfies its condition: equal to the byte written (the
    byte-write wait), or no longer erased, i.e. not `0xFF` (the page-write
    wait). A non-positive bound makes no read at all. */
module At90sPoll {
  import opened Options
  import opened SpiTrace
  import opened At90sConfig
  import At90sFrames
  import Bits

  /** What a poll waits for. */
  datatype Until = Equals(v: int) | Programmed

  predicate Hit(until: Until, b: Byte)
  {
    match until
    case Equals(v) => b as int == v
    case Programmed => b != 0xFF
  }

  function ReadFrame(mem: Memory, addr: int): seq<Byte>
  {
    match mem
    case Eeprom => At90sFrames.ReadEEPFrame(addr)
    case Flash => At90sFrames.ReadProgFrame(addr)
  }

  /** One byte read from `mem` at `addr`. */
  function ReadUnit(bus: Bus, mem: Memory, addr: int): (r: Got<Byte>)
    ensures r.val == At(bus.miso, 0)
    ensures r.bus == Bus(bus.log + Sends(ReadFrame(mem, addr)) + [Received(r.val)], Drop(bus.miso, 1))
  {
    match mem
    case Eeprom => At90sFrames.ReadEEPByte(bus, addr)
    case Flash => At90sFrames.ReadProgByte(bus, addr)
  }

  /** The events of `n` reads of `addr`, answered in turn by `miso`. */
  function PollReads(miso: seq<Byte>, mem: Memory, addr: int, n: nat): seq<Event>
  {
    if n == 0 then []
    else PollReads(miso, mem, addr, n - 1) + Sends(ReadFrame(mem, addr)) + [Received(At(miso, n - 1))]
  }

  /** The bus after `n` poll reads. */
  function Polled(bus: Bus, mem: Memory, addr: int, n: nat): Bus
  {
    Bus(bus.log + PollReads(bus.miso, mem, addr, n), Drop(bus.miso, n))
  }

  /** The first answer `from .. n-1` that satisfies `until`, or `n`. */
  function FirstHit(miso: seq<Byte>, until: Until, n: nat, from: nat): (k: nat)
    requires from <= n
    ensures from <= k <= n
    ensures k < n ==> Hit(until, At(miso, k))
    ensures forall i :: from <= i < k ==> !Hit(until, At(miso, i))
    decreases n - from
  {
    if from == n || Hit(until, At(miso, from)) then from else FirstHit(miso, until, n, from + 1)
  }

  /** How many reads a poll bounded by `n` makes. */
  function PollCount(miso: seq<Byte>, until: Until, n: nat): nat
  {
    var k := FirstHit(miso, until, n, 0);
    if k < n then k + 1 else n
  }

  lemma FirstHitIs(miso: seq<Byte>, until: Until, n: nat, k: nat)
    requires k <= n
    requires k < n ==> Hit(until, At(miso, k))
    requires forall i :: 0 <= i < k ==> !Hit(until, At(miso, i))
    ensures FirstHit(miso, until, n, 0) == k
  {
  }

  lemma PollAdvances(bus: Bus, mem: Memory, addr: int, k: nat)
    ensures ReadUnit(Polled(bus, mem, addr, k), mem, addr)
            == Got(Polled(bus, mem, addr, k + 1), At(bus.miso, k))
  {
    AtDrop(bus.miso, k, 0);
    DropDrop(bus.miso, k, 1);
    AppendAssoc(bus.log, PollReads(bus.miso, mem, addr, k), Sends(ReadFrame(mem, addr)));
    AppendAssoc(bus.log, PollReads(bus.miso, mem, addr, k) + Sends(ReadFrame(mem, addr)), [Received(At(bus.miso, k))]);
  }

  /** Re-reads `addr` at most `bound` times, stopping at the first answer
      that satisfies `until`. */
  method Poll(bus: Bus, mem: Memory, addr: int, until: Until, bound: int) returns (r: Bus, hit: bool)
    ensures r == Polled(bus, mem, addr, PollCount(bus.miso, until, Bits.Iterations(bound)))
    ensures hit == (FirstHit(bus.miso, until, Bits.Iterations(bound), 0) < Bits.Iterations(bound))
  {
    var n := Bits.Iterations(bound);
    r, hit := bus, false;
    assert r == Polled(bus, mem, addr, 0);
    var k := 0;
    while k < bound && !hit
      invariant 0 <= k <= n
      invariant r == Polled(bus, mem, addr, k)
      invariant hit ==> k > 0 && FirstHit(bus.miso, until, n, 0) == k - 1
      invariant !hit ==> forall i :: 0 <= i < k ==> !Hit(until, At(bus.miso, i))
    {
      PollAdvances(bus, mem, addr, k);
      var g := ReadUnit(r, mem, addr);
      r := g.bus;
      if Hit(until, g.val) {
        hit := true;
        FirstHitIs(bus.miso, until, n, k);
      }
      k := k + 1;
    }
    if !hit {
      FirstHitIs(bus.miso, until, n, n);
    }
  }

  /** A poll bounded by `bound` succeeds exactly when one of the first `bound`
      answers satisfies its condition; it makes at most `bound` reads, and
      every read but a successful last one missed. */
  lemma PollHitIff(miso: seq<Byte>, until: Until, bound: int)
    ensures FirstHit(miso, until, Bits.Iterations(bound), 0) < Bits.Iterations(bound)
            <==> exists k :: 0 <= k < bound && Hit(until, At(miso, k))
    ensures PollCount(miso, until, Bits.Iterations(bound)) <= Bits.Iterations(bound)
    ensures forall i :: 0 <= i < PollCount(miso, until, Bits.Iterations(bound)) - 1 ==> !Hit(until, At(miso, i))
  {
    var n := Bits.Iterations(bound);
    if FirstHit(miso, until, n, 0) == n {
      assert forall k :: 0 <= k < bound ==> !Hit(until, At(miso, k));
    }
  }

  // ---- the byte-write wait ----

  /** The answers that make a polling read inconclusive (the chip reports
      them while still busy, or they equal the erased state), so the driver
      waits the fixed programming delay instead: `0x80`, `0x7F`, `0x00`,
      `0xFF` for the EEPROM, `0x7F`, `0xFF` for program memory. */
  predicate IsPollMarker(mem: Memory, data: int)
  {
    match mem
    case Eeprom => data == 0x80 || data == 0x7F || data == 0x00 || data == 0xFF
    case Flash => data == 0x7F || data == 0xFF
  }

  /** The bus and status after waiting for a byte write, in closed form. */
  function WaitReadyResult(bus: Bus, cfg: Config, mem: Memory, addr: int, data: int, timeout: int): Got<Status>
  {
    if cfg.old1200mode || IsPollMarker(mem, data) then Got(Mark(bus, WaitMs(cfg.twdProg)), Ok)
    else
      var n := Bits.Iterations(timeout);
      Got(Polled(bus, mem, addr, PollCount(bus.miso, Equals(data), n)),
          if FirstHit(bus.miso, Equals(data), n, 0) < n then Ok else Timeout)
  }

  /** The events the byte-write wait appends: the fixed programming delay,
      or the poll reads. */
  function WaitEvents(miso: seq<Byte>, cfg: Config, mem: Memory, addr: int, data: int, timeout: int): seq<Event>
  {
    if cfg.old1200mode || IsPollMarker(mem, data) then [WaitMs(cfg.twdProg)]
    else PollReads(miso, mem, addr, PollCount(miso, Equals(data), Bits.Iterations(timeout)))
  }

  /** The byte-write wait only appends to the log, and it reports `Ok`
      exactly when it did not poll or one of the first `timeout` answers
      equals the byte written; otherwise it reports a timeout. */
  lemma WaitReadyEffect(bus: Bus, cfg: Config, mem: Memory, addr: int, data: int, timeout: int)
    ensures var w := WaitReadyResult(bus, cfg, mem, addr, data, timeout);
            && w.bus.log == bus.log + WaitEvents(bus.miso, cfg, mem, addr, data, timeout)
            && (w.val == Ok <==> cfg.old1200mode || IsPollMarker(mem, data)
                                 || exists k :: 0 <= k < timeout && At(bus.miso, k) as int == data)
            && (w.val != Ok ==> w.val == Timeout)
  {
    PollHitIff(bus.miso, Equals(data), timeout);
  }

  /** Waits for a byte write of `data` at `addr` to complete. */
  method WaitReadyAfterWrite(bus: Bus, cfg: Config, mem: Memory, addr: int, data: int, timeout: int)
    returns (r: Bus, st: Status)
    ensures cfg.old1200mode || IsPollMarker(mem, data) ==>
              st == Ok && r == Mark(bus, WaitMs(cfg.twdProg))
    ensures !(cfg.old1200mode || IsPollMarker(mem, data)) ==>
              && r == Polled(bus, mem, addr, PollCount(bus.miso, Equals(data), Bits.Iterations(timeout)))
              && PollCount(bus.miso, Equals(data), Bits.Iterations(timeout)) <= Bits.Iterations(timeout)
              && (st == Ok <==> exists k :: 0 <= k < timeout && At(bus.miso, k) as int == data)
              && (st != Ok ==> st == Timeout)
    ensures Got(r, st) == WaitReadyResult(bus, cfg, mem, addr, data, timeout)
  {
    if cfg.old1200mode || IsPollMarker(mem, data) {
      r, st := Mark(bus, WaitMs(cfg.twdProg)), Ok;
    } else {
      var hit;
      r, hit := Poll(bus, mem, addr, Equals(data), timeout);
      PollHitIff(bus.miso, Equals(data), timeout);
      st := if hit then Ok else Timeout;
    }
  }

  // ---- blank pages ----

  predicate Blank(data: seq<Byte>, length: nat)
    requires length <= |data|
  {
    forall i :: 0 <= i < length ==> data[i] == 0xFF
  }

  /** Whether the first `length` bytes of `data` are all `0xFF`. */
  method CheckBlankPage(data: seq<Byte>, length: int) returns (blank: bool)
    requires 0 <= length <= |data|
    ensures blank <==> Blank(data, length)
  {
    blank := true;
    var i := 0;
    while i < length && blank
      invariant 0 <= i <= length
      invariant blank == Blank(data, i)
    {
      blank := data[i] == 0xFF;
      i := i + 1;
    }
  }

  // ---- the page write ----

  /** The page latch fill: byte `k` of the page written with the byte-write
      frame at address `k` (the offset in the page, not the target address). */
  function LatchEvents(data: seq<Byte>, n: nat): seq<Event>
    requires n <= |data|
  {
    if n == 0 then [] else LatchEvents(data, n - 1) + LatchFrame(n - 1, data[n - 1])
  }

  /** The byte-write frame of page offset `k` carrying `d`. */
  function LatchFrame(k: nat, d: Byte): (evs: seq<Event>)
    ensures |evs| == 4
  {
    At90sFrames.WriteProgFrameLength(k, d as int);
    Sends(At90sFrames.WriteProgFrame(k, d as int))
  }

  /** The address polled after the page write: that of the first byte of the
      page that is not `0xFF`, or -1 for a blank page. */
  function FirstLoc(page: nat, data: seq<Byte>, n: nat, from: nat): (loc: int)
    requires from <= n <= |data|
    ensures loc == -1 || (page + from <= loc < page + n && data[loc - page] != 0xFF)
    ensures loc == -1 ==> forall i :: from <= i < n ==> data[i] == 0xFF
    ensures loc != -1 ==> forall i :: from <= i < loc - page ==> data[i] == 0xFF
    decreases n - from
  {
    if from == n then -1
    else if data[from] != 0xFF then page + from
    else FirstLoc(page, data, n, from + 1)
  }

  /** `addr & ~(page_size - 1)`: for a power-of-two page size, the start of
      the page holding `addr`. */
  function PageStart(addr: nat, pageSize: int): nat
    requires pageSize > 0
  {
    Bits.ClearBits(addr, pageSize - 1)
  }

  /** The bus after the latch fill and the commit frame. */
  function Committed(bus: Bus, addr: nat, data: seq<Byte>, pageSize: nat): Bus
    requires 0 < pageSize <= |data|
  {
    bus.(log := bus.log + LatchEvents(data, pageSize)
                + Sends(At90sFrames.PageCommitFrame(PageStart(addr, pageSize))))
  }

  /** The bus and status after a page write, in closed form. */
  function PageWriteResult(bus: Bus, cfg: Config, addr: nat, data: Option<seq<Byte>>, pageSize: int, timeout: int): Got<Status>
    requires data.Some? && pageSize > 0 ==> pageSize <= |data.value|
  {
    if pageSize <= 0 || data.None? then Got(bus, BadParam)
    else
      var c := Committed(bus, addr, data.value, pageSize);
      if !cfg.flashPagePolling then Got(Mark(c, WaitMs(cfg.pageDelay)), Ok)
      else
        var n := Bits.Iterations(timeout);
        var loc := FirstLoc(PageStart(addr, pageSize), data.value, pageSize, 0);
        Got(Polled(Mark(c, WaitUs(100)), Flash, loc, PollCount(bus.miso, Programmed, n)),
            if FirstHit(bus.miso, Programmed, n, 0) < n then Ok else Timeout)
  }

  /** Sends the byte-write frame of every offset of the page, noting the
      first byte that is not `0xFF`. */
  method FillLatch(bus: Bus, d: seq<Byte>, page: nat, pageSize: nat) returns (r: Bus, firstLoc: int)
    requires pageSize <= |d|
    ensures r == bus.(log := bus.log + LatchEvents(d, pageSize))
    ensures firstLoc == FirstLoc(page, d, pageSize, 0)
  {
    firstLoc := -1;
    r := bus;
    var k := 0;
    while k < pageSize
      invariant 0 <= k <= pageSize
      invariant r == bus.(log := bus.log + LatchEvents(d, k))
      invariant firstLoc == FirstLoc(page, d, k, 0)
    {
      FirstLocExtend(page, d, k);
      if firstLoc < 0 && d[k] != 0xFF {
        firstLoc := page + k;
      }
      AppendAssoc(bus.log, LatchEvents(d, k), LatchFrame(k, d[k]));
      r := At90sFrames.WriteProgByte(r, k, d[k] as int);
      k := k + 1;
    }
  }

  /** Writes the page of `pageSize` bytes of `data` holding `addr`: fills
      the latch, commits it, then either polls the first programmed byte or
      waits the page delay. */
  method WriteProgPage(bus: Bus, cfg: Config, addr: nat, data: Option<seq<Byte>>, pageSize: int, timeout: int)
    returns (r: Bus, st: Status)
    requires data.Some? && pageSize > 0 ==> pageSize <= |data.value|
    ensures st == BadParam <==> pageSize <= 0 || data.None?
    ensures st == BadParam ==> r == bus
    ensures st != BadParam && !cfg.flashPagePolling ==>
              st == Ok && r == Mark(Committed(bus, addr, data.value, pageSize), WaitMs(cfg.pageDelay))
    ensures st != BadParam && cfg.flashPagePolling ==>
              var loc := FirstLoc(PageStart(addr, pageSize), data.value, pageSize, 0);
              var n := PollCount(bus.miso, Programmed, Bits.Iterations(timeout));
              && r == Polled(Mark(Committed(bus, addr, data.value, pageSize), WaitUs(100)), Flash, loc, n)
              && (st == Ok <==> exists k :: 0 <= k < timeout && At(bus.miso, k) != 0xFF)
              && (st != Ok ==> st == Timeout)
    ensures Got(r, st) == PageWriteResult(bus, cfg, addr, data, pageSize, timeout)
  {
    if pageSize <= 0 || data.None? {
      return bus, BadParam;
    }
    var d := data.value;
    var page := PageStart(addr, pageSize);
    var firstLoc;
    r, firstLoc := FillLatch(bus, d, page, pageSize);
    r := SendBytes(r, At90sFrames.PageCommitFrame(page));
    AppendAssoc(bus.log, LatchEvents(d, pageSize), Sends(At90sFrames.PageCommitFrame(page)));
    assert r == Committed(bus, addr, d, pageSize);
    if cfg.flashPagePolling {
      r := Mark(r, WaitUs(100));
      var hit;
      r, hit := Poll(r, Flash, firstLoc, Programmed, timeout);
      PollHitIff(bus.miso, Programmed, timeout);
      st := if hit then Ok else Timeout;
    } else {
      r := Mark(r, WaitMs(cfg.pageDelay));
      st := Ok;
    }
  }

  /** Extending the scanned prefix by one byte: the first location found so
      far stays, or becomes that byte when it is the first not `0xFF`. */
  lemma FirstLocExtend(page: nat, data: seq<Byte>, k: nat)
    requires k < |data|
    ensures FirstLoc(page, data, k + 1, 0)
            == if FirstLoc(page, data, k, 0) < 0 && data[k] != 0xFF then page + k else FirstLoc(page, data, k, 0)
  {
    var a, b := FirstLoc(page, data, k, 0), FirstLoc(page, data, k + 1, 0);
  }

  /** With a power-of-two page size `2^k` the commit goes to the page holding
      `addr`: a multiple of the page size, at most one page below `addr`. */
  lemma PageStartHoldsAddr(addr: nat, k: nat)
    ensures PageStart(addr, Bits.Pow2(k)) == Bits.AlignDown(addr, k)
    ensures Bits.LowBitsClear(PageStart(addr, Bits.Pow2(k)), k)
    ensures PageStart(addr, Bits.Pow2(k)) <= addr < PageStart(addr, Bits.Pow2(k)) + Bits.Pow2(k)
  {
    Bits.ClearLowMask(addr, k);
    Bits.AlignDownIsPageStart(addr, k);
  }

  lemma {:induction false} LatchLength(data: seq<Byte>, n: nat)
    requires n <= |data|
    ensures |LatchEvents(data, n)| == 4 * n
  {
    if n > 0 {
      LatchLength(data, n - 1);
    }
  }

  /** Four-event block `k` of `a + b`, where `a` holds `n - 1` such blocks
      and `b` is one more. */
  lemma BlockOfAppend(a: seq<Event>, b: seq<Event>, n: nat, k: nat)
    requires k < n && |a| == 4 * (n - 1) && |b| == 4
    ensures (a + b)[4 * k .. 4 * k + 4] == if k < n - 1 then a[4 * k .. 4 * k + 4] else b
  {
  }

  /** The latch fill is `n` four-byte frames, the `k`-th writing byte `k` of
      the page at offset `k`. */
  lemma {:induction false} LatchFrames(data: seq<Byte>, n: nat, k: nat)
    requires k < n <= |data|
    ensures |LatchEvents(data, n)| == 4 * n
    ensures LatchEvents(data, n)[4 * k .. 4 * k + 4] == LatchFrame(k, data[k])
  {
    LatchLength(data, n);
    LatchLength(data, n - 1);
    var a, b := LatchEvents(data, n - 1), LatchFrame(n - 1, data[n - 1]);
    assert LatchEvents(data, n) == a + b;
    BlockOfAppend(a, b, n, k);
    if k < n - 1 {
      LatchFrames(data, n - 1, k);
    }
  }

  /** The poll after a page write reads address -1 exactly when the page is blank. */
  lemma BlankPagePollsNowhere(page: nat, data: seq<Byte>, n: nat)
    requires n <= |data|
    ensures FirstLoc(page, data, n, 0) == -1 <==> Blank(data, n)
  {
  }
}
