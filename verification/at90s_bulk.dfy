/** Whole-memory transfers: reading a memory out, and writing a buffer into
    it with per-byte verification (EEPROM, byte-wise program memory) or page
    by page (paged program memory).

    The progress callback the driver consults after each step can cancel
    the transfer; it is modelled by `cancel`, whose `i`-th entry is the
    callback's answer after step `i` (`false` beyond its end). */
module At90sBulk {
  import opened Options
  import opened SpiTrace
  import opened At90sConfig
  import At90sFrames
  import opened At90sPoll
  import Bits

  /** The progress callback asks to stop after step `i`. */
  predicate Cancelled(cancel: seq<bool>, i: nat)
  {
    i < |cancel| && cancel[i]
  }

  /** The first step from `from` to `n - 1` after which the callback cancels, or `n`. */
  function FirstCancel(cancel: seq<bool>, n: nat, from: nat): (k: nat)
    requires from <= n
    ensures from <= k <= n
    ensures k < n ==> Cancelled(cancel, k)
    ensures forall i :: from <= i < k ==> !Cancelled(cancel, i)
    decreases n - from
  {
    if from == n || Cancelled(cancel, from) then from else FirstCancel(cancel, n, from + 1)
  }

  /** A transfer's result: the count the driver returns, or the write failure. */
  datatype Outcome = Done(len: int) | WriteFailed

  /** `addr != 0` selects the EEPROM, `addr == 0` program memory. */
  function MemoryOf(addr: int): Memory
  {
    if addr != 0 then Eeprom else Flash
  }

  // ---- reading ----

  /** Reads of addresses `0 .. n-1`, answered in turn by `miso`. */
  function ReadsFrom(miso: seq<Byte>, mem: Memory, n: nat): seq<Event>
  {
    if n == 0 then []
    else ReadsFrom(miso, mem, n - 1) + Sends(ReadFrame(mem, n - 1)) + [Received(At(miso, n - 1))]
  }

  function ReadState(bus: Bus, mem: Memory, n: nat): Bus
  {
    Bus(bus.log + ReadsFrom(bus.miso, mem, n), Drop(bus.miso, n))
  }

  lemma ReadAdvances(bus: Bus, mem: Memory, k: nat)
    ensures ReadUnit(ReadState(bus, mem, k), mem, k) == Got(ReadState(bus, mem, k + 1), At(bus.miso, k))
  {
    AtDrop(bus.miso, k, 0);
    DropDrop(bus.miso, k, 1);
    AppendAssoc(bus.log, ReadsFrom(bus.miso, mem, k), Sends(ReadFrame(mem, k)));
    AppendAssoc(bus.log, ReadsFrom(bus.miso, mem, k) + Sends(ReadFrame(mem, k)), [Received(At(bus.miso, k))]);
  }

  /** Reads `length` bytes from address 0 of the memory `addr` selects. The
      returned count is the step the callback cancelled after (that step's
      byte is read all the same), or every byte. */
  method Read(bus: Bus, addr: int, length: int, cancel: seq<bool>) returns (r: Bus, data: seq<Byte>, len: int)
    ensures len == FirstCancel(cancel, Bits.Iterations(length), 0)
    ensures |data| == if len < Bits.Iterations(length) then len + 1 else len
    ensures forall i :: 0 <= i < |data| ==> data[i] == At(bus.miso, i)
    ensures r == ReadState(bus, MemoryOf(addr), |data|)
  {
    var mem := MemoryOf(addr);
    var n := Bits.Iterations(length);
    r, data := bus, [];
    assert r == ReadState(bus, mem, 0);
    len := 0;
    while len < length
      invariant 0 <= len <= n
      invariant |data| == len
      invariant forall i :: 0 <= i < len ==> data[i] == At(bus.miso, i)
      invariant forall i :: 0 <= i < len ==> !Cancelled(cancel, i)
      invariant r == ReadState(bus, mem, len)
    {
      r, data := ReadNext(bus, mem, r, data);
      if Cancelled(cancel, len) {
        FirstCancelIs(cancel, n, len);
        return;
      }
      len := len + 1;
    }
    FirstCancelIs(cancel, n, n);
  }

  /** Reads the next unit after the `|data|` already read. */
  method ReadNext(bus: Bus, mem: Memory, r0: Bus, data0: seq<Byte>) returns (r: Bus, data: seq<Byte>)
    requires r0 == ReadState(bus, mem, |data0|)
    requires forall i :: 0 <= i < |data0| ==> data0[i] == At(bus.miso, i)
    ensures r == ReadState(bus, mem, |data0| + 1)
    ensures |data| == |data0| + 1
    ensures forall i :: 0 <= i < |data| ==> data[i] == At(bus.miso, i)
  {
    ReadAdvances(bus, mem, |data0|);
    var g := ReadUnit(r0, mem, |data0|);
    r, data := g.bus, data0 + [g.val];
  }

  lemma FirstCancelIs(cancel: seq<bool>, n: nat, k: nat)
    requires k <= n
    requires k < n ==> Cancelled(cancel, k)
    requires forall i :: 0 <= i < k ==> !Cancelled(cancel, i)
    ensures FirstCancel(cancel, n, 0) == k
  {
  }

  // ---- writing, one byte at a time ----

  /** The default poll bound of the program memory byte-write wait. */
  const FlashByteTimeout := 2000

  /** The step of byte `i` with value `d`. EEPROM: read the location first
      and write only when it differs, then wait for the write. Program
      memory: write only bytes other than `0xFF` (the erased state), then wait. */
  function ByteStep(bus: Bus, cfg: Config, mem: Memory, i: nat, d: Byte): Got<Status>
  {
    match mem
    case Eeprom =>
      var g := At90sFrames.ReadEEPByte(bus, i);
      if g.val == d then Got(g.bus, Ok)
      else WaitReadyResult(Mark(At90sFrames.WriteEEPByte(g.bus, i, d as int), WaitUs(100)),
                           cfg, Eeprom, i, d as int, cfg.readyTimeout)
    case Flash =>
      if d == 0xFF then Got(bus, Ok)
      else WaitReadyResult(Mark(At90sFrames.WriteProgByte(bus, i, d as int), WaitUs(100)),
                           cfg, Flash, i, d as int, FlashByteTimeout)
  }

  /** The byte-wise write from byte `i` on, over `n` bytes. */
  function BytesFrom(bus: Bus, cfg: Config, mem: Memory, data: seq<Byte>, n: nat, cancel: seq<bool>, i: nat): Got<Outcome>
    requires i <= n <= |data|
    decreases n - i, 1
  {
    if i == n then Got(bus, Done(n))
    else AfterByte(ByteStep(bus, cfg, mem, i, data[i]), cfg, mem, data, n, cancel, i)
  }

  /** What follows the step of byte `i`, given its result `s`. */
  function AfterByte(s: Got<Status>, cfg: Config, mem: Memory, data: seq<Byte>, n: nat, cancel: seq<bool>, i: nat): Got<Outcome>
    requires i < n <= |data|
    decreases n - i, 0
  {
    if s.val != Ok then Got(s.bus, WriteFailed)
    else if Cancelled(cancel, i) then Got(s.bus, Done(i))
    else BytesFrom(s.bus, cfg, mem, data, n, cancel, i + 1)
  }

  // ---- writing, page by page ----

  /** The step of the page at offset `o`: blank pages are skipped. */
  function PageStep(bus: Bus, cfg: Config, data: seq<Byte>, pageSize: nat, o: nat): Got<Status>
    requires 0 < pageSize && o + pageSize <= |data|
  {
    if Blank(data[o..], pageSize) then Got(bus, Ok)
    else PageWriteResult(bus, cfg, o, Some(data[o..]), pageSize, cfg.pageTimeout)
  }

  /** The buffer holds every page a write of `length` bytes touches. */
  predicate PagesFit(size: nat, length: int, pageSize: nat)
    requires pageSize > 0
  {
    length <= size - size % pageSize
  }

  /** The paged write from the `j`-th page, at offset `o`, on. */
  function PagesFrom(bus: Bus, cfg: Config, data: seq<Byte>, length: int, pageSize: nat, cancel: seq<bool>, j: nat, o: nat): Got<Outcome>
    requires pageSize > 1 && PagesFit(|data|, length, pageSize) && o % pageSize == 0
    decreases length - o
  {
    if o >= length then Got(bus, Done(o))
    else
      PageFits(o, pageSize, length, |data|);
      var s := PageStep(bus, cfg, data, pageSize, o);
      if s.val != Ok then Got(s.bus, WriteFailed)
      else if Cancelled(cancel, j) then Got(s.bus, Done(o))
      else
        NextPage(o, pageSize);
        PagesFrom(s.bus, cfg, data, length, pageSize, cancel, j + 1, o + pageSize)
  }

  lemma PageFits(o: nat, pageSize: nat, length: int, size: nat)
    requires pageSize > 0 && o % pageSize == 0 && o < length && PagesFit(size, length, pageSize)
    ensures o + pageSize <= size
  {
    var q, f := o / pageSize, size / pageSize;
    assert o == q * pageSize;
    assert size - size % pageSize == f * pageSize;
    MulLess(q, f, pageSize);
  }

  lemma MulLess(q: nat, f: nat, d: nat)
    requires d > 0 && q * d < f * d
    ensures (q + 1) * d <= f * d
  {
    assert (f - q) * d == f * d - q * d;
    assert f - q > 0;
    assert (f - q - 1) * d >= 0;
    assert (f - q - 1) * d == f * d - (q + 1) * d;
  }

  lemma NextPage(o: nat, pageSize: nat)
    requires pageSize > 0 && o % pageSize == 0
    ensures (o + pageSize) % pageSize == 0
  {
    Bits.DivModUnique(o + pageSize, pageSize, o / pageSize + 1, 0);
  }

  /** The whole write, in closed form. */
  function WriteResult(bus: Bus, cfg: Config, addr: int, data: seq<Byte>, length: int, pageSize: int, cancel: seq<bool>): Got<Outcome>
    requires addr != 0 || pageSize <= 1 ==> length <= |data|
    requires addr == 0 && pageSize > 1 ==> PagesFit(|data|, length, pageSize)
  {
    if addr != 0 then BytesFrom(bus, cfg, Eeprom, data, Bits.Iterations(length), cancel, 0)
    else if pageSize > 1 then PagesFrom(bus, cfg, data, length, pageSize, cancel, 0, 0)
    else BytesFrom(bus, cfg, Flash, data, Bits.Iterations(length), cancel, 0)
  }

  /** Writes `length` bytes of `data` from address 0 of the memory `addr`
      selects: EEPROM byte-wise, program memory page-wise when the page size
      exceeds one, else byte-wise. */
  method Write(bus: Bus, cfg: Config, addr: int, data: seq<Byte>, length: int, pageSize: int, cancel: seq<bool>)
    returns (r: Bus, out: Outcome)
    requires addr != 0 || pageSize <= 1 ==> length <= |data|
    requires addr == 0 && pageSize > 1 ==> PagesFit(|data|, length, pageSize)
    ensures Got(r, out) == WriteResult(bus, cfg, addr, data, length, pageSize, cancel)
  {
    if addr != 0 || pageSize <= 1 {
      r, out := WriteBytes(bus, cfg, MemoryOf(addr), data, length, cancel);
    } else {
      r, out := WritePages(bus, cfg, data, length, pageSize, cancel);
    }
  }

  method WriteBytes(bus: Bus, cfg: Config, mem: Memory, data: seq<Byte>, length: int, cancel: seq<bool>)
    returns (r: Bus, out: Outcome)
    requires length <= |data|
    ensures Got(r, out) == BytesFrom(bus, cfg, mem, data, Bits.Iterations(length), cancel, 0)
  {
    var n := Bits.Iterations(length);
    r := bus;
    var i := 0;
    while i < length
      invariant 0 <= i <= n
      invariant BytesFrom(r, cfg, mem, data, n, cancel, i) == BytesFrom(bus, cfg, mem, data, n, cancel, 0)
    {
      BytesFromStep(r, cfg, mem, data, n, cancel, i);
      var st;
      r, st := WriteByte(r, cfg, mem, i, data[i]);
      if st != Ok {
        return r, WriteFailed;
      }
      if Cancelled(cancel, i) {
        return r, Done(i);
      }
      i := i + 1;
    }
    out := Done(i);
  }

  /** The byte-wise write from byte `i` on is the step of byte `i` followed
      by the rest, unless that step failed or the callback cancelled. */
  lemma BytesFromStep(bus: Bus, cfg: Config, mem: Memory, data: seq<Byte>, n: nat, cancel: seq<bool>, i: nat)
    requires i < n <= |data|
    ensures var s := ByteStep(bus, cfg, mem, i, data[i]);
            BytesFrom(bus, cfg, mem, data, n, cancel, i) ==
              if s.val != Ok then Got(s.bus, WriteFailed)
              else if Cancelled(cancel, i) then Got(s.bus, Done(i))
              else BytesFrom(s.bus, cfg, mem, data, n, cancel, i + 1)
  {
  }

  /** An EEPROM byte step reads the location first. When it already holds
      `d` nothing is written; otherwise the write frame and the 100 us delay
      follow the read, then the wait bounded by the configured timeout, and
      the step succeeds exactly when that wait does. */
  lemma ByteStepEeprom(bus: Bus, cfg: Config, i: nat, d: Byte)
    ensures var s := ByteStep(bus, cfg, Eeprom, i, d);
            var read := bus.log + Sends(At90sFrames.ReadEEPFrame(i)) + [Received(At(bus.miso, 0))];
            var miso := Drop(bus.miso, 1);
            && (At(bus.miso, 0) == d ==> s == Got(Bus(read, miso), Ok))
            && (At(bus.miso, 0) != d ==>
                  && s.bus.log == read + Sends(At90sFrames.WriteEEPFrame(i, d as int)) + [WaitUs(100)]
                                  + WaitEvents(miso, cfg, Eeprom, i, d as int, cfg.readyTimeout)
                  && (s.val == Ok <==> cfg.old1200mode || IsPollMarker(Eeprom, d as int)
                                       || exists k :: 0 <= k < cfg.readyTimeout && At(miso, k) as int == d as int)
                  && (s.val != Ok ==> s.val == Timeout))
  {
    var g := At90sFrames.ReadEEPByte(bus, i);
    var w := Mark(At90sFrames.WriteEEPByte(g.bus, i, d as int), WaitUs(100));
    WaitReadyEffect(w, cfg, Eeprom, i, d as int, cfg.readyTimeout);
  }

  /** A program memory byte step sends nothing for `0xFF`; for any other
      byte it sends the write frame and the 100 us delay, then waits with the
      poll bound 2000, and succeeds exactly when that wait does. */
  lemma ByteStepFlash(bus: Bus, cfg: Config, i: nat, d: Byte)
    ensures var s := ByteStep(bus, cfg, Flash, i, d);
            && (d == 0xFF ==> s == Got(bus, Ok))
            && (d != 0xFF ==>
                  && s.bus.log == bus.log + Sends(At90sFrames.WriteProgFrame(i, d as int)) + [WaitUs(100)]
                                  + WaitEvents(bus.miso, cfg, Flash, i, d as int, 2000)
                  && (s.val == Ok <==> cfg.old1200mode || IsPollMarker(Flash, d as int)
                                       || exists k :: 0 <= k < 2000 && At(bus.miso, k) as int == d as int)
                  && (s.val != Ok ==> s.val == Timeout))
  {
    var w := Mark(At90sFrames.WriteProgByte(bus, i, d as int), WaitUs(100));
    WaitReadyEffect(w, cfg, Flash, i, d as int, FlashByteTimeout);
  }

  /** One step of the byte-wise write. */
  method WriteByte(bus: Bus, cfg: Config, mem: Memory, i: nat, d: Byte) returns (r: Bus, st: Status)
    ensures Got(r, st) == ByteStep(bus, cfg, mem, i, d)
  {
    r, st := bus, Ok;
    if mem == Eeprom {
      var g := At90sFrames.ReadEEPByte(r, i);
      r := g.bus;
      if g.val != d {
        r := At90sFrames.WriteEEPByte(r, i, d as int);
        r := Mark(r, WaitUs(100));
        r, st := WaitReadyAfterWrite(r, cfg, Eeprom, i, d as int, cfg.readyTimeout);
      }
    } else if d != 0xFF {
      r := At90sFrames.WriteProgByte(r, i, d as int);
      r := Mark(r, WaitUs(100));
      r, st := WaitReadyAfterWrite(r, cfg, Flash, i, d as int, FlashByteTimeout);
    }
  }

  /** The page at offset `o`: skipped when blank, written otherwise. */
  method PageWrite(bus: Bus, cfg: Config, data: seq<Byte>, pageSize: nat, o: nat) returns (r: Bus, st: Status)
    requires 0 < pageSize && o + pageSize <= |data|
    ensures Got(r, st) == PageStep(bus, cfg, data, pageSize, o)
  {
    r, st := bus, Ok;
    var blank := CheckBlankPage(data[o..], pageSize);
    if !blank {
      r, st := WriteProgPage(bus, cfg, o, Some(data[o..]), pageSize, cfg.pageTimeout);
    }
  }

  method WritePages(bus: Bus, cfg: Config, data: seq<Byte>, length: int, pageSize: int, cancel: seq<bool>)
    returns (r: Bus, out: Outcome)
    requires pageSize > 1 && PagesFit(|data|, length, pageSize)
    ensures Got(r, out) == PagesFrom(bus, cfg, data, length, pageSize, cancel, 0, 0)
  {
    r := bus;
    var j, o := 0, 0;
    while o < length
      invariant o % pageSize == 0
      invariant PagesFrom(r, cfg, data, length, pageSize, cancel, j, o) == PagesFrom(bus, cfg, data, length, pageSize, cancel, 0, 0)
      decreases length - o
    {
      PageFits(o, pageSize, length, |data|);
      var st;
      r, st := PageWrite(r, cfg, data, pageSize, o);
      if st != Ok {
        return r, WriteFailed;
      }
      if Cancelled(cancel, j) {
        return r, Done(o);
      }
      NextPage(o, pageSize);
      j, o := j + 1, o + pageSize;
    }
    out := Done(o);
  }

  // ---- properties of the write ----

  /** Rewriting what the EEPROM already holds sends no write frame: when
      every location reads back as the byte to write, the write is exactly
      the reads of those locations. */
  lemma EepromMatchSkips(bus: Bus, cfg: Config, data: seq<Byte>, n: nat, cancel: seq<bool>)
    requires n <= |data|
    requires forall i :: 0 <= i < n ==> At(bus.miso, i) == data[i] && !Cancelled(cancel, i)
    ensures BytesFrom(bus, cfg, Eeprom, data, n, cancel, 0) == Got(ReadState(bus, Eeprom, n), Done(n))
  {
    assert ReadState(bus, Eeprom, 0) == bus;
    EepromMatchFrom(bus, cfg, data, n, cancel, 0);
  }

  lemma {:induction false} EepromMatchFrom(bus: Bus, cfg: Config, data: seq<Byte>, n: nat, cancel: seq<bool>, i: nat)
    requires i <= n <= |data|
    requires forall k :: 0 <= k < n ==> At(bus.miso, k) == data[k] && !Cancelled(cancel, k)
    ensures BytesFrom(ReadState(bus, Eeprom, i), cfg, Eeprom, data, n, cancel, i) == Got(ReadState(bus, Eeprom, n), Done(n))
    decreases n - i
  {
    if i < n {
      ReadAdvances(bus, Eeprom, i);
      assert ByteStep(ReadState(bus, Eeprom, i), cfg, Eeprom, i, data[i]) == Got(ReadState(bus, Eeprom, i + 1), Ok);
      EepromMatchFrom(bus, cfg, data, n, cancel, i + 1);
    }
  }

  /** Program memory bytes equal to `0xFF` (the erased state) are never
      written: an all-`0xFF` buffer leaves the bus untouched, and the write
      stops only where the callback cancels. */
  lemma {:induction false} FlashErasedSkips(bus: Bus, cfg: Config, data: seq<Byte>, n: nat, cancel: seq<bool>, i: nat)
    requires i <= n <= |data|
    requires forall k :: i <= k < n ==> data[k] == 0xFF
    ensures BytesFrom(bus, cfg, Flash, data, n, cancel, i) == Got(bus, Done(FirstCancel(cancel, n, i)))
    decreases n - i
  {
    if i < n && !Cancelled(cancel, i) {
      FlashErasedSkips(bus, cfg, data, n, cancel, i + 1);
    }
  }

  /** Blank pages are never written: an all-`0xFF` buffer leaves the bus
      untouched and the write succeeds. */
  lemma {:induction false} BlankPagesSkip(bus: Bus, cfg: Config, data: seq<Byte>, length: int, pageSize: nat, cancel: seq<bool>, j: nat, o: nat)
    requires pageSize > 1 && PagesFit(|data|, length, pageSize) && o % pageSize == 0
    requires forall k :: 0 <= k < |data| ==> data[k] == 0xFF
    ensures PagesFrom(bus, cfg, data, length, pageSize, cancel, j, o).bus == bus
    ensures PagesFrom(bus, cfg, data, length, pageSize, cancel, j, o).val.Done?
    decreases length - o
  {
    if o < length {
      PageFits(o, pageSize, length, |data|);
      assert Blank(data[o..], pageSize);
      if !Cancelled(cancel, j) {
        NextPage(o, pageSize);
        BlankPagesSkip(bus, cfg, data, length, pageSize, cancel, j + 1, o + pageSize);
      }
    }
  }

  /** A completed transfer that started at step `i` of `n` stopped at the
      first step after which the callback cancelled, or ran to the end. */
  predicate StoppedAtCancel(out: Outcome, cancel: seq<bool>, n: nat, i: nat)
  {
    out.Done? ==>
      && i <= out.len <= n
      && (out.len < n ==> Cancelled(cancel, out.len))
      && (forall k :: i <= k < out.len ==> !Cancelled(cancel, k))
  }

  /** A byte-wise write that completes returns how far it got: every byte,
      or the byte after which the callback cancelled. */
  lemma {:induction false} BytesDoneCount(bus: Bus, cfg: Config, mem: Memory, data: seq<Byte>, n: nat, cancel: seq<bool>, i: nat)
    requires i <= n <= |data|
    ensures StoppedAtCancel(BytesFrom(bus, cfg, mem, data, n, cancel, i).val, cancel, n, i)
    decreases n - i, 1
  {
    if i < n {
      AfterByteCount(ByteStep(bus, cfg, mem, i, data[i]), cfg, mem, data, n, cancel, i);
    }
  }

  lemma {:induction false} AfterByteCount(s: Got<Status>, cfg: Config, mem: Memory, data: seq<Byte>, n: nat, cancel: seq<bool>, i: nat)
    requires i < n <= |data|
    ensures StoppedAtCancel(AfterByte(s, cfg, mem, data, n, cancel, i).val, cancel, n, i)
    decreases n - i, 0
  {
    if s.val == Ok && !Cancelled(cancel, i) {
      var out := BytesFrom(s.bus, cfg, mem, data, n, cancel, i + 1).val;
      assert AfterByte(s, cfg, mem, data, n, cancel, i).val == out;
      BytesDoneCount(s.bus, cfg, mem, data, n, cancel, i + 1);
      StoppedAtCancelBack(out, cancel, n, i);
    }
  }

  /** Stopping at a cancel from step `i + 1` on is stopping at one from step
      `i` on, when the callback did not cancel after step `i`. */
  lemma StoppedAtCancelBack(out: Outcome, cancel: seq<bool>, n: nat, i: nat)
    requires i < n && !Cancelled(cancel, i) && StoppedAtCancel(out, cancel, n, i + 1)
    ensures StoppedAtCancel(out, cancel, n, i)
  {
  }

  /** A paged write from page `j` at offset `o` that returns `len` went
      through `p` pages after which the callback did not cancel. When `len`
      falls short of `length`, the callback cancelled after page `j + p`,
      which was also written: `len` is that page's start offset. Otherwise
      `len` is the first page boundary at or past `length`. */
  predicate PagesStopped(len: int, cancel: seq<bool>, length: int, pageSize: nat, j: nat, o: nat, p: nat)
  {
    && len == o + p * pageSize
    && (forall k :: j <= k < j + p ==> !Cancelled(cancel, k))
    && (len < length ==> Cancelled(cancel, j + p))
    && (len > o ==> len - pageSize < length)
  }

  /** A paged write that completes returns a whole number of pages: the
      first page boundary at or past the requested length, or the start
      offset of the page after which the callback first cancelled (that page
      is written, so the result is one page short of what was written). */
  lemma {:induction false} PagesDoneCount(bus: Bus, cfg: Config, data: seq<Byte>, length: int, pageSize: nat, cancel: seq<bool>, j: nat, o: nat)
    requires pageSize > 1 && PagesFit(|data|, length, pageSize) && o % pageSize == 0
    ensures PagesFrom(bus, cfg, data, length, pageSize, cancel, j, o).val.Done? ==>
              var len := PagesFrom(bus, cfg, data, length, pageSize, cancel, j, o).val.len;
              && len % pageSize == 0
              && exists p: nat :: PagesStopped(len, cancel, length, pageSize, j, o, p)
    decreases length - o
  {
    var out := PagesFrom(bus, cfg, data, length, pageSize, cancel, j, o).val;
    if o >= length {
      assert PagesStopped(out.len, cancel, length, pageSize, j, o, 0);
    } else {
      PageFits(o, pageSize, length, |data|);
      var s := PageStep(bus, cfg, data, pageSize, o);
      if s.val == Ok && Cancelled(cancel, j) {
        assert PagesStopped(out.len, cancel, length, pageSize, j, o, 0);
      } else if s.val == Ok {
        NextPage(o, pageSize);
        assert out == PagesFrom(s.bus, cfg, data, length, pageSize, cancel, j + 1, o + pageSize).val;
        PagesDoneCount(s.bus, cfg, data, length, pageSize, cancel, j + 1, o + pageSize);
        if out.Done? {
          var p: nat :| PagesStopped(out.len, cancel, length, pageSize, j + 1, o + pageSize, p);
          PagesStoppedBack(out.len, cancel, length, pageSize, j, o, p);
        }
      }
    }
  }

  /** One more page, after which the callback did not cancel, in front of
      `p` pages written from page `j + 1` on. */
  lemma PagesStoppedBack(len: int, cancel: seq<bool>, length: int, pageSize: nat, j: nat, o: nat, p: nat)
    requires o < length && !Cancelled(cancel, j)
    requires PagesStopped(len, cancel, length, pageSize, j + 1, o + pageSize, p)
    ensures PagesStopped(len, cancel, length, pageSize, j, o, p + 1)
  {
    assert (p + 1) * pageSize == p * pageSize + pageSize;
  }
}
