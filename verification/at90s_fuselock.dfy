/** Fuse and lock bits of the AVR models. Each model's command layout is a
    row of a table chosen by the model id; ids that are not AVR models fall to
    the `default` row (no command). The bits travel active-low: writes send
    the complement of the masked value, reads complement what they receive. */
module At90sFuseLock {
  import opened Options
  import opened SpiTrace
  import opened EepTypes
  import opened At90sConfig
  import At90sFrames

  const ReadLock0: Byte := 0x58
  const ReadLock1: Byte := 0
  const WriteLock0: Byte := 0xAC
  const WriteLock1: Byte := 0xE0
  const ReadFuse0: Byte := 0x50
  const ReadFuse1: Byte := 0
  const WriteFuse0: Byte := 0xAC
  const WriteFuse1a: Byte := 0xBF
  const WriteFuse1b: Byte := 0xA0
  const ReadFuseHigh0: Byte := 0x58
  const ReadFuseHigh1: Byte := 0x08
  const WriteFuseHigh0: Byte := 0xAC
  const WriteFuseHigh1: Byte := 0xA8
  const ReadFuseExt0: Byte := 0x50
  const ReadFuseExt1: Byte := 0x08
  const WriteFuseExt0: Byte := 0xAC
  const WriteFuseExt1: Byte := 0xA4

  /** The low eight bits of a 32-bit value, as shifted out. */
  function Low(x: bv32): Byte
  {
    (x & 0xFF) as Byte
  }

  /** A received byte, complemented and widened: `~rv` as a 32-bit value. */
  function Inv(b: Byte): bv32
  {
    !(b as bv32)
  }

  // ---- layouts ----

  /** How a model's lock bits are written. */
  datatype LockWrite =
    | NoLockWrite
    | LockInCommand          // (0xAC, ~(v & 0x06), 0, 0)
    | LockInData(mask: bv32) // (0xAC, 0xE0, 0, ~(v & mask))

  /** How a model's lock bits are read. */
  datatype LockRead =
    | NoLockRead
    | LockBySignature        // no read command: a locked chip reads signature 0, 1, 2
    | LockBits76             // lock bits reported in bits 7 and 6 of the lock byte
    | LockMasked(mask: bv32) // ~rv & mask

  /** The number of fuse bytes of a byte-wise fuse layout. */
  type FuseCount = n: nat | 1 <= n <= 3 witness 1

  /** How a model's fuse bits are written. */
  datatype FuseWrite =
    | NoFuseWrite
    | FuseInCommand(mask: bv32) // (0xAC, 0xBF & ~(v & mask), 0, 0)
    | FuseBytes(n: FuseCount)   // low, high, extended byte frames, each ~byte

  /** How a model's fuse bits are read. */
  datatype FuseRead =
    | NoFuseRead
    | FuseViaLock(mask: bv32)   // read through the lock command: ~rv & mask
    | FuseBytesRead(n: FuseCount)

  function LockWriteOf(m: AvrModel): LockWrite
  {
    match m
    case AT90S1200 | AT90S2313 | AT90S4414 | AT90S8515 | AT90S2323 | AT90S2343
      | AT90S2333 | AT90S4433 | AT90S4434 | AT90S8535 | ATmega603 | ATmega103
      | ATtiny12 | ATtiny15 | ATtiny22 => LockInCommand
    case ATtiny2313 | ATtiny4313 | ATtiny26 | ATtiny13 | ATtiny24 | ATtiny44
      | ATtiny84 | ATtiny25 | ATtiny45 | ATtiny85 | ATtiny261 | ATtiny461
      | ATtiny861 => LockInData(0x03)
    case ATmega8 | ATmega16 | ATmega161 | ATmega163 | ATmega323 | ATmega128
      | ATmega64 | ATmega32 | ATmega162 | ATmega169 | ATmega8515 | ATmega8535
      | ATmega48 | ATmega88 | ATmega168 | ATmega328 | ATmega164 | ATmega324
      | ATmega644 | ATmega1284 | ATmega640 | ATmega1280 | ATmega1281
      | ATmega2560 | ATmega2561 | AT90CAN32 | AT90CAN64 | AT90CAN128 => LockInData(0x3F)
    case _ => NoLockWrite  // AT90S8534 (parallel programming only) and the rest
  }

  function LockReadOf(m: AvrModel): LockRead
  {
    match m
    case AT90S1200 | AT90S2313 | AT90S4414 | AT90S8515 => LockBySignature
    case ATtiny22 | AT90S2323 | AT90S2343 | AT90S4434 | AT90S8535 => LockBits76
    case ATtiny12 | ATtiny15 | AT90S2333 | AT90S4433 | ATmega603 | ATmega103 => LockMasked(0x06)
    case ATtiny13 | ATtiny26 | ATtiny2313 | ATtiny4313 | ATtiny24 | ATtiny44
      | ATtiny84 | ATtiny25 | ATtiny45 | ATtiny85 | ATtiny261 | ATtiny461
      | ATtiny861 => LockMasked(0x03)
    case ATmega8 | ATmega16 | ATmega161 | ATmega163 | ATmega323 | ATmega128
      | ATmega64 | ATmega32 | ATmega162 | ATmega169 | ATmega8515 | ATmega8535
      | ATmega48 | ATmega88 | ATmega168 | ATmega328 | ATmega164 | ATmega324
      | ATmega644 | ATmega1284 | AT90CAN32 | AT90CAN64 | AT90CAN128
      | ATmega640 | ATmega1280 | ATmega1281 | ATmega2560 | ATmega2561 => LockMasked(0x3F)
    case _ => NoLockRead
  }

  function FuseWriteOf(m: AvrModel): FuseWrite
  {
    match m
    case AT90S2323 | AT90S2343 | AT90S4434 | AT90S8535 => FuseInCommand(0x01)
    case ATmega603 | ATmega103 => FuseInCommand(0x0B)
    case AT90S2333 | AT90S4433 => FuseInCommand(0x1F)
    case ATtiny12 | ATtiny15 | ATmega161 => FuseBytes(1)
    case ATtiny13 | ATtiny26 | ATmega163 | ATmega323 | ATmega8 | ATmega16
      | ATmega32 | ATmega8515 | ATmega8535 => FuseBytes(2)
    case ATtiny2313 | ATtiny4313 | ATtiny24 | ATtiny44 | ATtiny84 | ATtiny25
      | ATtiny45 | ATtiny85 | ATtiny261 | ATtiny461 | ATtiny861 | ATmega128
      | ATmega64 | ATmega162 | ATmega169 | ATmega48 | ATmega88 | ATmega168
      | ATmega328 | ATmega164 | ATmega324 | ATmega644 | ATmega1284
      | AT90CAN32 | AT90CAN64 | AT90CAN128 | ATmega640 | ATmega1280
      | ATmega1281 | ATmega2560 | ATmega2561 => FuseBytes(3)
    case _ => NoFuseWrite  // AT90S1200, AT90S2313, AT90S4414, AT90S8515, ATtiny22, AT90S8534, ...
  }

  function FuseReadOf(m: AvrModel): FuseRead
  {
    match m
    case ATtiny22 => FuseViaLock(0x20)
    case AT90S2323 | AT90S2343 | AT90S4434 | AT90S8535 => FuseViaLock(0x21)
    case AT90S2333 | AT90S4433 | ATmega603 | ATmega103 | ATtiny12 | ATtiny15
      | ATmega161 => FuseBytesRead(1)
    case ATtiny13 | ATtiny26 | ATmega163 | ATmega323 | ATmega8 | ATmega16
      | ATmega32 | ATmega8515 | ATmega8535 => FuseBytesRead(2)
    case ATtiny2313 | ATtiny4313 | ATtiny24 | ATtiny44 | ATtiny84 | ATtiny25
      | ATtiny45 | ATtiny85 | ATtiny261 | ATtiny461 | ATtiny861 | ATmega128
      | ATmega64 | ATmega162 | ATmega169 | ATmega48 | ATmega88 | ATmega168
      | ATmega328 | ATmega164 | ATmega324 | ATmega644 | ATmega1284
      | AT90CAN32 | AT90CAN64 | AT90CAN128 | ATmega640 | ATmega1280
      | ATmega1281 | ATmega2560 | ATmega2561 => FuseBytesRead(3)
    case _ => NoFuseRead  // AT90S1200, AT90S2313, AT90S4414, AT90S8515, ...
  }

  // ---- frames ----

  /** The byte of a lock frame that carries the lock bits. */
  function LockWireByte(lw: LockWrite, v: bv32): Byte
  {
    match lw
    case LockInData(mask) => Low(!(v & mask))
    case _ => Low(!(v & 0x06))
  }

  function LockWriteFrames(lw: LockWrite, v: bv32): seq<seq<Byte>>
  {
    match lw
    case NoLockWrite => []
    case LockInCommand => [[WriteLock0, LockWireByte(lw, v), 0, 0]]
    case LockInData(_) => [[WriteLock0, WriteLock1, 0, LockWireByte(lw, v)]]
  }

  /** Byte `i` (0 low, 1 high, 2 extended) of a fuse value, as sent: `~((v >> 8i) & 0xFF)`. */
  function FuseWireByte(v: bv32, i: nat): Byte
    requires i < 3
  {
    Low(!(FuseField(v, i)))
  }

  /** Byte `i` of a fuse value: `(v >> 8i) & 0xFF`. */
  function FuseField(v: bv32, i: nat): bv32
    requires i < 3
  {
    if i == 0 then v & 0xFF else if i == 1 then (v >> 8) & 0xFF else (v >> 16) & 0xFF
  }

  /** The data bytes of the first `n` fuse frames. */
  function FuseWireBytes(v: bv32, n: FuseCount): (bs: seq<Byte>)
    ensures |bs| == n
  {
    seq(n, i requires 0 <= i < n => FuseWireByte(v, i))
  }

  function FuseDataFrame(v: bv32, i: nat): seq<Byte>
    requires i < 3
  {
    if i == 0 then [WriteFuse0, WriteFuse1b, 0, FuseWireByte(v, 0)]
    else if i == 1 then [WriteFuseHigh0, WriteFuseHigh1, 0, FuseWireByte(v, 1)]
    else [WriteFuseExt0, WriteFuseExt1, 0, FuseWireByte(v, 2)]
  }

  function FuseWriteFrames(fw: FuseWrite, v: bv32): seq<seq<Byte>>
  {
    match fw
    case NoFuseWrite => []
    case FuseInCommand(mask) => [[WriteFuse0, WriteFuse1a & Low(!(v & mask)), 0, 0]]
    case FuseBytes(n) => seq(n, i requires 0 <= i < n => FuseDataFrame(v, i))
  }

  /** The read commands of the low, high and extended fuse bytes. */
  function FuseReadFrame(i: nat): seq<Byte>
    requires i < 3
  {
    if i == 0 then [ReadFuse0, ReadFuse1, 0]
    else if i == 1 then [ReadFuseHigh0, ReadFuseHigh1, 0]
    else [ReadFuseExt0, ReadFuseExt1, 0]
  }

  /** The events of the first `n` fuse reads, answered in turn by `miso`. */
  function FuseReadLog(miso: seq<Byte>, n: nat): seq<Event>
    requires n <= 3
  {
    if n == 0 then []
    else FuseReadLog(miso, n - 1) + Sends(FuseReadFrame(n - 1)) + [Received(At(miso, n - 1))]
  }

  /** The fuse reads send `(0x50, 0, 0)` for the low byte, `(0x58, 0x08, 0)`
      for the high byte and `(0x50, 0x08, 0)` for the extended byte, each
      followed by one answer. */
  lemma FuseReadLogFrames(miso: seq<Byte>)
    ensures FuseReadLog(miso, 1) == Sends([0x50, 0x00, 0x00]) + [Received(At(miso, 0))]
    ensures FuseReadLog(miso, 2) == Sends([0x50, 0x00, 0x00]) + [Received(At(miso, 0))]
                                   + Sends([0x58, 0x08, 0x00]) + [Received(At(miso, 1))]
    ensures FuseReadLog(miso, 3) == Sends([0x50, 0x00, 0x00]) + [Received(At(miso, 0))]
                                   + Sends([0x58, 0x08, 0x00]) + [Received(At(miso, 1))]
                                   + Sends([0x50, 0x08, 0x00]) + [Received(At(miso, 2))]
  {
    assert FuseReadLog(miso, 0) == [];
  }

  function ReadLockFrame(): seq<Byte>
  {
    [ReadLock0, ReadLock1, 0]
  }

  /** The events of sending `frames`, each followed by the programming wait. */
  function FrameEvents(frames: seq<seq<Byte>>, wait: int): seq<Event>
  {
    if |frames| == 0 then []
    else Sends(frames[0]) + [WaitMs(wait)] + FrameEvents(frames[1..], wait)
  }

  /** A received fuse byte, complemented and masked: `~rv & 0xFF`. */
  function Decode(b: Byte): bv32
  {
    Inv(b) & 0xFF
  }

  /** `(rv3 << 16) | (rv2 << 8) | rv1` over the decoded bytes received so far. */
  function AssembleFuse(bs: seq<Byte>): bv32
    requires 1 <= |bs| <= 3
  {
    if |bs| == 1 then Decode(bs[0])
    else if |bs| == 2 then (Decode(bs[1]) << 8) | Decode(bs[0])
    else (Decode(bs[2]) << 16) | (Decode(bs[1]) << 8) | Decode(bs[0])
  }

  /** The value mask of an `n`-byte fuse layout. */
  function FuseMask(n: FuseCount): bv32
  {
    if n == 1 then 0xFF else if n == 2 then 0xFFFF else 0xFF_FFFF
  }

  // ---- operations ----

  /** Sends the lock frame of the model `id`, if it has one. */
  function WriteLockBits(bus: Bus, cfg: Config, id: int, v: bv32): (r: Bus)
    ensures r.miso == bus.miso
    ensures FromId(id).None? ==> r == bus
    ensures FromId(id).Some? ==>
              r.log == bus.log + FrameEvents(LockWriteFrames(LockWriteOf(FromId(id).value), v), cfg.twdProg * 10)
  {
    match FromId(id)
    case None => bus
    case Some(m) => bus.(log := bus.log + FrameEvents(LockWriteFrames(LockWriteOf(m), v), cfg.twdProg * 10))
  }

  /** Sends the fuse frames of the model `id`, if it has any. */
  function WriteFuseBits(bus: Bus, cfg: Config, id: int, v: bv32): (r: Bus)
    ensures r.miso == bus.miso
    ensures FromId(id).None? ==> r == bus
    ensures FromId(id).Some? ==>
              r.log == bus.log + FrameEvents(FuseWriteFrames(FuseWriteOf(FromId(id).value), v), cfg.twdProg * 10)
  {
    match FromId(id)
    case None => bus
    case Some(m) => bus.(log := bus.log + FrameEvents(FuseWriteFrames(FuseWriteOf(m), v), cfg.twdProg * 10))
  }

  /** Sends the first `n` fuse read commands, collecting one answer after each. */
  function ReadFuseBytes(bus: Bus, n: nat): (r: Got<seq<Byte>>)
    requires n <= 3
    ensures |r.val| == n
    ensures forall i :: 0 <= i < n ==> r.val[i] == At(bus.miso, i)
    ensures r.bus.miso == Drop(bus.miso, n)
    ensures r.bus.log == bus.log + FuseReadLog(bus.miso, n)
    decreases n
  {
    if n == 0 then Got(bus, [])
    else
      var prev := ReadFuseBytes(bus, n - 1);
      var g := Receive(SendBytes(prev.bus, FuseReadFrame(n - 1)));
      AtDrop(bus.miso, n - 1, 0);
      DropDrop(bus.miso, n - 1, 1);
      AppendAssoc(bus.log + FuseReadLog(bus.miso, n - 1), Sends(FuseReadFrame(n - 1)), [Received(g.val)]);
      AppendAssoc(bus.log, FuseReadLog(bus.miso, n - 1), Sends(FuseReadFrame(n - 1)));
      AppendAssoc(bus.log, FuseReadLog(bus.miso, n - 1) + Sends(FuseReadFrame(n - 1)), [Received(g.val)]);
      Got(g.bus, prev.val + [g.val])
  }

  function ReadFuseBits(bus: Bus, id: int): (r: Got<bv32>)
    ensures FromId(id).None? ==> r == Got(bus, 0)
  {
    match FromId(id)
    case None => Got(bus, 0)
    case Some(m) => ReadFuseAs(bus, FuseReadOf(m))
  }

  /** The fuse read of a layout. */
  function ReadFuseAs(bus: Bus, fr: FuseRead): Got<bv32>
  {
    match fr
    case NoFuseRead => Got(bus, 0)
    case FuseViaLock(mask) =>
      var g := Receive(SendBytes(bus, ReadLockFrame()));
      Got(g.bus, Inv(g.val) & mask)
    case FuseBytesRead(n) =>
      var g := ReadFuseBytes(bus, n);
      Got(g.bus, AssembleFuse(g.val))
  }

  function ReadLockBits(bus: Bus, id: int): (r: Got<bv32>)
    ensures FromId(id).None? ==> r == Got(bus, 0)
  {
    match FromId(id)
    case None => Got(bus, 0)
    case Some(m) => ReadLockAs(bus, LockReadOf(m))
  }

  /** The lock read of a layout. */
  function ReadLockAs(bus: Bus, lr: LockRead): Got<bv32>
  {
    match lr
    case NoLockRead => Got(bus, 0)
    case LockBySignature =>
      var c0 := At90sFrames.ReadDeviceCode(bus, 0);
      var c1 := At90sFrames.ReadDeviceCode(c0.bus, 1);
      var c2 := At90sFrames.ReadDeviceCode(c1.bus, 2);
      Got(c2.bus, if c0.val == 0x00 && c1.val == 0x01 && c2.val == 0x02 then 0x06 else 0)
    case LockBits76 =>
      var g := Receive(SendBytes(bus, ReadLockFrame()));
      Got(g.bus, ((Inv(g.val) & 0x80) >> 6) | ((Inv(g.val) & 0x40) >> 4))
    case LockMasked(mask) =>
      var g := Receive(SendBytes(bus, ReadLockFrame()));
      Got(g.bus, Inv(g.val) & mask)
  }

  // ---- properties ----

  /** A model's lock write and lock read agree on the mask wherever the read
      is a plain masked read. */
  lemma LockTablesAgree(m: AvrModel)
    ensures LockReadOf(m).LockMasked? ==>
              LockWriteOf(m) != NoLockWrite &&
              (LockWriteOf(m).LockInData? ==> LockWriteOf(m).mask == LockReadOf(m).mask) &&
              (LockWriteOf(m).LockInCommand? ==> LockReadOf(m).mask == 0x06)
  {
    match FamilyOf(m)
    case AVRAT90 => At90LocksAgree(m);
    case AVRTiny => TinyLocksAgree(m);
    case AVRMega => MegaLocksAgree(m);
  }

  /** The lock write of `m` matches its lock read when that is a masked read. */
  predicate LocksAgree(m: AvrModel)
  {
    LockReadOf(m).LockMasked? ==>
      match LockWriteOf(m)
      case NoLockWrite => false
      case LockInCommand => LockReadOf(m).mask == 0x06
      case LockInData(mask) => mask == LockReadOf(m).mask
  }

  lemma At90LocksAgree(m: AvrModel)
    requires FamilyOf(m) == AVRAT90
    ensures LocksAgree(m)
  {
    match m
    case AT90S0000 => assert LockReadOf(AT90S0000) == NoLockRead && LockWriteOf(AT90S0000) == NoLockWrite;
    case AT90S1200 => assert LockReadOf(AT90S1200) == LockBySignature && LockWriteOf(AT90S1200) == LockInCommand;
    case AT90S2313 => assert LockReadOf(AT90S2313) == LockBySignature && LockWriteOf(AT90S2313) == LockInCommand;
    case AT90S4414 => assert LockReadOf(AT90S4414) == LockBySignature && LockWriteOf(AT90S4414) == LockInCommand;
    case AT90S8515 => assert LockReadOf(AT90S8515) == LockBySignature && LockWriteOf(AT90S8515) == LockInCommand;
    case AT90S2323 => assert LockReadOf(AT90S2323) == LockBits76 && LockWriteOf(AT90S2323) == LockInCommand;
    case AT90S2343 => assert LockReadOf(AT90S2343) == LockBits76 && LockWriteOf(AT90S2343) == LockInCommand;
    case AT90S2333 => assert LockReadOf(AT90S2333) == LockMasked(0x06) && LockWriteOf(AT90S2333) == LockInCommand;
    case AT90S4433 => assert LockReadOf(AT90S4433) == LockMasked(0x06) && LockWriteOf(AT90S4433) == LockInCommand;
    case AT90S4434 => assert LockReadOf(AT90S4434) == LockBits76 && LockWriteOf(AT90S4434) == LockInCommand;
    case AT90S8534 => assert LockReadOf(AT90S8534) == NoLockRead && LockWriteOf(AT90S8534) == NoLockWrite;
    case AT90S8535 => assert LockReadOf(AT90S8535) == LockBits76 && LockWriteOf(AT90S8535) == LockInCommand;
    case AT90CAN32 => assert LockReadOf(AT90CAN32) == LockMasked(0x3F) && LockWriteOf(AT90CAN32) == LockInData(0x3F);
    case AT90CAN64 => assert LockReadOf(AT90CAN64) == LockMasked(0x3F) && LockWriteOf(AT90CAN64) == LockInData(0x3F);
    case AT90CAN128 => assert LockReadOf(AT90CAN128) == LockMasked(0x3F) && LockWriteOf(AT90CAN128) == LockInData(0x3F);
  }

  lemma TinyLocksAgree(m: AvrModel)
    requires FamilyOf(m) == AVRTiny
    ensures LocksAgree(m)
  {
    match m
    case ATtiny22 => assert LockReadOf(ATtiny22) == LockBits76 && LockWriteOf(ATtiny22) == LockInCommand;
    case ATtiny12 => assert LockReadOf(ATtiny12) == LockMasked(0x06) && LockWriteOf(ATtiny12) == LockInCommand;
    case ATtiny13 => assert LockReadOf(ATtiny13) == LockMasked(0x03) && LockWriteOf(ATtiny13) == LockInData(0x03);
    case ATtiny15 => assert LockReadOf(ATtiny15) == LockMasked(0x06) && LockWriteOf(ATtiny15) == LockInCommand;
    case ATtiny11 => assert LockReadOf(ATtiny11) == NoLockRead && LockWriteOf(ATtiny11) == NoLockWrite;
    case ATtiny10 => assert LockReadOf(ATtiny10) == NoLockRead && LockWriteOf(ATtiny10) == NoLockWrite;
    case ATtiny28 => assert LockReadOf(ATtiny28) == NoLockRead && LockWriteOf(ATtiny28) == NoLockWrite;
    case ATtiny26 => assert LockReadOf(ATtiny26) == LockMasked(0x03) && LockWriteOf(ATtiny26) == LockInData(0x03);
    case ATtiny2313 => assert LockReadOf(ATtiny2313) == LockMasked(0x03) && LockWriteOf(ATtiny2313) == LockInData(0x03);
    case ATtiny25 => assert LockReadOf(ATtiny25) == LockMasked(0x03) && LockWriteOf(ATtiny25) == LockInData(0x03);
    case ATtiny45 => assert LockReadOf(ATtiny45) == LockMasked(0x03) && LockWriteOf(ATtiny45) == LockInData(0x03);
    case ATtiny85 => assert LockReadOf(ATtiny85) == LockMasked(0x03) && LockWriteOf(ATtiny85) == LockInData(0x03);
    case ATtiny261 => assert LockReadOf(ATtiny261) == LockMasked(0x03) && LockWriteOf(ATtiny261) == LockInData(0x03);
    case ATtiny461 => assert LockReadOf(ATtiny461) == LockMasked(0x03) && LockWriteOf(ATtiny461) == LockInData(0x03);
    case ATtiny861 => assert LockReadOf(ATtiny861) == LockMasked(0x03) && LockWriteOf(ATtiny861) == LockInData(0x03);
    case ATtiny24 => assert LockReadOf(ATtiny24) == LockMasked(0x03) && LockWriteOf(ATtiny24) == LockInData(0x03);
    case ATtiny44 => assert LockReadOf(ATtiny44) == LockMasked(0x03) && LockWriteOf(ATtiny44) == LockInData(0x03);
    case ATtiny84 => assert LockReadOf(ATtiny84) == LockMasked(0x03) && LockWriteOf(ATtiny84) == LockInData(0x03);
    case ATtiny4313 => assert LockReadOf(ATtiny4313) == LockMasked(0x03) && LockWriteOf(ATtiny4313) == LockInData(0x03);
  }

  lemma MegaLocksAgree(m: AvrModel)
    requires FamilyOf(m) == AVRMega
    ensures LocksAgree(m)
  {
    match m
    case ATmega603 => assert LockReadOf(ATmega603) == LockMasked(0x06) && LockWriteOf(ATmega603) == LockInCommand;
    case ATmega103 => assert LockReadOf(ATmega103) == LockMasked(0x06) && LockWriteOf(ATmega103) == LockInCommand;
    case ATmega8515 => assert LockReadOf(ATmega8515) == LockMasked(0x3F) && LockWriteOf(ATmega8515) == LockInData(0x3F);
    case ATmega8535 => assert LockReadOf(ATmega8535) == LockMasked(0x3F) && LockWriteOf(ATmega8535) == LockInData(0x3F);
    case ATmega8 => assert LockReadOf(ATmega8) == LockMasked(0x3F) && LockWriteOf(ATmega8) == LockInData(0x3F);
    case ATmega161 => assert LockReadOf(ATmega161) == LockMasked(0x3F) && LockWriteOf(ATmega161) == LockInData(0x3F);
    case ATmega163 => assert LockReadOf(ATmega163) == LockMasked(0x3F) && LockWriteOf(ATmega163) == LockInData(0x3F);
    case ATmega16 => assert LockReadOf(ATmega16) == LockMasked(0x3F) && LockWriteOf(ATmega16) == LockInData(0x3F);
    case ATmega323 => assert LockReadOf(ATmega323) == LockMasked(0x3F) && LockWriteOf(ATmega323) == LockInData(0x3F);
    case ATmega32 => assert LockReadOf(ATmega32) == LockMasked(0x3F) && LockWriteOf(ATmega32) == LockInData(0x3F);
    case ATmega162 => assert LockReadOf(ATmega162) == LockMasked(0x3F) && LockWriteOf(ATmega162) == LockInData(0x3F);
    case ATmega169 => assert LockReadOf(ATmega169) == LockMasked(0x3F) && LockWriteOf(ATmega169) == LockInData(0x3F);
    case ATmega164 => assert LockReadOf(ATmega164) == LockMasked(0x3F) && LockWriteOf(ATmega164) == LockInData(0x3F);
    case ATmega324 => assert LockReadOf(ATmega324) == LockMasked(0x3F) && LockWriteOf(ATmega324) == LockInData(0x3F);
    case ATmega644 => assert LockReadOf(ATmega644) == LockMasked(0x3F) && LockWriteOf(ATmega644) == LockInData(0x3F);
    case ATmega64 => assert LockReadOf(ATmega64) == LockMasked(0x3F) && LockWriteOf(ATmega64) == LockInData(0x3F);
    case ATmega128 => assert LockReadOf(ATmega128) == LockMasked(0x3F) && LockWriteOf(ATmega128) == LockInData(0x3F);
    case ATmega48 => assert LockReadOf(ATmega48) == LockMasked(0x3F) && LockWriteOf(ATmega48) == LockInData(0x3F);
    case ATmega88 => assert LockReadOf(ATmega88) == LockMasked(0x3F) && LockWriteOf(ATmega88) == LockInData(0x3F);
    case ATmega168 => assert LockReadOf(ATmega168) == LockMasked(0x3F) && LockWriteOf(ATmega168) == LockInData(0x3F);
    case ATmega640 => assert LockReadOf(ATmega640) == LockMasked(0x3F) && LockWriteOf(ATmega640) == LockInData(0x3F);
    case ATmega1280 => assert LockReadOf(ATmega1280) == LockMasked(0x3F) && LockWriteOf(ATmega1280) == LockInData(0x3F);
    case ATmega1281 => assert LockReadOf(ATmega1281) == LockMasked(0x3F) && LockWriteOf(ATmega1281) == LockInData(0x3F);
    case ATmega2560 => assert LockReadOf(ATmega2560) == LockMasked(0x3F) && LockWriteOf(ATmega2560) == LockInData(0x3F);
    case ATmega2561 => assert LockReadOf(ATmega2561) == LockMasked(0x3F) && LockWriteOf(ATmega2561) == LockInData(0x3F);
    case ATmega328 => assert LockReadOf(ATmega328) == LockMasked(0x3F) && LockWriteOf(ATmega328) == LockInData(0x3F);
    case ATmega1284 => assert LockReadOf(ATmega1284) == LockMasked(0x3F) && LockWriteOf(ATmega1284) == LockInData(0x3F);
  }


  /** A model's fuse write and fuse read use the same number of fuse bytes. */
  lemma FuseTablesAgree(m: AvrModel)
    ensures FuseWriteOf(m).FuseBytes? ==> FuseReadOf(m) == FuseBytesRead(FuseWriteOf(m).n)
  {
  }

  /** Lock round trip: for every model with a masked lock read, the write sends
      one four-byte frame, and when the chip reports back the lock byte that
      frame carried, the read returns `v & mask`. */
  lemma LockRoundTrip(m: AvrModel, bus: Bus, cfg: Config, v: bv32, rest: seq<Byte>)
    requires LockReadOf(m).LockMasked?
    ensures var b := LockWireByte(LockWriteOf(m), v);
            var w := WriteLockBits(bus, cfg, ModelId(m), v);
            && w.log == bus.log + Sends(LockWriteFrames(LockWriteOf(m), v)[0]) + [WaitMs(cfg.twdProg * 10)]
            && b in LockWriteFrames(LockWriteOf(m), v)[0]
            && ReadLockBits(Bus(w.log, [b] + rest), ModelId(m)).val == v & LockReadOf(m).mask
  {
    ModelIdRoundTrip(m);
    LockTablesAgree(m);
    var fs := LockWriteFrames(LockWriteOf(m), v);
    assert fs == [fs[0]];
    FrameEventsOne(fs[0], cfg.twdProg * 10);
    var w := WriteLockBits(bus, cfg, ModelId(m), v);
    var b := LockWireByte(LockWriteOf(m), v);
    ReadLockBitsOf(Bus(w.log, [b] + rest), m);
    MaskedLockRead(Bus(w.log, [b] + rest), LockReadOf(m).mask);
    assert At([b] + rest, 0) == b;
    LockMaskIsByte(m);
    LockByteDecodes(LockWriteOf(m), LockReadOf(m).mask, v);
  }

  /** The lock byte as sent, complemented and masked as the read does, is the
      masked value. */
  lemma LockByteDecodes(lw: LockWrite, mask: bv32, v: bv32)
    requires lw.LockInData? ==> lw.mask == mask
    requires lw.LockInCommand? ==> mask == 0x06
    requires lw != NoLockWrite
    requires mask & 0xFF == mask
    ensures !(LockWireByte(lw, v) as bv32) & mask == v & mask
  {
  }

  /** Every masked lock read keeps at most the low eight bits. */
  lemma LockMaskIsByte(m: AvrModel)
    ensures LockReadOf(m).LockMasked? ==> LockReadOf(m).mask & 0xFF == LockReadOf(m).mask
  {
  }

  /** The fuse bytes as sent decode, through the read's reassembly, to the
      value masked to the layout's width. */
  lemma FuseBytesRoundTrip(v: bv32, n: FuseCount)
    ensures AssembleFuse(FuseWireBytes(v, n)) == v & FuseMask(n)
  {
    if n == 1 {
      RoundTrip1(v, n);
    } else if n == 2 {
      RoundTrip2(v, n);
    } else {
      RoundTrip3(v, n);
    }
  }

  lemma RoundTrip1(v: bv32, n: FuseCount)
    requires n == 1
    ensures AssembleFuse(FuseWireBytes(v, n)) == v & FuseMask(n)
  {
    WireByteDecodes(v, 0);
    AssembleFields1(FuseWireBytes(v, 1), v);
  }

  lemma RoundTrip2(v: bv32, n: FuseCount)
    requires n == 2
    ensures AssembleFuse(FuseWireBytes(v, n)) == v & FuseMask(n)
  {
    WireByteDecodes(v, 0);
    WireByteDecodes(v, 1);
    AssembleFields2(FuseWireBytes(v, 2), v);
  }

  lemma RoundTrip3(v: bv32, n: FuseCount)
    requires n == 3
    ensures AssembleFuse(FuseWireBytes(v, n)) == v & FuseMask(n)
  {
    WireByteDecodes(v, 0);
    WireByteDecodes(v, 1);
    WireByteDecodes(v, 2);
    AssembleFields3(FuseWireBytes(v, 3), v);
  }

  /** One fuse byte sent active-low and read back complemented is the byte itself. */
  lemma WireByteDecodes(v: bv32, i: nat)
    requires i < 3
    ensures Decode(FuseWireByte(v, i)) == FuseField(v, i)
  {
  }

  lemma AssembleFields1(bs: seq<Byte>, v: bv32)
    requires |bs| == 1
    requires Decode(bs[0]) == FuseField(v, 0)
    ensures AssembleFuse(bs) == v & 0xFF
  {
  }

  lemma AssembleFields2(bs: seq<Byte>, v: bv32)
    requires |bs| == 2
    requires Decode(bs[0]) == FuseField(v, 0) && Decode(bs[1]) == FuseField(v, 1)
    ensures AssembleFuse(bs) == v & 0xFFFF
  {
    Join2(Decode(bs[0]), Decode(bs[1]), v);
  }

  lemma AssembleFields3(bs: seq<Byte>, v: bv32)
    requires |bs| == 3
    requires Decode(bs[0]) == FuseField(v, 0) && Decode(bs[1]) == FuseField(v, 1)
    requires Decode(bs[2]) == FuseField(v, 2)
    ensures AssembleFuse(bs) == v & 0xFF_FFFF
  {
    Join3(Decode(bs[0]), Decode(bs[1]), Decode(bs[2]), v);
  }

  lemma Join2(x0: bv32, x1: bv32, v: bv32)
    requires x0 == v & 0xFF && x1 == (v >> 8) & 0xFF
    ensures (x1 << 8) | x0 == v & 0xFFFF
  {
  }

  lemma Join3(x0: bv32, x1: bv32, x2: bv32, v: bv32)
    requires x0 == v & 0xFF && x1 == (v >> 8) & 0xFF && x2 == (v >> 16) & 0xFF
    ensures (x2 << 16) | (x1 << 8) | x0 == v & 0xFF_FFFF
  {
  }

  lemma FrameEventsOne(f: seq<Byte>, wait: int)
    ensures FrameEvents([f], wait) == Sends(f) + [WaitMs(wait)]
  {
    assert [f][1..] == [];
  }

  /** What `WriteFuseBits` sends for a model id: that model's fuse frames. */
  lemma WriteFuseBitsOf(bus: Bus, cfg: Config, m: AvrModel, v: bv32)
    ensures WriteFuseBits(bus, cfg, ModelId(m), v).log
            == bus.log + FrameEvents(FuseWriteFrames(FuseWriteOf(m), v), cfg.twdProg * 10)
  {
    ModelIdRoundTrip(m);
  }

  /** The three frames a three-byte model sends: `(0xAC, 0xA0, 0, ~lo)`,
      `(0xAC, 0xA8, 0, ~mid)`, `(0xAC, 0xA4, 0, ~hi)`, each followed by the
      programming wait. */
  lemma FuseThreeByteFrames(m: AvrModel, bus: Bus, cfg: Config, v: bv32)
    requires FuseWriteOf(m) == FuseBytes(3)
    ensures WriteFuseBits(bus, cfg, ModelId(m), v).log
            == bus.log + FrameEvents([[0xAC, 0xA0, 0, Low(!(v & 0xFF))],
                                      [0xAC, 0xA8, 0, Low(!((v >> 8) & 0xFF))],
                                      [0xAC, 0xA4, 0, Low(!((v >> 16) & 0xFF))]], cfg.twdProg * 10)
  {
    WriteFuseBitsOf(bus, cfg, m, v);
    var fs := FuseWriteFrames(FuseBytes(3), v);
    assert fs == [FuseDataFrame(v, 0), FuseDataFrame(v, 1), FuseDataFrame(v, 2)];
  }

  /** A byte-wise fuse layout writes one four-byte frame per fuse byte, whose
      last byte is that fuse byte as sent. */
  lemma FuseFramesCarry(v: bv32, n: FuseCount)
    ensures var frames := FuseWriteFrames(FuseBytes(n), v);
            && |frames| == n
            && forall i :: 0 <= i < n ==> |frames[i]| == 4 && frames[i][3] == FuseWireBytes(v, n)[i]
  {
    var frames := FuseWriteFrames(FuseBytes(n), v);
    var bs := FuseWireBytes(v, n);
    FramesAreDataFrames(v, n);
    forall i | 0 <= i < n
      ensures |frames[i]| == 4 && frames[i][3] == bs[i]
    {
      DataFrameCarries(v, i);
    }
  }

  /** The byte-wise frames are the data frames of bytes `0 .. n - 1`. */
  lemma FramesAreDataFrames(v: bv32, n: FuseCount)
    ensures |FuseWriteFrames(FuseBytes(n), v)| == n
    ensures forall i :: 0 <= i < n ==> FuseWriteFrames(FuseBytes(n), v)[i] == FuseDataFrame(v, i)
    ensures forall i :: 0 <= i < n ==> FuseWireBytes(v, n)[i] == FuseWireByte(v, i)
  {
  }

  lemma DataFrameCarries(v: bv32, i: nat)
    requires i < 3
    ensures |FuseDataFrame(v, i)| == 4 && FuseDataFrame(v, i)[3] == FuseWireByte(v, i)
  {
  }

  /** `ReadFuseBits` on a byte-wise model reassembles what `ReadFuseBytes` collects. */
  lemma ReadFuseBitsBytewise(bus: Bus, m: AvrModel)
    requires FuseReadOf(m).FuseBytesRead?
    ensures var g := ReadFuseBytes(bus, FuseReadOf(m).n);
            ReadFuseBits(bus, ModelId(m)) == Got(g.bus, AssembleFuse(g.val))
  {
    ModelIdRoundTrip(m);
  }

  /** The lock read of a model is the read of its layout; models without
      one send nothing and read 0. */
  lemma ReadLockBitsOf(bus: Bus, m: AvrModel)
    ensures ReadLockBits(bus, ModelId(m)) == ReadLockAs(bus, LockReadOf(m))
    ensures LockReadOf(m) == NoLockRead ==> ReadLockBits(bus, ModelId(m)) == Got(bus, 0)
  {
    ModelIdRoundTrip(m);
  }

  /** The models without a lock read command read the signature bytes at
      addresses 0, 1, 2 and report both lock bits programmed (`0x06`) when
      the chip answers `0, 1, 2`. */
  lemma SignatureLockRead(bus: Bus)
    ensures var r := ReadLockAs(bus, LockBySignature);
            && r.bus == Bus(bus.log + Sends([0x30, 0x00, 0x00]) + [Received(At(bus.miso, 0))]
                            + Sends([0x30, 0x00, 0x01]) + [Received(At(bus.miso, 1))]
                            + Sends([0x30, 0x00, 0x02]) + [Received(At(bus.miso, 2))], Drop(bus.miso, 3))
            && r.val == if At(bus.miso, 0) == 0x00 && At(bus.miso, 1) == 0x01 && At(bus.miso, 2) == 0x02 then 0x06 else 0
  {
    SignatureReads(bus);
  }

  /** The lock read `(0x58, 0, 0)` reporting lock bits active-low in bits 7
      and 6 of its one answer returns them as bits 1 and 2. */
  lemma Bits76LockRead(bus: Bus)
    ensures var r := ReadLockAs(bus, LockBits76);
            var a := At(bus.miso, 0);
            && r.bus == Bus(bus.log + Sends([0x58, 0x00, 0x00]) + [Received(a)], Drop(bus.miso, 1))
            && r.val == (if a & 0x80 == 0 then 0x02 else 0) | (if a & 0x40 == 0 then 0x04 else 0)
  {
    Bits76(At(bus.miso, 0));
    LockFrameRead(bus);
  }

  /** The masked lock read sends `(0x58, 0, 0)` and returns its one answer
      complemented and masked. */
  lemma MaskedLockRead(bus: Bus, mask: bv32)
    ensures var r := ReadLockAs(bus, LockMasked(mask));
            var a := At(bus.miso, 0);
            && r.bus == Bus(bus.log + Sends([0x58, 0x00, 0x00]) + [Received(a)], Drop(bus.miso, 1))
            && r.val == !(a as bv32) & mask
  {
    LockFrameRead(bus);
  }

  /** The lock read command and its one answer. */
  lemma LockFrameRead(bus: Bus)
    ensures Receive(SendBytes(bus, ReadLockFrame()))
            == Got(Bus(bus.log + Sends([0x58, 0x00, 0x00]) + [Received(At(bus.miso, 0))], Drop(bus.miso, 1)), At(bus.miso, 0))
  {
  }

  /** The three signature reads, at addresses 0, 1 and 2. */
  lemma SignatureReads(bus: Bus)
    ensures var c0 := At90sFrames.ReadDeviceCode(bus, 0);
            var c1 := At90sFrames.ReadDeviceCode(c0.bus, 1);
            var c2 := At90sFrames.ReadDeviceCode(c1.bus, 2);
            && c0.val == At(bus.miso, 0) && c1.val == At(bus.miso, 1) && c2.val == At(bus.miso, 2)
            && c2.bus == Bus(bus.log + Sends([0x30, 0x00, 0x00]) + [Received(At(bus.miso, 0))]
                             + Sends([0x30, 0x00, 0x01]) + [Received(At(bus.miso, 1))]
                             + Sends([0x30, 0x00, 0x02]) + [Received(At(bus.miso, 2))], Drop(bus.miso, 3))
  {
    assert At90sFrames.DeviceCodeFrame(0) == [0x30, 0x00, 0x00];
    assert At90sFrames.DeviceCodeFrame(1) == [0x30, 0x00, 0x01];
    assert At90sFrames.DeviceCodeFrame(2) == [0x30, 0x00, 0x02];
    AtDrop(bus.miso, 1, 0);
    AtDrop(bus.miso, 2, 0);
    DropDrop(bus.miso, 1, 1);
    DropDrop(bus.miso, 2, 1);
  }

  /** Lock bits reported active-low in bits 7 and 6 of the answer become
      bits 1 and 2 of the result. */
  lemma Bits76(a: Byte)
    ensures ((Inv(a) & 0x80) >> 6) | ((Inv(a) & 0x40) >> 4)
            == (if a & 0x80 == 0 then 0x02 else 0) | (if a & 0x40 == 0 then 0x04 else 0)
  {
  }

  /** What the fuse read sends and returns, per layout: nothing for models
      without one; the lock read `(0x58, 0, 0)` and one complemented, masked
      answer for the models that report fuses through it; or the fuse byte
      reads, reassembled low byte first. */
  lemma ReadFuseBitsSends(bus: Bus, m: AvrModel)
    ensures var r := ReadFuseBits(bus, ModelId(m));
            var a := At(bus.miso, 0);
            && (FuseReadOf(m) == NoFuseRead ==> r == Got(bus, 0))
            && (FuseReadOf(m).FuseViaLock? ==>
                  && r.bus == Bus(bus.log + Sends([0x58, 0x00, 0x00]) + [Received(a)], Drop(bus.miso, 1))
                  && r.val == !(a as bv32) & FuseReadOf(m).mask)
            && (FuseReadOf(m).FuseBytesRead? ==>
                  var n := FuseReadOf(m).n;
                  && r.bus == Bus(bus.log + FuseReadLog(bus.miso, n), Drop(bus.miso, n))
                  && r.val == AssembleFuse(ReadFuseBytes(bus, n).val))
  {
    ModelIdRoundTrip(m);
    assert ReadFuseBits(bus, ModelId(m)) == ReadFuseAs(bus, FuseReadOf(m));
    if FuseReadOf(m).FuseViaLock? {
      LockFrameRead(bus);
    }
  }

  /** With `bs` scripted first, the fuse byte reads collect exactly `bs`. */
  lemma ReadFuseBytesScripted(log: seq<Event>, bs: seq<Byte>, rest: seq<Byte>)
    requires |bs| <= 3
    ensures ReadFuseBytes(Bus(log, bs + rest), |bs|).val == bs
  {
    var r := ReadFuseBytes(Bus(log, bs + rest), |bs|).val;
    forall i | 0 <= i < |bs|
      ensures r[i] == bs[i]
    {
      assert r[i] == At(bs + rest, i);
    }
  }

  /** Fuse round trip: for every model whose fuses are written byte-wise, the
      write sends `n` frames whose data bytes, when the chip reports them back
      in order, make the read return `v` masked to `n` bytes. */
  lemma FuseRoundTrip(m: AvrModel, bus: Bus, cfg: Config, v: bv32, rest: seq<Byte>)
    requires FuseWriteOf(m).FuseBytes?
    ensures var n := FuseWriteOf(m).n;
            var frames := FuseWriteFrames(FuseWriteOf(m), v);
            var w := WriteFuseBits(bus, cfg, ModelId(m), v);
            && w.log == bus.log + FrameEvents(frames, cfg.twdProg * 10)
            && |frames| == n
            && (forall i :: 0 <= i < n ==> |frames[i]| == 4 && frames[i][3] == FuseWireBytes(v, n)[i])
            && ReadFuseBits(Bus(w.log, FuseWireBytes(v, n) + rest), ModelId(m)).val == v & FuseMask(n)
  {
    var n := FuseWriteOf(m).n;
    WriteFuseBitsOf(bus, cfg, m, v);
    FuseFramesCarry(v, n);
    FuseReadsBack(m, WriteFuseBits(bus, cfg, ModelId(m), v).log, v, rest);
  }

  /** A byte-wise model reads `v` masked to its width when the chip reports
      the bytes the write of `v` sent. */
  lemma FuseReadsBack(m: AvrModel, log: seq<Event>, v: bv32, rest: seq<Byte>)
    requires FuseWriteOf(m).FuseBytes?
    ensures var n := FuseWriteOf(m).n;
            ReadFuseBits(Bus(log, FuseWireBytes(v, n) + rest), ModelId(m)).val == v & FuseMask(n)
  {
    var n := FuseWriteOf(m).n;
    FuseTablesAgree(m);
    ReadFuseBitsBytewise(Bus(log, FuseWireBytes(v, n) + rest), m);
    ReadFuseBytesScripted(log, FuseWireBytes(v, n), rest);
    FuseBytesRoundTrip(v, n);
  }

  /** The models whose fuse bits travel inside the command byte send one
      frame `(0xAC, 0xBF & ~(v & mask), 0, 0)` with mask `0x01`, `0x0B` or
      `0x1F`; those with mask `0x01` read their fuses back through the lock
      command (bits 5 and 0), the others as one fuse byte. */
  lemma FuseInCommandLayout(m: AvrModel, bus: Bus, cfg: Config, v: bv32)
    requires FuseWriteOf(m).FuseInCommand?
    ensures var mask := FuseWriteOf(m).mask;
            && (mask == 0x01 || mask == 0x0B || mask == 0x1F)
            && WriteFuseBits(bus, cfg, ModelId(m), v).log
               == bus.log + Sends([0xAC, 0xBF & Low(!(v & mask)), 0x00, 0x00]) + [WaitMs(cfg.twdProg * 10)]
            && (mask == 0x01 ==> FuseReadOf(m) == FuseViaLock(0x21))
            && (mask != 0x01 ==> FuseReadOf(m) == FuseBytesRead(1))
  {
    InCommandTables(m);
    WriteFuseBitsOf(bus, cfg, m, v);
    InCommandFrame(FuseWriteOf(m).mask, v, cfg.twdProg * 10);
  }

  lemma InCommandTables(m: AvrModel)
    ensures FuseWriteOf(m).FuseInCommand? ==> FuseWriteOf(m).mask in {0x01, 0x0B, 0x1F}
    ensures FuseWriteOf(m) == FuseInCommand(0x01) ==> FuseReadOf(m) == FuseViaLock(0x21)
    ensures FuseWriteOf(m).FuseInCommand? && FuseWriteOf(m).mask != 0x01 ==> FuseReadOf(m) == FuseBytesRead(1)
  {
  }

  lemma InCommandFrame(mask: bv32, v: bv32, wait: int)
    ensures FrameEvents(FuseWriteFrames(FuseInCommand(mask), v), wait)
            == Sends([0xAC, 0xBF & Low(!(v & mask)), 0x00, 0x00]) + [WaitMs(wait)]
  {
    FrameEventsOne([0xAC, 0xBF & Low(!(v & mask)), 0x00, 0x00], wait);
  }

  /** The ATtiny22 has no fuse write, and reads its one fuse bit (bit 5)
      through the lock command. */
  lemma Tiny22FuseLayout()
    ensures FuseWriteOf(ATtiny22) == NoFuseWrite
    ensures FuseReadOf(ATtiny22) == FuseViaLock(0x20)
  {
  }

  /** The documented scenario: every three-byte model (the ATmega328 among
      them) written `0x00FACE` sends the bytes `0x31`, `0x05`, `0xFF` (the
      complements of `0xCE`, `0xFA`, `0x00`) in its three frames, and when the
      chip reports those bytes back, the three fuse reads return all 24 bits. */
  lemma FuseFaceScenario(m: AvrModel, bus: Bus, cfg: Config)
    requires FuseWriteOf(m) == FuseBytes(3)
    ensures var w := WriteFuseBits(bus, cfg, ModelId(m), 0x00FACE);
            var r := ReadFuseBits(Bus(w.log, [0x31, 0x05, 0xFF]), ModelId(m));
            && w.log == bus.log + FrameEvents([[0xAC, 0xA0, 0x00, 0x31],
                                               [0xAC, 0xA8, 0x00, 0x05],
                                               [0xAC, 0xA4, 0x00, 0xFF]], cfg.twdProg * 10)
            && r.bus.log == w.log + Sends([0x50, 0x00, 0x00]) + [Received(0x31)]
                                  + Sends([0x58, 0x08, 0x00]) + [Received(0x05)]
                                  + Sends([0x50, 0x08, 0x00]) + [Received(0xFF)]
            && r.val == 0x00FACE
  {
    FuseFaceWrite(m, bus, cfg);
    FuseFaceRead(m, WriteFuseBits(bus, cfg, ModelId(m), 0x00FACE).log);
  }

  lemma FuseFaceWrite(m: AvrModel, bus: Bus, cfg: Config)
    requires FuseWriteOf(m) == FuseBytes(3)
    ensures WriteFuseBits(bus, cfg, ModelId(m), 0x00FACE).log
            == bus.log + FrameEvents([[0xAC, 0xA0, 0x00, 0x31],
                                      [0xAC, 0xA8, 0x00, 0x05],
                                      [0xAC, 0xA4, 0x00, 0xFF]], cfg.twdProg * 10)
  {
    var v: bv32 := 0x00FACE;
    FuseThreeByteFrames(m, bus, cfg, v);
    assert Low(!(v & 0xFF)) == 0x31 && Low(!((v >> 8) & 0xFF)) == 0x05 && Low(!((v >> 16) & 0xFF)) == 0xFF;
  }

  lemma FuseFaceRead(m: AvrModel, log: seq<Event>)
    requires FuseWriteOf(m) == FuseBytes(3)
    ensures var r := ReadFuseBits(Bus(log, [0x31, 0x05, 0xFF]), ModelId(m));
            && r.bus.log == log + Sends([0x50, 0x00, 0x00]) + [Received(0x31)]
                                + Sends([0x58, 0x08, 0x00]) + [Received(0x05)]
                                + Sends([0x50, 0x08, 0x00]) + [Received(0xFF)]
            && r.val == 0x00FACE
  {
    var v: bv32 := 0x00FACE;
    var bs: seq<Byte> := [0x31, 0x05, 0xFF];
    assert FuseWireBytes(v, 3) == bs;
    assert bs + [] == bs;
    FuseReadsBack(m, log, v, []);
    FuseTablesAgree(m);
    ReadFuseBitsSends(Bus(log, bs), m);
    FuseReadLogFrames(bs);
    assert At(bs, 0) == 0x31 && At(bs, 1) == 0x05 && At(bs, 2) == 0xFF;
  }

  /** Models without fuse or lock commands, and ids that are no AVR model,
      send nothing and read as 0. */
  lemma NoFuseNoLockNoIo(bus: Bus, cfg: Config, id: int, v: bv32)
    ensures (FromId(id).None? || FuseWriteOf(FromId(id).value) == NoFuseWrite) ==> WriteFuseBits(bus, cfg, id, v) == bus
    ensures (FromId(id).None? || FuseReadOf(FromId(id).value) == NoFuseRead) ==> ReadFuseBits(bus, id) == Got(bus, 0)
    ensures (FromId(id).None? || LockWriteOf(FromId(id).value) == NoLockWrite) ==> WriteLockBits(bus, cfg, id, v) == bus
    ensures (FromId(id).None? || LockReadOf(FromId(id).value) == NoLockRead) ==> ReadLockBits(bus, id) == Got(bus, 0)
  {
  }
}
