/** The fixed command frames of AVR serial (in-system) programming and the
    single-unit operations built from them: EEPROM byte read/write, program
    memory byte read/write, signature and calibration reads, chip erase and
    page commit. Program memory is addressed by byte on the host side and by
    16-bit word on the chip; the parity of the byte address picks the high or
    low half of the word (little-endian). */
module At90sFrames {
  import opened SpiTrace
  import Bits

  const EnableProg0: Byte := 0xAC
  const EnableProg1: Byte := 0x53
  const ChipErase0: Byte := 0xAC
  const ChipErase1: Byte := 0x80
  const ReadProgMemH0: Byte := 0x28
  const ReadProgMemH1: Byte := 0
  const ReadProgMemL0: Byte := 0x20
  const ReadProgMemL1: Byte := 0
  const WriteProgMemH0: Byte := 0x48
  const WriteProgMemH1: Byte := 0
  const WriteProgMemL0: Byte := 0x40
  const WriteProgMemL1: Byte := 0
  const WriteProgPageMem: Byte := 0x4C
  const ReadEEPMem0: Byte := 0xA0
  const ReadEEPMem1: Byte := 0
  const WriteEEPMem0: Byte := 0xC0
  const WriteEEPMem1: Byte := 0
  const ReadDevCode0: Byte := 0x30
  const ReadDevCode1: Byte := 0
  const ReadCalib0: Byte := 0x38
  const ReadCalib1: Byte := 0

  /** The high address byte of an EEPROM frame, `(addr & 0xFFFF) >> 8`: EEPROM
      addresses are limited to 64K. */
  function EepAddrHigh(addr: int): Byte
  {
    Lo8((addr % 0x10000) / 0x100)
  }

  function ReadEEPFrame(addr: int): seq<Byte>
  {
    [ReadEEPMem0, ReadEEPMem1 | EepAddrHigh(addr), Lo8(addr)]
  }

  function WriteEEPFrame(addr: int, data: int): seq<Byte>
  {
    [WriteEEPMem0, WriteEEPMem1 | EepAddrHigh(addr), Lo8(addr), Lo8(data)]
  }

  /** `addr & 1`: the byte is the high half of its word. */
  predicate IsHighHalf(addr: int)
  {
    addr % 2 == 1
  }

  /** `addr >> 1`: the word holding byte `addr`. */
  function WordAddr(addr: int): int
  {
    addr / 2
  }

  function ReadProgFrame(addr: int): seq<Byte>
  {
    var w := WordAddr(addr);
    if IsHighHalf(addr) then [ReadProgMemH0, ReadProgMemH1 | Lo8(w / 0x100), Lo8(w)]
    else [ReadProgMemL0, ReadProgMemL1 | Lo8(w / 0x100), Lo8(w)]
  }

  function WriteProgFrame(addr: int, data: int): seq<Byte>
  {
    var w := WordAddr(addr);
    if IsHighHalf(addr) then [WriteProgMemH0, WriteProgMemH1 | Lo8(w / 0x100), Lo8(w), Lo8(data)]
    else [WriteProgMemL0, WriteProgMemL1 | Lo8(w / 0x100), Lo8(w), Lo8(data)]
  }

  /** Signature byte `addr & 3`. */
  function DeviceCodeFrame(addr: int): seq<Byte>
  {
    [ReadDevCode0, ReadDevCode1, Lo8(addr % 4)]
  }

  function CalibrationFrame(addr: int): seq<Byte>
  {
    [ReadCalib0, ReadCalib1, Lo8(addr % 4)]
  }

  function ChipEraseFrame(): seq<Byte>
  {
    [ChipErase0, ChipErase1, 0, 0]
  }

  /** Commits the page latch to the page holding byte `addr`: the word address
      `addr >> 1` in bytes two (`addr >> 9`) and three. */
  function PageCommitFrame(addr: int): seq<Byte>
  {
    [WriteProgPageMem, Lo8(addr / 0x200), Lo8(addr / 2), 0]
  }

  // ---- what the chip sees: decoding a frame back into an address ----

  /** The 16-bit address carried in bytes two and three of a frame. */
  function FrameAddr(f: seq<Byte>): int
    requires |f| >= 3
  {
    f[1] as int * 0x100 + f[2] as int
  }

  /** The byte address a program memory frame designates: the word address
      doubled, plus one when the opcode selects the high half. */
  function ProgFrameByteAddr(f: seq<Byte>): int
    requires |f| >= 3
  {
    2 * FrameAddr(f) + (if f[0] == ReadProgMemH0 || f[0] == WriteProgMemH0 then 1 else 0)
  }

  /** The EEPROM read frame carries the read opcode and the address modulo 64K. */
  lemma ReadEEPFrameDecodes(addr: int)
    ensures |ReadEEPFrame(addr)| == 3 && ReadEEPFrame(addr)[0] == ReadEEPMem0
    ensures FrameAddr(ReadEEPFrame(addr)) == addr % 0x10000
  {
    EepAddrSplits(addr);
  }

  /** The EEPROM write frame carries the write opcode, the address modulo 64K
      and the data byte. */
  lemma WriteEEPFrameDecodes(addr: int, data: int)
    ensures |WriteEEPFrame(addr, data)| == 4 && WriteEEPFrame(addr, data)[0] == WriteEEPMem0
    ensures FrameAddr(WriteEEPFrame(addr, data)) == addr % 0x10000
    ensures WriteEEPFrame(addr, data)[3] as int == data % 256
  {
    EepAddrSplits(addr);
  }

  lemma EepAddrSplits(addr: int)
    ensures EepAddrHigh(addr) as int * 0x100 + Lo8(addr) as int == addr % 0x10000
  {
    var a := addr % 0x10000;
    Bits.DivModUnique(addr, 0x10000, addr / 0x10000, a);
    Bits.DivModUnique(addr, 0x100, (addr / 0x10000) * 0x100 + a / 0x100, a % 0x100);
  }

  /** The two low bytes of `q`, high byte first, make up `q` modulo 64K. */
  lemma SplitWord(q: int)
    ensures Lo8(q / 0x100) as int * 0x100 + Lo8(q) as int == q % 0x10000
  {
    Bits.DivModUnique(q, 0x10000, (q / 0x100) / 0x100, Lo8(q / 0x100) as int * 0x100 + Lo8(q) as int);
  }

  lemma WordAddrSplits(addr: int)
    ensures 2 * (Lo8(WordAddr(addr) / 0x100) as int * 0x100 + Lo8(WordAddr(addr)) as int)
            + addr % 2 == addr % 0x20000
  {
    var w := WordAddr(addr);
    SplitWord(w);
    Bits.DivModUnique(addr, 0x20000, w / 0x10000, 2 * (w % 0x10000) + addr % 2);
  }

  /** `addr >> 9` is the high byte of the word address `addr >> 1`. */
  lemma PageHighByte(addr: int)
    ensures addr / 0x200 == WordAddr(addr) / 0x100
  {
    var w := WordAddr(addr);
    Bits.DivModUnique(addr, 0x200, w / 0x100, 2 * (w % 0x100) + addr % 2);
  }

  /** A program memory read frame selects the high-byte opcode `0x28` exactly
      for odd byte addresses (`0x20` for even ones), and the chip recovers the
      byte address modulo the 17-bit space a 16-bit word address spans. */
  lemma ReadProgFrameDecodes(addr: int)
    ensures |ReadProgFrame(addr)| == 3
    ensures ReadProgFrame(addr)[0] == (if addr % 2 == 1 then ReadProgMemH0 else ReadProgMemL0)
    ensures ProgFrameByteAddr(ReadProgFrame(addr)) == addr % 0x20000
  {
    ReadProgFrameAddr(addr);
  }

  lemma ReadProgFrameAddr(addr: int)
    ensures ProgFrameByteAddr(ReadProgFrame(addr)) == addr % 0x20000
  {
    var w := WordAddr(addr);
    var hi, lo := Lo8(w / 0x100), Lo8(w);
    OrZero(hi);
    WordAddrSplits(addr);
    ByteAddrOf(ReadProgFrame(addr), hi, lo, addr % 2);
  }

  /** Likewise for writes: `0x48` for odd, `0x40` for even byte addresses, and
      the data byte last. */
  lemma WriteProgFrameDecodes(addr: int, data: int)
    ensures |WriteProgFrame(addr, data)| == 4
    ensures WriteProgFrame(addr, data)[0] == (if addr % 2 == 1 then WriteProgMemH0 else WriteProgMemL0)
    ensures ProgFrameByteAddr(WriteProgFrame(addr, data)) == addr % 0x20000
    ensures WriteProgFrame(addr, data)[3] as int == data % 256
  {
    WriteProgFrameAddr(addr, data);
  }

  lemma WriteProgFrameAddr(addr: int, data: int)
    ensures ProgFrameByteAddr(WriteProgFrame(addr, data)) == addr % 0x20000
  {
    var w := WordAddr(addr);
    var hi, lo := Lo8(w / 0x100), Lo8(w);
    OrZero(hi);
    WordAddrSplits(addr);
    ByteAddrOf(WriteProgFrame(addr, data), hi, lo, addr % 2);
  }

  lemma WriteProgFrameLength(addr: int, data: int)
    ensures |WriteProgFrame(addr, data)| == 4
  {
  }

  /** The byte address a program memory frame with address bytes `hi`, `lo`
      and the given half designates. */
  lemma ByteAddrOf(f: seq<Byte>, hi: Byte, lo: Byte, half: int)
    requires |f| >= 3 && f[1] == hi && f[2] == lo
    requires half == if f[0] == ReadProgMemH0 || f[0] == WriteProgMemH0 then 1 else 0
    ensures ProgFrameByteAddr(f) == 2 * (hi as int * 0x100 + lo as int) + half
  {
  }

  lemma OrZero(b: Byte)
    ensures 0 | b == b
  {
  }

  /** The page commit frame carries the word address of `addr` modulo 64K. */
  lemma PageCommitFrameDecodes(addr: int)
    ensures |PageCommitFrame(addr)| == 4 && PageCommitFrame(addr)[0] == WriteProgPageMem
    ensures FrameAddr(PageCommitFrame(addr)) == WordAddr(addr) % 0x10000
  {
    var w := WordAddr(addr);
    PageHighByte(addr);
    SplitWord(w);
    assert PageCommitFrame(addr)[1] == Lo8(w / 0x100);
  }

  // ---- single-unit operations ----

  /** Reads one EEPROM byte: sends the read frame, shifts in the answer. */
  function ReadEEPByte(bus: Bus, addr: int): (r: Got<Byte>)
    ensures r.val == At(bus.miso, 0)
    ensures r.bus == Bus(bus.log + Sends(ReadEEPFrame(addr)) + [Received(r.val)], Drop(bus.miso, 1))
  {
    Receive(SendBytes(bus, ReadEEPFrame(addr)))
  }

  function WriteEEPByte(bus: Bus, addr: int, data: int): (r: Bus)
    ensures r == bus.(log := bus.log + Sends(WriteEEPFrame(addr, data)))
  {
    SendBytes(bus, WriteEEPFrame(addr, data))
  }

  function ReadProgByte(bus: Bus, addr: int): (r: Got<Byte>)
    ensures r.val == At(bus.miso, 0)
    ensures r.bus == Bus(bus.log + Sends(ReadProgFrame(addr)) + [Received(r.val)], Drop(bus.miso, 1))
  {
    Receive(SendBytes(bus, ReadProgFrame(addr)))
  }

  function WriteProgByte(bus: Bus, addr: int, data: int): (r: Bus)
    ensures r == bus.(log := bus.log + Sends(WriteProgFrame(addr, data)))
  {
    SendBytes(bus, WriteProgFrame(addr, data))
  }

  function ReadDeviceCode(bus: Bus, addr: int): (r: Got<Byte>)
    ensures r.val == At(bus.miso, 0)
    ensures r.bus == Bus(bus.log + Sends(DeviceCodeFrame(addr)) + [Received(r.val)], Drop(bus.miso, 1))
  {
    Receive(SendBytes(bus, DeviceCodeFrame(addr)))
  }

  function ReadCalibration(bus: Bus, addr: int): (r: Got<Byte>)
    ensures r.val == At(bus.miso, 0)
    ensures r.bus == Bus(bus.log + Sends(CalibrationFrame(addr)) + [Received(r.val)], Drop(bus.miso, 1))
  {
    Receive(SendBytes(bus, CalibrationFrame(addr)))
  }
}
