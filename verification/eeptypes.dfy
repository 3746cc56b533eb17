/** Chip identifiers of the device registry: every id is the composite
    `primary family << 16 | sub-type`, with the family code in bits 16..23. The
    AVR models that the in-system-programming driver dispatches on are an
    enumerated type; the other families' sub-type ids are kept as tables. */
module EepTypes {
  import opened Options
  import Bits

  /** No chip selected. */
  const EID_INVALID: int := 0
  /** The largest primary family code. */
  const NO_OF_EEPTYPE: int := 0x15
  /** Upper bound on the number of sub-types of one family. */
  const MAXEEPSUBTYPE: int := 64

  /** The primary device families. */
  datatype Family =
      E24XX
    | E24XX2
    | AVRAT90
    | AVRTiny
    | AVRMega
    | E93X6
    | PIC16XX
    | E250XX
    | E2506XX
    | E24XX5
    | E25XXX
    | AT89SXX
    | PIC168XX
    | ENVMXXX
    | E93XX_8
    | PIC125XX
    | X24C44XX
    | E24XX1_A
    | AT17XXX
    | E24XX1_B

  /** The numeric primary code of a family. */
  function FamilyCode(f: Family): int
  {
    match f
    case E24XX => 0x01
    case E24XX2 => 0x02
    case AVRAT90 => 0x03
    case AVRTiny => 0x14
    case AVRMega => 0x15
    case E93X6 => 0x04
    case PIC16XX => 0x05
    case E250XX => 0x06
    case E2506XX => 0x07
    case E24XX5 => 0x08
    case E25XXX => 0x09
    case AT89SXX => 0x0A
    case PIC168XX => 0x0B
    case ENVMXXX => 0x0C
    case E93XX_8 => 0x0D
    case PIC125XX => 0x0E
    case X24C44XX => 0x10
    case E24XX1_A => 0x11
    case AT17XXX => 0x12
    case E24XX1_B => 0x13
  }

  /** The family a primary code stands for, if any. */
  function FamilyFromCode(c: int): Option<Family>
  {
    match c
    case 0x01 => Some(E24XX)
    case 0x02 => Some(E24XX2)
    case 0x03 => Some(AVRAT90)
    case 0x14 => Some(AVRTiny)
    case 0x15 => Some(AVRMega)
    case 0x04 => Some(E93X6)
    case 0x05 => Some(PIC16XX)
    case 0x06 => Some(E250XX)
    case 0x07 => Some(E2506XX)
    case 0x08 => Some(E24XX5)
    case 0x09 => Some(E25XXX)
    case 0x0A => Some(AT89SXX)
    case 0x0B => Some(PIC168XX)
    case 0x0C => Some(ENVMXXX)
    case 0x0D => Some(E93XX_8)
    case 0x0E => Some(PIC125XX)
    case 0x10 => Some(X24C44XX)
    case 0x11 => Some(E24XX1_A)
    case 0x12 => Some(AT17XXX)
    case 0x13 => Some(E24XX1_B)
    case _ => None
  }

  /** The AVR models (AT90S*, AT90CAN*, ATtiny*, ATmega*). */
  datatype AvrModel =
      AT90S0000
    | AT90S1200
    | AT90S2313
    | AT90S4414
    | AT90S8515
    | ATmega603
    | ATmega103
    | AT90S2323
    | AT90S2343
    | AT90S2333
    | AT90S4433
    | AT90S4434
    | AT90S8534
    | AT90S8535
    | ATtiny22
    | ATtiny12
    | ATtiny13
    | ATtiny15
    | ATmega8515
    | ATmega8535
    | ATmega8
    | ATmega161
    | ATmega163
    | ATmega16
    | ATmega323
    | ATmega32
    | ATmega162
    | ATmega169
    | ATmega164
    | ATmega324
    | ATmega644
    | ATmega64
    | ATmega128
    | ATmega48
    | ATmega88
    | ATmega168
    | ATmega640
    | ATmega1280
    | ATmega1281
    | ATmega2560
    | ATmega2561
    | ATmega328
    | ATmega1284
    | ATtiny11
    | ATtiny10
    | ATtiny28
    | ATtiny26
    | ATtiny2313
    | ATtiny25
    | ATtiny45
    | ATtiny85
    | ATtiny261
    | ATtiny461
    | ATtiny861
    | ATtiny24
    | ATtiny44
    | ATtiny84
    | ATtiny4313
    | AT90CAN32
    | AT90CAN64
    | AT90CAN128

  /** The composite id of an AVR model. */
  function ModelId(m: AvrModel): int
  {
    match m
    case AT90S0000 => 0x030000
    case AT90S1200 => 0x030002
    case AT90S2313 => 0x030003
    case AT90S4414 => 0x030004
    case AT90S8515 => 0x030005
    case ATmega603 => 0x150008
    case ATmega103 => 0x150009
    case AT90S2323 => 0x03000A
    case AT90S2343 => 0x03000B
    case AT90S2333 => 0x03000C
    case AT90S4433 => 0x03000D
    case AT90S4434 => 0x03000E
    case AT90S8534 => 0x03000F
    case AT90S8535 => 0x030010
    case ATtiny22 => 0x140011
    case ATtiny12 => 0x140012
    case ATtiny13 => 0x140013
    case ATtiny15 => 0x140014
    case ATmega8515 => 0x150015
    case ATmega8535 => 0x150016
    case ATmega8 => 0x15001A
    case ATmega161 => 0x150020
    case ATmega163 => 0x150021
    case ATmega16 => 0x150022
    case ATmega323 => 0x150023
    case ATmega32 => 0x150024
    case ATmega162 => 0x150025
    case ATmega169 => 0x150026
    case ATmega164 => 0x150027
    case ATmega324 => 0x150028
    case ATmega644 => 0x150029
    case ATmega64 => 0x15002A
    case ATmega128 => 0x150030
    case ATmega48 => 0x150031
    case ATmega88 => 0x150032
    case ATmega168 => 0x150033
    case ATmega640 => 0x150034
    case ATmega1280 => 0x150035
    case ATmega1281 => 0x150036
    case ATmega2560 => 0x150037
    case ATmega2561 => 0x150038
    case ATmega328 => 0x150039
    case ATmega1284 => 0x15003A
    case ATtiny11 => 0x140080
    case ATtiny10 => 0x140081
    case ATtiny28 => 0x140082
    case ATtiny26 => 0x140083
    case ATtiny2313 => 0x140084
    case ATtiny25 => 0x140085
    case ATtiny45 => 0x140086
    case ATtiny85 => 0x140087
    case ATtiny261 => 0x140088
    case ATtiny461 => 0x140089
    case ATtiny861 => 0x14008A
    case ATtiny24 => 0x14008B
    case ATtiny44 => 0x14008C
    case ATtiny84 => 0x14008D
    case ATtiny4313 => 0x14008E
    case AT90CAN32 => 0x030100
    case AT90CAN64 => 0x030101
    case AT90CAN128 => 0x030102
  }

  /** The AVR model an id denotes, if any: what a `switch (model)` over the
      model constants distinguishes before its `default`. */
  function FromId(id: int): Option<AvrModel>
  {
    match id
    case 0x030000 => Some(AT90S0000)
    case 0x030002 => Some(AT90S1200)
    case 0x030003 => Some(AT90S2313)
    case 0x030004 => Some(AT90S4414)
    case 0x030005 => Some(AT90S8515)
    case 0x150008 => Some(ATmega603)
    case 0x150009 => Some(ATmega103)
    case 0x03000A => Some(AT90S2323)
    case 0x03000B => Some(AT90S2343)
    case 0x03000C => Some(AT90S2333)
    case 0x03000D => Some(AT90S4433)
    case 0x03000E => Some(AT90S4434)
    case 0x03000F => Some(AT90S8534)
    case 0x030010 => Some(AT90S8535)
    case 0x140011 => Some(ATtiny22)
    case 0x140012 => Some(ATtiny12)
    case 0x140013 => Some(ATtiny13)
    case 0x140014 => Some(ATtiny15)
    case 0x150015 => Some(ATmega8515)
    case 0x150016 => Some(ATmega8535)
    case 0x15001A => Some(ATmega8)
    case 0x150020 => Some(ATmega161)
    case 0x150021 => Some(ATmega163)
    case 0x150022 => Some(ATmega16)
    case 0x150023 => Some(ATmega323)
    case 0x150024 => Some(ATmega32)
    case 0x150025 => Some(ATmega162)
    case 0x150026 => Some(ATmega169)
    case 0x150027 => Some(ATmega164)
    case 0x150028 => Some(ATmega324)
    case 0x150029 => Some(ATmega644)
    case 0x15002A => Some(ATmega64)
    case 0x150030 => Some(ATmega128)
    case 0x150031 => Some(ATmega48)
    case 0x150032 => Some(ATmega88)
    case 0x150033 => Some(ATmega168)
    case 0x150034 => Some(ATmega640)
    case 0x150035 => Some(ATmega1280)
    case 0x150036 => Some(ATmega1281)
    case 0x150037 => Some(ATmega2560)
    case 0x150038 => Some(ATmega2561)
    case 0x150039 => Some(ATmega328)
    case 0x15003A => Some(ATmega1284)
    case 0x140080 => Some(ATtiny11)
    case 0x140081 => Some(ATtiny10)
    case 0x140082 => Some(ATtiny28)
    case 0x140083 => Some(ATtiny26)
    case 0x140084 => Some(ATtiny2313)
    case 0x140085 => Some(ATtiny25)
    case 0x140086 => Some(ATtiny45)
    case 0x140087 => Some(ATtiny85)
    case 0x140088 => Some(ATtiny261)
    case 0x140089 => Some(ATtiny461)
    case 0x14008A => Some(ATtiny861)
    case 0x14008B => Some(ATtiny24)
    case 0x14008C => Some(ATtiny44)
    case 0x14008D => Some(ATtiny84)
    case 0x14008E => Some(ATtiny4313)
    case 0x030100 => Some(AT90CAN32)
    case 0x030101 => Some(AT90CAN64)
    case 0x030102 => Some(AT90CAN128)
    case _ => None
  }

  /** The family a model belongs to by its name. */
  function FamilyOf(m: AvrModel): Family
  {
    match m
    case AT90S0000 | AT90S1200 | AT90S2313 | AT90S4414 | AT90S8515 | AT90S2323
      | AT90S2343 | AT90S2333 | AT90S4433 | AT90S4434 | AT90S8534 | AT90S8535
      | AT90CAN32 | AT90CAN64 | AT90CAN128 => AVRAT90
    case ATtiny22 | ATtiny12 | ATtiny13 | ATtiny15 | ATtiny11 | ATtiny10
      | ATtiny28 | ATtiny26 | ATtiny2313 | ATtiny25 | ATtiny45 | ATtiny85
      | ATtiny261 | ATtiny461 | ATtiny861 | ATtiny24 | ATtiny44 | ATtiny84
      | ATtiny4313 => AVRTiny
    case ATmega603 | ATmega103 | ATmega8515 | ATmega8535 | ATmega8 | ATmega161
      | ATmega163 | ATmega16 | ATmega323 | ATmega32 | ATmega162 | ATmega169
      | ATmega164 | ATmega324 | ATmega644 | ATmega64 | ATmega128 | ATmega48
      | ATmega88 | ATmega168 | ATmega640 | ATmega1280 | ATmega1281 | ATmega2560
      | ATmega2561 | ATmega328 | ATmega1284 => AVRMega
  }

  /** The sub-type ids listed for a non-AVR family; the AVR families' ids are
      those of `AvrModel`. */
  function SubTypeIds(f: Family): seq<int>
  {
    match f
    case E24XX => [0x010000, 0x010001, 0x010002, 0x010004, 0x010008]
    case E24XX2 => [0x020000, 0x020008, 0x020010, 0x020020, 0x020040, 0x020080, 0x020100]
    case E93X6 => [0x040000, 0x040001, 0x040004, 0x040008, 0x040009, 0x040010, 0x040020, 0x040040]
    case PIC16XX => [0x050000, 0x050001, 0x050002]
    case E250XX => [0x060000, 0x060001, 0x060002, 0x060004]
    case E2506XX => [0x070000, 0x070001]
    case E24XX5 => [0x080010, 0x080020]
    case E25XXX => [0x090000, 0x090004, 0x090008, 0x090010, 0x090020, 0x090040, 0x090080]
    case AT89SXX => [0x0A0000, 0x0A0002, 0x0A0003, 0x0A0004, 0x0A0005, 0x0A0006]
    case PIC168XX => [0x0B0000, 0x0B0001, 0x0B0002, 0x0B0003, 0x0B0004, 0x0B0005, 0x0B0006, 0x0B0008, 0x0B0009, 0x0B000A, 0x0B000B, 0x0B000C, 0x0B000D, 0x0B0020, 0x0B0021]
    case ENVMXXX => [0x0C0000, 0x0C0002, 0x0C0003, 0x0C0004]
    case E93XX_8 => [0x0d0000, 0x0d0001, 0x0d0004, 0x0d0008, 0x0d0009, 0x0d0010, 0x0d0020, 0x0d0040]
    case PIC125XX => [0x0E0000, 0x0E0004, 0x0E0005, 0x0E0008, 0x0E0009, 0x0E0010, 0x0E0011, 0x0E0024, 0x0E0025, 0x0E0026, 0x0E0027, 0x0E0030, 0x0E0031, 0x0E0032, 0x0E0033]
    case X24C44XX => [0x100001, 0x100002, 0x100003]
    case E24XX1_A => [0x110001]
    case AT17XXX => [0x120002, 0x120003, 0x120004, 0x120005, 0x120006]
    case E24XX1_B => [0x130001]
    case AVRAT90 | AVRTiny | AVRMega => []
  }

  /** Bits 16..23 of an id: its primary family code. */
  function IdFamily(id: int): int
  {
    (id / 0x10000) % 0x100
  }

  /** The composite id `pri << 16 | (sub & 0x7FFF)` a memory image reports
      as its chip type. */
  function ComposeId(pri: nat, sub: int): (id: int)
    ensures IdFamily(id) == pri % 0x100
    ensures id % 0x10000 == sub % 0x8000
  {
    pri * 0x10000 + sub % 0x8000
  }

  /** `KB(x)`: `x` kilobytes, in bytes. */
  function KB(x: int): (bytes: int)
    ensures bytes % 1024 == 0 && bytes / 1024 == x
  {
    x * 1024
  }

  /** Registry record of one chip. */
  datatype ChipInfo = ChipInfo(
    name: string,
    id: int,     // primary type | sub-type
    sz: int,     // size in banks
    splt: int,   // split point
    wpgsz: int,  // write page size
    adrsz: int)  // address space in banks

  /** Decoding an AVR model's id gives back the model. */
  lemma ModelIdRoundTrip(m: AvrModel)
    ensures FromId(ModelId(m)) == Some(m)
  {
    match FamilyOf(m)
    case AVRAT90 => At90RoundTrip(m);
    case AVRTiny => TinyRoundTrip(m);
    case AVRMega => MegaRoundTrip(m);
  }

  lemma At90RoundTrip(m: AvrModel)
    requires FamilyOf(m) == AVRAT90
    ensures FromId(ModelId(m)) == Some(m)
  {
    match m
    case AT90S0000 => assert FromId(ModelId(AT90S0000)) == Some(AT90S0000);
    case AT90S1200 => assert FromId(ModelId(AT90S1200)) == Some(AT90S1200);
    case AT90S2313 => assert FromId(ModelId(AT90S2313)) == Some(AT90S2313);
    case AT90S4414 => assert FromId(ModelId(AT90S4414)) == Some(AT90S4414);
    case AT90S8515 => assert FromId(ModelId(AT90S8515)) == Some(AT90S8515);
    case AT90S2323 => assert FromId(ModelId(AT90S2323)) == Some(AT90S2323);
    case AT90S2343 => assert FromId(ModelId(AT90S2343)) == Some(AT90S2343);
    case AT90S2333 => assert FromId(ModelId(AT90S2333)) == Some(AT90S2333);
    case AT90S4433 => assert FromId(ModelId(AT90S4433)) == Some(AT90S4433);
    case AT90S4434 => assert FromId(ModelId(AT90S4434)) == Some(AT90S4434);
    case AT90S8534 => assert FromId(ModelId(AT90S8534)) == Some(AT90S8534);
    case AT90S8535 => assert FromId(ModelId(AT90S8535)) == Some(AT90S8535);
    case AT90CAN32 => assert FromId(ModelId(AT90CAN32)) == Some(AT90CAN32);
    case AT90CAN64 => assert FromId(ModelId(AT90CAN64)) == Some(AT90CAN64);
    case AT90CAN128 => assert FromId(ModelId(AT90CAN128)) == Some(AT90CAN128);
  }

  lemma TinyRoundTrip(m: AvrModel)
    requires FamilyOf(m) == AVRTiny
    ensures FromId(ModelId(m)) == Some(m)
  {
    match m
    case ATtiny22 => assert FromId(ModelId(ATtiny22)) == Some(ATtiny22);
    case ATtiny12 => assert FromId(ModelId(ATtiny12)) == Some(ATtiny12);
    case ATtiny13 => assert FromId(ModelId(ATtiny13)) == Some(ATtiny13);
    case ATtiny15 => assert FromId(ModelId(ATtiny15)) == Some(ATtiny15);
    case ATtiny11 => assert FromId(ModelId(ATtiny11)) == Some(ATtiny11);
    case ATtiny10 => assert FromId(ModelId(ATtiny10)) == Some(ATtiny10);
    case ATtiny28 => assert FromId(ModelId(ATtiny28)) == Some(ATtiny28);
    case ATtiny26 => assert FromId(ModelId(ATtiny26)) == Some(ATtiny26);
    case ATtiny2313 => assert FromId(ModelId(ATtiny2313)) == Some(ATtiny2313);
    case ATtiny25 => assert FromId(ModelId(ATtiny25)) == Some(ATtiny25);
    case ATtiny45 => assert FromId(ModelId(ATtiny45)) == Some(ATtiny45);
    case ATtiny85 => assert FromId(ModelId(ATtiny85)) == Some(ATtiny85);
    case ATtiny261 => assert FromId(ModelId(ATtiny261)) == Some(ATtiny261);
    case ATtiny461 => assert FromId(ModelId(ATtiny461)) == Some(ATtiny461);
    case ATtiny861 => assert FromId(ModelId(ATtiny861)) == Some(ATtiny861);
    case ATtiny24 => assert FromId(ModelId(ATtiny24)) == Some(ATtiny24);
    case ATtiny44 => assert FromId(ModelId(ATtiny44)) == Some(ATtiny44);
    case ATtiny84 => assert FromId(ModelId(ATtiny84)) == Some(ATtiny84);
    case ATtiny4313 => assert FromId(ModelId(ATtiny4313)) == Some(ATtiny4313);
  }

  lemma MegaRoundTrip(m: AvrModel)
    requires FamilyOf(m) == AVRMega
    ensures FromId(ModelId(m)) == Some(m)
  {
    match m
    case ATmega603 => assert FromId(ModelId(ATmega603)) == Some(ATmega603);
    case ATmega103 => assert FromId(ModelId(ATmega103)) == Some(ATmega103);
    case ATmega8515 => assert FromId(ModelId(ATmega8515)) == Some(ATmega8515);
    case ATmega8535 => assert FromId(ModelId(ATmega8535)) == Some(ATmega8535);
    case ATmega8 => assert FromId(ModelId(ATmega8)) == Some(ATmega8);
    case ATmega161 => assert FromId(ModelId(ATmega161)) == Some(ATmega161);
    case ATmega163 => assert FromId(ModelId(ATmega163)) == Some(ATmega163);
    case ATmega16 => assert FromId(ModelId(ATmega16)) == Some(ATmega16);
    case ATmega323 => assert FromId(ModelId(ATmega323)) == Some(ATmega323);
    case ATmega32 => assert FromId(ModelId(ATmega32)) == Some(ATmega32);
    case ATmega162 => assert FromId(ModelId(ATmega162)) == Some(ATmega162);
    case ATmega169 => assert FromId(ModelId(ATmega169)) == Some(ATmega169);
    case ATmega164 => assert FromId(ModelId(ATmega164)) == Some(ATmega164);
    case ATmega324 => assert FromId(ModelId(ATmega324)) == Some(ATmega324);
    case ATmega644 => assert FromId(ModelId(ATmega644)) == Some(ATmega644);
    case ATmega64 => assert FromId(ModelId(ATmega64)) == Some(ATmega64);
    case ATmega128 => assert FromId(ModelId(ATmega128)) == Some(ATmega128);
    case ATmega48 => assert FromId(ModelId(ATmega48)) == Some(ATmega48);
    case ATmega88 => assert FromId(ModelId(ATmega88)) == Some(ATmega88);
    case ATmega168 => assert FromId(ModelId(ATmega168)) == Some(ATmega168);
    case ATmega640 => assert FromId(ModelId(ATmega640)) == Some(ATmega640);
    case ATmega1280 => assert FromId(ModelId(ATmega1280)) == Some(ATmega1280);
    case ATmega1281 => assert FromId(ModelId(ATmega1281)) == Some(ATmega1281);
    case ATmega2560 => assert FromId(ModelId(ATmega2560)) == Some(ATmega2560);
    case ATmega2561 => assert FromId(ModelId(ATmega2561)) == Some(ATmega2561);
    case ATmega328 => assert FromId(ModelId(ATmega328)) == Some(ATmega328);
    case ATmega1284 => assert FromId(ModelId(ATmega1284)) == Some(ATmega1284);
  }

  /** An id decodes to a model only if it is that model's id. */
  lemma FromIdSound(id: int)
    ensures FromId(id).Some? ==> ModelId(FromId(id).value) == id
  {
    if id < 0x140000 {
      At90IdSound(id);
    } else if id < 0x150000 {
      TinyIdSound(id);
    } else {
      MegaIdSound(id);
    }
  }

  lemma At90IdSound(id: int)
    requires id < 0x140000
    ensures FromId(id).Some? ==> ModelId(FromId(id).value) == id
  {
  }

  lemma TinyIdSound(id: int)
    requires 0x140000 <= id < 0x150000
    ensures FromId(id).Some? ==> ModelId(FromId(id).value) == id
  {
  }

  lemma MegaIdSound(id: int)
    requires 0x150000 <= id
    ensures FromId(id).Some? ==> ModelId(FromId(id).value) == id
  {
  }

  /** The AVR model ids are pairwise distinct, so a dispatch on the id is a
      function of the model. */
  lemma ModelIdsDistinct(a: AvrModel, b: AvrModel)
    ensures ModelId(a) == ModelId(b) ==> a == b
  {
    ModelIdRoundTrip(a);
    ModelIdRoundTrip(b);
  }

  /** Every model id carries its family's code in bits 16..23: AT90S and
      AT90CAN ids `AVRAT90`, ATtiny ids `AVRTiny`, ATmega ids `AVRMega`. */
  lemma ModelFamilyBits(m: AvrModel)
    ensures IdFamily(ModelId(m)) == FamilyCode(FamilyOf(m))
    ensures FamilyOf(m) in {AVRAT90, AVRTiny, AVRMega}
  {
    ModelIdInBlock(m);
    BlockFamily(ModelId(m), FamilyCode(FamilyOf(m)));
  }

  /** Composing a model's family code with its sub-type gives back its id. */
  lemma ModelIdComposes(m: AvrModel)
    ensures ComposeId(FamilyCode(FamilyOf(m)), ModelId(m) % 0x10000) == ModelId(m)
  {
    var id, c := ModelId(m), FamilyCode(FamilyOf(m));
    ModelIdInBlock(m);
    BlockFamily(id, c);
    Bits.DivModUnique(id - c * 0x10000, 0x8000, 0, id - c * 0x10000);
  }

  /** `id` is family code `c` shifted up 16 bits, plus a 15-bit sub-type. */
  predicate InBlock(id: int, c: int)
  {
    c * 0x10000 <= id < c * 0x10000 + 0x8000
  }

  lemma BlockFamily(id: int, c: int)
    requires 0 <= c < 0x100 && InBlock(id, c)
    ensures IdFamily(id) == c && id % 0x10000 == id - c * 0x10000
  {
    Bits.DivModUnique(id, 0x10000, c, id - c * 0x10000);
    Bits.DivModUnique(c, 0x100, 0, c);
  }

  lemma ModelIdInBlock(m: AvrModel)
    ensures InBlock(ModelId(m), FamilyCode(FamilyOf(m)))
    ensures 0 < FamilyCode(FamilyOf(m)) < 0x100
  {
    match FamilyOf(m)
    case AVRAT90 => At90InBlock(m);
    case AVRTiny => TinyInBlock(m);
    case AVRMega => MegaInBlock(m);
  }

  lemma At90InBlock(m: AvrModel)
    requires FamilyOf(m) == AVRAT90
    ensures InBlock(ModelId(m), FamilyCode(AVRAT90))
  {
    match m
    case AT90S0000 => assert InBlock(ModelId(AT90S0000), FamilyCode(AVRAT90));
    case AT90S1200 => assert InBlock(ModelId(AT90S1200), FamilyCode(AVRAT90));
    case AT90S2313 => assert InBlock(ModelId(AT90S2313), FamilyCode(AVRAT90));
    case AT90S4414 => assert InBlock(ModelId(AT90S4414), FamilyCode(AVRAT90));
    case AT90S8515 => assert InBlock(ModelId(AT90S8515), FamilyCode(AVRAT90));
    case AT90S2323 => assert InBlock(ModelId(AT90S2323), FamilyCode(AVRAT90));
    case AT90S2343 => assert InBlock(ModelId(AT90S2343), FamilyCode(AVRAT90));
    case AT90S2333 => assert InBlock(ModelId(AT90S2333), FamilyCode(AVRAT90));
    case AT90S4433 => assert InBlock(ModelId(AT90S4433), FamilyCode(AVRAT90));
    case AT90S4434 => assert InBlock(ModelId(AT90S4434), FamilyCode(AVRAT90));
    case AT90S8534 => assert InBlock(ModelId(AT90S8534), FamilyCode(AVRAT90));
    case AT90S8535 => assert InBlock(ModelId(AT90S8535), FamilyCode(AVRAT90));
    case AT90CAN32 => assert InBlock(ModelId(AT90CAN32), FamilyCode(AVRAT90));
    case AT90CAN64 => assert InBlock(ModelId(AT90CAN64), FamilyCode(AVRAT90));
    case AT90CAN128 => assert InBlock(ModelId(AT90CAN128), FamilyCode(AVRAT90));
  }

  lemma TinyInBlock(m: AvrModel)
    requires FamilyOf(m) == AVRTiny
    ensures InBlock(ModelId(m), FamilyCode(AVRTiny))
  {
    match m
    case ATtiny22 => assert InBlock(ModelId(ATtiny22), FamilyCode(AVRTiny));
    case ATtiny12 => assert InBlock(ModelId(ATtiny12), FamilyCode(AVRTiny));
    case ATtiny13 => assert InBlock(ModelId(ATtiny13), FamilyCode(AVRTiny));
    case ATtiny15 => assert InBlock(ModelId(ATtiny15), FamilyCode(AVRTiny));
    case ATtiny11 => assert InBlock(ModelId(ATtiny11), FamilyCode(AVRTiny));
    case ATtiny10 => assert InBlock(ModelId(ATtiny10), FamilyCode(AVRTiny));
    case ATtiny28 => assert InBlock(ModelId(ATtiny28), FamilyCode(AVRTiny));
    case ATtiny26 => assert InBlock(ModelId(ATtiny26), FamilyCode(AVRTiny));
    case ATtiny2313 => assert InBlock(ModelId(ATtiny2313), FamilyCode(AVRTiny));
    case ATtiny25 => assert InBlock(ModelId(ATtiny25), FamilyCode(AVRTiny));
    case ATtiny45 => assert InBlock(ModelId(ATtiny45), FamilyCode(AVRTiny));
    case ATtiny85 => assert InBlock(ModelId(ATtiny85), FamilyCode(AVRTiny));
    case ATtiny261 => assert InBlock(ModelId(ATtiny261), FamilyCode(AVRTiny));
    case ATtiny461 => assert InBlock(ModelId(ATtiny461), FamilyCode(AVRTiny));
    case ATtiny861 => assert InBlock(ModelId(ATtiny861), FamilyCode(AVRTiny));
    case ATtiny24 => assert InBlock(ModelId(ATtiny24), FamilyCode(AVRTiny));
    case ATtiny44 => assert InBlock(ModelId(ATtiny44), FamilyCode(AVRTiny));
    case ATtiny84 => assert InBlock(ModelId(ATtiny84), FamilyCode(AVRTiny));
    case ATtiny4313 => assert InBlock(ModelId(ATtiny4313), FamilyCode(AVRTiny));
  }

  lemma MegaInBlock(m: AvrModel)
    requires FamilyOf(m) == AVRMega
    ensures InBlock(ModelId(m), FamilyCode(AVRMega))
  {
    match m
    case ATmega603 => assert InBlock(ModelId(ATmega603), FamilyCode(AVRMega));
    case ATmega103 => assert InBlock(ModelId(ATmega103), FamilyCode(AVRMega));
    case ATmega8515 => assert InBlock(ModelId(ATmega8515), FamilyCode(AVRMega));
    case ATmega8535 => assert InBlock(ModelId(ATmega8535), FamilyCode(AVRMega));
    case ATmega8 => assert InBlock(ModelId(ATmega8), FamilyCode(AVRMega));
    case ATmega161 => assert InBlock(ModelId(ATmega161), FamilyCode(AVRMega));
    case ATmega163 => assert InBlock(ModelId(ATmega163), FamilyCode(AVRMega));
    case ATmega16 => assert InBlock(ModelId(ATmega16), FamilyCode(AVRMega));
    case ATmega323 => assert InBlock(ModelId(ATmega323), FamilyCode(AVRMega));
    case ATmega32 => assert InBlock(ModelId(ATmega32), FamilyCode(AVRMega));
    case ATmega162 => assert InBlock(ModelId(ATmega162), FamilyCode(AVRMega));
    case ATmega169 => assert InBlock(ModelId(ATmega169), FamilyCode(AVRMega));
    case ATmega164 => assert InBlock(ModelId(ATmega164), FamilyCode(AVRMega));
    case ATmega324 => assert InBlock(ModelId(ATmega324), FamilyCode(AVRMega));
    case ATmega644 => assert InBlock(ModelId(ATmega644), FamilyCode(AVRMega));
    case ATmega64 => assert InBlock(ModelId(ATmega64), FamilyCode(AVRMega));
    case ATmega128 => assert InBlock(ModelId(ATmega128), FamilyCode(AVRMega));
    case ATmega48 => assert InBlock(ModelId(ATmega48), FamilyCode(AVRMega));
    case ATmega88 => assert InBlock(ModelId(ATmega88), FamilyCode(AVRMega));
    case ATmega168 => assert InBlock(ModelId(ATmega168), FamilyCode(AVRMega));
    case ATmega640 => assert InBlock(ModelId(ATmega640), FamilyCode(AVRMega));
    case ATmega1280 => assert InBlock(ModelId(ATmega1280), FamilyCode(AVRMega));
    case ATmega1281 => assert InBlock(ModelId(ATmega1281), FamilyCode(AVRMega));
    case ATmega2560 => assert InBlock(ModelId(ATmega2560), FamilyCode(AVRMega));
    case ATmega2561 => assert InBlock(ModelId(ATmega2561), FamilyCode(AVRMega));
    case ATmega328 => assert InBlock(ModelId(ATmega328), FamilyCode(AVRMega));
    case ATmega1284 => assert InBlock(ModelId(ATmega1284), FamilyCode(AVRMega));
  }

  /** No model id is `EID_INVALID`, and `EID_INVALID` decodes to no model. */
  lemma InvalidIsNoModel(m: AvrModel)
    ensures ModelId(m) != EID_INVALID
    ensures FromId(EID_INVALID) == None
  {
  }

  /** The primary family codes are distinct and lie in `1..NO_OF_EEPTYPE`. */
  lemma FamilyCodeRoundTrip(f: Family)
    ensures FamilyFromCode(FamilyCode(f)) == Some(f)
    ensures 1 <= FamilyCode(f) <= NO_OF_EEPTYPE
  {
  }

  lemma FamilyCodesDistinct(f: Family, g: Family)
    ensures FamilyCode(f) == FamilyCode(g) ==> f == g
  {
    FamilyCodeRoundTrip(f);
    FamilyCodeRoundTrip(g);
  }

  /** Every listed sub-type id of a non-AVR family carries that family's code
      in bits 16..23 and differs from `EID_INVALID`. */
  lemma SubTypeIdsConsistent(f: Family)
    ensures forall id <- SubTypeIds(f) :: IdFamily(id) == FamilyCode(f) && id != EID_INVALID
  {
    SubTypeIdsInBlock(f);
    FamilyCodeRoundTrip(f);
    forall id <- SubTypeIds(f)
      ensures IdFamily(id) == FamilyCode(f) && id != EID_INVALID
    {
      BlockFamily(id, FamilyCode(f));
    }
  }

  lemma SubTypeIdsInBlock(f: Family)
    ensures forall id <- SubTypeIds(f) :: InBlock(id, FamilyCode(f))
  {
  }
}
