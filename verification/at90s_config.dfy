/** The timing and mode parameters the AVR driver reads from its own fields
    and from the application profile, passed explicitly, and the result codes
    its operations return. */
module At90sConfig {

  datatype Config = Config(
    old1200mode: bool,       // the AT90S1200 reset handshake
    twdProg: int,            // programming delay, ms
    twdErase: int,           // erase delay, ms
    resetDelay: int,         // delay after a reset pulse, ms
    pageDelay: int,          // page-write delay when not polling, ms
    flashPagePolling: bool,  // poll the page after a page write
    readyTimeout: int,       // default poll bound of the write-completion wait
    pageTimeout: int)        // default poll bound of the page write

  /** `OK`, `E2P_TIMEOUT` and `BADPARAM`. */
  datatype Status = Ok | Timeout | BadParam

  /** Which memory an operation addresses: a nonzero type or address selects
      the EEPROM, zero the program (flash) memory. */
  datatype Memory = Eeprom | Flash
}
