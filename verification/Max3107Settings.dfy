/** Line settings: the LCR value and the baud-rate tables. */
module Max3107Settings {
  import opened Max3107Device
  import opened Max3107Programs

  const LCR_WORD_LEN_7: Byte := 0x02
  const LCR_WORD_LEN_8: Byte := 0x03
  const LCR_STOPLEN: Byte := 0x04
  const LCR_PARITY: Byte := 0x08
  const LCR_EVENPARITY: Byte := 0x10

  /** Parity, frame and overrun errors. */
  const ALL_ERRORS: nat := 7

  /** What the tty asks for: the flags of the termios structure that the driver looks at, and the rate. */
  datatype Termios = Termios(sevenBits: bool, parity: bool, odd: bool, twoStops: bool, markParity: bool,
                             ignoreErrors: bool, rate: nat)

  function NewLcr(t: Termios): Byte {
    (if t.sevenBits then LCR_WORD_LEN_7 else LCR_WORD_LEN_8)
    | (if t.parity then LCR_PARITY else 0) | (if t.parity && !t.odd then LCR_EVENPARITY else 0)
    | (if t.twoStops then LCR_STOPLEN else 0)
  }

  const BAUD_ENTRIES: nat := 13
  const NO_BRG: Brg := Brg(0, 0, 0)

  /** The tables for the external and the internal clock; both end with an entry for rate zero. */
  const EXT_TABLE: seq<(nat, Brg)> := [
    (300, Brg(0x03, 0x00, 0x00)), (600, Brg(0x01, 0x80, 0x00)), (1200, Brg(0x00, 0xc0, 0x00)),
    (2400, Brg(0x00, 0x60, 0x00)), (4800, Brg(0x00, 0x30, 0x00)), (9600, Brg(0x00, 0x18, 0x00)),
    (19200, Brg(0x00, 0x0c, 0x00)), (57600, Brg(0x00, 0x04, 0x00)), (115200, Brg(0x00, 0x02, 0x00)),
    (230400, Brg(0x00, 0x01, 0x00)), (460800, Brg(0x00, 0x00, 0x08)), (921600, Brg(0x00, 0x00, 0x04)),
    (0, Brg(0, 0, 0))]
  const INT_TABLE: seq<(nat, Brg)> := [
    (300, Brg(0x00, 0x80, 0x00)), (600, Brg(0x00, 0x40, 0x00)), (1200, Brg(0x00, 0x20, 0x00)),
    (2400, Brg(0x00, 0x10, 0x00)), (4800, Brg(0x00, 0x08, 0x00)), (9600, Brg(0x00, 0x04, 0x00)),
    (19200, Brg(0x00, 0x02, 0x00)), (57600, Brg(0x00, 0x00, 0x0b)), (115200, Brg(0x00, 0x00, 0x05)),
    (230400, Brg(0x00, 0x00, 0x03)), (460800, Brg(0x00, 0x00, 0x00)), (921600, Brg(0x00, 0x00, 0x00)),
    (0, Brg(0, 0, 0))]

  function Lookup(table: seq<(nat, Brg)>, baud: nat): Brg
    decreases |table|
  {
    if table == [] then NO_BRG else if table[0].0 == baud then table[0].1 else Lookup(table[1..], baud)
  }

  function NewBrg(table: seq<(nat, Brg)>, baud: nat, prev: Brg): Brg {
    if Lookup(table, baud) == NO_BRG then prev else Lookup(table, baud)
  }

  /** A rate is found exactly where the table has it first. */
  lemma {:induction false} LookupIsFirst(table: seq<(nat, Brg)>, baud: nat, i: nat)
    requires i < |table| && table[i].0 == baud
    requires forall k :: 0 <= k < i ==> table[k].0 != baud
    ensures Lookup(table, baud) == table[i].1
    decreases |table|
  {
    if i > 0 {
      assert table[0].0 != baud;
      LookupIsFirst(table[1..], baud, i - 1);
    }
  }

  lemma {:induction false} LookupFails(table: seq<(nat, Brg)>, baud: nat)
    requires forall k :: 0 <= k < |table| ==> table[k].0 != baud || table[k].1 == NO_BRG
    ensures Lookup(table, baud) == NO_BRG
    decreases |table|
  {
    if table != [] {
      LookupFails(table[1..], baud);
    }
  }

  function ClockTable(extClk: bool): seq<(nat, Brg)> {
    if extClk then EXT_TABLE else INT_TABLE
  }

  /** The rates that a request with this clock can select. */
  function HonouredRates(extClk: bool): set<nat> {
    var common := {300, 600, 1200, 2400, 4800, 9600, 19200, 57600, 115200, 230400};
    if extClk then common + {460800, 921600} else common
  }

  /** Some entry has the rate, with a setting that is not zero. */
  predicate Listed(table: seq<(nat, Brg)>, baud: nat) {
    exists k :: 0 <= k < |table| && table[k].0 == baud && table[k].1 != NO_BRG
  }

  predicate DistinctRates(table: seq<(nat, Brg)>) {
    forall i, j :: 0 <= i < j < |table| ==> table[i].0 != table[j].0
  }

  lemma LookupListed(table: seq<(nat, Brg)>, baud: nat)
    requires DistinctRates(table)
    ensures Lookup(table, baud) != NO_BRG <==> Listed(table, baud)
  {
    if Listed(table, baud) {
      var k :| 0 <= k < |table| && table[k].0 == baud && table[k].1 != NO_BRG;
      LookupIsFirst(table, baud, k);
    } else {
      LookupFails(table, baud);
    }
  }

  lemma ExtDistinct()
    ensures DistinctRates(EXT_TABLE)
  {
  }

  lemma ExtListed(baud: nat)
    ensures Listed(EXT_TABLE, baud) <==> baud in HonouredRates(true)
  {
    var t := EXT_TABLE;
    assert t[0].0 == 300 && t[1].0 == 600 && t[2].0 == 1200 && t[3].0 == 2400 && t[4].0 == 4800 && t[5].0 == 9600;
    assert t[6].0 == 19200 && t[7].0 == 57600 && t[8].0 == 115200 && t[9].0 == 230400;
    assert t[10].0 == 460800 && t[11].0 == 921600;
  }

  lemma IntDistinct()
    ensures DistinctRates(INT_TABLE)
  {
  }

  lemma IntListed(baud: nat)
    ensures Listed(INT_TABLE, baud) <==> baud in HonouredRates(false)
  {
    var t := INT_TABLE;
    assert t[0].0 == 300 && t[1].0 == 600 && t[2].0 == 1200 && t[3].0 == 2400 && t[4].0 == 4800 && t[5].0 == 9600;
    assert t[6].0 == 19200 && t[7].0 == 57600 && t[8].0 == 115200 && t[9].0 == 230400;
  }

  /** A table without an entry, or with a zero entry, leaves every previous setting; one with an entry does not. */
  lemma KeepsEverySetting(table: seq<(nat, Brg)>, baud: nat)
    ensures (forall prev :: NewBrg(table, baud, prev) == prev) <==> Lookup(table, baud) == NO_BRG
  {
    if Lookup(table, baud) != NO_BRG {
      assert NewBrg(table, baud, NO_BRG) != NO_BRG;
    }
  }

  /** A request for a rate changes nothing, whatever the setting was, exactly when the rate is not one of the ten
      that both clocks have, or the two more of the external clock. */
  lemma IgnoredRates(extClk: bool, baud: nat)
    ensures (forall prev :: NewBrg(ClockTable(extClk), baud, prev) == prev) <==> baud !in HonouredRates(extClk)
  {
    ExtDistinct();
    IntDistinct();
    ExtListed(baud);
    IntListed(baud);
    LookupListed(ClockTable(extClk), baud);
    KeepsEverySetting(ClockTable(extClk), baud);
  }

  /** Standard rates among those that are ignored. */
  lemma IgnoredInstances(extClk: bool, baud: nat)
    requires baud == 38400 || (!extClk && (baud == 460800 || baud == 921600))
    ensures baud !in HonouredRates(extClk)
  {
  }

  /* ---------------------------------------------------------------- what the settings mean */

  /** The divisor of the generator in sixteenths: the divisor bytes, and the low four bits of the configuration. */
  function Sixteenths(b: Brg): nat {
    (b.msb as nat * 256 + b.lsb as nat) * 16 + (b.cfg & 0x0f) as nat
  }

  lemma ExtEntry(i: nat)
    requires i < 12
    ensures EXT_TABLE[i].0 * Sixteenths(EXT_TABLE[i].1) == 3_686_400
  {
  }

  lemma IntEntry(i: nat)
    requires i < 10
    ensures var baud := INT_TABLE[i].0;
            baud * Sixteenths(INT_TABLE[i].1)
            == if baud <= 19200 then 614_400 else if baud == 57600 then 633_600
               else if baud == 115200 then 576_000 else 691_200
  {
  }

  lemma Found(table: seq<(nat, Brg)>, baud: nat) returns (i: nat)
    requires DistinctRates(table) && Listed(table, baud)
    ensures i < |table| && table[i].0 == baud && table[i].1 != NO_BRG && Lookup(table, baud) == table[i].1
  {
    i :| 0 <= i < |table| && table[i].0 == baud && table[i].1 != NO_BRG;
    LookupIsFirst(table, baud, i);
  }

  /** With the external clock of 3.6864 MHz every rate that is honoured comes out exactly. */
  lemma ExternalRates(baud: nat)
    requires baud in HonouredRates(true)
    ensures baud * Sixteenths(Lookup(EXT_TABLE, baud)) == 3_686_400
  {
    ExtDistinct();
    ExtListed(baud);
    var i := Found(EXT_TABLE, baud);
    ExtEntry(i);
  }

  /** With the internal clock of 614.4 kHz the divisor is the nearest there is.  It is exact up to 19200 baud, and off
      by one part in thirty-two at 57600, by one in sixteen at 115200 and by one in eight at 230400. */
  lemma InternalRates(baud: nat)
    requires baud in HonouredRates(false)
    ensures baud * Sixteenths(Lookup(INT_TABLE, baud))
         == if baud <= 19200 then 614_400 else if baud == 57600 then 633_600
            else if baud == 115200 then 576_000 else 691_200
  {
    IntDistinct();
    IntListed(baud);
    var i := Found(INT_TABLE, baud);
    IntEntry(i);
  }
}
