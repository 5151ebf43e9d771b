/** The MAX3107 UART as seen over SPI: 16-bit words that read or write a register or a FIFO, and what a
    program of such words will have done to the device once it is through. */
module Max3107Device {

  type Byte = bv8
  type Word = bv16

  const WRITE_BIT: Word := 0x8000
  const REG_MASK: Word := 0x7f00

  /* Registers, as they stand in a word. */
  const FIFO: Word := 0x0000
  const IRQEN: Word := 0x0100
  const IRQSTS: Word := 0x0200
  const LSR_IRQSTS: Word := 0x0400
  const STS_IRQSTS: Word := 0x0800
  const LSR_IRQEN: Word := 0x0300
  const MODE1: Word := 0x0900
  const MODE2: Word := 0x0a00
  const LCR: Word := 0x0b00
  const RXTO: Word := 0x0c00
  const FLOWLVL: Word := 0x0f00
  const FIFOTRIGLVL: Word := 0x1000
  const RXFIFOLVL: Word := 0x1200
  const FLOWCTRL: Word := 0x1300
  const BRGCFG: Word := 0x1b00
  const BRGDIVLSB: Word := 0x1c00
  const BRGDIVMSB: Word := 0x1d00
  const REVID: Word := 0x1f00

  /* Register bits. */
  const MODE1_RXDIS: Byte := 0x01
  const MODE1_TXDIS: Byte := 0x02
  const MODE1_FORCESLEEP: Byte := 0x20
  const MODE1_AUTOSLEEP: Byte := 0x40
  const MODE1_IRQSEL: Byte := 0x80
  const MODE2_FIFORST: Byte := 0x02
  const MODE2_LOOPBACK: Byte := 0x20
  const IRQ_LSR: Byte := 0x01
  const IRQ_RXFIFO: Byte := 0x08
  const IRQ_TXEMPTY: Byte := 0x20

  const RX_FIFO_SIZE: nat := 128
  const TX_FIFO_SIZE: nat := 128

  predicate HasBit(v: Byte, b: Byte) {
    v & b != 0
  }

  function SetBit(v: Byte, b: Byte): Byte {
    v | b
  }

  function ClearBit(v: Byte, b: Byte): Byte {
    v & !b
  }

  predicate TxDisabled(mode1: Byte) {
    HasBit(mode1, MODE1_TXDIS)
  }

  lemma TxDisableBit(v: Byte)
    ensures TxDisabled(SetBit(v, MODE1_TXDIS)) && !TxDisabled(ClearBit(v, MODE1_TXDIS))
  {
  }

  /** The receiver and sleep bits leave the transmitter alone. */
  lemma TxDisableUntouched(v: Byte, b: Byte)
    requires b == MODE1_RXDIS || b == MODE1_FORCESLEEP || b == MODE1_AUTOSLEEP
    ensures TxDisabled(SetBit(v, b)) == TxDisabled(v) && TxDisabled(ClearBit(v, b)) == TxDisabled(v)
  {
  }

  lemma IrqBits(v: Byte)
    ensures HasBit(SetBit(v, IRQ_TXEMPTY), IRQ_TXEMPTY) && !HasBit(ClearBit(v, IRQ_TXEMPTY), IRQ_TXEMPTY)
    ensures HasBit(SetBit(v, IRQ_RXFIFO), IRQ_RXFIFO) && !HasBit(ClearBit(v, IRQ_RXFIFO), IRQ_RXFIFO)
    ensures !HasBit(v, IRQ_RXFIFO) ==> ClearBit(v, IRQ_RXFIFO) == v
    ensures !HasBit(v, IRQ_TXEMPTY) ==> ClearBit(v, IRQ_TXEMPTY) == v
  {
  }

  /* ---------------------------------------------------------------- words */

  function Wr(reg: Word, val: Byte): Word {
    WRITE_BIT | reg | (val as Word)
  }

  function Rd(reg: Word): Word {
    reg
  }

  predicate IsWrite(w: Word) {
    w & WRITE_BIT != 0
  }

  function RegOf(w: Word): Word {
    w & REG_MASK
  }

  function ValOf(w: Word): Byte {
    (w & 0xff) as Byte
  }

  predicate Writes(w: Word, reg: Word) {
    IsWrite(w) && RegOf(w) == reg
  }

  predicate Reads(w: Word, reg: Word) {
    !IsWrite(w) && RegOf(w) == reg
  }

  lemma DecodeWr(reg: Word, val: Byte)
    requires reg & REG_MASK == reg
    ensures IsWrite(Wr(reg, val)) && RegOf(Wr(reg, val)) == reg && ValOf(Wr(reg, val)) == val
  {
  }

  lemma DecodeRd(reg: Word)
    requires reg & REG_MASK == reg
    ensures !IsWrite(Rd(reg)) && RegOf(Rd(reg)) == reg
  {
  }

  /* ---------------------------------------------------------------- the device */

  datatype Regs = Regs(mode1: Byte, lcr: Byte, brgMsb: Byte, brgLsb: Byte, brgCfg: Byte, irqen: Byte, mode2: Byte)

  /** Registers, the TX-empty status latch, and the two FIFOs. */
  datatype Device = Device(regs: Regs, txEmpty: bool, tx: seq<Byte>, rx: seq<Byte>)

  /** Register writes; other words leave the registers alone. */
  function WriteReg(r: Regs, w: Word): Regs {
    if !IsWrite(w) then r
    else if RegOf(w) == MODE1 then r.(mode1 := ValOf(w))
    else if RegOf(w) == LCR then r.(lcr := ValOf(w))
    else if RegOf(w) == BRGDIVMSB then r.(brgMsb := ValOf(w))
    else if RegOf(w) == BRGDIVLSB then r.(brgLsb := ValOf(w))
    else if RegOf(w) == BRGCFG then r.(brgCfg := ValOf(w))
    else if RegOf(w) == IRQEN then r.(irqen := ValOf(w))
    else if RegOf(w) == MODE2 then r.(mode2 := ValOf(w))
    else r
  }

  /** The FIFO reset bit of MODE2. */
  predicate Resets(w: Word) {
    Writes(w, MODE2) && HasBit(ValOf(w), MODE2_FIFORST)
  }

  /** A word's effect.  A byte pushed into a full TX FIFO is lost; reading the interrupt status clears the
      TX-empty latch; reading the RX FIFO pops it; the reset bit empties both FIFOs. */
  function Exec(d: Device, w: Word): Device {
    if Writes(w, FIFO) then (if |d.tx| < TX_FIFO_SIZE then d.(tx := d.tx + [ValOf(w)]) else d)
    else if Reads(w, FIFO) then (if d.rx == [] then d else d.(rx := d.rx[1..]))
    else if Reads(w, IRQSTS) then d.(txEmpty := false)
    else if Resets(w) then d.(regs := WriteReg(d.regs, w), tx := [], rx := [])
    else d.(regs := WriteReg(d.regs, w))
  }

  /** What the device may answer.  The upper byte is never specified, the lower one only for the
      registers the driver looks at. */
  predicate Answers(d: Device, w: Word, reply: Word) {
    && (Reads(w, FIFO) && d.rx != [] ==> ValOf(reply) == d.rx[0])
    && (Reads(w, IRQSTS) ==> HasBit(ValOf(reply), IRQ_TXEMPTY) == d.txEmpty)
    && (Reads(w, RXFIFOLVL) ==> ValOf(reply) as nat == |d.rx|)
  }

  predicate Transmitting(d: Device) {
    !HasBit(d.regs.mode1, MODE1_TXDIS) && d.tx != []
  }

  /** One byte goes out on the wire; emptying the FIFO sets the latch. */
  function Shift(d: Device): Device
    requires Transmitting(d)
  {
    d.(tx := d.tx[1..], txEmpty := d.txEmpty || |d.tx| == 1)
  }

  /* ---------------------------------------------------------------- programs of words */

  /** The device once a program is through, with nothing else happening meanwhile. */
  function ExecAll(d: Device, words: seq<Word>): Device
    decreases |words|
  {
    if words == [] then d else ExecAll(Exec(d, words[0]), words[1..])
  }

  /** The registers once a program is through. */
  function Settle(r: Regs, todo: seq<Word>): Regs
    decreases |todo|
  {
    if todo == [] then r else Settle(WriteReg(r, todo[0]), todo[1..])
  }

  function Pushed(w: Word): seq<Byte> {
    if Writes(w, FIFO) then [ValOf(w)] else []
  }

  /** The bytes a program will push into the TX FIFO. */
  function DataOf(todo: seq<Word>): seq<Byte>
    decreases |todo|
  {
    if todo == [] then [] else Pushed(todo[0]) + DataOf(todo[1..])
  }

  predicate PlainWrite(w: Word) {
    IsWrite(w) && RegOf(w) != MODE2
  }

  /** Nothing in the program reads or resets: it neither pops the RX FIFO nor clears the status. */
  predicate WritesOnly(words: seq<Word>) {
    forall i :: 0 <= i < |words| ==> PlainWrite(words[i])
  }

  /** Some word of the program writes MODE1. */
  predicate Carries(todo: seq<Word>)
    decreases |todo|
  {
    todo != [] && (Writes(todo[0], MODE1) || Carries(todo[1..]))
  }

  /** No byte is pushed after MODE1 has been written. */
  predicate DataFirst(todo: seq<Word>)
    decreases |todo|
  {
    todo == [] || ((Writes(todo[0], MODE1) ==> DataOf(todo[1..]) == []) && DataFirst(todo[1..]))
  }

  function DataWords(data: seq<Byte>): (words: seq<Word>)
    ensures |words| == |data|
  {
    seq(|data|, i requires 0 <= i < |data| => Wr(FIFO, data[i]))
  }

  function PopWords(n: nat): (words: seq<Word>)
    ensures |words| == n
  {
    seq(n, _ => Rd(FIFO))
  }

  /** Words that only write registers or read something other than the FIFO. */
  predicate Plain(words: seq<Word>) {
    forall i :: 0 <= i < |words| ==> RegOf(words[i]) != FIFO
  }

  lemma {:induction false} SettleAppend(r: Regs, a: seq<Word>, b: seq<Word>)
    ensures Settle(r, a + b) == Settle(Settle(r, a), b)
    decreases |a|
  {
    if a == [] {
      assert a + b == b;
    } else {
      assert (a + b)[1..] == a[1..] + b;
      SettleAppend(WriteReg(r, a[0]), a[1..], b);
    }
  }

  lemma {:induction false} CarriesNone(words: seq<Word>)
    requires forall i :: 0 <= i < |words| ==> !Writes(words[i], MODE1)
    ensures !Carries(words)
    decreases |words|
  {
    if words != [] {
      CarriesNone(words[1..]);
    }
  }

  lemma WriteOver(r: Regs, v: Byte, w: Word)
    ensures WriteReg(r.(mode1 := v), w)
         == WriteReg(r, w).(mode1 := if Writes(w, MODE1) then WriteReg(r, w).mode1 else v)
  {
  }

  /** The last MODE1 word of a program decides; without one the register keeps its value. */
  lemma {:induction false} SettleOver(r: Regs, v: Byte, todo: seq<Word>)
    ensures Settle(r.(mode1 := v), todo)
         == Settle(r, todo).(mode1 := if Carries(todo) then Settle(r, todo).mode1 else v)
    decreases |todo|
  {
    if todo != [] {
      var r' := WriteReg(r, todo[0]);
      WriteOver(r, v, todo[0]);
      SettleOver(r', if Writes(todo[0], MODE1) then r'.mode1 else v, todo[1..]);
    }
  }

  lemma ExecRegs(d: Device, w: Word)
    ensures Exec(d, w).regs == WriteReg(d.regs, w)
  {
  }

  lemma {:induction false} ExecAllRegs(d: Device, words: seq<Word>)
    ensures ExecAll(d, words).regs == Settle(d.regs, words)
    decreases |words|
  {
    if words != [] {
      ExecRegs(d, words[0]);
      ExecAllRegs(Exec(d, words[0]), words[1..]);
    }
  }

  lemma {:induction false} ExecAllAppend(d: Device, a: seq<Word>, b: seq<Word>)
    ensures ExecAll(d, a + b) == ExecAll(ExecAll(d, a), b)
    decreases |a|
  {
    if a == [] {
      assert a + b == b;
    } else {
      assert (a + b)[1..] == a[1..] + b;
      ExecAllAppend(Exec(d, a[0]), a[1..], b);
    }
  }

  lemma Assoc<T>(a: seq<T>, b: seq<T>, c: seq<T>)
    ensures a + (b + c) == (a + b) + c
  {
  }

  lemma {:induction false} DataAppend(a: seq<Word>, b: seq<Word>)
    ensures DataOf(a + b) == DataOf(a) + DataOf(b)
    decreases |a|
  {
    if a == [] {
      assert a + b == b;
    } else {
      var ab := a + b;
      assert ab[0] == a[0] && ab[1..] == a[1..] + b;
      DataAppend(a[1..], b);
      Assoc(Pushed(a[0]), DataOf(a[1..]), DataOf(b));
    }
  }

  /** Empty FIFOs stay empty while a program pushes nothing. */
  lemma {:induction false} ExecAllEmpty(d: Device, words: seq<Word>)
    requires d.tx == [] && d.rx == [] && DataOf(words) == []
    ensures ExecAll(d, words).tx == [] && ExecAll(d, words).rx == []
    decreases |words|
  {
    if words != [] {
      ExecAllEmpty(Exec(d, words[0]), words[1..]);
    }
  }

  /** No word sets the TX-empty latch. */
  lemma {:induction false} ExecAllLatch(d: Device, words: seq<Word>)
    requires !d.txEmpty
    ensures !ExecAll(d, words).txEmpty
    decreases |words|
  {
    if words != [] {
      ExecAllLatch(Exec(d, words[0]), words[1..]);
    }
  }

  lemma ExecWrite(d: Device, w: Word)
    requires PlainWrite(w) && |d.tx| + |Pushed(w)| <= TX_FIFO_SIZE
    ensures Exec(d, w) == Device(WriteReg(d.regs, w), d.txEmpty, d.tx + Pushed(w), d.rx)
  {
  }

  /** A program of writes whose data fits does to the device what Settle and DataOf say, and nothing else. */
  lemma {:induction false} ExecAllWrites(d: Device, words: seq<Word>)
    requires WritesOnly(words) && |d.tx| + |DataOf(words)| <= TX_FIFO_SIZE
    ensures ExecAll(d, words) == Device(Settle(d.regs, words), d.txEmpty, d.tx + DataOf(words), d.rx)
    decreases |words|
  {
    if words != [] {
      ExecWrite(d, words[0]);
      ExecAllWrites(Exec(d, words[0]), words[1..]);
      Assoc(d.tx, Pushed(words[0]), DataOf(words[1..]));
    }
  }

  lemma {:induction false} PlainWords(a: seq<Word>)
    requires Plain(a)
    ensures DataOf(a) == [] && DataFirst(a)
    decreases |a|
  {
    if a != [] {
      PlainWords(a[1..]);
    }
  }

  lemma {:induction false} DataWordsMeaning(r: Regs, data: seq<Byte>)
    ensures DataOf(DataWords(data)) == data && WritesOnly(DataWords(data))
    ensures Settle(r, DataWords(data)) == r && DataFirst(DataWords(data))
    decreases |data|
  {
    if data != [] {
      DecodeWr(FIFO, data[0]);
      assert DataWords(data)[1..] == DataWords(data[1..]);
      DataWordsMeaning(r, data[1..]);
    }
  }

  lemma {:induction false} PopWordsMeaning(r: Regs, n: nat)
    ensures DataOf(PopWords(n)) == []
    ensures Settle(r, PopWords(n)) == r && DataFirst(PopWords(n))
    decreases n
  {
    if n > 0 {
      DecodeRd(FIFO);
      assert PopWords(n)[1..] == PopWords(n - 1);
      PopWordsMeaning(r, n - 1);
    }
  }

  lemma {:induction false} DataFirstAppend(a: seq<Word>, b: seq<Word>)
    requires DataFirst(b)
    requires forall i :: 0 <= i < |a| ==> !Writes(a[i], MODE1)
    ensures DataFirst(a + b)
    decreases |a|
  {
    if a == [] {
      assert a + b == b;
    } else {
      assert (a + b)[1..] == a[1..] + b;
      DataFirstAppend(a[1..], b);
    }
  }
}
