/** The driver's shadow of the MAX3107, and the programs of words it builds from that shadow. */
module Max3107Programs {
  import opened Max3107Device

  datatype Brg = Brg(msb: Byte, lsb: Byte, cfg: Byte)

  /** The state flags and shadow registers of struct max3107_port. */
  datatype Port = Port(
    txFifoEmpty: bool, rxEnabled: bool, txEnabled: bool, irqen: Byte,
    mode1: Byte, mode1Commit: bool, lcr: Byte, lcrCommit: bool, brg: Brg, brgCommit: bool, handleIrq: bool)

  lemma ThreeParts(r: Regs, a: seq<Word>, b: seq<Word>, c: seq<Word>)
    ensures DataOf(a + b + c) == DataOf(a) + DataOf(b) + DataOf(c)
    ensures Settle(r, a + b + c) == Settle(Settle(Settle(r, a), b), c)
  {
    SettleAppend(r, a, b);
    SettleAppend(r, a + b, c);
    DataAppend(a, b);
    DataAppend(a + b, c);
  }

  /* ---------------------------------------------------------------- transmitting */

  function TxQuiet(p: Port): seq<Word> {
    if HasBit(p.irqen, IRQ_TXEMPTY) then [Wr(IRQEN, ClearBit(p.irqen, IRQ_TXEMPTY))] else []
  }

  function TxIrqen(p: Port): Byte {
    SetBit(ClearBit(p.irqen, IRQ_TXEMPTY), IRQ_TXEMPTY)
  }

  function TxMode1(p: Port): Byte {
    if p.txEnabled then p.mode1 else ClearBit(p.mode1, MODE1_TXDIS)
  }

  function TxTail(p: Port): seq<Word> {
    [Wr(IRQEN, TxIrqen(p))] + if p.txEnabled then [] else [Wr(MODE1, TxMode1(p))]
  }

  /** Interrupt off, the bytes, interrupt on, and the transmitter on if it was off. */
  function TxProgram(p: Port, data: seq<Byte>): seq<Word> {
    TxQuiet(p) + DataWords(data) + TxTail(p)
  }

  function TxPort(p: Port): Port {
    p.(txFifoEmpty := false, txEnabled := true, irqen := TxIrqen(p), mode1 := TxMode1(p))
  }

  lemma OneWord(r: Regs, reg: Word, val: Byte)
    requires reg & REG_MASK == reg && reg != FIFO && reg != MODE2
    ensures DataOf([Wr(reg, val)]) == [] && DataFirst([Wr(reg, val)]) && WritesOnly([Wr(reg, val)])
    ensures Plain([Wr(reg, val)])
    ensures Settle(r, [Wr(reg, val)]) == WriteReg(r, Wr(reg, val))
  {
  }

  lemma SettleIrqen(r: Regs, val: Byte)
    ensures DataOf([Wr(IRQEN, val)]) == [] && DataFirst([Wr(IRQEN, val)]) && WritesOnly([Wr(IRQEN, val)])
    ensures Settle(r, [Wr(IRQEN, val)]) == r.(irqen := val)
  {
  }

  lemma SettleMode1(r: Regs, val: Byte)
    ensures DataOf([Wr(MODE1, val)]) == [] && DataFirst([Wr(MODE1, val)]) && WritesOnly([Wr(MODE1, val)])
    ensures Settle(r, [Wr(MODE1, val)]) == r.(mode1 := val)
  {
  }

  lemma TxTailMeaning(p: Port, r: Regs)
    ensures DataOf(TxTail(p)) == [] && DataFirst(TxTail(p)) && WritesOnly(TxTail(p))
    ensures Settle(r, TxTail(p)) == r.(irqen := TxIrqen(p), mode1 := if p.txEnabled then r.mode1 else TxMode1(p))
  {
    DecodeWr(IRQEN, TxIrqen(p));
    DecodeWr(MODE1, TxMode1(p));
    PlainWords(TxTail(p));
    var w := [Wr(IRQEN, TxIrqen(p))];
    var rest := if p.txEnabled then [] else [Wr(MODE1, TxMode1(p))];
    OneWord(r, IRQEN, TxIrqen(p));
    OneWord(r.(irqen := TxIrqen(p)), MODE1, TxMode1(p));
    SettleAppend(r, w, rest);
  }

  lemma TxQuietMeaning(p: Port, r: Regs)
    ensures DataOf(TxQuiet(p)) == [] && WritesOnly(TxQuiet(p))
    ensures forall i :: 0 <= i < |TxQuiet(p)| ==> !Writes(TxQuiet(p)[i], MODE1)
    ensures Settle(r, TxQuiet(p)) == if TxQuiet(p) == [] then r else r.(irqen := ClearBit(p.irqen, IRQ_TXEMPTY))
  {
  }

  lemma NoMode1InData(data: seq<Byte>)
    ensures forall i :: 0 <= i < |data| ==> !Writes(DataWords(data)[i], MODE1)
  {
  }

  lemma TxProgramOrder(p: Port, data: seq<Byte>)
    ensures DataFirst(TxProgram(p, data)) && WritesOnly(TxProgram(p, data))
  {
    var r := Regs(0, 0, 0, 0, 0, 0, 0);
    TxQuietMeaning(p, r);
    TxTailMeaning(p, r);
    DataWordsMeaning(r, data);
    NoMode1InData(data);
    DataFirstAppend(TxQuiet(p) + DataWords(data), TxTail(p));
  }

  /** A TX program sends exactly the bytes, touches no register but IRQEN and MODE1, leaves those as the
      shadow says, and enables the transmitter only after the last byte. */
  lemma TxProgramMeaning(p: Port, data: seq<Byte>, r: Regs)
    ensures DataOf(TxProgram(p, data)) == data
    ensures DataFirst(TxProgram(p, data)) && WritesOnly(TxProgram(p, data))
    ensures Settle(r, TxProgram(p, data))
         == r.(irqen := TxPort(p).irqen, mode1 := if p.txEnabled then r.mode1 else TxPort(p).mode1)
    ensures |TxProgram(p, data)| <= |data| + 3
  {
    ThreeParts(r, TxQuiet(p), DataWords(data), TxTail(p));
    TxQuietMeaning(p, r);
    DataWordsMeaning(Settle(r, TxQuiet(p)), data);
    TxTailMeaning(p, Settle(r, TxQuiet(p)));
    TxProgramOrder(p, data);
  }

  /** While the transmitter is on, sending leaves MODE1 alone. */
  lemma TxProgramCarriesNone(p: Port, data: seq<Byte>)
    requires p.txEnabled
    ensures !Carries(TxProgram(p, data))
  {
    TxQuietMeaning(p, Regs(0, 0, 0, 0, 0, 0, 0));
    NoMode1InData(data);
    DecodeWr(IRQEN, TxIrqen(p));
    CarriesNone(TxProgram(p, data));
  }

  /* ---------------------------------------------------------------- receiving */

  function RxQuiet(irqen: Byte): seq<Word> {
    if HasBit(irqen, IRQ_RXFIFO) then [Wr(IRQEN, ClearBit(irqen, IRQ_RXFIFO))] else []
  }

  /** Interrupt off, one zero word for each byte, and the level once more. */
  function RxProgram(irqen: Byte, n: nat): seq<Word> {
    RxQuiet(irqen) + PopWords(n) + [Rd(RXFIFOLVL)]
  }

  function RxPort(p: Port): Port {
    p.(irqen := ClearBit(p.irqen, IRQ_RXFIFO))
  }

  lemma RxQuietMeaning(irqen: Byte, r: Regs)
    requires r.irqen == irqen
    ensures DataOf(RxQuiet(irqen)) == [] && WritesOnly(RxQuiet(irqen))
    ensures forall i :: 0 <= i < |RxQuiet(irqen)| ==> !Writes(RxQuiet(irqen)[i], MODE1)
    ensures Settle(r, RxQuiet(irqen)) == r.(irqen := ClearBit(irqen, IRQ_RXFIFO))
  {
  }

  lemma LevelWord(r: Regs)
    ensures DataOf([Rd(RXFIFOLVL)]) == [] && DataFirst([Rd(RXFIFOLVL)]) && Settle(r, [Rd(RXFIFOLVL)]) == r
  {
  }

  lemma PopWordsOnlyPop(n: nat)
    ensures forall i :: 0 <= i < n ==> !Writes(PopWords(n)[i], MODE1)
  {
  }

  /** An RX program pushes nothing, changes no register but IRQEN, and fits the RX buffer. */
  lemma RxProgramMeaning(irqen: Byte, n: nat, r: Regs)
    requires r.irqen == irqen
    ensures DataOf(RxProgram(irqen, n)) == [] && DataFirst(RxProgram(irqen, n))
    ensures Settle(r, RxProgram(irqen, n)) == r.(irqen := ClearBit(irqen, IRQ_RXFIFO))
    ensures |RxProgram(irqen, n)| <= n + 2
  {
    var quiet, pops, level := RxQuiet(irqen), PopWords(n), [Rd(RXFIFOLVL)];
    RxQuietMeaning(irqen, r);
    PopWordsMeaning(r.(irqen := ClearBit(irqen, IRQ_RXFIFO)), n);
    LevelWord(r.(irqen := ClearBit(irqen, IRQ_RXFIFO)));
    PopWordsOnlyPop(n);
    ThreeParts(r, quiet, pops, level);
    DataFirstAppend(quiet + pops, level);
  }

  lemma RxProgramCarriesNone(irqen: Byte, n: nat)
    ensures !Carries(RxProgram(irqen, n))
  {
    DecodeWr(IRQEN, ClearBit(irqen, IRQ_RXFIFO));
    PopWordsOnlyPop(n);
    DecodeRd(RXFIFOLVL);
    CarriesNone(RxProgram(irqen, n));
  }

  /* ---------------------------------------------------------------- interrupts and settings */

  function IrqProgram(): seq<Word> {
    [Rd(IRQSTS), Rd(STS_IRQSTS), Rd(LSR_IRQSTS), Rd(RXFIFOLVL)]
  }

  /** Words that change no register at all. */
  predicate Readings(words: seq<Word>) {
    forall i :: 0 <= i < |words| ==> !IsWrite(words[i]) && RegOf(words[i]) != FIFO
  }

  lemma {:induction false} ReadingsSettle(r: Regs, words: seq<Word>)
    requires Readings(words)
    ensures Settle(r, words) == r
    decreases |words|
  {
    if words != [] {
      ReadingsSettle(r, words[1..]);
    }
  }

  lemma IrqProgramMeaning(r: Regs)
    ensures Readings(IrqProgram()) && DataOf(IrqProgram()) == [] && DataFirst(IrqProgram())
    ensures Settle(r, IrqProgram()) == r
  {
  }

  function Mode1Words(p: Port): seq<Word> {
    if p.mode1Commit then [Wr(MODE1, p.mode1)] else []
  }

  function LcrWords(p: Port): seq<Word> {
    if p.lcrCommit then [Wr(LCR, p.lcr)] else []
  }

  function BrgWords(p: Port): seq<Word> {
    if p.brgCommit then [Wr(BRGDIVMSB, p.brg.msb), Wr(BRGDIVLSB, p.brg.lsb), Wr(BRGCFG, p.brg.cfg)] else []
  }

  /** The words for the settings somebody has asked to have committed. */
  function ConfigProgram(p: Port): seq<Word> {
    Mode1Words(p) + LcrWords(p) + BrgWords(p)
  }

  function ConfigPort(p: Port): Port {
    p.(mode1Commit := false, lcrCommit := false, brgCommit := false)
  }

  lemma BrgWordsMeaning(p: Port, r: Regs)
    ensures Plain(BrgWords(p))
    ensures Settle(r, BrgWords(p))
         == if p.brgCommit then r.(brgMsb := p.brg.msb, brgLsb := p.brg.lsb, brgCfg := p.brg.cfg) else r
  {
    if p.brgCommit {
      var a, b, c := Wr(BRGDIVMSB, p.brg.msb), Wr(BRGDIVLSB, p.brg.lsb), Wr(BRGCFG, p.brg.cfg);
      OneWord(r, BRGDIVMSB, p.brg.msb);
      var r1 := WriteReg(r, a);
      OneWord(r1, BRGDIVLSB, p.brg.lsb);
      OneWord(WriteReg(r1, b), BRGCFG, p.brg.cfg);
      DecodeWr(BRGDIVMSB, p.brg.msb);
      DecodeWr(BRGDIVLSB, p.brg.lsb);
      DecodeWr(BRGCFG, p.brg.cfg);
      SettleAppend(r, [a], [b]);
      SettleAppend(r, [a] + [b], [c]);
      assert BrgWords(p) == [a] + [b] + [c];
    }
  }

  /** Register writes alone: no data, nothing popped. */
  predicate Setup(words: seq<Word>) {
    forall i :: 0 <= i < |words| ==> IsWrite(words[i]) && RegOf(words[i]) != FIFO
  }

  lemma ConfigIsSetup(p: Port)
    ensures Setup(ConfigProgram(p))
  {
  }

  /** The registers with every setting whose commit flag is up. */
  function ConfigRegs(p: Port, r: Regs): Regs {
    Regs(if p.mode1Commit then p.mode1 else r.mode1, if p.lcrCommit then p.lcr else r.lcr,
         if p.brgCommit then p.brg.msb else r.brgMsb, if p.brgCommit then p.brg.lsb else r.brgLsb,
         if p.brgCommit then p.brg.cfg else r.brgCfg, r.irqen, r.mode2)
  }

  lemma Mode1WordsMeaning(p: Port, r: Regs)
    ensures Settle(r, Mode1Words(p)) == if p.mode1Commit then r.(mode1 := p.mode1) else r
  {
  }

  lemma LcrWordsMeaning(p: Port, r: Regs)
    ensures Settle(r, LcrWords(p)) == if p.lcrCommit then r.(lcr := p.lcr) else r
  {
  }

  lemma ConfigSettles(p: Port, r: Regs)
    ensures Settle(r, ConfigProgram(p)) == ConfigRegs(p, r)
  {
    var r1 := if p.mode1Commit then r.(mode1 := p.mode1) else r;
    var r2 := if p.lcrCommit then r1.(lcr := p.lcr) else r1;
    Mode1WordsMeaning(p, r);
    LcrWordsMeaning(p, r1);
    BrgWordsMeaning(p, r2);
    ThreeParts(r, Mode1Words(p), LcrWords(p), BrgWords(p));
  }

  /** A configuration program writes exactly the settings whose commit flag is up, and nothing else. */
  lemma ConfigProgramMeaning(p: Port, r: Regs)
    ensures DataOf(ConfigProgram(p)) == [] && DataFirst(ConfigProgram(p)) && WritesOnly(ConfigProgram(p))
    ensures Settle(r, ConfigProgram(p)) == ConfigRegs(p, r)
    ensures |ConfigProgram(p)| <= 5
  {
    ConfigIsSetup(p);
    ConfigSettles(p, r);
    PlainWords(ConfigProgram(p));
  }

  lemma ConfigCarriesNone(p: Port)
    requires !p.mode1Commit
    ensures !Carries(ConfigProgram(p))
  {
    DecodeWr(LCR, p.lcr);
    DecodeWr(BRGDIVMSB, p.brg.msb);
    DecodeWr(BRGDIVLSB, p.brg.lsb);
    DecodeWr(BRGCFG, p.brg.cfg);
    CarriesNone(ConfigProgram(p));
  }

  lemma ReadingsCarryNone(words: seq<Word>)
    requires Readings(words)
    ensures !Carries(words)
  {
    CarriesNone(words);
  }
}
