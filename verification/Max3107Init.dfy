/** The register initialisation, and the state it leaves behind. */
module Max3107Init {
  import opened Max3107Device
  import opened Max3107Programs
  import opened Max3107Settings
  import opened Wrappers
  import Sys = Max3107System

  function Mode2(loopback: bool): Byte {
    if loopback then MODE2_LOOPBACK else 0
  }

  function IdWords(): seq<Word> {
    seq(8, _ => Rd(REVID))
  }

  function SettingWords(brg: Brg, lcr: Byte, mode1: Byte, loopback: bool): seq<Word> {
    [Wr(BRGDIVMSB, brg.msb), Wr(BRGDIVLSB, brg.lsb), Wr(BRGCFG, brg.cfg), Wr(LCR, lcr), Wr(MODE1, mode1),
     Wr(MODE2, Mode2(loopback) | MODE2_FIFORST), Wr(FIFOTRIGLVL, 0x20), Wr(FLOWLVL, 0x6c), Wr(FLOWCTRL, 0x03),
     Wr(RXTO, 0x30), Wr(LSR_IRQEN, 0x01)]
  }

  function EnableWords(irqen: Byte, loopback: bool): seq<Word> {
    [Rd(IRQSTS), Wr(IRQEN, irqen), Wr(MODE2, Mode2(loopback))]
  }

  function InitPort(p: Port, extClk: bool): Port {
    p.(brg := if extClk then Brg(0x00, 0x18, 0x00) else Brg(0x00, 0x04, 0x00), lcr := LCR_WORD_LEN_8,
       mode1 := SetBit(MODE1_IRQSEL, MODE1_TXDIS), txEnabled := false, rxEnabled := true, txFifoEmpty := true,
       irqen := SetBit(IRQ_LSR, IRQ_RXFIFO))
  }

  /** The generator starts with what its table has for 9600 baud. */
  lemma DefaultRate(p: Port, extClk: bool)
    ensures InitPort(p, extClk).brg == Lookup(ClockTable(extClk), 9600)
  {
    LookupIsFirst(ClockTable(extClk), 9600, 5);
  }

  function InitProgram(extClk: bool, loopback: bool): seq<Word> {
    var p := InitPort(Blank(), extClk);
    IdWords() + SettingWords(p.brg, p.lcr, p.mode1, loopback) + EnableWords(p.irqen, loopback)
  }

  /** A port as it is allocated. */
  function Blank(): Port {
    Port(false, false, false, 0, 0, false, 0, false, NO_BRG, false, false)
  }

  predicate Tracked(w: Word) {
    IsWrite(w)
    && (RegOf(w) == MODE1 || RegOf(w) == MODE2 || RegOf(w) == LCR || RegOf(w) == IRQEN
        || RegOf(w) == BRGDIVMSB || RegOf(w) == BRGDIVLSB || RegOf(w) == BRGCFG)
  }

  /** Words that leave the modelled registers alone. */
  predicate Untracked(words: seq<Word>) {
    forall i :: 0 <= i < |words| ==> !Tracked(words[i])
  }

  lemma {:induction false} UntrackedSettle(r: Regs, words: seq<Word>)
    requires Untracked(words)
    ensures Settle(r, words) == r
    decreases |words|
  {
    if words != [] {
      UntrackedSettle(r, words[1..]);
    }
  }

  function ResetWord(loopback: bool): Word {
    Wr(MODE2, Mode2(loopback) | MODE2_FIFORST)
  }

  function AfterReset(): seq<Word> {
    [Wr(FIFOTRIGLVL, 0x20), Wr(FLOWLVL, 0x6c), Wr(FLOWCTRL, 0x03), Wr(RXTO, 0x30), Wr(LSR_IRQEN, 0x01)]
  }

  lemma AfterResetUntracked()
    ensures Untracked(AfterReset())
  {
  }

  lemma SettleMode2(r: Regs, val: Byte)
    ensures Settle(r, [Wr(MODE2, val)]) == r.(mode2 := val)
  {
    DecodeWr(MODE2, val);
  }

  function SettingHead(brg: Brg, lcr: Byte, mode1: Byte): seq<Word> {
    [Wr(BRGDIVMSB, brg.msb), Wr(BRGDIVLSB, brg.lsb), Wr(BRGCFG, brg.cfg)] + [Wr(LCR, lcr)] + [Wr(MODE1, mode1)]
  }

  lemma SettingHeadSettles(r: Regs, p: Port)
    requires p.brgCommit
    ensures Settle(r, SettingHead(p.brg, p.lcr, p.mode1))
         == Regs(p.mode1, p.lcr, p.brg.msb, p.brg.lsb, p.brg.cfg, r.irqen, r.mode2)
  {
    BrgWordsMeaning(p, r);
    var r1 := Settle(r, BrgWords(p));
    OneWord(r1, LCR, p.lcr);
    DecodeWr(LCR, p.lcr);
    SettleMode1(r1.(lcr := p.lcr), p.mode1);
    ThreeParts(r, BrgWords(p), [Wr(LCR, p.lcr)], [Wr(MODE1, p.mode1)]);
  }

  lemma SettingParts(brg: Brg, lcr: Byte, mode1: Byte, loopback: bool)
    ensures SettingWords(brg, lcr, mode1, loopback)
         == SettingHead(brg, lcr, mode1) + [ResetWord(loopback)] + AfterReset()
  {
  }

  lemma SettingsSettle(r: Regs, p: Port, loopback: bool)
    ensures Settle(r, SettingWords(p.brg, p.lcr, p.mode1, loopback))
         == Regs(p.mode1, p.lcr, p.brg.msb, p.brg.lsb, p.brg.cfg, r.irqen, Mode2(loopback) | MODE2_FIFORST)
  {
    var head, reset, tail := SettingHead(p.brg, p.lcr, p.mode1), [ResetWord(loopback)], AfterReset();
    SettingHeadSettles(r, p.(brgCommit := true));
    SettleMode2(Settle(r, head), Mode2(loopback) | MODE2_FIFORST);
    AfterResetUntracked();
    UntrackedSettle(Settle(Settle(r, head), reset), tail);
    ThreeParts(r, head, reset, tail);
    SettingParts(p.brg, p.lcr, p.mode1, loopback);
  }

  lemma EnableSettles(r: Regs, irqen: Byte, loopback: bool)
    ensures Settle(r, EnableWords(irqen, loopback)) == r.(irqen := irqen, mode2 := Mode2(loopback))
  {
    var a, b, c := [Rd(IRQSTS)], [Wr(IRQEN, irqen)], [Wr(MODE2, Mode2(loopback))];
    DecodeRd(IRQSTS);
    UntrackedSettle(r, a);
    SettleIrqen(r, irqen);
    SettleMode2(r.(irqen := irqen), Mode2(loopback));
    ThreeParts(r, a, b, c);
    assert EnableWords(irqen, loopback) == a + b + c;
  }

  /** The words before the FIFO reset, and those between it and the reading of the status. */
  function BeforeReset(p: Port): seq<Word> {
    IdWords() + SettingHead(p.brg, p.lcr, p.mode1)
  }

  function AfterStatus(irqen: Byte, loopback: bool): seq<Word> {
    [Wr(IRQEN, irqen), Wr(MODE2, Mode2(loopback))]
  }

  lemma InitParts(extClk: bool, loopback: bool)
    ensures var p := InitPort(Blank(), extClk);
            InitProgram(extClk, loopback)
            == BeforeReset(p) + [ResetWord(loopback)] + AfterReset() + [Rd(IRQSTS)] + AfterStatus(p.irqen, loopback)
  {
    var p := InitPort(Blank(), extClk);
    SettingParts(p.brg, p.lcr, p.mode1, loopback);
  }

  lemma ResetEmpties(d: Device, loopback: bool)
    ensures ExecAll(d, [ResetWord(loopback)]).tx == [] && ExecAll(d, [ResetWord(loopback)]).rx == []
  {
    DecodeWr(MODE2, Mode2(loopback) | MODE2_FIFORST);
    assert HasBit(Mode2(loopback) | MODE2_FIFORST, MODE2_FIFORST);
  }

  lemma StatusClears(d: Device)
    ensures ExecAll(d, [Rd(IRQSTS)]) == d.(txEmpty := false)
  {
    DecodeRd(IRQSTS);
  }

  lemma PlainParts(irqen: Byte, loopback: bool)
    ensures DataOf(AfterReset()) == [] && DataOf(AfterStatus(irqen, loopback)) == []
  {
    DecodeWr(FIFOTRIGLVL, 0x20);
    DecodeWr(FLOWLVL, 0x6c);
    DecodeWr(FLOWCTRL, 0x03);
    DecodeWr(RXTO, 0x30);
    DecodeWr(LSR_IRQEN, 0x01);
    DecodeWr(IRQEN, irqen);
    DecodeWr(MODE2, Mode2(loopback));
    PlainWords(AfterReset());
    PlainWords(AfterStatus(irqen, loopback));
  }

  /** The reset leaves both FIFOs empty, and the reading of the status the latch clear. */
  lemma InitEmpties(d: Device, extClk: bool, loopback: bool)
    ensures var e := ExecAll(d, InitProgram(extClk, loopback));
            e.tx == [] && e.rx == [] && !e.txEmpty
  {
    var p := InitPort(Blank(), extClk);
    var a, b, c := BeforeReset(p), [ResetWord(loopback)], AfterReset();
    var s, z := [Rd(IRQSTS)], AfterStatus(p.irqen, loopback);
    InitParts(extClk, loopback);
    PlainParts(p.irqen, loopback);
    var d1 := ExecAll(d, a);
    var d2 := ExecAll(d1, b);
    var d3 := ExecAll(d2, c);
    var d4 := ExecAll(d3, s);
    ExecAllAppend(d, a, b);
    ExecAllAppend(d, a + b, c);
    ExecAllAppend(d, a + b + c, s);
    ExecAllAppend(d, a + b + c + s, z);
    ResetEmpties(d1, loopback);
    ExecAllEmpty(d2, c);
    StatusClears(d3);
    ExecAllEmpty(d4, z);
    ExecAllLatch(d4, z);
  }

  lemma InitSettles(r: Regs, extClk: bool, loopback: bool)
    ensures var p := InitPort(Blank(), extClk);
            Settle(r, InitProgram(extClk, loopback))
            == Regs(p.mode1, p.lcr, p.brg.msb, p.brg.lsb, p.brg.cfg, p.irqen, Mode2(loopback))
  {
    var q := InitPort(Blank(), extClk);
    var a, b, c := IdWords(), SettingWords(q.brg, q.lcr, q.mode1, loopback), EnableWords(q.irqen, loopback);
    DecodeRd(REVID);
    UntrackedSettle(r, a);
    SettingsSettle(r, q, loopback);
    EnableSettles(Settle(r, b), q.irqen, loopback);
    ThreeParts(r, a, b, c);
  }

  /** Whatever state the device is in, the words of the initialisation bring device and shadow to a state in which
      the runs of the system may start: loopback (bit 5 of MODE2) as asked and the FIFO reset (bit 1) released, the
      interrupt pin enabled and the transmitter alone disabled (MODE1), eight bits without parity and one stop bit
      (LCR), and the LSR and RX FIFO interrupts on (IRQEN). */
  lemma InitReachesStart(d: Device, p: Port, extClk: bool, loopback: bool)
    requires !p.mode1Commit && !p.lcrCommit && !p.brgCommit
    ensures Sys.Start(Sys.State(InitPort(p, extClk), ExecAll(d, InitProgram(extClk, loopback)),
                                Sys.Idle, None, [], [], [], [], []))
    ensures var r := ExecAll(d, InitProgram(extClk, loopback)).regs;
            && r.mode2 == (if loopback then 0x20 else 0x00)
            && r.mode1 == 0x82 && r.lcr == 0x03 && r.irqen == 0x09
  {
    InitSettles(d.regs, extClk, loopback);
    ExecAllRegs(d, InitProgram(extClk, loopback));
    InitEmpties(d, extClk, loopback);
  }

  /** The words of the initialisation as they cross the SPI: the identification eight times, the generator for 9600
      baud, LCR, MODE1, MODE2 with the FIFO reset, an RX trigger level of 16 bytes, flow halted at 96 bytes and resumed
      at 48, automatic RTS and CTS, an RX timeout of 48 characters and its interrupt; then the status, IRQEN, and
      MODE2 without the reset. */
  lemma InitWords(extClk: bool, loopback: bool)
    ensures var lsb: Word := if extClk then 0x18 else 0x04;
            var loop: Word := if loopback then 0x20 else 0x00;
            InitProgram(extClk, loopback)
            == [0x1f00, 0x1f00, 0x1f00, 0x1f00, 0x1f00, 0x1f00, 0x1f00, 0x1f00,
                0x9d00, 0x9c00 | lsb, 0x9b00, 0x8b03, 0x8982, 0x8a02 | loop,
                0x9000 | (16 / 8 * 16), 0x8f00 | (48 / 8 * 16) | (96 / 8), 0x9303, 0x8c00 | 48, 0x8301,
                0x0200, 0x8109, 0x8a00 | loop]
  {
  }
}
