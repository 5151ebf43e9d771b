/** The driver itself: buffers filled in place, shadow registers updated, words handed to the SPI. */
module Max3107Driver {
  import opened Max3107Device
  import opened Max3107Programs
  import opened Max3107Spi
  import opened Max3107Settings
  import opened Max3107Init
  import Sys = Max3107System

  const UART_XMIT_SIZE: nat := 4096

  /** n bytes of the circular buffer, from tail on. */
  function Ring(xmit: seq<Byte>, tail: nat, n: nat): (bytes: seq<Byte>)
    requires |xmit| == UART_XMIT_SIZE
    ensures |bytes| == n
  {
    seq(n, k requires 0 <= k < n => xmit[(tail + k) % UART_XMIT_SIZE])
  }

  /** uart_circ_chars_pending */
  function Chars(head: nat, tail: nat): nat {
    (head - tail) % UART_XMIT_SIZE
  }

  lemma RingSplit(xmit: seq<Byte>, tail: nat, n: nat, m: nat)
    requires |xmit| == UART_XMIT_SIZE && m <= n
    ensures Ring(xmit, tail, n)[..m] == Ring(xmit, tail, m)
    ensures Ring(xmit, tail, n)[m..] == Ring(xmit, (tail + m) % UART_XMIT_SIZE, n - m)
  {
  }

  lemma SumMod(a: nat, b: nat)
    ensures (a % UART_XMIT_SIZE + b) % UART_XMIT_SIZE == (a + b) % UART_XMIT_SIZE
  {
  }

  lemma CharsAfter(head: nat, tail: nat, m: nat)
    requires m <= Chars(head, tail)
    ensures Chars(head, (tail + m) % UART_XMIT_SIZE) == Chars(head, tail) - m
  {
  }

  /** The tty puts a byte at the head of a ring that is not full: it comes behind what is pending.  A ring whose head
      and tail are the same is empty. */
  lemma PutAppends(xmit: seq<Byte>, head: nat, tail: nat, b: Byte)
    requires |xmit| == UART_XMIT_SIZE && head < UART_XMIT_SIZE && tail < UART_XMIT_SIZE
    requires (head + 1) % UART_XMIT_SIZE != tail
    ensures Chars(tail, tail) == 0
    ensures Chars((head + 1) % UART_XMIT_SIZE, tail) == Chars(head, tail) + 1
    ensures Ring(xmit[head := b], tail, Chars(head, tail) + 1) == Ring(xmit, tail, Chars(head, tail)) + [b]
  {
    var n := Chars(head, tail);
    assert (tail + n) % UART_XMIT_SIZE == head;
    forall k: nat | k < n
      ensures Ring(xmit[head := b], tail, n + 1)[k] == Ring(xmit, tail, n)[k]
    {
      assert (tail + k) % UART_XMIT_SIZE != head;
    }
  }

  datatype SleepMode = Sleep(forced: bool, on: bool) | Other

  function SleepBitOf(mode: SleepMode): Byte
    requires mode.Sleep?
  {
    if mode.forced then MODE1_FORCESLEEP else MODE1_AUTOSLEEP
  }

  /** What set_sleep makes of MODE1: only the bit of that mode, bit 5 for forced and bit 6 for automatic sleep, is
      different, and it is as asked. */
  lemma SleepBits(v: Byte, forced: bool, on: bool)
    ensures var bit: Byte := if forced then 0x20 else 0x40;
            var w := Sys.ToggleBit(v, SleepBitOf(Sleep(forced, on)), on);
            w & bit == (if on then bit else 0x00) && w & !bit == v & !bit
  {
  }

  predicate Sends(empty: bool, pending: seq<Byte>, txStopped: bool) {
    empty && pending != [] && !txStopped
  }

  /** The level a transfer ends with. */
  function NextLevel(answer: seq<Word>): nat
    requires answer != []
  {
    ValOf(answer[|answer| - 1]) as nat
  }

  /** The answers of the device to one run of the receive loop: each transfer answered in full, levels that
      fit the FIFO, and zero at the end. */
  predicate Chat(irqen: Byte, level: nat, answers: seq<seq<Word>>)
    decreases |answers|
  {
    if level == 0 then answers == []
    else
      && answers != [] && level <= RX_FIFO_SIZE && |answers[0]| == |RxQuiet(irqen)| + level + 1
      && Chat(ClearBit(irqen, IRQ_RXFIFO), NextLevel(answers[0]), answers[1..])
  }

  /** The words of such a run. */
  function ChatWords(irqen: Byte, level: nat, answers: seq<seq<Word>>): seq<Word>
    requires Chat(irqen, level, answers)
    decreases |answers|
  {
    if level == 0 then []
    else
      RxProgram(irqen, level)
      + ChatWords(ClearBit(irqen, IRQ_RXFIFO), NextLevel(answers[0]), answers[1..])
  }

  /** The data bytes of a receiving transfer: the words between the leading ones and the level. */
  function DataAnswers(answer: seq<Word>, level: nat): seq<Byte>
    requires level < |answer|
  {
    Sys.Bytes(answer[|answer| - 1 - level..|answer| - 1])
  }

  /** The bytes such a run receives. */
  function ChatBytes(irqen: Byte, level: nat, answers: seq<seq<Word>>): seq<Byte>
    requires Chat(irqen, level, answers)
    decreases |answers|
  {
    if level == 0 then []
    else
      DataAnswers(answers[0], level)
      + ChatBytes(ClearBit(irqen, IRQ_RXFIFO), NextLevel(answers[0]), answers[1..])
  }

  function Clamp(level: nat): nat {
    if level >= RX_FIFO_SIZE then RX_FIFO_SIZE else level
  }

  /** A level that fits the FIFO stays, and a larger one is taken for a full FIFO. */
  lemma ClampFits(level: nat)
    ensures level <= 128 ==> Clamp(level) == level
    ensures level > 128 ==> Clamp(level) == 128
  {
  }

  lemma ClearTwice(v: Byte)
    ensures ClearBit(ClearBit(v, IRQ_RXFIFO), IRQ_RXFIFO) == ClearBit(v, IRQ_RXFIFO)
    ensures SetBit(ClearBit(v, IRQ_RXFIFO), IRQ_RXFIFO) == SetBit(v, IRQ_RXFIFO)
  {
  }

  class Uart {
    var txFifoEmpty: bool
    var rxEnabled: bool
    var txEnabled: bool
    var irqen: Byte
    var mode1: Byte
    var mode1Commit: bool
    var lcr: Byte
    var lcrCommit: bool
    var brg: Brg
    var brgCommit: bool
    var handleIrq: bool
    var head: nat
    var tail: nat
    var pushed: seq<Byte>
    const xmit: array<Byte>
    const txbuf: array<Word>
    const rxbuf: array<Word>
    const rxstr: array<Byte>
    var baud: nat
    var baudTbl: seq<(nat, Brg)>
    var ignoreMask: nat
    var lowLatency: bool
    var timeoutRate: nat
    const bus: Bus

    /** The buffers are of the sizes they are allocated with. */
    ghost predicate Sized() {
      && xmit.Length == UART_XMIT_SIZE && rxstr.Length == RX_FIFO_SIZE && xmit != rxstr
      && txbuf.Length == TX_FIFO_SIZE + 3 && rxbuf.Length == RX_FIFO_SIZE + 2 && txbuf != rxbuf
    }

    ghost predicate Valid()
      reads this, bus
    {
      head < UART_XMIT_SIZE && tail < UART_XMIT_SIZE && Bursts(bus.messages)
    }

    /** A freshly allocated port: everything zero. */
    constructor (bus: Bus)
      requires Bursts(bus.messages)
      ensures Sized() && Valid() && this.bus == bus && fresh({xmit, rxstr}) && fresh({txbuf, rxbuf}) && Pending() == []
    {
      txFifoEmpty, rxEnabled, txEnabled, handleIrq := false, false, false, false;
      irqen, mode1, mode1Commit, lcr, lcrCommit := 0, 0, false, 0, false;
      brg, brgCommit := Brg(0, 0, 0), false;
      head, tail, pushed := 0, 0, [];
      baud, baudTbl := 0, [];
      ignoreMask, lowLatency, timeoutRate := 0, false, 0;
      xmit := new Byte[UART_XMIT_SIZE];
      txbuf := new Word[TX_FIFO_SIZE + 3];
      rxbuf := new Word[RX_FIFO_SIZE + 2];
      rxstr := new Byte[RX_FIFO_SIZE];
      this.bus := bus;
    }

    function Shadow(): Port
      reads this
    {
      Port(txFifoEmpty, rxEnabled, txEnabled, irqen, mode1, mode1Commit, lcr, lcrCommit, brg, brgCommit, handleIrq)
    }

    ghost function Pending(): seq<Byte>
      reads this, xmit
      requires xmit.Length == UART_XMIT_SIZE
    {
      Ring(xmit[..], tail, Chars(head, tail))
    }

    /* -------------------------------------------------------------- sending */

    method QuietTx() returns (i: nat)
      requires txbuf.Length == TX_FIFO_SIZE + 3
      modifies `irqen, txbuf
      ensures i <= 1 && txbuf[..i] == TxQuiet(old(Shadow())) && irqen == ClearBit(old(irqen), IRQ_TXEMPTY)
    {
      IrqBits(irqen);
      i := 0;
      if HasBit(irqen, IRQ_TXEMPTY) {
        irqen := ClearBit(irqen, IRQ_TXEMPTY);
        txbuf[0] := Wr(IRQEN, irqen);
        i := 1;
      }
    }

    method FillData(i: nat, len: nat)
      requires i <= len <= txbuf.Length && xmit.Length == UART_XMIT_SIZE && tail < UART_XMIT_SIZE
      modifies `tail, txbuf
      ensures txbuf[..len] == old(txbuf[..i]) + DataWords(Ring(xmit[..], old(tail), len - i))
      ensures tail == (old(tail) + (len - i)) % UART_XMIT_SIZE
    {
      ghost var first := txbuf[..i];
      ghost var bytes := Ring(xmit[..], tail, len - i);
      ghost var t := tail;
      var k := i;
      while k < len
        invariant i <= k <= len
        invariant tail == (t + (k - i)) % UART_XMIT_SIZE
        invariant txbuf[..k] == first + DataWords(bytes)[..k - i]
      {
        assert bytes[k - i] == xmit[tail];
        txbuf[k] := Wr(FIFO, xmit[tail]);
        SumMod(t + (k - i), 1);
        tail := (tail + 1) % UART_XMIT_SIZE;
        k := k + 1;
      }
    }

    /** Interrupt on, and the transmitter on if it was off; p is the shadow before the transfer was begun. */
    method EndTx(len: nat, ghost p: Port) returns (n: nat)
      requires len + 2 <= txbuf.Length && irqen == ClearBit(p.irqen, IRQ_TXEMPTY)
      requires txEnabled == p.txEnabled && mode1 == p.mode1
      modifies `irqen, `mode1, `txEnabled, txbuf
      ensures len < n <= txbuf.Length && txbuf[..n] == old(txbuf[..len]) + TxTail(p)
      ensures irqen == TxIrqen(p) && mode1 == TxMode1(p) && txEnabled
    {
      irqen := SetBit(irqen, IRQ_TXEMPTY);
      txbuf[len] := Wr(IRQEN, irqen);
      n := len + 1;
      if !txEnabled {
        mode1 := ClearBit(mode1, MODE1_TXDIS);
        txbuf[n] := Wr(MODE1, mode1);
        txEnabled := true;
        n := n + 1;
      }
    }

    /** The transfer for the first pending bytes; p is the shadow before. */
    method BuildTx(chars: nat, ghost p: Port, ghost bytes: seq<Byte>) returns (n: nat)
      requires xmit.Length == UART_XMIT_SIZE && txbuf.Length == TX_FIFO_SIZE + 3 && tail < UART_XMIT_SIZE
      requires chars <= TX_FIFO_SIZE && p == Shadow() && bytes == Ring(xmit[..], tail, chars)
      modifies `irqen, `mode1, `txEnabled, `tail, txbuf
      ensures n <= txbuf.Length && txbuf[..n] == TxProgram(p, bytes)
      ensures txEnabled && irqen == TxIrqen(p) && mode1 == TxMode1(p)
      ensures tail == (old(tail) + chars) % UART_XMIT_SIZE
    {
      var i := QuietTx();
      FillData(i, i + chars);
      n := EndTx(i + chars, p);
    }

    /** Takes n bytes off the ring and sends them. */
    method Transmit(n: nat)
      requires Sized() && Valid() && n <= TX_FIFO_SIZE && n <= Chars(head, tail)
      modifies `txFifoEmpty, `irqen, `mode1, `txEnabled, `tail, txbuf, bus
      ensures Valid() && Pending() == old(Pending())[n..]
      ensures Shadow() == TxPort(old(Shadow()))
      ensures bus.Sent() == old(bus.Sent()) + TxProgram(old(Shadow()), old(Pending())[..n])
    {
      RingSplit(xmit[..], tail, Chars(head, tail), n);
      CharsAfter(head, tail, n);
      txFifoEmpty := false;
      var len := BuildTx(n, Shadow(), old(Pending())[..n]);
      bus.Rw(txbuf, len, false, txbuf[..len]);
    }

    /** Nothing is sent before the previous data has left; otherwise as much of the ring as the FIFO takes. */
    method HandleTx(txStopped: bool)
      requires Sized() && Valid()
      modifies `txFifoEmpty, `irqen, `mode1, `txEnabled, `tail, txbuf, bus
      ensures Valid()
      ensures !old(txFifoEmpty) || old(Pending()) == [] || txStopped ==>
                Pending() == old(Pending()) && Shadow() == old(Shadow()) && bus.Sent() == old(bus.Sent())
      ensures old(txFifoEmpty) && old(Pending()) != [] && !txStopped ==>
                var n := if |old(Pending())| > 128 then 128 else |old(Pending())|;
                && Pending() == old(Pending())[n..] && Shadow() == TxPort(old(Shadow()))
                && bus.Sent() == old(bus.Sent()) + TxProgram(old(Shadow()), old(Pending())[..n])
    {
      if !txFifoEmpty {
        return;
      }
      if head == tail || txStopped {
        return;
      }
      var len := Chars(head, tail);
      if len > TX_FIFO_SIZE {
        len := TX_FIFO_SIZE;
      }
      Transmit(len);
    }

    /* -------------------------------------------------------------- receiving */

    method ClearRxbuf()
      modifies rxbuf
      ensures forall i :: 0 <= i < rxbuf.Length ==> rxbuf[i] == Rd(FIFO)
    {
      for i := 0 to rxbuf.Length
        invariant forall k :: 0 <= k < i ==> rxbuf[k] == Rd(FIFO)
      {
        rxbuf[i] := 0;
      }
    }

    method QuietRx() returns (len: nat)
      requires rxbuf.Length == RX_FIFO_SIZE + 2
      modifies `irqen, rxbuf
      ensures len <= 1 && rxbuf[..len] == RxQuiet(old(irqen)) && irqen == ClearBit(old(irqen), IRQ_RXFIFO)
      ensures forall i :: len <= i < rxbuf.Length ==> rxbuf[i] == Rd(FIFO)
    {
      IrqBits(irqen);
      ClearRxbuf();
      len := 0;
      if HasBit(irqen, IRQ_RXFIFO) {
        irqen := ClearBit(irqen, IRQ_RXFIFO);
        rxbuf[0] := Wr(IRQEN, irqen);
        len := 1;
      }
    }

    /** One receiving transfer, built in place. */
    method BuildRx(level: nat) returns (len: nat)
      requires rxbuf.Length == RX_FIFO_SIZE + 2 && level <= RX_FIFO_SIZE
      modifies `irqen, rxbuf
      ensures len <= rxbuf.Length && rxbuf[..len] == RxProgram(old(irqen), level)
      ensures irqen == ClearBit(old(irqen), IRQ_RXFIFO)
    {
      len := QuietRx();
      ghost var quiet := rxbuf[..len];
      len := len + level;
      assert rxbuf[..len] == quiet + PopWords(level);
      rxbuf[len] := Rd(RXFIFOLVL);
      len := len + 1;
    }

    /** The low bytes of n answers, from j on, into rxstr. */
    method Extract(j: nat, n: nat)
      requires j + n <= rxbuf.Length && n <= rxstr.Length
      modifies rxstr
      ensures rxstr[..n] == Sys.Bytes(rxbuf[j..j + n])
    {
      for i := 0 to n
        invariant rxstr[..i] == Sys.Bytes(rxbuf[j..j + i])
      {
        rxstr[i] := ValOf(rxbuf[j + i]);
      }
    }

    /** Hands the answers to the tty and looks at the level they end with. */
    method TakeAnswers(level: nat, len: nat, ghost answer: seq<Word>) returns (next: nat)
      requires level < len <= rxbuf.Length && level <= rxstr.Length
      requires |answer| == len && rxbuf[..len] == answer
      modifies `pushed, rxstr
      ensures next == NextLevel(answer)
      ensures pushed == old(pushed) + DataAnswers(answer, level)
    {
      var j := (len - 1) - level;
      Extract(j, level);
      assert rxbuf[j..j + level] == answer[j..j + level];
      pushed := pushed + rxstr[..level];
      assert rxbuf[len - 1] == answer[len - 1];
      next := ValOf(rxbuf[len - 1]) as nat;
    }

    /** One round of the receive loop. */
    method ReceiveOnce(level: nat, answer: seq<Word>) returns (next: nat)
      requires Sized() && Valid() && level <= RX_FIFO_SIZE && |answer| == |RxQuiet(irqen)| + level + 1
      modifies `irqen, `pushed, rxbuf, rxstr, bus
      ensures Valid() && irqen == ClearBit(old(irqen), IRQ_RXFIFO) && next == NextLevel(answer)
      ensures bus.Sent() == old(bus.Sent()) + RxProgram(old(irqen), level)
      ensures pushed == old(pushed) + DataAnswers(answer, level)
    {
      var len := BuildRx(level);
      bus.Rw(rxbuf, len, true, answer);
      next := TakeAnswers(level, len, answer);
    }

    /** The loop of the receive handler, for as long as the device reports more. */
    method RxLoop(rxlvl: nat, answers: seq<seq<Word>>)
      requires Sized() && Valid() && rxlvl > 0 && Chat(irqen, rxlvl, answers)
      modifies `irqen, `pushed, rxbuf, rxstr, bus
      ensures Valid() && irqen == ClearBit(old(irqen), IRQ_RXFIFO)
      ensures bus.Sent() == old(bus.Sent()) + ChatWords(old(irqen), rxlvl, answers)
      ensures pushed == old(pushed) + ChatBytes(old(irqen), rxlvl, answers)
    {
      ghost var words := bus.Sent() + ChatWords(irqen, rxlvl, answers);
      ghost var bytes := pushed + ChatBytes(irqen, rxlvl, answers);
      var level, rest := rxlvl, answers;
      while level > 0
        invariant Valid() && Chat(irqen, level, rest)
        invariant (level == rxlvl && irqen == old(irqen)) || irqen == ClearBit(old(irqen), IRQ_RXFIFO)
        invariant bus.Sent() + ChatWords(irqen, level, rest) == words
        invariant pushed + ChatBytes(irqen, level, rest) == bytes
        decreases |rest|
      {
        ClearTwice(old(irqen));
        ghost var next, quiet := NextLevel(rest[0]), ClearBit(irqen, IRQ_RXFIFO);
        Assoc(bus.Sent(), RxProgram(irqen, level), ChatWords(quiet, next, rest[1..]));
        Assoc(pushed, DataAnswers(rest[0], level), ChatBytes(quiet, next, rest[1..]));
        level := ReceiveOnce(level, rest[0]);
        rest := rest[1..];
      }
    }

    /** One word through a small buffer of its own. */
    method SendWord(w: Word)
      requires Bursts(bus.messages)
      modifies bus
      ensures Bursts(bus.messages) && bus.Sent() == old(bus.Sent()) + [w]
    {
      var buf := new Word[1];
      buf[0] := w;
      bus.Rw(buf, 1, false, [w]);
    }

    /** handlerx: nothing while receiving is disabled or the level is zero; else the loop, from a level that
        fits the FIFO, and the RX interrupt on again. */
    method HandleRx(rxlvl: nat, answers: seq<seq<Word>>)
      requires Sized() && Valid() && (rxEnabled && rxlvl > 0 ==> Chat(irqen, Clamp(rxlvl), answers))
      modifies `irqen, `pushed, rxbuf, rxstr, bus
      ensures Valid()
      ensures !rxEnabled || rxlvl == 0 ==>
                irqen == old(irqen) && pushed == old(pushed) && bus.Sent() == old(bus.Sent())
      ensures rxEnabled && rxlvl > 0 ==>
                && irqen == SetBit(old(irqen), IRQ_RXFIFO)
                && pushed == old(pushed) + ChatBytes(old(irqen), Clamp(rxlvl), answers)
                && bus.Sent() == old(bus.Sent()) + ChatWords(old(irqen), Clamp(rxlvl), answers) + [Wr(IRQEN, irqen)]
    {
      if !rxEnabled {
        return;
      }
      var level := rxlvl;
      if rxlvl == 0 {
        return;
      } else if rxlvl >= RX_FIFO_SIZE {
        level := RX_FIFO_SIZE;
      }
      RxLoop(level, answers);
      if rxEnabled {
        ClearTwice(old(irqen));
        irqen := SetBit(irqen, IRQ_RXFIFO);
        SendWord(Wr(IRQEN, irqen));
      }
    }

    /* -------------------------------------------------------------- interrupts and settings */

    method ReadStatus(answers: seq<Word>) returns (status: Byte, level: nat)
      requires Bursts(bus.messages) && |answers| == 4
      modifies bus
      ensures Bursts(bus.messages) && bus.Sent() == old(bus.Sent()) + IrqProgram()
      ensures status == ValOf(answers[0]) && level == ValOf(answers[3]) as nat
    {
      var buf := new Word[8];
      buf[0] := Rd(IRQSTS);
      buf[1] := Rd(STS_IRQSTS);
      buf[2] := Rd(LSR_IRQSTS);
      buf[3] := Rd(RXFIFOLVL);
      assert buf[..4] == IrqProgram();
      bus.Rw(buf, 4, true, answers);
      status := ValOf(buf[0]);
      level := ValOf(buf[3]) as nat;
    }

    /** The status words, and on a TX-empty interrupt the transmitter off and the flag up. */
    method HandleInterrupt(answers: seq<Word>) returns (level: nat)
      requires Sized() && Valid() && |answers| == 4
      modifies `mode1, `txEnabled, `txFifoEmpty, bus
      ensures Valid() && level == ValOf(answers[3]) as nat
      ensures !HasBit(ValOf(answers[0]), IRQ_TXEMPTY) ==>
                Shadow() == old(Shadow()) && bus.Sent() == old(bus.Sent()) + IrqProgram()
      ensures HasBit(ValOf(answers[0]), IRQ_TXEMPTY) ==>
                && mode1 == SetBit(old(mode1), MODE1_TXDIS) && !txEnabled && txFifoEmpty
                && bus.Sent() == old(bus.Sent()) + IrqProgram() + [Wr(MODE1, mode1)]
    {
      var status;
      status, level := ReadStatus(answers);
      if HasBit(status, IRQ_TXEMPTY) {
        mode1 := SetBit(mode1, MODE1_TXDIS);
        SendWord(Wr(MODE1, mode1));
        txEnabled := false;
        txFifoEmpty := true;
      }
    }

    method CommitMode1(buf: array<Word>, len: nat) returns (n: nat)
      requires len + 1 <= buf.Length
      modifies `mode1Commit, buf
      ensures len <= n <= len + 1 && buf[..n] == old(buf[..len]) + Mode1Words(old(Shadow())) && !mode1Commit
    {
      n := len;
      if mode1Commit {
        buf[n] := Wr(MODE1, mode1);
        n := n + 1;
        mode1Commit := false;
      }
    }

    method CommitLcr(buf: array<Word>, len: nat) returns (n: nat)
      requires len + 1 <= buf.Length
      modifies `lcrCommit, buf
      ensures len <= n <= len + 1 && buf[..n] == old(buf[..len]) + LcrWords(old(Shadow())) && !lcrCommit
    {
      n := len;
      if lcrCommit {
        buf[n] := Wr(LCR, lcr);
        n := n + 1;
        lcrCommit := false;
      }
    }

    method CommitBrg(buf: array<Word>, len: nat) returns (n: nat)
      requires len + 3 <= buf.Length
      modifies `brgCommit, buf
      ensures len <= n <= len + 3 && buf[..n] == old(buf[..len]) + BrgWords(old(Shadow())) && !brgCommit
    {
      n := len;
      if brgCommit {
        buf[n] := Wr(BRGDIVMSB, brg.msb);
        buf[n + 1] := Wr(BRGDIVLSB, brg.lsb);
        buf[n + 2] := Wr(BRGCFG, brg.cfg);
        n := n + 3;
        brgCommit := false;
      }
    }

    method BuildConfig(buf: array<Word>) returns (len: nat)
      requires buf.Length == 5
      modifies `mode1Commit, `lcrCommit, `brgCommit, buf
      ensures len <= 5 && buf[..len] == ConfigProgram(old(Shadow()))
      ensures !mode1Commit && !lcrCommit && !brgCommit
    {
      len := CommitMode1(buf, 0);
      len := CommitLcr(buf, len);
      len := CommitBrg(buf, len);
    }

    /** The configuration part of the work function: one transfer, or none when nothing is to be committed. */
    method Commit()
      requires Sized() && Valid()
      modifies `mode1Commit, `lcrCommit, `brgCommit, bus
      ensures Valid() && Shadow() == ConfigPort(old(Shadow())) && !mode1Commit && !lcrCommit && !brgCommit
      ensures bus.Sent() == old(bus.Sent()) + ConfigProgram(old(Shadow()))
    {
      var buf := new Word[5];
      var len := BuildConfig(buf);
      if len > 0 {
        bus.Rw(buf, len, false, buf[..len]);
      }
    }

    method Irq()
      modifies `handleIrq
      ensures Shadow() == old(Shadow()).(handleIrq := true)
    {
      handleIrq := true;
    }

    /** Receiving stops at once for the driver, and for the device with the next commit. */
    method StopRx()
      modifies `mode1, `mode1Commit, `rxEnabled
      ensures Shadow() == Sys.StoppedRx(old(Shadow())) && !rxEnabled && mode1Commit && mode1 == old(mode1) | 0x01
    {
      mode1 := SetBit(mode1, MODE1_RXDIS);
      mode1Commit := true;
      rxEnabled := false;
    }

    /** The first table entry for the rate, or zero. */
    method GetNewBrg(baud: nat) returns (r: Brg)
      requires |baudTbl| == BAUD_ENTRIES
      ensures r == Lookup(baudTbl, baud)
    {
      var i := 0;
      while i < BAUD_ENTRIES
        invariant i <= BAUD_ENTRIES && Lookup(baudTbl[i..], baud) == Lookup(baudTbl, baud)
      {
        if baud == baudTbl[i].0 {
          return baudTbl[i].1;
        }
        assert baudTbl[i..][1..] == baudTbl[i + 1..];
        i := i + 1;
      }
      return NO_BRG;
    }

    static method MakeLcr(t: Termios) returns (r: Byte)
      ensures r == NewLcr(t)
    {
      r := 0;
      r := r | if t.sevenBits then LCR_WORD_LEN_7 else LCR_WORD_LEN_8;
      if t.parity {
        r := r | LCR_PARITY;
        if !t.odd {
          r := r | LCR_EVENPARITY;
        }
      }
      if t.twoStops {
        r := r | LCR_STOPLEN;
      }
    }

    method NoteSettings(newLcr: Byte, newBrg: Brg)
      modifies `lcr, `lcrCommit, `brg, `brgCommit
      ensures Shadow() == Sys.NewTermios(old(Shadow()), newLcr, newBrg)
    {
      if lcr != newLcr {
        lcr := newLcr;
        lcrCommit := true;
      }
      if brg != newBrg {
        brg := newBrg;
        brgCommit := true;
      }
    }

    /** The generator is set for the rate the driver believes in. */
    ghost predicate Tuned()
      reads this
    {
      brg == Lookup(baudTbl, baud)
    }

    /** New line settings are noted and flagged; a rate without an entry leaves the generator as it is. */
    method NoteTermios(asked: Termios) returns (rate: nat)
      requires |baudTbl| == BAUD_ENTRIES
      modifies `lcr, `lcrCommit, `brg, `brgCommit, `baud
      ensures Shadow() == Sys.NewTermios(old(Shadow()), NewLcr(asked), NewBrg(baudTbl, asked.rate, old(brg)))
      ensures baud == rate == if Lookup(baudTbl, asked.rate) == NO_BRG then old(baud) else asked.rate
      ensures old(Tuned()) ==> Tuned()
    {
      var newLcr := MakeLcr(asked);
      rate := asked.rate;
      var newBrg := GetNewBrg(rate);
      if newBrg == NO_BRG {
        rate := baud;
        newBrg := brg;
      }
      baud := rate;
      NoteSettings(newLcr, newBrg);
    }

    /** The rate that is put back into the termios structure, and that the tty's timeout is computed from, is the one
        the generator is set for.  Without a tty nothing happens. */
    method SetTermios(attached: bool, asked: Termios) returns (given: Termios)
      requires |baudTbl| == BAUD_ENTRIES
      modifies `lcr, `lcrCommit, `brg, `brgCommit, `baud, `ignoreMask, `lowLatency, `timeoutRate
      ensures !attached ==>
                && given == asked && Shadow() == old(Shadow()) && baud == old(baud)
                && ignoreMask == old(ignoreMask) && lowLatency == old(lowLatency) && timeoutRate == old(timeoutRate)
      ensures attached ==>
                && Shadow() == Sys.NewTermios(old(Shadow()), NewLcr(asked), NewBrg(baudTbl, asked.rate, old(brg)))
                && baud == timeoutRate == (if Lookup(baudTbl, asked.rate) == NO_BRG then old(baud) else asked.rate)
                && ignoreMask == (if asked.ignoreErrors then ALL_ERRORS else 0) && lowLatency
                && given == asked.(markParity := false, rate := baud)
      ensures old(Tuned()) ==> Tuned()
    {
      given := asked;
      if attached {
        ignoreMask := 0;
        if asked.ignoreErrors {
          ignoreMask := ALL_ERRORS;
        }
        lowLatency := true;
        var rate := NoteTermios(asked);
        given := asked.(markParity := false, rate := rate);
        timeoutRate := rate;
      }
    }

    /** Sleep modes are one bit of MODE1, written at once; any other mode does nothing. */
    method SetSleep(mode: SleepMode)
      requires Sized() && Valid()
      modifies `mode1, bus
      ensures Valid()
      ensures mode.Other? ==> mode1 == old(mode1) && bus.Sent() == old(bus.Sent())
      ensures !mode.Other? ==>
                && mode1 == Sys.ToggleBit(old(mode1), SleepBitOf(mode), mode.on)
                && bus.Sent() == old(bus.Sent()) + [Wr(MODE1, mode1)]
    {
      match mode {
        case Sleep(true, false) => mode1 := ClearBit(mode1, MODE1_FORCESLEEP);
        case Sleep(true, true) => mode1 := SetBit(mode1, MODE1_FORCESLEEP);
        case Sleep(false, false) => mode1 := ClearBit(mode1, MODE1_AUTOSLEEP);
        case Sleep(false, true) => mode1 := SetBit(mode1, MODE1_AUTOSLEEP);
        case Other => return;
      }
      SendWord(Wr(MODE1, mode1));
    }

    /** Nothing in the ring and nothing in the device, as far as the driver knows. */
    method TxEmpty() returns (empty: bool)
      requires Sized() && Valid()
      ensures empty == (txFifoEmpty && Pending() == [])
    {
      empty := txFifoEmpty && head == tail;
    }

    /* -------------------------------------------------------------- initialisation */

    method ReadIds()
      requires Bursts(bus.messages)
      modifies bus
      ensures Bursts(bus.messages) && bus.Sent() == old(bus.Sent()) + IdWords()
    {
      var buf := new Word[8];
      for i := 0 to 8
        invariant bus.messages == old(bus.messages)
        invariant forall k :: 0 <= k < i ==> buf[k] == Rd(REVID)
      {
        buf[i] := Rd(REVID);
      }
      assert buf[..8] == IdWords();
      bus.Rw(buf, 8, true, buf[..8]);
    }

    method WriteSettings(loopback: bool)
      requires Bursts(bus.messages)
      modifies bus
      ensures Bursts(bus.messages) && bus.Sent() == old(bus.Sent()) + SettingWords(brg, lcr, mode1, loopback)
    {
      var buf := new Word[11];
      buf[0], buf[1], buf[2] := Wr(BRGDIVMSB, brg.msb), Wr(BRGDIVLSB, brg.lsb), Wr(BRGCFG, brg.cfg);
      buf[3], buf[4] := Wr(LCR, lcr), Wr(MODE1, mode1);
      buf[5] := Wr(MODE2, Mode2(loopback) | MODE2_FIFORST);
      buf[6], buf[7], buf[8] := Wr(FIFOTRIGLVL, 0x20), Wr(FLOWLVL, 0x6c), Wr(FLOWCTRL, 0x03);
      buf[9], buf[10] := Wr(RXTO, 0x30), Wr(LSR_IRQEN, 0x01);
      assert buf[..] == SettingWords(brg, lcr, mode1, loopback);
      assert buf[..11] == buf[..];
      bus.Rw(buf, 11, false, buf[..11]);
    }

    method EnableInterrupts(loopback: bool)
      requires Bursts(bus.messages)
      modifies bus
      ensures Bursts(bus.messages) && bus.Sent() == old(bus.Sent()) + EnableWords(irqen, loopback)
    {
      var buf := new Word[3];
      buf[0], buf[1], buf[2] := Rd(IRQSTS), Wr(IRQEN, irqen), Wr(MODE2, Mode2(loopback));
      assert buf[..3] == EnableWords(irqen, loopback);
      bus.Rw(buf, 3, true, buf[..3]);
    }

    method SetClock(extClk: bool)
      modifies `baud, `baudTbl, `brg
      ensures baudTbl == ClockTable(extClk) && |baudTbl| == BAUD_ENTRIES && baud == 9600
      ensures brg == if extClk then Brg(0x00, 0x18, 0x00) else Brg(0x00, 0x04, 0x00)
    {
      baud := 9600;
      if extClk {
        brg := Brg(0x00, 0x18, 0x00);
        baudTbl := EXT_TABLE;
      } else {
        brg := Brg(0x00, 0x04, 0x00);
        baudTbl := INT_TABLE;
      }
    }

    method SetDefaults(extClk: bool)
      modifies `baud, `baudTbl, `brg, `lcr, `mode1, `txEnabled, `rxEnabled, `txFifoEmpty
      ensures baudTbl == ClockTable(extClk) && |baudTbl| == BAUD_ENTRIES && baud == 9600
      ensures Shadow() == InitPort(old(Shadow()), extClk).(irqen := old(irqen))
    {
      SetClock(extClk);
      lcr := LCR_WORD_LEN_8;
      mode1 := SetBit(MODE1_IRQSEL, MODE1_TXDIS);
      txEnabled := false;
      rxEnabled := true;
      txFifoEmpty := true;
    }

    /** All registers to a known state, by exactly the words of the initialisation program. */
    method RegisterInit(extClk: bool, loopback: bool)
      requires Sized() && Valid()
      modifies `baud, `baudTbl, `brg, `lcr, `mode1, `txEnabled, `rxEnabled, `txFifoEmpty, `irqen, bus
      ensures Valid() && baudTbl == ClockTable(extClk) && baud == 9600 && Shadow() == InitPort(old(Shadow()), extClk)
      ensures Tuned() && bus.Sent() == old(bus.Sent()) + InitProgram(extClk, loopback)
    {
      DefaultRate(Blank(), extClk);
      ghost var p := InitPort(Blank(), extClk);
      ReadIds();
      SetDefaults(extClk);
      WriteSettings(loopback);
      irqen := SetBit(IRQ_LSR, IRQ_RXFIFO);
      EnableInterrupts(loopback);
      Assoc(old(bus.Sent()), IdWords(), SettingWords(p.brg, p.lcr, p.mode1, loopback));
      Assoc(old(bus.Sent()), IdWords() + SettingWords(p.brg, p.lcr, p.mode1, loopback), EnableWords(p.irqen, loopback));
    }
  }
}
