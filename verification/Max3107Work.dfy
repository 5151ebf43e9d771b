/** max3107_work: receive, interrupts, transmit, configuration, and round again while the interrupt handler has
    seen data. */
module Max3107Work {
  import opened Max3107Device
  import opened Max3107Programs
  import opened Max3107Spi
  import opened Max3107Driver
  import Sys = Max3107System

  /** What a round meets outside the driver: the answers to the receive loop and to the status words, and
      whether the tty has stopped transmission. */
  datatype Round = Round(rx: seq<seq<Word>>, status: seq<Word>, txStopped: bool)

  /* ---------------------------------------------------------------- the four parts of a round */

  predicate Receives(p: Port, level: nat) {
    p.rxEnabled && level > 0
  }

  function RxDone(p: Port, level: nat): Port {
    if Receives(p, level) then p.(irqen := SetBit(p.irqen, IRQ_RXFIFO)) else p
  }

  function RxWords(p: Port, level: nat, rx: seq<seq<Word>>): seq<Word>
    requires Receives(p, level) ==> Chat(p.irqen, Clamp(level), rx)
  {
    if Receives(p, level) then
      ChatWords(p.irqen, Clamp(level), rx) + [Wr(IRQEN, SetBit(p.irqen, IRQ_RXFIFO))]
    else []
  }

  function RxBytes(p: Port, level: nat, rx: seq<seq<Word>>): seq<Byte>
    requires Receives(p, level) ==> Chat(p.irqen, Clamp(level), rx)
  {
    if Receives(p, level) then ChatBytes(p.irqen, Clamp(level), rx) else []
  }

  predicate SeesEmpty(p: Port, status: seq<Word>)
    requires p.handleIrq ==> |status| == 4
  {
    p.handleIrq && HasBit(ValOf(status[0]), IRQ_TXEMPTY)
  }

  function IrqDone(p: Port, status: seq<Word>): Port
    requires p.handleIrq ==> |status| == 4
  {
    var q := p.(handleIrq := false);
    if SeesEmpty(p, status) then
      q.(mode1 := SetBit(p.mode1, MODE1_TXDIS), txEnabled := false, txFifoEmpty := true)
    else q
  }

  function IrqWords(p: Port, status: seq<Word>): seq<Word>
    requires p.handleIrq ==> |status| == 4
  {
    if !p.handleIrq then []
    else IrqProgram() + if SeesEmpty(p, status) then [Wr(MODE1, SetBit(p.mode1, MODE1_TXDIS))] else []
  }

  function NewLevel(p: Port, status: seq<Word>): nat
    requires p.handleIrq ==> |status| == 4
  {
    if p.handleIrq then ValOf(status[3]) as nat else 0
  }

  /** How many bytes leave the ring. */
  function TxCount(p: Port, pending: seq<Byte>, txStopped: bool): (n: nat)
    ensures n <= |pending|
  {
    if Sends(p.txFifoEmpty, pending, txStopped) then Sys.Take(pending) else 0
  }

  function TxDone(p: Port, pending: seq<Byte>, txStopped: bool): Port {
    if Sends(p.txFifoEmpty, pending, txStopped) then TxPort(p) else p
  }

  function TxWords(p: Port, pending: seq<Byte>, txStopped: bool): seq<Word> {
    if Sends(p.txFifoEmpty, pending, txStopped) then TxProgram(p, pending[..Sys.Take(pending)]) else []
  }

  /* ---------------------------------------------------------------- a round */

  predicate Ready(p: Port, level: nat, r: Round) {
    && (Receives(p, level) ==> Chat(p.irqen, Clamp(level), r.rx))
    && (p.handleIrq ==> |r.status| == 4)
  }

  /** The shadow before transmission and configuration. */
  function Served(p: Port, level: nat, r: Round): Port
    requires Ready(p, level, r)
  {
    IrqDone(RxDone(p, level), r.status)
  }

  function Next(p: Port, level: nat, r: Round): nat
    requires Ready(p, level, r)
  {
    NewLevel(RxDone(p, level), r.status)
  }

  /** What a round works on: the shadow, the ring, the words sent so far and the bytes given to the tty. */
  datatype Snap = Snap(port: Port, pending: seq<Byte>, sent: seq<Word>, pushed: seq<Byte>)

  ghost function Now(u: Uart): Snap
    reads u, u.xmit, u.bus
    requires u.xmit.Length == UART_XMIT_SIZE
  {
    Snap(u.Shadow(), u.Pending(), u.bus.Sent(), u.pushed)
  }

  /** The four parts one after the other. */
  function RoundEnd(x: Snap, level: nat, r: Round): Snap
    requires Ready(x.port, level, r)
  {
    var q := Served(x.port, level, r);
    Snap(ConfigPort(TxDone(q, x.pending, r.txStopped)), x.pending[TxCount(q, x.pending, r.txStopped)..],
         x.sent + RxWords(x.port, level, r.rx) + IrqWords(RxDone(x.port, level), r.status)
         + TxWords(q, x.pending, r.txStopped) + ConfigProgram(TxDone(q, x.pending, r.txStopped)),
         x.pushed + RxBytes(x.port, level, r.rx))
  }

  method Receive(u: Uart, level: nat, rx: seq<seq<Word>>, ghost p: Port)
    requires u.Sized() && u.Valid() && u.Shadow() == p && (Receives(p, level) ==> Chat(p.irqen, Clamp(level), rx))
    modifies u`irqen, u`pushed, u.rxbuf, u.rxstr, u.bus
    ensures u.Valid() && u.Shadow() == RxDone(p, level)
    ensures u.bus.Sent() == old(u.bus.Sent()) + RxWords(p, level, rx)
    ensures u.pushed == old(u.pushed) + RxBytes(p, level, rx)
  {
    u.HandleRx(level, rx);
  }

  method StatusInterrupt(u: Uart, status: seq<Word>, ghost p: Port) returns (next: nat)
    requires u.Sized() && u.Valid() && u.Shadow() == p.(handleIrq := false) && p.handleIrq && |status| == 4
    modifies u`mode1, u`txEnabled, u`txFifoEmpty, u.bus
    ensures u.Valid() && u.Shadow() == IrqDone(p, status)
    ensures u.bus.Sent() == old(u.bus.Sent()) + IrqWords(p, status)
    ensures next == NewLevel(p, status)
  {
    next := u.HandleInterrupt(status);
    Assoc(old(u.bus.Sent()), IrqProgram(), [Wr(MODE1, SetBit(p.mode1, MODE1_TXDIS))]);
  }

  method Interrupts(u: Uart, status: seq<Word>, ghost p: Port) returns (next: nat)
    requires u.Sized() && u.Valid() && u.Shadow() == p && (p.handleIrq ==> |status| == 4)
    modifies u`handleIrq, u`mode1, u`txEnabled, u`txFifoEmpty, u.bus
    ensures u.Valid() && u.Shadow() == IrqDone(p, status)
    ensures u.bus.Sent() == old(u.bus.Sent()) + IrqWords(p, status)
    ensures next == NewLevel(p, status)
  {
    next := 0;
    if u.handleIrq {
      u.handleIrq := false;
      next := StatusInterrupt(u, status, p);
    }
  }

  method Transmission(u: Uart, txStopped: bool, ghost p: Port, ghost pending: seq<Byte>)
    requires u.Sized() && u.Valid() && u.Shadow() == p && u.Pending() == pending
    modifies u`txFifoEmpty, u`irqen, u`mode1, u`txEnabled, u`tail, u.txbuf, u.bus
    ensures u.Valid() && u.Shadow() == TxDone(p, pending, txStopped)
    ensures u.Pending() == pending[TxCount(p, pending, txStopped)..]
    ensures u.bus.Sent() == old(u.bus.Sent()) + TxWords(p, pending, txStopped)
  {
    u.HandleTx(txStopped);
  }

  method Service(u: Uart, level: nat, r: Round, ghost p: Port, ghost q: Port) returns (next: nat)
    requires u.Sized() && u.Valid() && u.Shadow() == p && q == RxDone(p, level)
    requires Receives(p, level) ==> Chat(p.irqen, Clamp(level), r.rx)
    requires q.handleIrq ==> |r.status| == 4
    modifies u`irqen, u`pushed, u`handleIrq, u`mode1, u`txEnabled, u`txFifoEmpty, u.rxbuf, u.rxstr, u.bus
    ensures u.Valid() && u.Shadow() == IrqDone(q, r.status)
    ensures u.bus.Sent() == old(u.bus.Sent()) + RxWords(p, level, r.rx) + IrqWords(q, r.status)
    ensures u.pushed == old(u.pushed) + RxBytes(p, level, r.rx)
    ensures next == NewLevel(q, r.status)
  {
    Receive(u, level, r.rx, p);
    next := Interrupts(u, r.status, q);
  }

  method SendAndCommit(u: Uart, txStopped: bool, ghost q: Port, ghost pending: seq<Byte>)
    requires u.Sized() && u.Valid() && u.Shadow() == q && u.Pending() == pending
    modifies u`txFifoEmpty, u`irqen, u`mode1, u`txEnabled, u`tail, u`mode1Commit, u`lcrCommit, u`brgCommit
    modifies u.txbuf, u.bus
    ensures u.Valid() && u.Shadow() == ConfigPort(TxDone(q, pending, txStopped))
    ensures u.Pending() == pending[TxCount(q, pending, txStopped)..]
    ensures u.bus.Sent() == old(u.bus.Sent()) + TxWords(q, pending, txStopped)
                            + ConfigProgram(TxDone(q, pending, txStopped))
  {
    Transmission(u, txStopped, q, pending);
    u.Commit();
  }

  method Stages(u: Uart, level: nat, r: Round, ghost p: Port, ghost q: Port, ghost q': Port, ghost pending: seq<Byte>)
    returns (next: nat)
    requires u.Sized() && u.Valid() && u.Shadow() == p && u.Pending() == pending
    requires q == RxDone(p, level) && (Receives(p, level) ==> Chat(p.irqen, Clamp(level), r.rx))
    requires (q.handleIrq ==> |r.status| == 4) && q' == IrqDone(q, r.status)
    modifies u, u.txbuf, u.rxbuf, u.rxstr, u.bus
    ensures u.Valid() && u.Shadow() == ConfigPort(TxDone(q', pending, r.txStopped))
    ensures u.Pending() == pending[TxCount(q', pending, r.txStopped)..]
    ensures u.bus.Sent() == old(u.bus.Sent()) + RxWords(p, level, r.rx) + IrqWords(q, r.status)
                            + TxWords(q', pending, r.txStopped) + ConfigProgram(TxDone(q', pending, r.txStopped))
    ensures u.pushed == old(u.pushed) + RxBytes(p, level, r.rx)
    ensures next == NewLevel(q, r.status)
  {
    next := Service(u, level, r, p, q);
    SendAndCommit(u, r.txStopped, q', pending);
  }

  /** One round. */
  method OneRound(u: Uart, level: nat, r: Round) returns (next: nat)
    requires u.Sized() && u.Valid() && Ready(u.Shadow(), level, r)
    modifies u, u.txbuf, u.rxbuf, u.rxstr, u.bus
    ensures u.Valid() && Now(u) == RoundEnd(old(Now(u)), level, r) && next == Next(old(u.Shadow()), level, r)
  {
    ghost var p := u.Shadow();
    next := Stages(u, level, r, p, RxDone(p, level), Served(p, level, r), u.Pending());
  }

  /* ---------------------------------------------------------------- the whole function */

  /** The rounds of one call: each but the last ends with a level above zero. */
  predicate Plays(x: Snap, level: nat, rounds: seq<Round>)
    decreases |rounds|
  {
    && rounds != [] && Ready(x.port, level, rounds[0])
    && var next := Next(x.port, level, rounds[0]);
       if next == 0 then |rounds| == 1 else Plays(RoundEnd(x, level, rounds[0]), next, rounds[1..])
  }

  /** All rounds one after the other. */
  function WorkEnd(x: Snap, level: nat, rounds: seq<Round>): Snap
    requires Plays(x, level, rounds)
    decreases |rounds|
  {
    var next := Next(x.port, level, rounds[0]);
    var y := RoundEnd(x, level, rounds[0]);
    if next == 0 then y else WorkEnd(y, next, rounds[1..])
  }

  method ReadLevel(u: Uart, answer: Word) returns (level: nat)
    requires u.Sized() && u.Valid()
    modifies u.bus
    ensures u.Valid() && u.bus.Sent() == old(u.bus.Sent()) + [Rd(RXFIFOLVL)]
    ensures level == ValOf(answer) as nat
  {
    var buf := new Word[1];
    buf[0] := Rd(RXFIFOLVL);
    u.bus.Rw(buf, 1, true, [answer]);
    level := ValOf(buf[0]) as nat;
  }

  /** The state after the level has been asked for. */
  function Asked(x: Snap): Snap {
    x.(sent := x.sent + [Rd(RXFIFOLVL)])
  }

  /** The work function: level, then rounds until one ends without data in the device. */
  method Work(u: Uart, answer: Word, rounds: seq<Round>)
    requires u.Sized() && u.Valid() && Plays(Asked(Now(u)), ValOf(answer) as nat, rounds)
    modifies u, u.txbuf, u.rxbuf, u.rxstr, u.bus
    ensures u.Valid() && Now(u) == WorkEnd(Asked(old(Now(u))), ValOf(answer) as nat, rounds)
  {
    var level := ReadLevel(u, answer);
    Rounds(u, level, rounds);
  }

  method Rounds(u: Uart, rxlvl: nat, rounds: seq<Round>)
    requires u.Sized() && u.Valid() && Plays(Now(u), rxlvl, rounds)
    modifies u, u.txbuf, u.rxbuf, u.rxstr, u.bus
    ensures u.Valid() && Now(u) == WorkEnd(old(Now(u)), rxlvl, rounds)
  {
    ghost var end := WorkEnd(Now(u), rxlvl, rounds);
    var level, rest, again := rxlvl, rounds, true;
    while again
      invariant u.Valid()
      invariant if again then Plays(Now(u), level, rest) && WorkEnd(Now(u), level, rest) == end else Now(u) == end
      decreases again, |rest|
    {
      level := OneRound(u, level, rest[0]);
      rest, again := rest[1..], level > 0;
    }
  }
}
