/** One call of the work function, undisturbed, gives the tty everything that the device has received. */
module Max3107Drain {
  import opened Max3107Device
  import opened Max3107Programs
  import opened Max3107System
  import opened Max3107Driver
  import opened Max3107Simulation

  /** A reply with this byte. */
  function Carry(b: Byte): Word {
    b as Word
  }

  lemma CarryIsByte(b: Byte)
    ensures ValOf(Carry(b)) == b
  {
  }

  function CarryAll(bytes: seq<Byte>): (words: seq<Word>)
    ensures |words| == |bytes|
  {
    seq(|bytes|, i requires 0 <= i < |bytes| => Carry(bytes[i]))
  }

  lemma CarriedBytes(bytes: seq<Byte>)
    ensures Bytes(CarryAll(bytes)) == bytes
  {
    forall i | 0 <= i < |bytes|
      ensures Bytes(CarryAll(bytes))[i] == bytes[i]
    {
      CarryIsByte(bytes[i]);
    }
  }

  /* ---------------------------------------------------------------- what the device answers */

  function LevelReply(n: nat): Word
    requires n <= RX_FIFO_SIZE
  {
    Carry(n as Byte)
  }

  lemma ByteOf(n: nat)
    requires n <= RX_FIFO_SIZE
    ensures (n as Byte) as nat == n
  {
  }

  lemma LevelIsRead(n: nat)
    requires n <= RX_FIFO_SIZE
    ensures ValOf(LevelReply(n)) as nat == n
  {
    CarryIsByte(n as Byte);
    ByteOf(n);
  }

  lemma LevelAnswered(d: Device)
    requires |d.rx| <= RX_FIFO_SIZE
    ensures AllAnswered(d, [Rd(RXFIFOLVL)], [LevelReply(|d.rx|)]) && ExecAll(d, [Rd(RXFIFOLVL)]) == d
    ensures ValOf(LevelReply(|d.rx|)) as nat == |d.rx|
  {
    DecodeRd(RXFIFOLVL);
    LevelIsRead(|d.rx|);
  }

  lemma PopStep(d: Device)
    requires d.rx != []
    ensures Answers(d, Rd(FIFO), Carry(d.rx[0])) && Exec(d, Rd(FIFO)) == d.(rx := d.rx[1..])
  {
    DecodeRd(FIFO);
    CarryIsByte(d.rx[0]);
  }

  /** As many zero words as there are bytes, and the level: the bytes in order, and zero. */
  lemma {:induction false} PopsAnswered(d: Device, n: nat)
    requires n == |d.rx|
    ensures AllAnswered(d, PopWords(n) + [Rd(RXFIFOLVL)], CarryAll(d.rx) + [LevelReply(0)])
    ensures ExecAll(d, PopWords(n) + [Rd(RXFIFOLVL)]) == d.(rx := [])
    decreases n
  {
    var words, replies := PopWords(n) + [Rd(RXFIFOLVL)], CarryAll(d.rx) + [LevelReply(0)];
    if n == 0 {
      LevelAnswered(d);
      assert words == [Rd(RXFIFOLVL)] && replies == [LevelReply(0)];
    } else {
      PopStep(d);
      PopsAnswered(d.(rx := d.rx[1..]), n - 1);
      assert words[0] == Rd(FIFO) && words[1..] == PopWords(n - 1) + [Rd(RXFIFOLVL)];
      assert replies[0] == Carry(d.rx[0]) && replies[1..] == CarryAll(d.rx[1..]) + [LevelReply(0)];
    }
  }

  /** The interrupt word in front, if there is one, changes neither. */
  lemma BurstAnswered(d: Device, irqen: Byte, n: nat) returns (answer: seq<Word>)
    requires n == |d.rx|
    ensures |answer| == |RxQuiet(irqen)| + n + 1 && NextLevel(answer) == 0
    ensures AllAnswered(d, RxProgram(irqen, n), answer) && DataAnswers(answer, n) == d.rx
    ensures ExecAll(d, RxProgram(irqen, n)).rx == []
  {
    var quiet, pops := RxQuiet(irqen), PopWords(n) + [Rd(RXFIFOLVL)];
    var rest := CarryAll(d.rx) + [LevelReply(0)];
    CarriedBytes(d.rx);
    assert RxProgram(irqen, n) == quiet + pops;
    if quiet == [] {
      answer := rest;
      PopsAnswered(d, n);
      assert quiet + pops == pops;
      assert answer[|answer| - 1 - n..|answer| - 1] == CarryAll(d.rx);
    } else {
      var e := Exec(d, quiet[0]);
      answer := [0] + rest;
      DecodeWr(IRQEN, ClearBit(irqen, IRQ_RXFIFO));
      assert e.rx == d.rx;
      PopsAnswered(e, n);
      assert (quiet + pops)[0] == quiet[0] && (quiet + pops)[1..] == pops && answer[1..] == rest;
      assert answer[|answer| - 1 - n..|answer| - 1] == CarryAll(d.rx);
    }
  }

  /* ---------------------------------------------------------------- the call */

  /** The level is read, and is what the FIFO holds. */
  lemma LevelRead(s: State)
    requires s.pc.Idle? && |s.dev.rx| <= RX_FIFO_SIZE
    ensures Alone(Apply(s, StartWork), [Rd(RXFIFOLVL)], s.(pc := AtRx(|s.dev.rx|)))
  {
    var a := Apply(s, StartWork);
    LevelAnswered(s.dev);
    var t := TransferFinished(a, [LevelReply(|s.dev.rx|)], false);
  }

  lemma Burst(s: State, n: nat) returns (words: seq<Word>, t: State)
    requires s.pc == AtRxLoop(n) && 0 < n == |s.dev.rx|
    ensures Alone(s, words, t)
    ensures t.pc == AtRxLoop(0) && t.pushed == s.pushed + s.dev.rx && t.dev.rx == []
  {
    var answer := BurstAnswered(s.dev, s.port.irqen, n);
    BurstAlone(s, n, answer, false);
    words, t := RxProgram(s.port.irqen, n), AfterBurst(s, n, answer);
  }

  /** From any state in which the work function may be called, with receiving enabled: if nothing else happens, all that
      the FIFO holds has been given to the tty, in order, when the receive loop is through. */
  lemma DrainsRx(s: State) returns (words: seq<Word>, t: State)
    requires s.pc.Idle? && s.port.rxEnabled && 0 < |s.dev.rx| <= RX_FIFO_SIZE
    ensures Alone(Apply(s, StartWork), words, t)
    ensures t.pc == AtRxLoop(0) && t.pushed == s.pushed + s.dev.rx && t.dev.rx == []
  {
    var n := |s.dev.rx|;
    var a, b := s.(pc := AtRx(n)), s.(pc := AtRxLoop(n));
    LevelRead(s);
    AloneDecide(a, false);
    assert Decide(a, false) == b;
    AloneJoin(Apply(s, StartWork), [Rd(RXFIFOLVL)], a, [], b);
    words, t := Burst(b, n);
    AloneJoin(Apply(s, StartWork), [Rd(RXFIFOLVL)] + [], b, words, t);
    words := [Rd(RXFIFOLVL)] + [] + words;
  }
}
