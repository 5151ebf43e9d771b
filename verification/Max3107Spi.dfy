/** max3107_rw: a buffer of words goes over the SPI in messages of at most SPI_BURST_NUM words. */
module Max3107Spi {
  import opened Max3107Device

  const SPI_BURST_NUM: nat := 64

  function Flatten(messages: seq<seq<Word>>): seq<Word>
    decreases |messages|
  {
    if messages == [] then [] else Flatten(messages[..|messages| - 1]) + messages[|messages| - 1]
  }

  predicate Bursts(messages: seq<seq<Word>>) {
    forall i :: 0 <= i < |messages| ==> |messages[i]| <= SPI_BURST_NUM
  }

  /** The bus: every message that has been sent so far. */
  class Bus {
    var messages: seq<seq<Word>>

    constructor ()
      ensures messages == []
    {
      messages := [];
    }

    ghost function Sent(): seq<Word>
      reads this
    {
      Flatten(messages)
    }

    /** One message of count words out of buf; when the caller reads, the answers come back in place. */
    method Sync(buf: array<Word>, base: nat, count: nat, reading: bool, answers: seq<Word>)
      requires base + count <= buf.Length && |answers| == base + count && count <= SPI_BURST_NUM
      requires Bursts(messages)
      modifies this, buf
      ensures Bursts(messages) && Sent() == old(Sent()) + old(buf[base..base + count])
      ensures buf[..] == if reading then old(buf[..base]) + answers[base..] + old(buf[base + count..]) else old(buf[..])
    {
      var message: seq<Word> := [];
      for i := 0 to count
        invariant message == buf[base..base + i]
      {
        message := message + [buf[base + i]];
      }
      messages := messages + [message];
      assert messages[..|messages| - 1] == old(messages);
      if reading {
        Store(buf, base, answers[base..]);
      }
    }

    static method Store(buf: array<Word>, base: nat, words: seq<Word>)
      requires base + |words| <= buf.Length
      modifies buf
      ensures buf[..] == old(buf[..base]) + words + old(buf[base + |words|..])
    {
      ghost var was := buf[..];
      for i := 0 to |words|
        invariant buf[..] == was[..base] + words[..i] + was[base + i..]
      {
        StoreStep(was, base, words, i);
        buf[base + i] := words[i];
      }
    }

    /** How much the next message takes, and whether it is the last one. */
    static method Portion(left: nat) returns (count: nat, rest: nat, exit: bool)
      ensures count <= SPI_BURST_NUM && count <= left
      ensures if exit then count == left else rest == left - count && rest < left
    {
      count, rest, exit := SPI_BURST_NUM, left, false;
      if left < SPI_BURST_NUM {
        count := left;
        exit := true;
      } else {
        rest := left - SPI_BURST_NUM;
        if rest == 0 {
          exit := true;
        }
      }
    }

    /** One message, when done words have already been exchanged and the bus held start before that. */
    method Burst(buf: array<Word>, ghost start: seq<Word>, ghost was: seq<Word>, done: nat, count: nat,
                 reading: bool, answers: seq<Word>)
      requires Bursts(messages) && count <= SPI_BURST_NUM && done + count <= |answers| <= |was|
      requires Through(Sent(), buf[..], start, was, answers, done, reading)
      modifies this, buf
      ensures Bursts(messages) && Through(Sent(), buf[..], start, was, answers, done + count, reading)
    {
      ghost var now := buf[..];
      Ahead(now, was, answers, done, count, reading);
      Assoc(start, was[..done], was[done..done + count]);
      Sync(buf, done, count, reading, answers[..done + count]);
      Grown(now, buf[..], was, answers, done, count, reading);
    }

    /** The loop: every pass sends one message, until there is nothing left. */
    method Exchange(buf: array<Word>, len: nat, reading: bool, answers: seq<Word>,
                    ghost start: seq<Word>, ghost was: seq<Word>)
      requires len == |answers| <= |was| && Bursts(messages)
      requires Through(Sent(), buf[..], start, was, answers, 0, reading)
      modifies this, buf
      ensures Bursts(messages) && Through(Sent(), buf[..], start, was, answers, len, reading)
    {
      var left, done, exit := len, 0, false;
      while !exit
        invariant Bursts(messages) && done <= len
        invariant if exit then done == len else left == len - done
        invariant Through(Sent(), buf[..], start, was, answers, done, reading)
        decreases !exit, left
      {
        var count;
        count, left, exit := Portion(left);
        Burst(buf, start, was, done, count, reading, answers);
        done := done + count;
      }
    }

    /** All the words go out once and in order, whatever their number; answers, if wanted, replace them. */
    method Rw(buf: array<Word>, len: nat, reading: bool, answers: seq<Word>)
      requires len <= buf.Length && |answers| == len && Bursts(messages)
      modifies this, buf
      ensures Bursts(messages) && Sent() == old(Sent()) + old(buf[..len])
      ensures buf[..] == if reading then answers + old(buf[len..]) else old(buf[..])
    {
      ghost var was, start := buf[..], Sent();
      NothingThrough(start, was, answers, reading);
      Exchange(buf, len, reading, answers, start, was);
      AllThrough(Sent(), buf[..], start, was, answers, reading);
    }
  }

  /** The first done words of the buffer have been exchanged. */
  ghost predicate Exchanged(buf: seq<Word>, was: seq<Word>, answers: seq<Word>, done: nat, reading: bool)
    requires done <= |answers| <= |was|
  {
    if reading then buf == answers[..done] + was[done..] else buf == was
  }

  /** They have gone out, after start, and the buffer is as it should be. */
  ghost predicate Through(sent: seq<Word>, buf: seq<Word>, start: seq<Word>, was: seq<Word>, answers: seq<Word>,
                          done: nat, reading: bool)
    requires done <= |answers| <= |was|
  {
    sent == start + was[..done] && Exchanged(buf, was, answers, done, reading)
  }

  lemma NothingThrough(start: seq<Word>, was: seq<Word>, answers: seq<Word>, reading: bool)
    requires |answers| <= |was|
    ensures Through(start, was, start, was, answers, 0, reading)
  {
  }

  lemma AllThrough(sent: seq<Word>, buf: seq<Word>, start: seq<Word>, was: seq<Word>, answers: seq<Word>,
                   reading: bool)
    requires |answers| <= |was| && Through(sent, buf, start, was, answers, |answers|, reading)
    ensures sent == start + was[..|answers|]
    ensures buf == if reading then answers + was[|answers|..] else was
  {
    assert answers[..|answers|] == answers;
  }

  lemma StoreStep(was: seq<Word>, base: nat, words: seq<Word>, i: nat)
    requires base + |words| <= |was| && i < |words|
    ensures (was[..base] + words[..i] + was[base + i..])[base + i := words[i]]
         == was[..base] + words[..i + 1] + was[base + (i + 1)..]
  {
  }

  lemma Grown(now: seq<Word>, next: seq<Word>, was: seq<Word>, answers: seq<Word>, done: nat, count: nat, reading: bool)
    requires done + count <= |answers| <= |was| && Exchanged(now, was, answers, done, reading)
    requires next == if reading then now[..done] + answers[..done + count][done..] + now[done + count..] else now
    ensures Exchanged(next, was, answers, done + count, reading)
  {
  }

  lemma Ahead(now: seq<Word>, was: seq<Word>, answers: seq<Word>, done: nat, count: nat, reading: bool)
    requires done + count <= |answers| <= |was| && Exchanged(now, was, answers, done, reading)
    ensures |now| == |was| && now[done..done + count] == was[done..done + count]
    ensures was[..done] + was[done..done + count] == was[..done + count]
  {
  }
}
