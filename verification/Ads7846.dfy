/** The touchscreen controller's debounce filter and the loop that reads one touch sample through it. */
module Ads7846 {

  datatype Action = Ok | Repeat | Ignore

  /** What one SPI message brings: a converted value, or a transfer error. */
  datatype Sample = Reading(value: int) | SpiError

  /** Filter parameters; probe raises the maximum to at least 2.  `debounce` is false when no filter is
      installed and every reading is taken. */
  datatype Config = Config(debounce: bool, max: nat, tol: nat, rep: nat, msgCount: nat)

  ghost predicate Probed(c: Config) {
    2 <= c.max && 2 <= c.msgCount
  }

  function Abs(x: int): nat {
    if x < 0 then -x else x
  }

  /** x lies within the tolerance of y. */
  predicate Near(c: Config, x: int, y: int) {
    Abs(y - x) <= c.tol
  }

  /** Every reading after position a lies within the tolerance of the one at a. */
  ghost predicate NearAnchor(c: Config, readings: seq<int>, a: nat) {
    a < |readings| && forall k :: a < k < |readings| ==> Near(c, readings[k], readings[a])
  }

  /** The last rep+1 readings all lie within the tolerance of the reading just before them. */
  ghost predicate Settled(c: Config, readings: seq<int>) {
    |readings| >= c.rep + 2 && NearAnchor(c, readings, |readings| - c.rep - 2)
  }

  /** The reading that the later ones are compared with: each reading out of tolerance of the anchor so
      far becomes the new anchor. */
  function Anchor(c: Config, readings: seq<int>): (a: nat)
    requires readings != []
    ensures a < |readings|
  {
    var n := |readings| - 1;
    if n == 0 then 0
    else
      var a := Anchor(c, readings[..n]);
      if Near(c, readings[n], readings[a]) then a else n
  }

  /** At least max readings went by before the last one, and that one is out of tolerance of their anchor. */
  ghost predicate GivenUp(c: Config, readings: seq<int>) {
    var n := |readings| - 1;
    n >= c.max && n > 0 && !Near(c, readings[n], readings[Anchor(c, readings[..n])])
  }

  lemma {:induction false} AnchorHolds(c: Config, readings: seq<int>)
    requires readings != []
    ensures NearAnchor(c, readings, Anchor(c, readings))
  {
    var n := |readings| - 1;
    if n > 0 {
      AnchorHolds(c, readings[..n]);
      assert forall k :: 0 <= k < n ==> readings[..n][k] == readings[k];
    }
  }

  /** The verdict on one more reading, from the whole history of the coordinate. */
  function Verdict(c: Config, readings: seq<int>, val: int): Action {
    if readings == [] || !Near(c, val, readings[Anchor(c, readings)]) then
      if |readings| < c.max then Repeat else Ignore
    else if |readings| - Anchor(c, readings) > c.rep then Ok
    else Repeat
  }

  /** Filter state after the given readings of one coordinate, none of which was decisive. */
  ghost predicate Collecting(c: Config, readings: seq<int>, cnt: nat, rep: nat, last: int) {
    && cnt == |readings|
    && rep <= c.rep && cnt <= c.max + rep
    && (if cnt == 0 then rep == 0 else rep == cnt - 1 - Anchor(c, readings) && last == readings[Anchor(c, readings)])
  }

  /** OK means settled and IGNORE means given up, whatever the readings were. */
  lemma VerdictIsSound(c: Config, readings: seq<int>, cnt: nat, rep: nat, last: int, val: int)
    requires Collecting(c, readings, cnt, rep, last) && 0 < c.max
    ensures Verdict(c, readings, val) == Ok ==> Settled(c, readings + [val])
    ensures Verdict(c, readings, val) == Ignore ==> GivenUp(c, readings + [val])
  {
    var all := readings + [val];
    if readings != [] {
      var a := Anchor(c, readings);
      AnchorHolds(c, readings);
      assert all[..|readings|] == readings;
      if Near(c, val, readings[a]) {
        assert NearAnchor(c, all, a);
      }
    }
  }

  /** The anchor is the first reading, or one out of tolerance of the anchor before it. */
  lemma AnchorBegins(c: Config, readings: seq<int>)
    requires readings != []
    ensures var a := Anchor(c, readings);
            a > 0 ==> readings[a] - readings[Anchor(c, readings[..a])] > c.tol
                      || readings[Anchor(c, readings[..a])] - readings[a] > c.tol
  {
    var n := |readings| - 1;
    if n > 0 {
      AnchorBegins(c, readings[..n]);
      var a := Anchor(c, readings);
      if a < n {
        assert readings[..n][..a] == readings[..a];
      }
    }
  }

  /** And all after it are within tolerance. */
  lemma AnchorKeeps(c: Config, readings: seq<int>, k: nat)
    requires readings != [] && Anchor(c, readings) < k < |readings|
    ensures -(c.tol as int) <= readings[k] - readings[Anchor(c, readings)] <= c.tol
  {
    AnchorHolds(c, readings);
  }

  /** The verdict exactly, by the anchor of all readings, the new one included: OK as soon as rep+1 readings have
      followed it, IGNORE when the new reading has become the anchor although max went before it, REPEAT otherwise. */
  lemma VerdictIsExact(c: Config, readings: seq<int>, cnt: nat, rep: nat, last: int, val: int)
    requires Collecting(c, readings, cnt, rep, last) && 0 < c.max
    ensures var all := readings + [val];
            && (Verdict(c, readings, val) == Ok <==> |all| == Anchor(c, all) + c.rep + 2)
            && (Verdict(c, readings, val) == Ignore <==> Anchor(c, all) == |readings| >= c.max)
  {
    var all := readings + [val];
    assert all[..|readings|] == readings;
  }

  /** The readings of one coordinate that ended in acceptance. */
  ghost predicate Accepted(c: Config, readings: seq<int>) {
    if c.debounce then Settled(c, readings) && |readings| <= Budget(c) else |readings| == 1
  }

  /** The largest number of readings one coordinate can take. */
  function Budget(c: Config): nat {
    c.max + c.rep + 1
  }

  /** Any two of the accepted readings are within twice the tolerance of each other. */
  lemma SettledReadingsAgree(c: Config, readings: seq<int>, i: nat, j: nat)
    requires Settled(c, readings)
    requires |readings| - c.rep - 1 <= i < |readings| && |readings| - c.rep - 1 <= j < |readings|
    ensures Abs(readings[i] - readings[j]) <= 2 * c.tol
  {
  }

  class Touch {
    const config: Config
    var readCnt: nat
    var readRep: nat
    var lastRead: int
    var ignore: bool
    var values: seq<int>        // the converted values, one per coordinate
    ghost var readings: seq<int>  // the readings of the current coordinate so far

    ghost predicate Valid()
      reads this
    {
      && Probed(config) && |values| == config.msgCount - 1
      && Collecting(config, readings, readCnt, readRep, lastRead)
      && (!config.debounce ==> readings == [])
    }

    /** Valid, with these coordinates accepted so far. */
    ghost predicate Holds(runs: seq<seq<int>>)
      reads this
    {
      Valid() && Taken(config, runs, values)
    }

    constructor (config: Config)
      requires Probed(config)
      ensures Valid() && readCnt == 0 && this.config == config && readings == []
    {
      this.config := config;
      readCnt, readRep, lastRead, ignore := 0, 0, 0, false;
      values := seq(config.msgCount - 1, _ => 0);
      readings := [];
    }

    /** The debounce filter on one more reading of a coordinate. */
    method DebounceFilter(val: int) returns (action: Action)
      requires Valid() && config.debounce
      modifies this`readCnt, this`readRep, this`lastRead, this`readings
      ensures Valid()
      ensures action == Verdict(config, old(readings), val)
      ensures action == Ok ==> Settled(config, old(readings) + [val])
      ensures action == Ignore ==> GivenUp(config, old(readings) + [val])
      ensures readings == if action == Repeat then old(readings) + [val] else []
      ensures |readings| < Budget(config) && |old(readings)| < Budget(config)
    {
      ghost var all := readings + [val];
      assert all[..|readings|] == readings;
      VerdictIsSound(config, readings, readCnt, readRep, lastRead, val);
      if readCnt == 0 || Abs(lastRead - val) > config.tol {
        readRep := 0;
        if readCnt < config.max {
          lastRead := val;
          readCnt := readCnt + 1;
          readings := all;
          return Repeat;
        } else {
          readCnt := 0;
          readings := [];
          return Ignore;
        }
      } else {
        readRep := readRep + 1;
        if readRep > config.rep {
          readCnt := 0;
          readRep := 0;
          readings := [];
          return Ok;
        } else {
          readCnt := readCnt + 1;
          readings := all;
          return Repeat;
        }
      }
    }

    /** The installed filter. */
    method Filter(val: int) returns (action: Action)
      requires Valid()
      modifies this`readCnt, this`readRep, this`lastRead, this`readings
      ensures Valid()
      ensures action == if config.debounce then Verdict(config, old(readings), val) else Ok
      ensures action == Ok ==> Accepted(config, old(readings) + [val])
      ensures action == Ignore ==> GivenUp(config, old(readings) + [val])
      ensures readings == if action == Repeat then old(readings) + [val] else []
      ensures |readings| < Budget(config) && |old(readings)| < Budget(config)
    {
      if config.debounce {
        action := DebounceFilter(val);
      } else {
        action := Ok;
      }
    }

    /** Passes a converted value through the filter and acts on the verdict. */
    method TakeReading(msgIdx: nat, val: int, ghost runs: seq<seq<int>>)
      returns (next: nat, ghost runs': seq<seq<int>>)
      requires Holds(runs) && |runs| == msgIdx < config.msgCount - 1
      modifies this
      ensures Holds(runs')
      ensures var action := if config.debounce then Verdict(config, old(readings), val) else Ok;
              && readings == (if action == Repeat then old(readings) + [val] else [])
              && runs' == (if action == Ok then runs + [old(readings) + [val]] else runs)
              && ignore == (if action == Ok then false else if action == Ignore then true else old(ignore))
              && next == (if action == Repeat then msgIdx else if action == Ok then msgIdx + 1 else config.msgCount - 1)
      ensures |readings| < Budget(config) && |old(readings)| < Budget(config)
    {
      ghost var run := readings + [val];
      runs' := runs;
      next := msgIdx;
      var action := Filter(val);
      match action {
        case Repeat =>
        case Ignore =>
          ignore := true;
          next := config.msgCount - 1;
        case Ok =>
          values := values[msgIdx := val];
          runs' := runs + [run];
          ignore := false;
          next := msgIdx + 1;
      }
    }

    /** One SPI message; it may bring anything. */
    method SpiSync() returns (sample: Sample)
    {
      sample := *;
    }

    /** State of the reading loop at message msgIdx: how many messages went out, and what was accepted. */
    ghost predicate AtMessage(msgIdx: nat, sentCount: nat, runs: seq<seq<int>>)
      reads this
    {
      && msgIdx < config.msgCount
      && |readings| < Budget(config) && sentCount <= Allowance(config, msgIdx) + |readings|
      && (if msgIdx < config.msgCount - 1 then |runs| == msgIdx && (msgIdx > 0 ==> !ignore)
          else readings == [] && (!ignore <==> |runs| == config.msgCount - 1))
    }

    /** A coordinate's message advances the loop; `rest` are the readings of the coordinate that is not accepted yet, or
        has been given up. */
    method TakeMessage(msgIdx: nat, val: int, ghost sentCount: nat, ghost runs: seq<seq<int>>)
      returns (next: nat, ghost runs': seq<seq<int>>, ghost rest: seq<int>)
      requires Holds(runs) && AtMessage(msgIdx, sentCount, runs) && msgIdx < config.msgCount - 1
      modifies this
      ensures Holds(runs') && AtMessage(next, sentCount + 1, runs')
      ensures next > msgIdx || (next == msgIdx && |readings| == |old(readings)| + 1)
      ensures || (runs' == runs && rest == old(readings) + [val])
              || (runs' == runs + [old(readings) + [val]] && rest == [])
      ensures next < config.msgCount - 1 ==> rest == readings
      ensures next == config.msgCount - 1 ==> if ignore then GivenUp(config, rest) else rest == []
    {
      ghost var was := readings;
      rest := was + [val];
      next, runs' := TakeReading(msgIdx, val, runs);
      AllowanceGrows(config, msgIdx, next);
      if runs' != runs {
        rest := [];
      }
    }

    /** The loop before message msgIdx: what has been sent and heard, and what has become of it. */
    ghost predicate Under(msgIdx: nat, sent: seq<nat>, got: seq<Sample>, runs: seq<seq<int>>, rest: seq<int>)
      reads this
    {
      && Holds(runs) && AtMessage(msgIdx, |sent|, runs)
      && |got| == |sent| && Clean(got) && Coordinates(config, sent) && Heard(sent, got, runs, rest)
      && (if msgIdx < config.msgCount - 1 then rest == readings
          else if ignore then GivenUp(config, rest)
          else rest == [])
    }

    /** One message of a coordinate. */
    method CoordinateMessage(msgIdx: nat, val: int, ghost sent: seq<nat>, ghost got: seq<Sample>,
                             ghost runs: seq<seq<int>>, ghost rest: seq<int>)
      returns (next: nat, ghost runs': seq<seq<int>>, ghost rest': seq<int>)
      requires Under(msgIdx, sent, got, runs, rest) && msgIdx < config.msgCount - 1
      modifies this
      ensures Under(next, sent + [msgIdx], got + [Reading(val)], runs', rest')
      ensures next > msgIdx || (next == msgIdx && |readings| == |old(readings)| + 1)
    {
      HeardNext(sent, got, runs, rest, val);
      next, runs', rest' := TakeMessage(msgIdx, val, |sent|, runs);
    }

    /** What a sample comes to: the messages, what they brought, and the readings of each coordinate. */
    ghost predicate Outcome(sent: seq<nat>, got: seq<Sample>, runs: seq<seq<int>>, rest: seq<int>)
      reads this
    {
      && Holds(runs) && 0 < |got| == |sent| <= Allowance(config, config.msgCount - 1) + 1
      && Heard(sent[..|sent| - 1], got[..|got| - 1], runs, rest)
      && (if Clean(got) then
            && PowerDownLast(config, sent) && (!ignore <==> |runs| == config.msgCount - 1) && readCnt == 0
            && (if ignore then GivenUp(config, rest) else rest == [])
          else ignore && Clean(got[..|got| - 1]))
    }

    /** The power-down message ends it. */
    lemma PoweredDown(sent: seq<nat>, got: seq<Sample>, runs: seq<seq<int>>, rest: seq<int>, val: int)
      requires 1 <= config.msgCount
      requires Under(config.msgCount - 1, sent, got, runs, rest)
      ensures Outcome(sent + [config.msgCount - 1], got + [Reading(val)], runs, rest)
    {
      Pushed(sent, config.msgCount - 1);
      Pushed(got, Reading(val));
    }

    /** A failed transfer ends it too. */
    method GiveUp(msgIdx: nat, ghost sent: seq<nat>, ghost got: seq<Sample>, ghost runs: seq<seq<int>>,
                  ghost rest: seq<int>)
      requires Under(msgIdx, sent, got, runs, rest)
      modifies this`ignore
      ensures Outcome(sent + [msgIdx], got + [SpiError], runs, rest)
    {
      AllowanceGrows(config, msgIdx, config.msgCount - 1);
      Pushed(sent, msgIdx);
      Pushed(got, SpiError);
      assert (got + [SpiError])[|got|].SpiError?;
      ignore := true;
    }

    /** Reads one sample: every coordinate through the filter, then the power-down message.  `sent` lists
        the numbers of the messages sent, `got` what they brought, `runs` the readings of the coordinates that were
        accepted, and `rest` those of one that was not. */
    method ReadState()
      returns (ghost sent: seq<nat>, ghost got: seq<Sample>, ghost runs: seq<seq<int>>, ghost rest: seq<int>)
      requires Valid() && readCnt == 0
      modifies this
      ensures Outcome(sent, got, runs, rest)
    {
      sent, got, runs, rest := [], [], [], [];
      var msgIdx := 0;
      while msgIdx < config.msgCount
        invariant if msgIdx < config.msgCount then Under(msgIdx, sent, got, runs, rest)
                  else Outcome(sent, got, runs, rest)
        decreases config.msgCount - msgIdx, Budget(config) - |readings|
      {
        var sample := SpiSync();
        ghost var sent', got' := sent + [msgIdx], got + [sample];
        if sample.SpiError? {
          GiveUp(msgIdx, sent, got, runs, rest);
          sent, got := sent', got';
          return;
        }
        if msgIdx < config.msgCount - 1 {
          msgIdx, runs, rest := CoordinateMessage(msgIdx, sample.value, sent, got, runs, rest);
        } else {
          PoweredDown(sent, got, runs, rest, sample.value);
          msgIdx := msgIdx + 1;
        }
        sent, got := sent', got';
      }
    }
  }

  lemma Pushed<T>(s: seq<T>, x: T)
    ensures (s + [x])[..|s|] == s && (s + [x])[|s|] == x
  {
  }

  /** Coordinates accepted so far, in order, each with its last reading as the value kept. */
  ghost predicate Taken(c: Config, runs: seq<seq<int>>, values: seq<int>) {
    && |runs| < c.msgCount && |values| == c.msgCount - 1
    && forall k :: 0 <= k < |runs| ==>
         runs[k] != [] && Accepted(c, runs[k]) && values[k] == runs[k][|runs[k]| - 1]
  }

  /** No transfer failed. */
  ghost predicate Clean(got: seq<Sample>) {
    forall k :: 0 <= k < |got| ==> got[k].Reading?
  }

  ghost predicate Coordinates(c: Config, sent: seq<nat>) {
    forall k :: 0 <= k < |sent| ==> sent[k] < c.msgCount - 1
  }

  /** The power-down message is sent exactly once, as the last one. */
  ghost predicate PowerDownLast(c: Config, sent: seq<nat>) {
    sent != [] && sent[|sent| - 1] == c.msgCount - 1 && Coordinates(c, sent[..|sent| - 1])
  }

  /** Messages that n coordinates may take. */
  function Allowance(c: Config, n: nat): nat {
    if n == 0 then 0 else Allowance(c, n - 1) + Budget(c)
  }

  lemma {:induction false} AllowanceIsProduct(c: Config, n: nat)
    ensures Allowance(c, n) == n * (c.max + c.rep + 1)
  {
    if n > 0 {
      AllowanceIsProduct(c, n - 1);
    }
  }

  lemma {:induction false} AllowanceGrows(c: Config, m: nat, n: nat)
    requires m <= n
    ensures Allowance(c, m) <= Allowance(c, n)
    ensures m < n ==> Allowance(c, m) + Budget(c) <= Allowance(c, n)
    decreases n
  {
    if m < n {
      AllowanceGrows(c, m, n - 1);
    }
  }

  /* ---------------------------------------------------------------- what was heard */

  /** The messages of each coordinate, in order: its number once for each of its readings. */
  function Numbered(runs: seq<seq<int>>): seq<nat>
    decreases |runs|
  {
    if runs == [] then []
    else Numbered(runs[..|runs| - 1]) + Times(|runs[|runs| - 1]|, |runs| - 1)
  }

  function Times(n: nat, x: nat): seq<nat> {
    seq(n, _ => x)
  }

  function Flat(runs: seq<seq<int>>): seq<int>
    decreases |runs|
  {
    if runs == [] then [] else Flat(runs[..|runs| - 1]) + runs[|runs| - 1]
  }

  /** The messages sent and what they brought are those readings: of the accepted coordinates, each under its number and
      in order, and then of the next one. */
  ghost predicate Heard(sent: seq<nat>, got: seq<Sample>, runs: seq<seq<int>>, rest: seq<int>) {
    && sent == Numbered(runs) + Times(|rest|, |runs|)
    && got == Samples(Flat(runs) + rest)
  }

  function Samples(values: seq<int>): seq<Sample> {
    seq(|values|, i requires 0 <= i < |values| => Reading(values[i]))
  }

  lemma FlatNext(runs: seq<seq<int>>, run: seq<int>)
    ensures Flat(runs + [run]) == Flat(runs) + run
    ensures Numbered(runs + [run]) == Numbered(runs) + Times(|run|, |runs|)
  {
    assert (runs + [run])[..|runs|] == runs;
  }

  /** One more reading, whether it ends the coordinate or not. */
  lemma HeardNext(sent: seq<nat>, got: seq<Sample>, runs: seq<seq<int>>, rest: seq<int>, val: int)
    requires Heard(sent, got, runs, rest)
    ensures Heard(sent + [|runs|], got + [Reading(val)], runs, rest + [val])
    ensures Heard(sent + [|runs|], got + [Reading(val)], runs + [rest + [val]], [])
  {
    assert Times(|rest| + 1, |runs|) == Times(|rest|, |runs|) + [|runs|];
    assert Flat(runs) + (rest + [val]) == Flat(runs) + rest + [val];
    FlatNext(runs, rest + [val]);
  }
}
