/** What the interrupt thread of the touchscreen driver makes of its samples: the touch resistance, and the events that
    are reported. */
module TouchReport {

  type u16 = x: int | 0 <= x < 0x1_0000

  const WRAP: nat := 0x1_0000_0000
  const MAX_12BIT: u16 := 4095

  datatype Chip = Ads7843 | Ads7845 | Ads7846

  /** The settings of a panel; recheck says that there is a delay after which the pen is checked again. */
  datatype Panel = Panel(chip: Chip, xPlateOhms: u16, pressureMax: u16, swapXy: bool, recheck: bool)

  /** A sample as the reading loop leaves it. */
  datatype Packet = Packet(x: u16, y: u16, z1: u16, z2: u16, ignore: bool)

  /** One pass of the interrupt thread: the sample, whether the thread is told to stop after reading it, and whether the
      pen is down when the resistance is taken and still down when it is checked again. */
  datatype Poll = Poll(packet: Packet, stopped: bool, down: bool, still: bool)

  /* ---------------------------------------------------------------- touch resistance */

  /** A coordinate at the end of its range counts as none. */
  function Ranged(x: u16): u16 {
    if x == MAX_12BIT then 0 else x
  }

  function Product(x: u16, z1: u16, z2: u16, ohms: u16): int {
    (z2 - z1) * x * ohms
  }

  /** The touch resistance in 32-bit unsigned arithmetic. */
  function EquationTwo(x: u16, z1: u16, z2: u16, ohms: u16): nat
    requires z1 > 0
  {
    (Product(x, z1, z2, ohms) % WRAP / z1 + 2047) % WRAP / 4096
  }

  function Resistance(panel: Panel, p: Packet, down: bool): nat {
    match panel.chip
    case Ads7843 => panel.pressureMax / 2
    case Ads7845 => if down then panel.pressureMax / 2 else 0
    case Ads7846 =>
      if Ranged(p.x) != 0 && p.z1 != 0 then EquationTwo(Ranged(p.x), p.z1, p.z2, panel.xPlateOhms) else 0
  }

  /** r is product / z1 / 4096, rounded. */
  predicate Rounds(r: int, product: int, z1: u16) {
    -2047 * z1 <= product - 4096 * r * z1 < 2049 * z1
  }

  lemma MulMono(a: int, b: int, c: nat)
    requires a <= b
    ensures a * c <= b * c
  {
  }

  lemma Quotient(m: nat, z: u16)
    requires z > 0
    ensures m / z * z <= m < (m / z + 1) * z
  {
  }

  lemma Rounded(q: int, m: nat, z: u16, r: int)
    requires q * z <= m < (q + 1) * z && r == (q + 2047) / 4096
    ensures Rounds(r, m, z)
  {
    MulMono(4096 * r - 2047, q, z);
    MulMono(q + 1, 4096 * r + 2049, z);
  }

  /** Products that round to the same are less than a wrap-around apart. */
  lemma RoundsClose(r: int, a: int, b: int, z: u16)
    requires Rounds(r, a, z) && Rounds(r, b, z)
    ensures a - b < WRAP && b - a < WRAP
  {
  }

  lemma HalfFits(m: nat, z: u16) returns (q: nat)
    requires m < WRAP && z > 1
    ensures q * z <= m < (q + 1) * z && (m / z + 2047) % WRAP / 4096 == (q + 2047) / 4096
  {
    q := m / z;
    Quotient(m, z);
    MulMono(2, z, q);
  }

  /** The arithmetic gives the rounded value exactly when nothing wraps around: z2 is not below z1 and the product stays
      below 2^32.  (With z1 = 1 the rounding itself moves both ends by 2047.) */
  lemma EquationTwoIsExact(x: u16, z1: u16, z2: u16, ohms: u16)
    requires z1 > 0
    ensures var p := (z2 - z1) * x * ohms;
            Rounds(EquationTwo(x, z1, z2, ohms), p, z1)
            <==> if z1 == 1 then -2047 <= p < WRAP - 2047 else 0 <= p < WRAP
  {
    var p := Product(x, z1, z2, ohms);
    if z1 == 1 {
      OneIsExact(p);
    } else {
      var r := EquationTwo(x, z1, z2, ohms);
      var q := HalfFits(p % WRAP, z1);
      Rounded(q, p % WRAP, z1, r);
      ExactBy(r, p, p % WRAP, z1);
      Residue(p);
    }
  }

  lemma Residue(p: int)
    ensures p % WRAP == p <==> 0 <= p < WRAP
    ensures p - p % WRAP < WRAP && p % WRAP - p < WRAP ==> p % WRAP == p
  {
  }

  lemma ExactBy(r: int, p: int, m: int, z: u16)
    requires Rounds(r, m, z) && m == p % WRAP
    ensures Rounds(r, p, z) <==> m == p
  {
    Residue(p);
    if Rounds(r, p, z) {
      RoundsClose(r, p, m, z);
    }
  }

  lemma OneIsExact(p: int)
    ensures Rounds((p % WRAP / 1 + 2047) % WRAP / 4096, p, 1) <==> -2047 <= p < WRAP - 2047
  {
    var s := (p + 2047) % WRAP;
    assert (p % WRAP + 2047) % WRAP == s;
  }

  /** The resistance of each chip: half the maximum where there is no pressure measurement, as long as the pen is down,
      and else the equation, without a touch at either end of the range of x or with z1 zero. */
  lemma ResistanceMeaning(panel: Panel, p: Packet, down: bool)
    ensures panel.chip == Ads7843 || (panel.chip == Ads7845 && down) ==>
              2 * Resistance(panel, p, down) <= panel.pressureMax <= 2 * Resistance(panel, p, down) + 1
    ensures panel.chip == Ads7845 && !down ==> Resistance(panel, p, down) == 0
    ensures panel.chip == Ads7846 && (p.x == 0 || p.x == 4095 || p.z1 == 0) ==> Resistance(panel, p, down) == 0
    ensures panel.chip == Ads7846 && p.x != 0 && p.x != 4095 && p.z1 > 1 ==>
              var product := (p.z2 - p.z1) * p.x * panel.xPlateOhms;
              Rounds(Resistance(panel, p, down), product, p.z1) <==> 0 <= product < WRAP
  {
    if panel.chip == Ads7846 && p.x != 0 && p.x != 4095 && p.z1 > 1 {
      EquationTwoIsExact(p.x, p.z1, p.z2, panel.xPlateOhms);
    }
  }

  /** The product of a hard touch on a panel of 400 ohms does not fit: 4749 comes out for 15234. */
  lemma HardTouchWraps()
    ensures EquationTwo(4000, 100, 4000, 400) == 4749 && Rounds(15234, (4000 - 100) * 4000 * 400, 100)
  {
  }

  lemma ModMul(a: int, b: nat)
    ensures (a % WRAP * b) % WRAP == (a * b) % WRAP
  {
    var k := a / WRAP;
    assert a * b == a % WRAP * b + k * b * WRAP by {
      assert a == a % WRAP + k * WRAP;
      assert k * WRAP * b == k * b * WRAP;
    }
    ModAdd(a % WRAP * b, k * b);
  }

  lemma ModAdd(a: int, k: int)
    ensures (a + k * WRAP) % WRAP == a % WRAP
  {
  }

  /** The same, step by step in one unsigned variable. */
  method TouchResistance(panel: Panel, p: Packet, down: bool) returns (rt: nat)
    ensures rt == Resistance(panel, p, down)
  {
    var x := p.x;
    if x == MAX_12BIT {
      x := 0;
    }
    if panel.chip == Ads7843 {
      rt := panel.pressureMax / 2;
    } else if panel.chip == Ads7845 {
      rt := if down then panel.pressureMax / 2 else 0;
    } else if x != 0 && p.z1 != 0 {
      rt := Compute(x, p.z1, p.z2, panel.xPlateOhms);
    } else {
      rt := 0;
    }
  }

  method Compute(x: u16, z1: u16, z2: u16, ohms: u16) returns (rt: nat)
    requires z1 > 0
    ensures rt == EquationTwo(x, z1, z2, ohms)
  {
    ModMul(z2 - z1, x);
    ModMul((z2 - z1) * x, ohms);
    rt := z2;
    rt := (rt - z1) % WRAP;
    rt := rt * x % WRAP;
    rt := rt * ohms % WRAP;
    rt := rt / z1;
    rt := (rt + 2047) % WRAP / 4096;
  }

  /* ---------------------------------------------------------------- reported events */

  datatype Event = Down | Position(x: u16, y: u16, pressure: int) | Up

  datatype Scan = Idle | Pressed | Touching | Broken

  /** Reads a report stream as (DOWN position+ UP)*. */
  function Next(s: Scan, e: Event): Scan {
    match (s, e)
    case (Idle, Down) => Pressed
    case (Pressed, Position(_, _, _)) => Touching
    case (Touching, Position(_, _, _)) => Touching
    case (Touching, Up) => Idle
    case (_, _) => Broken
  }

  function ScanAll(events: seq<Event>): Scan {
    if events == [] then Idle else Next(ScanAll(events[..|events| - 1]), events[|events| - 1])
  }

  lemma ScanAppend(events: seq<Event>, e: Event)
    ensures ScanAll(events + [e]) == Next(ScanAll(events), e)
  {
  }

  /** A stream that scans back to idle is a sequence of complete gestures: it is empty, or it ends with a
      gesture of one DOWN, at least one position and one UP after a stream that scans to idle too. */
  lemma IdleMeansGestures(events: seq<Event>) returns (start: nat)
    requires ScanAll(events) == Idle && events != []
    ensures start + 3 <= |events| && ScanAll(events[..start]) == Idle
    ensures events[start] == Down && events[|events| - 1] == Up
    ensures forall k :: start < k < |events| - 1 ==> events[k].Position?
  {
    var n := |events| - 1;
    start := TouchBegins(events[..n]);
    assert forall k :: 0 <= k < n ==> events[..n][k] == events[k];
    assert events[..n][..start] == events[..start];
  }

  lemma {:induction false} TouchBegins(events: seq<Event>) returns (start: nat)
    requires ScanAll(events) == Touching
    ensures start + 2 <= |events| && ScanAll(events[..start]) == Idle && events[start] == Down
    ensures forall k :: start < k < |events| ==> events[k].Position?
  {
    var n := |events| - 1;
    var front := events[..n];
    if ScanAll(front) == Touching {
      start := TouchBegins(front);
      assert front[..start] == events[..start];
      assert forall k :: 0 <= k < n ==> front[k] == events[k];
    } else {
      start := n - 1;
      assert front[..n - 1] == events[..n - 1];
      assert front[n - 1] == events[n - 1];
    }
  }

  /** The sample is good, and there is a touch that is not beyond the maximum and not over yet. */
  predicate Shown(panel: Panel, poll: Poll) {
    && !poll.packet.ignore && (panel.recheck ==> poll.still)
    && 0 < Resistance(panel, poll.packet, poll.down) <= panel.pressureMax
  }

  /** The position that a sample stands for: x, or zero at the end of its range, and y, swapped if the panel is mounted
      that way; the less resistance, the more pressure. */
  function PositionOf(panel: Panel, packet: Packet, rt: nat): (e: Event)
    ensures e.Position? && e.pressure + rt == panel.pressureMax
    ensures (if panel.swapXy then e.y else e.x) == if packet.x == 4095 then 0 else packet.x
    ensures (if panel.swapXy then e.x else e.y) == packet.y
  {
    var x, y, pressure := Ranged(packet.x), packet.y, panel.pressureMax - rt;
    if panel.swapXy then Position(y, x, pressure) else Position(x, y, pressure)
  }

  /** The position of a pass. */
  function Shows(panel: Panel, poll: Poll): Event {
    PositionOf(panel, poll.packet, Resistance(panel, poll.packet, poll.down))
  }

  /** The positions of some of the passes, in that order. */
  function Moves(panel: Panel, polls: seq<Poll>, at: seq<nat>): (events: seq<Event>)
    requires forall k :: 0 <= k < |at| ==> at[k] < |polls|
    ensures |events| == |at|
  {
    seq(|at|, k requires 0 <= k < |at| => Shows(panel, polls[at[k]]))
  }

  /** A touch with these positions, without the release. */
  function Pressing(moves: seq<Event>): seq<Event> {
    if moves == [] then [] else [Down] + moves
  }

  lemma PressingNext(moves: seq<Event>, e: Event)
    ensures Pressing(moves + [e]) == Pressing(moves) + (if moves == [] then [Down] else []) + [e]
  {
  }

  /** Among the first n passes exactly those at these places, in order, report a position. */
  ghost predicate Places(panel: Panel, polls: seq<Poll>, n: nat, at: seq<nat>)
    requires n <= |polls|
  {
    && (forall k :: 0 <= k < |at| ==> at[k] < n)
    && (forall j, k :: 0 <= j < k < |at| ==> at[j] < at[k])
    && (forall i: nat :: i < n ==> (i in at <==> !polls[i].stopped && Shown(panel, polls[i])))
  }

  lemma PlacesNext(panel: Panel, polls: seq<Poll>, n: nat, at: seq<nat>)
    requires n < |polls| && Places(panel, polls, n, at)
    ensures !polls[n].stopped && Shown(panel, polls[n]) ==>
              Places(panel, polls, n + 1, at + [n])
              && Moves(panel, polls, at + [n]) == Moves(panel, polls, at) + [Shows(panel, polls[n])]
    ensures !(!polls[n].stopped && Shown(panel, polls[n])) ==> Places(panel, polls, n + 1, at)
  {
  }

  class Reporter {
    var pendown: bool
    var events: seq<Event>
    const panel: Panel

    ghost predicate Valid()
      reads this
    {
      ScanAll(events) == if pendown then Touching else Idle
    }

    constructor (panel: Panel)
      ensures Valid() && !pendown && events == [] && this.panel == panel
    {
      pendown, events := false, [];
      this.panel := panel;
    }

    method Report(e: Event)
      modifies this`events
      ensures events == old(events) + [e] && ScanAll(events) == Next(old(ScanAll(events)), e)
    {
      ScanAppend(events, e);
      events := events + [e];
    }

    /** Reports the press unless the pen is down already. */
    method Press()
      requires Valid()
      modifies this
      ensures pendown && events == old(events) + if old(pendown) then [] else [Down]
      ensures ScanAll(events) == Pressed || ScanAll(events) == Touching
    {
      if !pendown {
        Report(Down);
        pendown := true;
      }
    }

    /** The coordinates and the pressure of a sample. */
    method Locate(packet: Packet, rt: nat) returns (e: Event)
      ensures e == PositionOf(panel, packet, rt)
    {
      var x, y := packet.x, packet.y;
      if x == MAX_12BIT {
        x := 0;
      }
      if panel.swapXy {
        x, y := y, x;
      }
      e := Position(x, y, panel.pressureMax - rt);
    }

    /** The input events of one position. */
    method ReportTouch(packet: Packet, rt: nat)
      requires Valid()
      modifies this
      ensures Valid() && pendown
      ensures events == old(events) + (if old(pendown) then [] else [Down]) + [PositionOf(panel, packet, rt)]
    {
      var position := Locate(packet, rt);
      Press();
      Report(position);
    }

    /** One sample adds nothing, a position, or a press and a position. */
    method ReportState(poll: Poll)
      requires Valid()
      modifies this
      ensures Valid()
      ensures !Shown(panel, poll) ==> pendown == old(pendown) && events == old(events)
      ensures Shown(panel, poll) ==>
                && pendown
                && events == old(events) + (if old(pendown) then [] else [Down]) + [Shows(panel, poll)]
    {
      var rt := TouchResistance(panel, poll.packet, poll.down);
      if poll.packet.ignore || rt > panel.pressureMax {
        return;
      }
      if panel.recheck {
        if !poll.still {
          rt := 0;
        }
      }
      if rt > 0 {
        ReportTouch(poll.packet, rt);
      }
    }

    /** One pass of the thread. */
    method OnePass(polls: seq<Poll>, i: nat, ghost was: seq<Event>, ghost at: seq<nat>) returns (ghost at': seq<nat>)
      requires Valid() && i < |polls| && Places(panel, polls, i, at)
      requires pendown == (at != []) && events == was + Pressing(Moves(panel, polls, at))
      modifies this
      ensures Valid() && Places(panel, polls, i + 1, at')
      ensures pendown == (at' != []) && events == was + Pressing(Moves(panel, polls, at'))
    {
      at' := at;
      PlacesNext(panel, polls, i, at);
      PressingNext(Moves(panel, polls, at), Shows(panel, polls[i]));
      if !polls[i].stopped {
        if Shown(panel, polls[i]) {
          at' := at + [i];
        }
        ReportState(polls[i]);
      }
    }

    /** The end of the thread. */
    method LiftPen(ghost was: seq<Event>, ghost moves: seq<Event>)
      requires Valid() && pendown == (moves != []) && events == was + Pressing(moves)
      modifies this
      ensures !pendown && ScanAll(events) == Idle
      ensures events == was + if moves == [] then [] else [Down] + moves + [Up]
    {
      if pendown {
        Report(Up);
        pendown := false;
      }
    }

    /** The loop of the thread. */
    method PollAll(polls: seq<Poll>) returns (ghost at: seq<nat>)
      requires Valid() && !pendown
      modifies this
      ensures Valid() && Places(panel, polls, |polls|, at)
      ensures pendown == (at != []) && events == old(events) + Pressing(Moves(panel, polls, at))
    {
      at := [];
      var i := 0;
      while i < |polls|
        invariant i <= |polls| && Valid() && Places(panel, polls, i, at)
        invariant pendown == (at != []) && events == old(events) + Pressing(Moves(panel, polls, at))
      {
        at := OnePass(polls, i, old(events), at);
        i := i + 1;
      }
    }

    /** The interrupt thread: it polls while the pen is down and nobody stops it, then lifts the pen.  `at` are the
        passes that report a position, in order.  If there is none, nothing is reported; else one press, their
        positions, and one release. */
    method Irq(polls: seq<Poll>) returns (ghost at: seq<nat>)
      requires Valid() && !pendown
      modifies this
      ensures !pendown && ScanAll(events) == Idle
      ensures (forall k :: 0 <= k < |at| ==> at[k] < |polls|) && (forall j, k :: 0 <= j < k < |at| ==> at[j] < at[k])
      ensures forall i: nat :: i < |polls| ==>
                (i in at <==>
                  && !polls[i].stopped && !polls[i].packet.ignore && (panel.recheck ==> polls[i].still)
                  && 0 < Resistance(panel, polls[i].packet, polls[i].down) <= panel.pressureMax)
      ensures events == old(events) + if at == [] then [] else [Down] + Moves(panel, polls, at) + [Up]
    {
      at := PollAll(polls);
      LiftPen(old(events), Moves(panel, polls, at));
    }
  }
}
