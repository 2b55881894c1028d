/** The tachometer: hall-sensor segments unwrapped into a running count. */
module Tach {

  /** What the three sensors show. */
  datatype Hall = Hall(a: bool, b: bool, c: bool)

  /** A reading as the code sees it: one bit for each sensor. */
  type Reading = r: int | 0 <= r < 8

  const AT_60: Reading := 5
  const AT_120: Reading := 4
  const AT_180: Reading := 6
  const AT_240: Reading := 2
  const AT_300: Reading := 3

  function ReadSensors(h: Hall): Reading {
    (if h.a then 1 else 0) + (if h.b then 2 else 0) + (if h.c then 4 else 0)
  }

  function Segment(s: Reading): (r: int)
    ensures 0 <= r < 6
  {
    if s == AT_60 then 1
    else if s == AT_120 then 2
    else if s == AT_180 then 3
    else if s == AT_240 then 4
    else if s == AT_300 then 5
    else 0
  }

  // The shaft: positions count sixths of a turn, over any number of turns.

  /** A sensor is on for half a turn from its edge on. */
  predicate On(edge: int, x: int) {
    (x - edge) % 6 < 3
  }

  /** The sensors of a shaft at position `x`; they sit a third of a turn apart. */
  function SensorsAt(x: int): Hall {
    Hall(On(-1, x), On(3, x), On(1, x))
  }

  /** How many sensors differ. */
  function Changes(g: Hall, h: Hall): nat {
    (if g.a != h.a then 1 else 0) + (if g.b != h.b then 1 else 0) + (if g.c != h.c then 1 else 0)
  }

  /** A step to the next position switches exactly one sensor, and the reading tells the position within the turn. */
  lemma SegmentIsPosition(x: int)
    ensures Changes(SensorsAt(x), SensorsAt(x + 1)) == 1
    ensures Segment(ReadSensors(SensorsAt(x))) == x % 6
  {
    var r := x % 6;
    SameEveryTurn(x / 6, r);
    SameEveryTurn(x / 6, r + 1);
    assert r == 0 || r == 1 || r == 2 || r == 3 || r == 4 || r == 5;
  }

  lemma SameEveryTurn(turns: int, x: int)
    ensures SensorsAt(6 * turns + x) == SensorsAt(x)
  {
    SameRest(turns, x + 1);
    SameRest(turns, x - 3);
    SameRest(turns, x - 1);
  }

  lemma SameRest(turns: int, x: int)
    ensures (6 * turns + x) % 6 == x % 6
  {
  }

  /** Readings that no position explains, all sensors on or all off, count as segment 0; every other has its own. */
  lemma SegmentIff(h: Hall, k: int)
    requires 0 <= k < 6
    ensures Segment(ReadSensors(h)) == k <==> h == SensorsAt(k) || (k == 0 && h.a == h.b == h.c)
  {
    SegmentIsPosition(k);
  }

  datatype Count = Count(segment: int, counter: int)

  /** The signed distance the code takes from segment `a` to segment `b`. */
  function Unwrap(a: int, b: int): int {
    var d := b - a;
    var d1 := if d > 2 then d - 6 else d;
    if d1 < -2 then d1 + 6 else d1
  }

  function Update(t: Count, s: Reading): Count {
    Count(Segment(s), t.counter + Unwrap(t.segment, Segment(s)))
  }

  function Run(t: Count, ss: seq<Reading>): Count {
    if ss == [] then t else Update(Run(t, ss[..|ss| - 1]), ss[|ss| - 1])
  }

  /** The distance taken from position `x` to position `y` is the true one exactly when that is between -2 and 3. */
  lemma UnwrapExact(x: int, y: int)
    ensures Unwrap(x % 6, y % 6) == y - x <==> -2 <= y - x <= 3
  {
  }

  /** The readings are those of a shaft that went through the positions; `path[0]` is where it was before. */
  ghost predicate Observed(path: seq<int>, ss: seq<Reading>) {
    |path| == |ss| + 1 && forall i :: 0 <= i < |ss| ==> ss[i] == ReadSensors(SensorsAt(path[i + 1]))
  }

  function Move(path: seq<int>, i: nat): int
    requires i + 1 < |path|
  {
    path[i + 1] - path[i]
  }

  /** The shaft moves between -2 and 3 segments from one reading to the next. */
  ghost predicate Slow(path: seq<int>) {
    forall i :: 0 <= i < |path| - 1 ==> -2 <= Move(path, i) <= 3
  }

  lemma {:induction false} SegmentAfter(t: Count, path: seq<int>, ss: seq<Reading>)
    requires Observed(path, ss) && t.segment == path[0] % 6
    ensures Run(t, ss).segment == path[|ss|] % 6
  {
    hide Segment, SensorsAt;
    SegmentIsPosition(path[|ss|]);
  }

  lemma {:induction false} CountsDisplacement(t: Count, path: seq<int>, ss: seq<Reading>)
    requires Observed(path, ss) && t.segment == path[0] % 6 && Slow(path)
    ensures Run(t, ss).counter - t.counter == path[|ss|] - path[0]
    decreases ss
  {
    hide Unwrap, Segment, SensorsAt;
    if ss != [] {
      var n := |ss| - 1;
      var p, q := path[..n + 1], ss[..n];
      assert forall i :: 0 <= i < n ==> Move(p, i) == Move(path, i);
      CountsDisplacement(t, p, q);
      SegmentAfter(t, p, q);
      assert -2 <= Move(path, n) <= 3;
      SegmentIsPosition(path[n + 1]);
      UnwrapExact(path[n], path[n + 1]);
    }
  }

  /** The counter shows the true displacement at every moment of a run exactly when the shaft is slow enough. */
  lemma {:induction false} CountsDisplacementIff(t: Count, path: seq<int>, ss: seq<Reading>)
    requires Observed(path, ss) && t.segment == path[0] % 6
    ensures (forall n :: 0 <= n <= |ss| ==> Run(t, ss[..n]).counter - t.counter == path[n] - path[0]) <==> Slow(path)
  {
    if Slow(path) {
      forall n | 0 <= n <= |ss|
        ensures Run(t, ss[..n]).counter - t.counter == path[n] - path[0]
      {
        var p := path[..n + 1];
        assert forall i :: 0 <= i < n ==> Move(p, i) == Move(path, i);
        CountsDisplacement(t, p, ss[..n]);
      }
    } else {
      var i :| 0 <= i < |path| - 1 && !(-2 <= Move(path, i) <= 3);
      FastIsMissed(t, path, ss, i);
    }
  }

  lemma FastIsMissed(t: Count, path: seq<int>, ss: seq<Reading>, i: nat)
    requires Observed(path, ss) && t.segment == path[0] % 6 && i < |ss| && !(-2 <= Move(path, i) <= 3)
    ensures Run(t, ss[..i + 1]).counter - Run(t, ss[..i]).counter != Move(path, i)
  {
    SegmentAfter(t, path[..i + 1], ss[..i]);
    hide Segment, SensorsAt;
    SegmentIsPosition(path[i + 1]);
    UnwrapExact(path[i], path[i + 1]);
    assert ss[..i + 1][..i] == ss[..i];
  }

  /** However fast the shaft turns, the count stays right modulo one turn. */
  lemma {:induction false} CountsModuloTurn(t: Count, ss: seq<Reading>)
    requires 0 <= t.segment < 6
    ensures (Run(t, ss).counter - t.counter - (Run(t, ss).segment - t.segment)) % 6 == 0
    ensures 0 <= Run(t, ss).segment < 6
    decreases ss
  {
    if ss != [] {
      CountsModuloTurn(t, ss[..|ss| - 1]);
    }
  }

  class Tachometer {
    var segment: int
    var counter: int

    ghost function State(): Count
      reads this
    {
      Count(segment, counter)
    }

    /** Sets the segment; the counter keeps what it held. */
    method Init(s: Reading)
      modifies this
      ensures State() == Count(Segment(s), old(counter))
    {
      segment := Segment(s);
    }

    method TachUpdate(s: Reading) returns (r: int)
      modifies this
      ensures State() == Update(old(State()), s) && r == counter
    {
      var newSegment := Segment(s);
      var diff := newSegment - segment;
      if diff > 2 {
        diff := diff - 6;
      }
      if diff < -2 {
        diff := diff + 6;
      }
      counter := counter + diff;
      segment := newSegment;
      r := counter;
    }
  }
}
