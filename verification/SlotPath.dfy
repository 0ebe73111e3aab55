/** The straight way an aircraft takes between two slots beside the leader, which the safety
    layers of lib/ff_core/follow.cpp do not look at. */
module SlotPath {
  import opened MachineWords
  import opened Follow

  function Minus(p: Offset, q: Offset): (d: Offset)
  {
    Offset(p.long - q.long, p.lat - q.lat, p.vert - q.vert)
  }

  function Dot(p: Offset, q: Offset): real
  {
    p.long * q.long + p.lat * q.lat + p.vert * q.vert
  }

  /** The point at share `s` of the straight way from `p` along `d`. */
  function OnTheWay(p: Offset, d: Offset, s: real): Offset
  {
    Offset(p.long + s * d.long, p.lat + s * d.lat, p.vert + s * d.vert)
  }

  /** The whole straight way from `p` to `q` keeps the distance from the leader. */
  ghost predicate ClearWay(p: Offset, q: Offset, minSep: real)
  {
    forall s: real :: 0.0 <= s <= 1.0 ==> ClearAt(p, Minus(q, p), minSep, s)
  }

  ghost predicate ClearAt(p: Offset, d: Offset, minSep: real, s: real)
  {
    !RootBelow(Distance2(OnTheWay(p, d, s)), minSep)
  }

  /** The condition on the two ends: both keep the distance, and so does the foot of the
      perpendicular from the leader if it lies between them. */
  predicate EndsClear(p: Offset, q: Offset, minSep: real)
  {
    var d := Minus(q, p);
    && !RootBelow(Distance2(p), minSep) && !RootBelow(Distance2(q), minSep)
    && (0.0 < -Dot(p, d) < Dot(d, d) ==>
          minSep <= 0.0 || Distance2(p) * Dot(d, d) - Dot(p, d) * Dot(p, d) >= minSep * minSep * Dot(d, d))
  }

  /** The squared distance along the way is a quadratic in the share. */
  lemma DistanceOnTheWay(p: Offset, d: Offset, s: real)
    ensures Distance2(OnTheWay(p, d, s)) == Distance2(p) + 2.0 * s * Dot(p, d) + s * s * Dot(d, d)
  {
    SquareOfSum(p.long, d.long, s);
    SquareOfSum(p.lat, d.lat, s);
    SquareOfSum(p.vert, d.vert, s);
    Spread(s, p.long * d.long, p.lat * d.lat, p.vert * d.vert);
    Spread(s * s, d.long * d.long, d.lat * d.lat, d.vert * d.vert);
    Twice(s, Dot(p, d));
    assert s * Dot(p, d) == s * (p.long * d.long) + s * (p.lat * d.lat) + s * (p.vert * d.vert);
    assert s * s * Dot(d, d) == s * s * (d.long * d.long) + s * s * (d.lat * d.lat) + s * s * (d.vert * d.vert);
  }

  lemma Twice(s: real, b: real)
    ensures 2.0 * s * b == 2.0 * (s * b)
  {}

  lemma SquareOfSum(x: real, d: real, s: real)
    ensures (x + s * d) * (x + s * d) == x * x + 2.0 * (s * (x * d)) + s * s * (d * d)
  {
    assert (s * d) * (s * d) == s * s * (d * d);
    assert x * (s * d) == s * (x * d);
  }

  lemma Spread(s: real, x: real, y: real, z: real)
    ensures s * (x + y + z) == s * x + s * y + s * z
  {}

  /** The way is clear exactly when its ends satisfy the condition. */
  lemma ClearWayIff(p: Offset, q: Offset, minSep: real)
    ensures ClearWay(p, q, minSep) <==> EndsClear(p, q, minSep)
  {
    hide ClearWay, EndsClear;
    if ClearWay(p, q, minSep) {
      ClearWayHasClearEnds(p, q, minSep);
    }
    if EndsClear(p, q, minSep) {
      ClearEndsClearTheWay(p, q, minSep);
    }
  }

  lemma EndsOfTheWay(p: Offset, q: Offset)
    ensures OnTheWay(p, Minus(q, p), 0.0) == p && OnTheWay(p, Minus(q, p), 1.0) == q
  {}

  lemma ClearWayHasClearEnds(p: Offset, q: Offset, minSep: real)
    requires ClearWay(p, q, minSep)
    ensures EndsClear(p, q, minSep)
  {
    hide Distance2, OnTheWay, Dot;
    var d := Minus(q, p);
    var a, b, c := Distance2(p), Dot(p, d), Dot(d, d);
    EndsOfTheWay(p, q);
    assert ClearAt(p, d, minSep, 0.0) && ClearAt(p, d, minSep, 1.0);
    if 0.0 < -b < c && minSep > 0.0 {
      var s := -b / c;
      FootIsLowest(a, b, c, s);
      DistanceOnTheWay(p, d, s);
      assert ClearAt(p, d, minSep, s);
      Scale(a + 2.0 * s * b + s * s * c, minSep * minSep, c);
    }
  }

  lemma ClearEndsClearTheWay(p: Offset, q: Offset, minSep: real)
    requires EndsClear(p, q, minSep)
    ensures ClearWay(p, q, minSep)
  {
    hide Distance2, OnTheWay, Dot;
    var d := Minus(q, p);
    var a, b, c := Distance2(p), Dot(p, d), Dot(d, d);
    EndsOfTheWay(p, q);
    DistanceOnTheWay(p, d, 1.0);
    DotIsSquare(d);
    forall s: real | 0.0 <= s <= 1.0
      ensures ClearAt(p, d, minSep, s)
    {
      if minSep > 0.0 {
        DistanceOnTheWay(p, d, s);
        QuadraticStaysAbove(a, b, c, minSep * minSep, s);
      }
    }
  }

  lemma DotIsSquare(d: Offset)
    ensures Dot(d, d) >= 0.0
  {}

  lemma FootIsLowest(a: real, b: real, c: real, s: real)
    requires 0.0 < -b < c && s == -b / c
    ensures 0.0 <= s <= 1.0 && (a + 2.0 * s * b + s * s * c) * c == a * c - b * b
  {
    assert s * c == -b;
    assert (a + 2.0 * s * b + s * s * c) * c == a * c + 2.0 * (s * c) * b + (s * c) * (s * c);
    ShareIsBetween(s, -b, c);
  }

  lemma ShareIsBetween(s: real, n: real, c: real)
    requires 0.0 < n < c && s * c == n
    ensures 0.0 <= s <= 1.0
  {
    ProductSign(s, c);
    assert (1.0 - s) * c == c - s * c;
    ProductSign(1.0 - s, c);
  }

  lemma Scale(x: real, y: real, c: real)
    requires x >= y && c >= 0.0
    ensures x * c >= y * c
  {
    assert (x - y) * c >= 0.0;
  }

  /** A quadratic that opens upwards stays above `m` on [0, 1] if it does at both ends and
      at its lowest point, should that lie between them. */
  lemma QuadraticStaysAbove(a: real, b: real, c: real, m: real, s: real)
    requires 0.0 <= s <= 1.0 && c >= 0.0 && a >= m && a + 2.0 * b + c >= m
    requires 0.0 < -b < c ==> a * c - b * b >= m * c
    ensures a + 2.0 * s * b + s * s * c >= m
  {
    if b >= 0.0 {
      Rising(b, c, s);
    } else if -b < c {
      AboveItsFoot(a, b, c, m, s);
    } else {
      Falling(b, c, s);
    }
  }

  lemma Rising(b: real, c: real, s: real)
    requires s >= 0.0 && b >= 0.0 && c >= 0.0
    ensures 2.0 * s * b + s * s * c >= 0.0
  {
    NotNegative(s, b);
    NotNegative(s, s);
    NotNegative(s * s, c);
  }

  lemma NotNegative(x: real, y: real)
    requires x >= 0.0 && y >= 0.0
    ensures x * y >= 0.0
  {}

  /** Before its lowest point it only falls towards the value at 1. */
  lemma Falling(b: real, c: real, s: real)
    requires s <= 1.0 && c >= 0.0 && -b >= c
    ensures 2.0 * s * b + s * s * c >= 2.0 * b + c
  {
    var r := 1.0 - s;
    NotNegative(r, -b - c);
    NotNegative(r, r);
    NotNegative(r * r, c);
    FallingParts(b, c, s, r);
  }

  lemma FallingParts(b: real, c: real, s: real, r: real)
    requires r == 1.0 - s
    ensures 2.0 * s * b + s * s * c == 2.0 * b + c + 2.0 * (r * (-b - c)) + r * r * c
  {
    assert s == 1.0 - r;
    assert s * b == b - r * b;
    assert s * s == 1.0 - 2.0 * r + r * r;
    assert s * s * c == c - 2.0 * (r * c) + r * r * c;
    assert r * (-b - c) == -(r * b) - r * c;
  }

  lemma AboveItsFoot(a: real, b: real, c: real, m: real, s: real)
    requires c > 0.0 && a * c - b * b >= m * c
    ensures a + 2.0 * s * b + s * s * c >= m
  {
    var f, g := a + 2.0 * s * b + s * s * c, s * c + b;
    CompletedSquare(a, b, c, s);
    assert g * g >= 0.0;
    assert (m - f) * c == m * c - f * c <= 0.0;
    ProductSign(m - f, c);
  }

  lemma CompletedSquare(a: real, b: real, c: real, s: real)
    ensures (a + 2.0 * s * b + s * s * c) * c == (s * c + b) * (s * c + b) + (a * c - b * b)
  {
    assert (s * c) * (s * c) == s * s * c * c;
    assert (2.0 * s * b) * c == 2.0 * ((s * c) * b);
    assert (s * c + b) * (s * c + b) == (s * c) * (s * c) + 2.0 * ((s * c) * b) + b * b;
  }

  // ---- One stick cannot lead through the leader -------------------------------------------------

  /** The two slots differ in this axis at most. */
  predicate OneAxis(p: Offset, q: Offset, axis: Axis)
  {
    && (axis != Long ==> p.long == q.long) && (axis != Lat ==> p.lat == q.lat) && (axis != Vert ==> p.vert == q.vert)
  }

  lemma DotOneAxis(p: Offset, q: Offset, axis: Axis)
    requires OneAxis(p, q, axis)
    ensures var d, x := Minus(q, p), Along(q, axis) - Along(p, axis);
            && Dot(p, d) == Along(p, axis) * x && Dot(d, d) == x * x
            && Distance2(p) == Beside2(p, axis) + Along(p, axis) * Along(p, axis)
            && Beside2(q, axis) == Beside2(p, axis)
  {}

  /** An accepted step along one axis keeps clear of the leader all the way. */
  lemma OneAxisIsClear(p: Offset, q: Offset, axis: Axis, minSep: real, minVSep: real)
    requires GeometrySane(p, minSep, minVSep) && CandidateOk(q, p, minSep, minVSep) && OneAxis(p, q, axis)
    ensures ClearWay(p, q, minSep)
  {
    hide Distance2, Dot, ClearWay, Minus;
    if minSep > 0.0 {
      hide CandidateOk;
      OneAxisFoot(p, q, axis, minSep, minVSep);
    }
    ClearWayIff(p, q, minSep);
  }

  lemma OneAxisFoot(p: Offset, q: Offset, axis: Axis, minSep: real, minVSep: real)
    requires CandidateOk(q, p, minSep, minVSep) && OneAxis(p, q, axis) && minSep > 0.0
    ensures var d := Minus(q, p);
            0.0 < -Dot(p, d) < Dot(d, d) ==>
              Distance2(p) * Dot(d, d) - Dot(p, d) * Dot(p, d) >= minSep * minSep * Dot(d, d)
  {
    hide Distance2, Beside2, Dot, CandidateOk;
    var d, a, x := Minus(q, p), Along(p, axis), Along(q, axis) - Along(p, axis);
    var b, m, pp, pd, dd := Beside2(p, axis), minSep * minSep, Distance2(p), Dot(p, d), Dot(d, d);
    DotOneAxis(p, q, axis);
    if (a > 0.0 && a + x < 0.0) || (a < 0.0 && a + x > 0.0) {
      AcrossIsBeside(p, q, axis, minSep, minVSep);
    }
    FootIsClear(b, a, x, m, pp, pd, dd);
  }

  /** An accepted slot on the other side is clear of the leader in the other two axes. */
  lemma AcrossIsBeside(p: Offset, q: Offset, axis: Axis, minSep: real, minVSep: real)
    requires CandidateOk(q, p, minSep, minVSep) && Beside2(q, axis) == Beside2(p, axis) && minSep > 0.0
    requires (Along(p, axis) > 0.0 && Along(q, axis) < 0.0) || (Along(p, axis) < 0.0 && Along(q, axis) > 0.0)
    ensures Beside2(p, axis) >= minSep * minSep
  {
    hide GeometrySane, Beside2, Along;
    assert !AxisSignLocked(q, p, axis, minSep);
  }

  lemma FootIsClear(b: real, a: real, x: real, m: real, pp: real, pd: real, dd: real)
    requires pp == b + a * a && pd == a * x && dd == x * x
    requires (a > 0.0 && a + x < 0.0) || (a < 0.0 && a + x > 0.0) ==> b >= m
    ensures 0.0 < -pd < dd ==> pp * dd - pd * pd >= m * dd
  {
    if 0.0 < -pd < dd {
      FootIsAcross(a, x);
      Scale(b, m, dd);
      FootOneAxis(b, a, x);
    }
  }

  /** The foot lies between the ends only if these are on different sides. */
  lemma FootIsAcross(a: real, x: real)
    requires 0.0 < -(a * x) < x * x
    ensures (a > 0.0 && a + x < 0.0) || (a < 0.0 && a + x > 0.0)
  {
    if x > 0.0 {
      ProductSign(-a, x);
      ProductSign(x + a, x);
      assert (x + a) * x == x * x + a * x;
    } else {
      ProductSign(a, -x);
      ProductSign(-x - a, -x);
      assert (-x - a) * -x == x * x + a * x;
    }
  }

  lemma FootOneAxis(b: real, a: real, x: real)
    ensures (b + a * a) * (x * x) - (a * x) * (a * x) == b * (x * x)
  {
    assert (b + a * a) * (x * x) == b * (x * x) + (a * a) * (x * x);
    assert (a * x) * (a * x) == (a * a) * (x * x);
  }

  /** No more than one axis of the slot follows a stick. */
  predicate OneStick(c: Config)
  {
    !(c.rcLong >= 1 && c.rcLat >= 1) && !(c.rcLong >= 1 && c.rcVert >= 1) && !(c.rcLat >= 1 && c.rcVert >= 1)
  }

  function Stick(c: Config): (axis: Axis)
  {
    if c.rcLat >= 1 then Lat else if c.rcVert >= 1 then Vert else Long
  }

  /** An axis without a stick is where it was configured. */
  predicate AsConfigured(v: View)
  {
    && (v.config.rcLong < 1 ==> v.good.long == v.config.ofsLong)
    && (v.config.rcLat < 1 ==> v.good.lat == v.config.ofsLat)
    && (v.config.rcVert < 1 ==> v.good.vert == v.config.ofsVert)
  }

  lemma NextAsConfigured(geo: Geo, v: View, e: Event, v': View)
    requires AsConfigured(v) && Next(geo, v, e, v')
    ensures AsConfigured(v')
  {
    hide ValidConfig, CandidateOk, LockStep, Flown, CourseStep, Due;
  }

  lemma {:induction false} AlwaysAsConfigured(geo: Geo, states: seq<View>, events: seq<Event>, k: nat)
    requires IsRun(geo, states, events) && AsConfigured(states[0]) && k < |states|
    ensures AsConfigured(states[k])
  {
    hide AsConfigured, Next;
    if k > 0 {
      AlwaysAsConfigured(geo, states, events, k - 1);
      assert NextAt(geo, states, events, k - 1);
      NextAsConfigured(geo, states[k - 1], events[k - 1], states[k]);
    }
  }

  /** As long as one stick at most moves the slot, no cycle of any run takes it along a way
      that is too close to the leader. */
  lemma EveryCycleIsClear(geo: Geo, states: seq<View>, events: seq<Event>, k: nat)
    requires IsRun(geo, states, events) && states[0] == INITIAL
    requires k < |events| && events[k].Cycled? && OneStick(states[k].config)
    ensures ClearWay(states[k].good, states[k + 1].good, states[k].config.minSep)
  {
    hide AsConfigured, ClearWay, Good, OneStick;
    InitialGood();
    AlwaysGood(geo, states, events, k);
    InitialAsConfigured();
    AlwaysAsConfigured(geo, states, events, k);
    AlwaysAsConfigured(geo, states, events, k + 1);
    CycleAt(geo, states, events, k);
    CycleIsClear(geo, states[k], events[k], states[k + 1]);
  }

  lemma InitialAsConfigured()
    ensures AsConfigured(INITIAL)
  {}

  lemma CycleAt(geo: Geo, states: seq<View>, events: seq<Event>, k: nat)
    requires IsRun(geo, states, events) && k < |events|
    ensures Next(geo, states[k], events[k], states[k + 1])
  {
    assert NextAt(geo, states, events, k);
  }

  lemma CycleIsClear(geo: Geo, v: View, e: Event, v': View)
    requires Good(v) && AsConfigured(v) && AsConfigured(v') && OneStick(v.config)
    requires e.Cycled? && Next(geo, v, e, v')
    ensures ClearWay(v.good, v'.good, v.config.minSep)
  {
    hide ClearWay, ValidConfig, CandidateOk, GeometrySane, LockStep, Flown, CourseStep, Due, Candidate, WithinConfig;
    assert v'.config == v.config && OneAxis(v.good, v'.good, Stick(v.config));
    if v'.good == v.good {
      StayingIsClear(v.good, v.config.minSep, v.config.minVSep);
    } else {
      OneAxisIsClear(v.good, v'.good, Stick(v.config), v.config.minSep, v.config.minVSep);
    }
  }

  lemma StayingIsClear(p: Offset, minSep: real, minVSep: real)
    requires GeometrySane(p, minSep, minVSep)
    ensures ClearWay(p, p, minSep)
  {
    hide Distance2;
    assert forall s: real :: OnTheWay(p, Minus(p, p), s) == p;
  }

  // ---- An accepted step through the leader -----------------------------------------------------

  /** A slot ahead on the right, both of whose axes follow a stick. */
  const CROSSED := DEFAULTS.(ofsLong := 10.0, ofsLat := 8.0, ofsVert := 0.0, rcLong := 1, rcLat := 2)

  lemma CrossedIsValid()
    ensures ValidConfig(CROSSED)
  {
    assert StaticOffset(CROSSED) == Offset(10.0, 8.0, 0.0);
    assert GeometrySane(Offset(10.0, 8.0, 0.0), 8.0, 13.0);
  }

  lemma BothSticksBack()
    ensures Candidate(CROSSED, map[1 := 1000, 2 := 1000]) == Offset(-10.0, -8.0, 0.0)
  {
    var rc: map<int, u16> := map[1 := 1000, 2 := 1000];
    assert AxisOffset(10.0, 1, rc) == -10.0;
    assert AxisOffset(8.0, 2, rc) == -8.0;
    assert AxisOffset(0.0, -1, rc) == 0.0;
  }

  lemma StraightAcross()
    ensures CandidateOk(Offset(-10.0, -8.0, 0.0), Offset(10.0, 8.0, 0.0), 8.0, 13.0)
    ensures ClearAt(Offset(10.0, 8.0, 0.0), Offset(-20.0, -16.0, 0.0), 8.0, 0.5) == false
    ensures OnTheWay(Offset(10.0, 8.0, 0.0), Offset(-20.0, -16.0, 0.0), 0.5) == Offset(0.0, 0.0, 0.0)
  {}

  /** The layers of the controller check the two slots only. This configuration is valid and
      accepts the slot behind on the left straight after the one ahead on the right: both
      are clear of the leader, and the way between them leads through it. */
  lemma AcceptedThroughLeader()
    ensures var before, after := StaticOffset(CROSSED), Candidate(CROSSED, map[1 := 1000, 2 := 1000]);
            && ValidConfig(CROSSED) && CandidateOk(after, before, CROSSED.minSep, CROSSED.minVSep)
            && OnTheWay(before, Minus(after, before), 0.5) == Offset(0.0, 0.0, 0.0)
            && !ClearWay(before, after, CROSSED.minSep)
  {
    hide ValidConfig, CandidateOk, Candidate, ClearAt, OnTheWay;
    CrossedIsValid();
    BothSticksBack();
    StraightAcross();
    assert Minus(Offset(-10.0, -8.0, 0.0), Offset(10.0, 8.0, 0.0)) == Offset(-20.0, -16.0, 0.0);
  }
}
