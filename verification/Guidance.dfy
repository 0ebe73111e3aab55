/** What the numbers mean that leave the follow controller of lib/ff_core/follow.cpp: where a
    waypoint lies beside the leader, how high, how fast the aircraft is told to fly, how often,
    and what the codes on the pilot's display stand for. */
module Guidance {
  import opened MachineWords
  import opened Options
  import opened Follow
  import Peers = PeerTable

  // ---- Where a waypoint lies ----------------------------------------------------------------

  /** The sea level of home: the controller's altitude is the own fix's height over it. */
  function Home(w: World): (h: real)
  {
    w.fix.alt as real - w.fc.altitudeCm as real / 100.0
  }

  /** Every waypoint is as far above the leader as the slot says, measured from home, but
      never below the configured floor. */
  lemma AboveLeader(geo: Geo, v: View, w: World, v': View, leader: Option<Peers.Peer>, flown: Option<Waypoint>)
    requires Cycle(geo, v, w, v', leader, flown) && flown.Some?
    ensures leader.Some?
    ensures var slot, floor := Round((leader.value.alt as real - Home(w) + v'.good.vert) * 100.0), Round(v.config.minAlt * 100.0);
            flown.value.altCm == if slot < floor then floor else slot
  {
    hide LockStep, OffsetStep, CourseStep, CourseFlown, TooFar, Heading, Round;
    var p, vert := leader.value, v'.good.vert;
    assert AltitudeCm(w, p, vert) == (p.alt as real - Home(w) + vert) * 100.0;
  }

  /** The height of a waypoint over the leader, when the floor does not matter: the vertical
      slot, to the nearest centimetre. */
  lemma HeightOverLeader(geo: Geo, v: View, w: World, v': View, leader: Option<Peers.Peer>, flown: Option<Waypoint>)
    requires Cycle(geo, v, w, v', leader, flown) && flown.Some?
    requires flown.value.altCm > Round(v.config.minAlt * 100.0)
    ensures leader.Some?
    ensures var over := flown.value.altCm as real - (leader.value.alt as real - Home(w)) * 100.0;
            v'.good.vert * 100.0 - 0.5 <= over <= v'.good.vert * 100.0 + 0.5
  {
    hide Cycle, Round;
    AboveLeader(geo, v, w, v', leader, flown);
  }

  /** The course is the leader's if it moves fast enough, the last one known if not. */
  lemma CourseIs(geo: Geo, v: View, w: World, v': View, leader: Option<Peers.Peer>, flown: Option<Waypoint>)
    requires Cycle(geo, v, w, v', leader, flown) && flown.Some?
    ensures leader.Some?
    ensures var own := leader.value.course as real / 10.0;
            && (leader.value.speed >= Round(v.config.minCourseSpeed * 100.0) ==> v'.course == Some(own))
            && (leader.value.speed < Round(v.config.minCourseSpeed * 100.0) ==> v'.course == v.course)
  {
    hide LockStep, OffsetStep, TooFar, Heading, Round;
  }

  /** How far a point so far north and east lies ahead on a course of this cosine and sine ... */
  function Ahead(north: real, east: real, c: real, s: real): (ahead: real)
  {
    north * c + east * s
  }

  /** ... and how far to the right of it. */
  function Right(north: real, east: real, c: real, s: real): (right: real)
  {
    east * c - north * s
  }

  /** The formula that places a slot does what it is for, up to the grid of coordinates: the
      point lies where going `long` metres ahead and `lat` metres to the right leads, within
      `grid` metres to the north and to the east. */
  ghost predicate Places(geo: Geo, sin: real -> real, cos: real -> real, grid: real)
  {
    forall at: Point, course: real, long: real, lat: real ::
      PlacesAt(geo, sin, cos, grid, at, course, long, lat)
  }

  predicate PlacesAt(geo: Geo, sin: real -> real, cos: real -> real, grid: real, at: Point, course: real, long: real,
                     lat: real)
  {
    var (north, east) := geo.northEast(at, geo.project(at, course, long, lat));
    Led(long, lat, cos(course), sin(course), north, east, grid)
  }

  predicate Led(long: real, lat: real, c: real, s: real, north: real, east: real, grid: real)
  {
    Abs(north - (long * c - lat * s)) <= grid && Abs(east - (long * s + lat * c)) <= grid
  }

  /** Seen from the leader, every waypoint lies where the slot says: so far ahead along its
      course and so far to the right of it. */
  lemma BesideLeader(geo: Geo, sin: real -> real, cos: real -> real, grid: real, v: View, w: World, v': View,
                     leader: Option<Peers.Peer>, flown: Option<Waypoint>)
    requires Cycle(geo, v, w, v', leader, flown) && flown.Some?
    requires Places(geo, sin, cos, grid) && forall x: real :: sin(x) * sin(x) + cos(x) * cos(x) == 1.0
    ensures leader.Some?
    ensures var p := leader.value;
            var course := if v'.course.Some? then v'.course.value else p.course as real / 10.0;
            var (north, east) := geo.northEast(Point(p.lat, p.lon), flown.value.at);
            && Abs(Ahead(north, east, cos(course), sin(course)) - v'.good.long) <= 2.0 * grid
            && Abs(Right(north, east, cos(course), sin(course)) - v'.good.lat) <= 2.0 * grid
  {
    hide Cycle, Led, Ahead, Right, Abs;
    PlacedAt(geo, v, w, v', leader, flown);
    var p, o := leader.value, v'.good;
    var course := if v'.course.Some? then v'.course.value else p.course as real / 10.0;
    assert PlacesAt(geo, sin, cos, grid, Point(p.lat, p.lon), course, o.long, o.lat);
    var (north, east) := geo.northEast(Point(p.lat, p.lon), flown.value.at);
    LedThere(o.long, o.lat, cos(course), sin(course), north, east, grid);
  }

  lemma PlacedAt(geo: Geo, v: View, w: World, v': View, leader: Option<Peers.Peer>, flown: Option<Waypoint>)
    requires Cycle(geo, v, w, v', leader, flown) && flown.Some?
    ensures leader.Some?
    ensures var p := leader.value;
            var course := if v'.course.Some? then v'.course.value else p.course as real / 10.0;
            flown.value.at == geo.project(Point(p.lat, p.lon), course, v'.good.long, v'.good.lat)
  {
    hide LockStep, TooFar, Heading, Round, AltitudeCm, OffsetStep, CourseStep, FloorCm;
  }

  lemma LedThere(long: real, lat: real, c: real, s: real, north: real, east: real, grid: real)
    requires s * s + c * c == 1.0 && Led(long, lat, c, s, north, east, grid)
    ensures Abs(Ahead(north, east, c, s) - long) <= 2.0 * grid && Abs(Right(north, east, c, s) - lat) <= 2.0 * grid
  {
    var n, e := long * c - lat * s, long * s + lat * c;
    LedExactly(long, lat, c, s);
    hide Ahead, Right, Abs;
    NotAboveOne(s, c);
    NotAboveOne(c, s);
    Within(north, east, n, e, c, s, grid);
    Within(east, -north, e, -n, c, s, grid);
    AheadOrRight(north, east, c, s);
    AheadOrRight(n, e, c, s);
    AbsOfNegative(north, n);
  }

  lemma AbsOfNegative(a: real, b: real)
    ensures Abs(-a - -b) == Abs(a - b)
  {}

  lemma AheadOrRight(north: real, east: real, c: real, s: real)
    ensures Ahead(east, -north, c, s) == Right(north, east, c, s)
  {}

  lemma LedExactly(long: real, lat: real, c: real, s: real)
    requires s * s + c * c == 1.0
    ensures var n, e := long * c - lat * s, long * s + lat * c; Ahead(n, e, c, s) == long && Right(n, e, c, s) == lat
  {
    var n, e := long * c - lat * s, long * s + lat * c;
    assert n * c + e * s == long * (s * s + c * c);
    assert e * c - n * s == lat * (s * s + c * c);
  }

  lemma Within(north: real, east: real, n: real, e: real, c: real, s: real, grid: real)
    requires Abs(north - n) <= grid && Abs(east - e) <= grid && -1.0 <= c <= 1.0 && -1.0 <= s <= 1.0
    ensures Abs(Ahead(north, east, c, s) - Ahead(n, e, c, s)) <= 2.0 * grid
  {
    hide Ahead, Abs;
    var dn, de := north - n, east - e;
    var x, y := dn * c, de * s;
    assert Abs(x) <= grid by {
      Shrunk(dn, c, grid);
    }
    assert Abs(y) <= grid by {
      Shrunk(de, s, grid);
    }
    var apart := Ahead(north, east, c, s) - Ahead(n, e, c, s);
    assert apart == x + y by {
      AheadApart(north, east, n, e, c, s, dn, de);
    }
    AbsOfSum(x, y, apart, grid);
  }

  lemma AheadApart(north: real, east: real, n: real, e: real, c: real, s: real, dn: real, de: real)
    requires dn == north - n && de == east - e
    ensures Ahead(north, east, c, s) - Ahead(n, e, c, s) == dn * c + de * s
  {}

  lemma AbsOfSum(x: real, y: real, sum: real, grid: real)
    requires Abs(x) <= grid && Abs(y) <= grid && sum == x + y
    ensures Abs(sum) <= 2.0 * grid
  {}

  lemma NotAboveOne(s: real, c: real)
    requires s * s + c * c == 1.0
    ensures -1.0 <= s <= 1.0
  {
    assert c * c >= 0.0;
    if s > 1.0 {
      Squared(1.0, s);
    } else if s < -1.0 {
      Squared(1.0, -s);
    }
  }

  lemma Shrunk(d: real, s: real, grid: real)
    requires Abs(d) <= grid && -1.0 <= s <= 1.0
    ensures Abs(d * s) <= grid
  {
    ScaledInOrder(Abs(d), s, 1.0);
    ScaledInOrder(Abs(d), -s, 1.0);
    assert d * s == Abs(d) * s || d * s == -(Abs(d) * s);
  }

  /** A slot that is flown keeps its distance from the leader, and is not stacked on it. */
  lemma SlotKeepsClear(geo: Geo, v: View, w: World, v': View, leader: Option<Peers.Peer>, flown: Option<Waypoint>)
    requires Good(v) && Cycle(geo, v, w, v', leader, flown) && flown.Some?
    ensures var o, c := v'.good, v.config;
            && o.long * o.long + o.lat * o.lat + o.vert * o.vert >= c.minSep * c.minSep
            && (o.long * o.long + o.lat * o.lat < 0.25 ==> o.vert >= c.minVSep || -o.vert >= c.minVSep)
  {
    hide Cycle, OffsetStep, GeometrySane, ValidConfig, WithinConfig;
    EveryWaypointSafe(geo, v, w, v', leader, flown);
    NotNegative(v.config);
    SaneMeans(v'.good, v.config.minSep, v.config.minVSep);
  }

  lemma SaneMeans(o: Offset, minSep: real, minVSep: real)
    requires GeometrySane(o, minSep, minVSep) && minSep >= 0.0
    ensures o.long * o.long + o.lat * o.lat + o.vert * o.vert >= minSep * minSep
    ensures o.long * o.long + o.lat * o.lat < 0.25 ==> o.vert >= minVSep || -o.vert >= minVSep
  {}

  lemma NotNegative(c: Config)
    requires ValidConfig(c)
    ensures c.minSep >= 0.0
  {}

  // ---- Whom to follow, and where --------------------------------------------------------------

  /** A peer can be followed if it is known, has a fix, and was heard from with a position no
      longer ago than the timeout, however often the clock has wrapped. */
  lemma FollowableIff(p: Peers.Peer, heard: nat, now: nat, timeout: u32)
    requires heard <= now < heard + TWO32 && p.lastPosition == heard % TWO32
    ensures Followable(p, now % TWO32, timeout) <==> p.valid && HasFix(p.flags) && now - heard <= timeout
  {
    Peers.AgeIs(heard, now);
  }

  /** A slot is sane if it keeps the minimum separation in space, and the vertical one when it
      is less than half a metre beside the leader. */
  lemma SaneIff(o: Offset, minSep: real, minVSep: real)
    requires minSep >= 0.0
    ensures GeometrySane(o, minSep, minVSep)
            <==> && o.long * o.long + o.lat * o.lat + o.vert * o.vert >= minSep * minSep
                 && (o.long * o.long + o.lat * o.lat < 0.25 ==> o.vert >= minVSep || -o.vert >= minVSep)
  {}

  /** Strictly on different sides of the leader. */
  predicate Across(a: Offset, b: Offset, axis: Axis)
  {
    Along(a, axis) < 0.0 < Along(b, axis) || Along(b, axis) < 0.0 < Along(a, axis)
  }

  /** Both pass the leader, on the other two axes, by the minimum separation. */
  predicate PassClear(a: Offset, b: Offset, axis: Axis, minSep: real)
  {
    Beside2(a, axis) >= minSep * minSep && Beside2(b, axis) >= minSep * minSep
  }

  /** A cycle with a leader and a fix takes the slot of the sticks exactly if it is sane and
      wherever it changes sides both slots are clear of the leader; else the slot stays. */
  lemma SlotIsTakenIff(geo: Geo, v: View, w: World, v': View, leader: Option<Peers.Peer>, flown: Option<Waypoint>)
    requires Good(v) && Cycle(geo, v, w, v', leader, flown) && w.fc.gcsNav && leader.Some? && w.fix.valid
    ensures var c, o := v.config, Candidate(v.config, w.fc.rc);
            v'.good == if GeometrySane(o, c.minSep, c.minVSep)
                          && forall axis: Axis :: Across(o, v.good, axis) ==> PassClear(o, v.good, axis, c.minSep)
                       then o else v.good
  {
    hide LockStep, Flown, CourseStep, Candidate, GeometrySane, ValidConfig;
    NotNegative(v.config);
    AcceptedIff(Candidate(v.config, w.fc.rc), v.good, v.config.minSep, v.config.minVSep);
  }

  lemma AcceptedIff(candidate: Offset, reference: Offset, minSep: real, minVSep: real)
    requires minSep >= 0.0
    ensures CandidateOk(candidate, reference, minSep, minVSep)
            <==> GeometrySane(candidate, minSep, minVSep)
                 && forall axis: Axis :: Across(candidate, reference, axis) ==> PassClear(candidate, reference, axis, minSep)
  {
    hide GeometrySane, CandidateOk, Across, PassClear, AxisSignLocked;
    forall axis: Axis
      ensures AxisSignLocked(candidate, reference, axis, minSep)
              <==> Across(candidate, reference, axis) && !PassClear(candidate, reference, axis, minSep)
    {
      LockedIff(candidate, reference, axis, minSep);
    }
    OkIff(candidate, reference, minSep, minVSep);
  }

  lemma LockedIff(candidate: Offset, reference: Offset, axis: Axis, minSep: real)
    requires minSep >= 0.0
    ensures AxisSignLocked(candidate, reference, axis, minSep)
            <==> Across(candidate, reference, axis) && !PassClear(candidate, reference, axis, minSep)
  {
    hide Beside2;
    BesideIsSquare(candidate, axis);
    BesideIsSquare(reference, axis);
    BelowIff(Beside2(candidate, axis), minSep);
    BelowIff(Beside2(reference, axis), minSep);
  }

  lemma BelowIff(m2: real, b: real)
    requires m2 >= 0.0 && b >= 0.0
    ensures RootBelow(m2, b) <==> m2 < b * b
  {}

  lemma BesideIsSquare(o: Offset, axis: Axis)
    ensures Beside2(o, axis) >= 0.0
  {}

  lemma OkIff(candidate: Offset, reference: Offset, minSep: real, minVSep: real)
    ensures CandidateOk(candidate, reference, minSep, minVSep)
            <==> GeometrySane(candidate, minSep, minVSep)
                 && forall axis: Axis :: !AxisSignLocked(candidate, reference, axis, minSep)
  {
    hide GeometrySane, AxisSignLocked;
    forall axis: Axis | CandidateOk(candidate, reference, minSep, minVSep)
      ensures !AxisSignLocked(candidate, reference, axis, minSep)
    {
      assert axis == Long || axis == Lat || axis == Vert;
    }
  }

  // ---- Sticks -------------------------------------------------------------------------------

  /** A stick at its ends puts the axis where it was configured, on either side, in the middle
      to zero, and in between in proportion; without a stick it stays as configured. */
  lemma StickMovesAxis(configured: real, channel: i16, rc: map<int, u16>)
    ensures var v, gap := AxisOffset(configured, channel, rc), if configured < 0.0 then -configured else configured;
            if channel < 1 || channel !in rc then v == configured
            else
              var us := rc[channel];
              && (us <= 1000 ==> v == -gap) && (us >= 2000 ==> v == gap) && (us == 1500 ==> v == 0.0)
              && (1000 <= us <= 2000 ==> 500.0 * v == (us as real - 1500.0) * gap)
  {}

  function StickOf(c: Config, axis: Axis): (channel: i16)
  {
    match axis
    case Long => c.rcLong
    case Lat => c.rcLat
    case Vert => c.rcVert
  }

  /** Each stick moves its own axis and no other. */
  lemma SticksMoveTheirAxes(c: Config, rc: map<int, u16>, axis: Axis)
    ensures Along(Candidate(c, rc), axis) == AxisOffset(Along(StaticOffset(c), axis), StickOf(c, axis), rc)
  {}

  /** Before take-off the sticks agree with the configuration if every axis that has one is
      within five centimetres of it. */
  lemma SticksAgreeIff(o: Offset, c: Config)
    ensures MatchesStatic(o, c)
            <==> forall axis: Axis :: StickOf(c, axis) != -1 ==>
                   -0.05 <= Along(o, axis) - Along(StaticOffset(c), axis) <= 0.05
  {
    if forall axis: Axis :: StickOf(c, axis) != -1 ==> -0.05 <= Along(o, axis) - Along(StaticOffset(c), axis) <= 0.05 {
      assert StickOf(c, Long) == c.rcLong && StickOf(c, Lat) == c.rcLat && StickOf(c, Vert) == c.rcVert;
    }
  }

  // ---- Speed ---------------------------------------------------------------------------------

  /** The autothrottle is engaged on an airplane whose pilot has not switched it off. */
  lemma EngagedIff(c: Config, fc: Fc)
    ensures Engaged(c, fc)
            <==> fc.platform == Airplane
                 && (c.enableChannel >= 1 && c.enableChannel in fc.rc ==>
                       c.enableMinUs <= fc.rc[c.enableChannel] && fc.rc[c.enableChannel] <= c.enableMaxUs)
  {}

  /** The speed is the leader's and what it takes to close up, between the limits; and the
      limits hold whatever the formula says. */
  lemma SpeedWithinLimits(geo: Geo, c: Config, p: Peers.Peer, target: Point, course: real, fix: Fix)
    requires c.minSpeed <= c.maxSpeed
    ensures var speed := TargetSpeed(geo, c, p, target, course, fix);
            var exact := p.speed as real + geo.closingSpeed(p, target, course, fix.at, c.accel);
            && c.minSpeed * 100.0 - 0.5 <= speed as real <= c.maxSpeed * 100.0 + 0.5
            && (c.minSpeed * 100.0 <= exact <= c.maxSpeed * 100.0 ==> exact - 0.5 <= speed as real <= exact + 0.5)
  {
    hide Round;
  }

  /** The law of `geo.closingSpeed`: the speed from which braking with the configured
      deceleration covers the lag, that is how far the slot lies ahead along the course. */
  ghost predicate Brakes(geo: Geo, sin: real -> real, cos: real -> real)
  {
    forall p: Peers.Peer, target: Point, course: real, at: Point, accel: i16 ::
      accel >= 0 ==>
        BrakesAt(geo.closingSpeed(p, target, course, at, accel), LagCm(geo, sin, cos, target, course, at), accel)
  }

  function LagCm(geo: Geo, sin: real -> real, cos: real -> real, target: Point, course: real, at: Point): (lag: real)
  {
    var (north, east) := geo.northEast(at, target);
    (north * cos(course) + east * sin(course)) * 100.0
  }

  predicate BrakesAt(speed: real, lag: real, accel: i16)
  {
    speed * speed == 2.0 * accel as real * Abs(lag) && (lag >= 0.0 ==> speed >= 0.0) && (lag <= 0.0 ==> speed <= 0.0)
  }

  /** In its slot the follower flies as fast as the leader, within the limits; and the further
      it lags behind the faster, the further it is ahead the slower. */
  lemma SpeedFollowsLag(geo: Geo, sin: real -> real, cos: real -> real, c: Config, p: Peers.Peer, target: Point,
                        course: real, here: Fix, ahead: Fix)
    requires Brakes(geo, sin, cos) && c.accel >= 0 && c.minSpeed <= c.maxSpeed
    requires LagCm(geo, sin, cos, target, course, here.at) >= LagCm(geo, sin, cos, target, course, ahead.at)
    ensures TargetSpeed(geo, c, p, target, course, here) >= TargetSpeed(geo, c, p, target, course, ahead)
    ensures LagCm(geo, sin, cos, target, course, here.at) == 0.0 ==>
              TargetSpeed(geo, c, p, target, course, here)
              == Round(Clamp(p.speed as real, c.minSpeed * 100.0, c.maxSpeed * 100.0))
  {
    hide Round, LagCm, Clamp;
    var x, y := geo.closingSpeed(p, target, course, here.at, c.accel), geo.closingSpeed(p, target, course, ahead.at, c.accel);
    var d, e := LagCm(geo, sin, cos, target, course, here.at), LagCm(geo, sin, cos, target, course, ahead.at);
    assert BrakesAt(x, d, c.accel) && BrakesAt(y, e, c.accel);
    BrakesInOrder(x, d, y, e, c.accel);
    ClampInOrder(p.speed as real + y, p.speed as real + x, c.minSpeed * 100.0, c.maxSpeed * 100.0);
  }

  lemma BrakesInOrder(x: real, d: real, y: real, e: real, accel: i16)
    requires BrakesAt(x, d, accel) && BrakesAt(y, e, accel) && d >= e && accel >= 0
    ensures x >= y
  {
    if x < y {
      if d >= 0.0 && e >= 0.0 {
        ScaledInOrder(2.0 * accel as real, e, d);
        Squared(x, y);
      } else if d <= 0.0 && e <= 0.0 {
        ScaledInOrder(2.0 * accel as real, -d, -e);
        Squared(-y, -x);
      }
    }
  }

  lemma ScaledInOrder(k: real, a: real, b: real)
    requires k >= 0.0 && a <= b
    ensures k * a <= k * b
  {}

  lemma Squared(a: real, b: real)
    requires 0.0 <= a < b
    ensures a * a < b * b
  {
    assert b * b - a * a == (b - a) * (b + a);
    ProductSign(b - a, b + a);
  }

  lemma ClampInOrder(a: real, b: real, lo: real, hi: real)
    requires a <= b && lo <= hi
    ensures Round(Clamp(a, lo, hi)) <= Round(Clamp(b, lo, hi))
  {
    RoundInOrder(Clamp(a, lo, hi), Clamp(b, lo, hi));
  }

  lemma RoundInOrder(a: real, b: real)
    requires a <= b
    ensures Round(a) <= Round(b)
  {
    FloorInOrder(a + 0.5, b + 0.5);
    FloorInOrder(-b + 0.5, -a + 0.5);
    assert a < 0.0 ==> Round(a) <= 0;
    assert b >= 0.0 ==> Round(b) >= 0;
  }

  lemma FloorInOrder(a: real, b: real)
    requires a <= b
    ensures a.Floor <= b.Floor
  {}

  // ---- How often -------------------------------------------------------------------------------

  /** After a cycle the next call that does anything is the first one a whole period of
      `emitHz` later, on a clock that wraps. */
  lemma NextCycleIff(geo: Geo, v: View, w: World, v': View, leader: Option<Peers.Peer>, flown: Option<Waypoint>, later: nat)
    requires Cycle(geo, v, w, v', leader, flown) && later < 0x8000_0000
    ensures v.config.emitHz > 0
    ensures Due(v', (w.now + later) % TWO32) <==> later >= 1000 / v.config.emitHz
  {
    hide LockStep, Flown, OffsetStep, CourseStep;
    var period := 1000 / v.config.emitHz;
    assert 0 <= period <= 1000 by {
      PeriodAtMost(v.config.emitHz);
    }
    ClockDifference(w.now, later, period);
  }

  lemma PeriodAtMost(hz: u16)
    requires hz > 0
    ensures 0 <= 1000 / hz <= 1000
  {
    var q, r := 1000 / hz, 1000 % hz;
    assert 1000 == q * hz + r;
    NotLess(q, hz);
  }

  lemma NotLess(q: int, n: int)
    requires n >= 1
    ensures q >= 0 ==> q * n >= q
    ensures q < 0 ==> q * n <= -n
  {
    if q >= 0 {
      assert q * (n - 1) >= 0;
    } else {
      assert (-1 - q) * n >= 0;
    }
  }

  lemma ClockDifference(now: u32, later: nat, period: nat)
    requires later < 0x8000_0000 && period <= 1000
    ensures ToI32(Sub32((now + later) % TWO32, Add32(now, period))) == later - period
  {
    var sum := now + later;
    assert sum % TWO32 == if sum < TWO32 then sum else sum - TWO32;
  }

  // ---- What is shown ---------------------------------------------------------------------------

  lemma StatusCodes()
    ensures StatusValue(Idle) == 0 && StatusValue(Acquiring) == 1 && StatusValue(Locked) == 2 && StatusValue(Holding) == 3
  {}

  /** The condition of a cycle that steers, worst first: 3 if the slot is frozen or a stick has
      pulled it below the floor, 2 if the waypoint is too far away, 1 if the configured slot is
      below the floor as well, else 0. */
  lemma ConditionTells(geo: Geo, v: View, w: World, p: Peers.Peer)
    ensures var o, code := OffsetStep(v, w), SteerCondition(geo, v, w, p);
            var floor := Round(v.config.minAlt * 100.0);
            var below := Round(AltitudeCm(w, p, o.vert)) < floor;
            var belowAnyway := Round(AltitudeCm(w, p, v.config.ofsVert)) < floor;
            var frozen := !CandidateOk(Candidate(v.config, w.fc.rc), v.good, v.config.minSep, v.config.minVSep);
            var course := CourseFlown(CourseStep(v, p), p);
            var far := geo.distance(w.fix.at, geo.project(At(p), course, o.long, o.lat)) > v.config.maxTargetDist;
            && (code == 3 <==> frozen || (below && !belowAnyway))
            && (code == 2 <==> !(frozen || (below && !belowAnyway)) && far)
            && (code == 1 <==> !(frozen || (below && !belowAnyway)) && !far && below)
            && (code == 0 <==> !frozen && !far && !below)
  {
    hide CandidateOk, Round, AltitudeCm, Candidate, CourseStep, CourseFlown, Heading, OffsetStep;
  }

  /** Before the gate opens the condition is 3 exactly if an unarmed aircraft has sticks whose
      slot cannot be taken or is not the configured one; without leader or fix it is 0. */
  lemma ConditionWaiting(geo: Geo, v: View, w: World, leader: Option<Peers.Peer>)
    requires !w.fc.gcsNav || leader == None || !w.fix.valid
    ensures var c, o := v.config, Candidate(v.config, w.fc.rc);
            Condition(geo, v, w, leader)
            == if && !w.fc.gcsNav && !w.fc.armed && (exists axis: Axis :: StickOf(c, axis) != -1)
                  && !(CandidateOk(o, v.good, c.minSep, c.minVSep)
                       && forall axis: Axis :: StickOf(c, axis) != -1 ==>
                            -0.05 <= Along(o, axis) - Along(StaticOffset(c), axis) <= 0.05)
               then 3 else 0
  {
    hide CandidateOk, Candidate, MatchesStatic, Along, StaticOffset;
    var c := v.config;
    SticksAgreeIff(Candidate(c, w.fc.rc), c);
    assert StickOf(c, Long) == c.rcLong && StickOf(c, Lat) == c.rcLat && StickOf(c, Vert) == c.rcVert;
  }

  /** The heading is sent exactly with a waypoint that has one, and while the flight controller
      holds headings. */
  lemma HeadingIsSentIff(geo: Geo, v: View, w: World, state: LockState, leader: Option<Peers.Peer>, d: Display, deg: int)
    ensures SetHead(deg) in CycleCommands(geo, v, w, state, leader, d)
            <==> var flown := Flown(geo, v, w, leader);
                 flown.Some? && w.fc.headingHold && deg == flown.value.headingDeg != 0
  {
    hide WaypointFor, TooFar, OffsetStep, CourseStep, CourseFlown, SteerCondition, Condition, BailCommands, EmitCommands;
    var c := v.config;
    BailSendsNoHeading(c, d, state, Condition(geo, v, w, leader), w.now, deg);
    if leader.Some? {
      var p := leader.value;
      var course := CourseFlown(CourseStep(v, p), p);
      var point := WaypointFor(geo, c, w, p, OffsetStep(v, w), course);
      BailSendsNoHeading(c, d, state, SteerCondition(geo, v, w, p), w.now, deg);
      EmitSendsHeading(geo, c, w, point, p, course, state, SteerCondition(geo, v, w, p), d, deg);
    }
  }

  lemma BailSendsNoHeading(c: Config, d: Display, state: LockState, code: nat, now: u32, deg: int)
    ensures SetHead(deg) !in BailCommands(c, d, state, code, now)
  {
    hide UpToDate, StatusValue;
  }

  lemma EmitSendsHeading(geo: Geo, c: Config, w: World, point: Waypoint, p: Peers.Peer, course: real, state: LockState,
                         code: nat, d: Display, deg: int)
    ensures SetHead(deg) in EmitCommands(geo, c, w, point, p, course, state, code, d)
            <==> w.fc.headingHold && deg == point.headingDeg != 0
  {
    hide UpToDate, StatusValue, Engaged, TargetSpeed, Round;
    var before := DebugCommands(geo, c, point, w.fix)
      + EngageCommands(c, d.engage, Engaged(c, w.fc), TargetSpeed(geo, c, p, point.at, course, w.fix), w.now);
    var fly, after := FlyCommands(point, w.fc.headingHold), StatusCommands(c, d.status, d.condition, state, code, w.now);
    assert SetHead(deg) !in before && SetHead(deg) !in after;
    assert SetHead(deg) in before + fly + after <==> SetHead(deg) in fly;
  }

  /** In debug mode a cycle that flies writes four variables first: how far north and east its
      waypoint lies of the aircraft, in centimetres, and its height and heading. */
  lemma DebugTells(geo: Geo, v: View, w: World, state: LockState, leader: Option<Peers.Peer>, d: Display)
    requires v.config.debug && Flown(geo, v, w, leader).Some?
    ensures var flown, commands := Flown(geo, v, w, leader).value, CycleCommands(geo, v, w, state, leader, d);
            var (north, east) := geo.northEast(w.fix.at, flown.at);
            && |commands| > 4 && commands[0] == Gvar(0, Round(north * 100.0)) && commands[1] == Gvar(1, Round(east * 100.0))
            && commands[2] == Gvar(2, flown.altCm) && commands[3] == Gvar(3, flown.headingDeg)
  {
    hide WaypointFor, TooFar, OffsetStep, CourseStep, CourseFlown, SteerCondition, Engaged, TargetSpeed, Round,
         UpToDate, StatusValue, EngageCommands, StatusCommands;
  }

  // ---- Configurations ----------------------------------------------------------------------------

  function Variables(c: Config): (indices: seq<i16>)
  {
    [c.statusGvar, c.conditionGvar, c.speedGvar, c.engageGvar]
  }

  function Channels(c: Config): (channels: seq<i16>)
  {
    [c.rcLong, c.rcLat, c.rcVert, c.enableChannel]
  }

  /** Different, unless both are switched off. */
  predicate AllApart(s: seq<i16>)
  {
    forall i, j :: 0 <= i < j < |s| && s[i] != -1 ==> s[i] != s[j]
  }

  /** Which configurations are accepted. */
  lemma ValidIff(c: Config)
    ensures ValidConfig(c)
            <==> && c.emitHz > 0 && c.peerTimeout > 0
                 && c.minSep >= 0.0 && c.minVSep >= 0.0 && c.minAlt >= 0.0 && c.maxTargetDist > 0.0
                 && c.minCourseSpeed >= 0.0 && c.accel >= 0
                 && (forall i :: 0 <= i < 4 ==> -1 <= Variables(c)[i] <= 7) && AllApart(Variables(c))
                 && (forall i :: 0 <= i < 4 ==> Channels(c)[i] == -1 || 1 <= Channels(c)[i] <= 16) && AllApart(Channels(c))
                 && c.enableMinUs < c.enableMaxUs
                 && (c.enableChannel == -1 || 0.0 < c.minSpeed < c.maxSpeed)
                 && GeometrySane(Offset(c.ofsLong, c.ofsLat, c.ofsVert), c.minSep, c.minVSep)
  {
    hide GeometrySane;
    var g, h := Variables(c), Channels(c);
    assert g[0] == c.statusGvar && g[1] == c.conditionGvar && g[2] == c.speedGvar && g[3] == c.engageGvar;
    assert h[0] == c.rcLong && h[1] == c.rcLat && h[2] == c.rcVert && h[3] == c.enableChannel;
  }
}
