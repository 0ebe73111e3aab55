/** The follow controller of lib/ff_core/follow.cpp: which peer is followed, where the
    slot beside it lies, and which waypoints leave for the flight controller. Distances
    are reals; the great-circle formulas are parameters. */
module Follow {
  import opened ByteStrings
  import opened MachineWords
  import opened Options
  import Peers = PeerTable

  // ---- Configuration ---------------------------------------------------------------------

  datatype HeadingMode = Off | Course | PointLeader | FixedHeading | CourseRelative

  /** A slot in the frame of the leader's track: metres ahead, to the right, above. */
  datatype Offset = Offset(long: real, lat: real, vert: real)

  datatype Config = Config(
    ofsLong: real, ofsLat: real, ofsVert: real,
    targetUid: u32, emitHz: u16, peerTimeout: u32,
    minSep: real, minVSep: real, maxTargetDist: real, minAlt: real, minCourseSpeed: real,
    headingMode: HeadingMode, headingDeg: real,
    statusGvar: i16, conditionGvar: i16,
    rcLong: i16, rcLat: i16, rcVert: i16,
    speedGvar: i16, engageGvar: i16, enableChannel: i16, enableMinUs: i16, enableMaxUs: i16,
    accel: i16, minSpeed: real, maxSpeed: real, debug: bool)

  const DEFAULTS := Config(-15.0, 0.0, 10.0, 0, 4, 1500, 8.0, 13.0, 50.0, 3.0, 2.0, PointLeader, 0.0,
                           -1, -1, -1, -1, -1, -1, -1, -1, 1700, 2100, 0, 0.0, 0.0, false)

  const MAX_CHANNELS := 16
  const STACKED_EPSILON := 0.5
  const PREARM_EPSILON := 0.05
  const GVAR_HEARTBEAT: u32 := 5000

  function StaticOffset(c: Config): Offset
  {
    Offset(c.ofsLong, c.ofsLat, c.ofsVert)
  }

  predicate GvarIndex(i: i16)
  {
    -1 <= i <= 7
  }

  predicate ChannelIndex(i: i16)
  {
    i == -1 || 1 <= i <= MAX_CHANNELS
  }

  /** Both are disabled or they differ. */
  predicate Apart(a: i16, b: i16)
  {
    a != -1 ==> a != b
  }

  predicate ValidConfig(c: Config)
  {
    && c.emitHz != 0 && c.peerTimeout != 0
    && c.minSep >= 0.0 && c.minVSep >= 0.0 && c.minAlt >= 0.0
    && c.maxTargetDist > 0.0 && c.minCourseSpeed >= 0.0
    && GvarIndex(c.statusGvar) && GvarIndex(c.conditionGvar) && GvarIndex(c.speedGvar) && GvarIndex(c.engageGvar)
    && ChannelIndex(c.rcLong) && ChannelIndex(c.rcLat) && ChannelIndex(c.rcVert) && ChannelIndex(c.enableChannel)
    && Apart(c.statusGvar, c.conditionGvar) && Apart(c.statusGvar, c.speedGvar) && Apart(c.statusGvar, c.engageGvar)
    && Apart(c.conditionGvar, c.speedGvar) && Apart(c.conditionGvar, c.engageGvar) && Apart(c.speedGvar, c.engageGvar)
    && Apart(c.rcLong, c.rcLat) && Apart(c.rcLong, c.rcVert) && Apart(c.rcLat, c.rcVert)
    && Apart(c.enableChannel, c.rcLong) && Apart(c.enableChannel, c.rcLat) && Apart(c.enableChannel, c.rcVert)
    && c.enableMaxUs > c.enableMinUs
    && (c.enableChannel != -1 ==> c.minSpeed > 0.0 && c.maxSpeed > c.minSpeed)
    && c.accel >= 0
    && GeometrySane(StaticOffset(c), c.minSep, c.minVSep)
  }

  // ---- Slot geometry -----------------------------------------------------------------------

  datatype Axis = Long | Lat | Vert

  function Along(o: Offset, axis: Axis): real
  {
    match axis
    case Long => o.long
    case Lat => o.lat
    case Vert => o.vert
  }

  /** The squared distance from the leader's track in the other two axes. */
  function Beside2(o: Offset, axis: Axis): (d2: real)
  {
    match axis
    case Long => o.lat * o.lat + o.vert * o.vert
    case Lat => o.long * o.long + o.vert * o.vert
    case Vert => o.long * o.long + o.lat * o.lat
  }

  function Horizontal2(o: Offset): (d2: real)
  {
    o.long * o.long + o.lat * o.lat
  }

  function Distance2(o: Offset): (d2: real)
  {
    Horizontal2(o) + o.vert * o.vert
  }

  function Abs(x: real): (a: real)
  {
    if x < 0.0 then -x else x
  }

  /** The square root of `m2` is below `b`. */
  predicate RootBelow(m2: real, b: real)
  {
    b > 0.0 && m2 < b * b
  }

  lemma RootBelowIsRoot(m: real, b: real)
    requires m >= 0.0
    ensures RootBelow(m * m, b) <==> m < b
  {
    if b > 0.0 {
      Squares(m, b);
    }
  }

  lemma Squares(a: real, b: real)
    requires a >= 0.0 && b > 0.0
    ensures a * a < b * b <==> a < b
  {
    assert b * b - a * a == (b - a) * (b + a);
    ProductSign(b - a, b + a);
  }

  lemma ProductSign(x: real, y: real)
    requires y > 0.0
    ensures x * y > 0.0 <==> x > 0.0
  {}

  predicate GeometrySane(o: Offset, minSep: real, minVSep: real)
  {
    !RootBelow(Distance2(o), minSep) && !(RootBelow(Horizontal2(o), STACKED_EPSILON) && Abs(o.vert) < minVSep)
  }

  predicate AxisSignLocked(candidate: Offset, reference: Offset, axis: Axis, minSep: real)
  {
    var c, r := Along(candidate, axis), Along(reference, axis);
    && ((c > 0.0 && r < 0.0) || (c < 0.0 && r > 0.0))
    && var co, ro := Beside2(candidate, axis), Beside2(reference, axis);
       RootBelow(if co < ro then co else ro, minSep)
  }

  predicate CandidateOk(candidate: Offset, reference: Offset, minSep: real, minVSep: real)
  {
    && GeometrySane(candidate, minSep, minVSep)
    && !AxisSignLocked(candidate, reference, Long, minSep)
    && !AxisSignLocked(candidate, reference, Lat, minSep)
    && !AxisSignLocked(candidate, reference, Vert, minSep)
  }

  /** A slot that straddles the leader on an axis is clear of it on the other two. */
  lemma OnTheBoundary(o: Offset, axis: Axis, minSep: real, minVSep: real)
    requires GeometrySane(o, minSep, minVSep) && Along(o, axis) == 0.0
    ensures !RootBelow(Beside2(o, axis), minSep)
  {}

  // ---- The flight controller and the world as one cycle sees them --------------------------

  datatype Platform = Multirotor | Airplane | Helicopter | Tricopter | Rover | Boat | Unknown

  datatype Fc = Fc(armed: bool, gcsNav: bool, headingHold: bool, rc: map<int, u16>, altitudeCm: i32, platform: Platform)

  /** A position in units of 1e-7 degrees. */
  datatype Point = Point(lat: int, lon: int)

  datatype Fix = Fix(valid: bool, at: Point, alt: i16)

  /** The formulas that are not interpreted: great-circle distance and bearing, the
      projection of a slot, the offset shown for debugging, and the speed that closes
      the slot's lag. */
  datatype Geo = Geo(distance: (Point, Point) -> real, bearing: (Point, Point) -> real,
                     project: (Point, real, real, real) -> Point, northEast: (Point, Point) -> (real, real),
                     closingSpeed: (Peers.Peer, Point, real, Point, i16) -> real)

  function At(p: Peers.Peer): Point
  {
    Point(p.lat, p.lon)
  }

  predicate HasFix(flags: Byte)
  {
    flags.v & 2 != 0
  }

  predicate Followable(p: Peers.Peer, now: u32, timeout: u32)
  {
    p.valid && HasFix(p.flags) && Sub32(now, p.lastPosition) <= timeout
  }

  /** Rounding to the nearest integer, halves away from zero. */
  function Round(x: real): (n: int)
    ensures n as real - 0.5 <= x <= n as real + 0.5
  {
    if x >= 0.0 then (x + 0.5).Floor else -((-x + 0.5).Floor)
  }

  // ---- RC-scaled offsets --------------------------------------------------------------------

  /** The stick maps to a share of the configured distance, on either side. */
  function AxisOffset(configured: real, channel: i16, rc: map<int, u16>): (v: real)
    ensures Abs(v) <= Abs(configured)
  {
    if channel < 1 || channel !in rc then configured
    else
      var us := rc[channel];
      var clamped := if us < 1000 then 1000 else if us > 2000 then 2000 else us;
      var share := (clamped as real - 1500.0) / 500.0;
      Scaled(share, Abs(configured));
      share * Abs(configured)
  }

  lemma Scaled(share: real, gap: real)
    requires -1.0 <= share <= 1.0 && gap >= 0.0
    ensures Abs(share * gap) <= gap
  {
    assert share * gap <= 1.0 * gap && -1.0 * gap <= share * gap;
  }

  function Candidate(c: Config, rc: map<int, u16>): (o: Offset)
  {
    Offset(AxisOffset(c.ofsLong, c.rcLong, rc), AxisOffset(c.ofsLat, c.rcLat, rc), AxisOffset(c.ofsVert, c.rcVert, rc))
  }

  predicate AnyChannel(c: Config)
  {
    c.rcLong != -1 || c.rcLat != -1 || c.rcVert != -1
  }

  predicate MatchesStatic(o: Offset, c: Config)
  {
    && !(c.rcLong != -1 && Abs(o.long - c.ofsLong) > PREARM_EPSILON)
    && !(c.rcLat != -1 && Abs(o.lat - c.ofsLat) > PREARM_EPSILON)
    && !(c.rcVert != -1 && Abs(o.vert - c.ofsVert) > PREARM_EPSILON)
  }

  // ---- What the controller promises ----------------------------------------------------------

  datatype LockState = Idle | Acquiring | Locked | Holding

  datatype Lock = Lock(state: LockState, uid: u32)

  datatype Waypoint = Waypoint(at: Point, altCm: int, headingDeg: int)

  /** The part of the controller that decides about waypoints. */
  datatype View = View(config: Config, started: bool, nextRun: u32, lock: Lock, good: Offset, course: Option<real>)

  const INITIAL := View(DEFAULTS, false, 0, Lock(Idle, 0), StaticOffset(DEFAULTS), None)

  /** The world in one cycle. */
  datatype World = World(table: seq<Peers.Peer>, fc: Fc, fix: Fix, now: u32)

  predicate Due(v: View, now: u32)
  {
    !v.started || ToI32(Sub32(now, v.nextRun)) >= 0
  }

  ghost predicate IsFollowable(v: View, w: World, i: nat)
    requires i < |w.table|
  {
    Followable(w.table[i], w.now, v.config.peerTimeout)
  }

  /** The entry a new lock is taken on: the pinned peer, else the nearest followable
      one, or without an own fix the first. */
  ghost predicate Acquires(geo: Geo, v: View, w: World, i: nat)
  {
    && i < |w.table| && IsFollowable(v, w, i)
    && if v.config.targetUid != 0 then w.table[i].uid == v.config.targetUid
       else if w.fix.valid then
         forall j :: 0 <= j < |w.table| && IsFollowable(v, w, j) ==>
           geo.distance(w.fix.at, At(w.table[i])) <= geo.distance(w.fix.at, At(w.table[j]))
       else forall j :: 0 <= j < i ==> !IsFollowable(v, w, j)
  }

  /** The lock after a cycle with the gate active, and the peer it follows in it. */
  ghost predicate LockStep(geo: Geo, v: View, w: World, lock: Lock, leader: Option<Peers.Peer>)
  {
    if v.lock.state == Idle || v.lock.state == Acquiring then
      match leader
      case None => lock == Lock(Acquiring, v.lock.uid) && forall i: nat :: !Acquires(geo, v, w, i)
      case Some(p) => lock == Lock(Locked, p.uid)
                      && exists i: nat :: Acquires(geo, v, w, i) && p == w.table[i]
    else
      match leader
      case None => lock == Lock(Holding, v.lock.uid) && forall i :: 0 <= i < |w.table| && IsFollowable(v, w, i) ==>
                                                          w.table[i].uid != v.lock.uid
      case Some(p) => lock == Lock(Locked, v.lock.uid) && p.uid == v.lock.uid && p in w.table
                      && Followable(p, w.now, v.config.peerTimeout)
  }

  function CourseOf(p: Peers.Peer): real
  {
    p.course as real / 10.0
  }

  /** The course kept after hearing this leader. */
  function CourseStep(v: View, p: Peers.Peer): Option<real>
  {
    if p.speed >= Round(v.config.minCourseSpeed * 100.0) then Some(CourseOf(p)) else v.course
  }

  function CourseFlown(kept: Option<real>, p: Peers.Peer): real
  {
    if kept.Some? then kept.value else CourseOf(p)
  }

  function OffsetStep(v: View, w: World): Offset
  {
    var candidate := Candidate(v.config, w.fc.rc);
    if CandidateOk(candidate, v.good, v.config.minSep, v.config.minVSep) then candidate else v.good
  }

  /** Remainder with the sign of the dividend. */
  function Rem(a: int, b: int): (r: int)
    requires b > 0
  {
    if a >= 0 then a % b else -((-a) % b)
  }

  function Heading(geo: Geo, c: Config, p: Peers.Peer, course: real, fix: Fix): (deg: int)
    ensures c.headingMode == Off ==> deg == 0
    ensures c.headingMode != Off ==> 1 <= deg <= 359
  {
    if c.headingMode == Off then 0
    else
      var raw := match c.headingMode
        case Course => course
        case PointLeader => geo.bearing(fix.at, At(p))
        case FixedHeading => c.headingDeg
        case _ => course + c.headingDeg;
      var rem := Rem(Round(raw), 360);
      var deg := if rem < 0 then rem + 360 else rem;
      if deg == 0 then 1 else deg
  }

  /** The heading, apart from due north, is the rounded one up to full turns. */
  lemma HeadingIsRaw(geo: Geo, c: Config, p: Peers.Peer, course: real, fix: Fix, raw: real)
    requires match c.headingMode
             case Off => false
             case Course => raw == course
             case PointLeader => raw == geo.bearing(fix.at, At(p))
             case FixedHeading => raw == c.headingDeg
             case CourseRelative => raw == course + c.headingDeg
    ensures var deg := Heading(geo, c, p, course, fix);
            deg == if Round(raw) % 360 == 0 then 1 else Round(raw) % 360
  {
    hide Rem, Round;
    RemLifted(Round(raw));
  }

  /** A truncated remainder, lifted if negative, is the least one. */
  lemma RemLifted(n: int)
    ensures var rem := Rem(n, 360); n % 360 == if rem < 0 then rem + 360 else rem
  {
    var q, r := (-n) / 360, (-n) % 360;
    assert n == 360 * -q - r;
    if n < 0 && r > 0 {
      LeastRemainder(n, -q - 1, 360 - r);
    } else if n < 0 {
      LeastRemainder(n, -q, 0);
    }
  }

  lemma LeastRemainder(n: int, q: int, r: int)
    requires n == 360 * q + r && 0 <= r < 360
    ensures n % 360 == r
  {}

  function AltitudeCm(w: World, p: Peers.Peer, vert: real): real
  {
    w.fc.altitudeCm as real + (p.alt as real - w.fix.alt as real) * 100.0 + vert * 100.0
  }

  function FloorCm(c: Config): int
  {
    Round(c.minAlt * 100.0)
  }

  /** The waypoint of a cycle that follows `p` in the slot `o`. */
  function WaypointFor(geo: Geo, c: Config, w: World, p: Peers.Peer, o: Offset, course: real): Waypoint
  {
    var alt := Round(AltitudeCm(w, p, o.vert));
    Waypoint(geo.project(At(p), course, o.long, o.lat),
             if alt < FloorCm(c) then FloorCm(c) else alt,
             Heading(geo, c, p, course, w.fix))
  }

  predicate TooFar(geo: Geo, c: Config, fix: Fix, target: Point)
  {
    geo.distance(fix.at, target) > c.maxTargetDist
  }

  /** The waypoint a cycle may send. */
  function Flown(geo: Geo, v: View, w: World, leader: Option<Peers.Peer>): (flown: Option<Waypoint>)
  {
    if !w.fc.gcsNav || leader == None || !w.fix.valid then None
    else
      var p := leader.value;
      var point := WaypointFor(geo, v.config, w, p, OffsetStep(v, w), CourseFlown(CourseStep(v, p), p));
      if TooFar(geo, v.config, w.fix, point.at) then None else Some(point)
  }

  /** One control cycle: the state it leaves and the waypoint it sends, if any. */
  ghost predicate Cycle(geo: Geo, v: View, w: World, v': View, leader: Option<Peers.Peer>, flown: Option<Waypoint>)
  {
    && v.config.emitHz > 0
    && v'.config == v.config && v'.started && v'.nextRun == Add32(w.now, 1000 / v.config.emitHz)
    && if !w.fc.gcsNav then
         v'.lock == Lock(Idle, 0) && v'.good == v.good && v'.course == None && leader == None && flown == None
       else
         && LockStep(geo, v, w, v'.lock, leader)
         && flown == Flown(geo, v, w, leader)
         && if leader == None || !w.fix.valid then v'.good == v.good && v'.course == v.course
            else v'.good == OffsetStep(v, w) && v'.course == CourseStep(v, leader.value)
  }

  /** Taking a new configuration. */
  ghost predicate Applies(v: View, c: Config, v': View)
  {
    if !ValidConfig(c) then v' == v
    else v' == v.(config := c, good := StaticOffset(c),
                  lock := if c.targetUid != v.config.targetUid then Lock(Acquiring, 0) else v.lock)
  }

  // ---- Invariants and runs ---------------------------------------------------------------------

  ghost predicate WithinConfig(o: Offset, c: Config)
  {
    Abs(o.long) <= Abs(c.ofsLong) && Abs(o.lat) <= Abs(c.ofsLat) && Abs(o.vert) <= Abs(c.ofsVert)
  }

  /** The slot last resolved is sane and no further out than configured, no lock is held
      without a uid to show for it, and a pinned lock is on the pinned peer. */
  ghost predicate Good(v: View)
  {
    && ValidConfig(v.config)
    && GeometrySane(v.good, v.config.minSep, v.config.minVSep)
    && WithinConfig(v.good, v.config)
    && (v.lock.state == Idle || v.lock.state == Acquiring ==> v.lock.uid == 0)
    && (v.lock.state == Locked || v.lock.state == Holding ==>
          v.config.targetUid != 0 ==> v.lock.uid == v.config.targetUid)
  }

  lemma InitialGood()
    ensures Good(INITIAL)
  {}

  lemma CycleKeepsGood(geo: Geo, v: View, w: World, v': View, leader: Option<Peers.Peer>, flown: Option<Waypoint>)
    requires Good(v) && Cycle(geo, v, w, v', leader, flown)
    ensures Good(v')
  {
    hide ValidConfig, GeometrySane, CandidateOk, Heading, Round, Followable, AxisOffset, WaypointFor, TooFar;
    assert CandidateOk(Candidate(v.config, w.fc.rc), v.good, v.config.minSep, v.config.minVSep)
      ==> GeometrySane(Candidate(v.config, w.fc.rc), v.config.minSep, v.config.minVSep) by {
      SaneCandidate(Candidate(v.config, w.fc.rc), v.good, v.config.minSep, v.config.minVSep);
    }
  }

  lemma SaneCandidate(candidate: Offset, reference: Offset, minSep: real, minVSep: real)
    ensures CandidateOk(candidate, reference, minSep, minVSep) ==> GeometrySane(candidate, minSep, minVSep)
  {}

  /** What happens to the controller: a cycle that is due, a call that is not, or a
      configuration offered to it. */
  datatype Event =
    | Cycled(world: World, leader: Option<Peers.Peer>, flown: Option<Waypoint>)
    | Skipped(now: u32)
    | Offered(config: Config)

  ghost predicate Next(geo: Geo, v: View, e: Event, v': View)
  {
    match e
    case Cycled(w, leader, flown) => Due(v, w.now) && Cycle(geo, v, w, v', leader, flown)
    case Skipped(now) => !Due(v, now) && v' == v
    case Offered(c) => Applies(v, c, v')
  }

  /** `states[k + 1]` is what `events[k]` makes of `states[k]`. */
  ghost predicate IsRun(geo: Geo, states: seq<View>, events: seq<Event>)
  {
    && |states| == |events| + 1
    && forall k :: 0 <= k < |events| ==> NextAt(geo, states, events, k)
  }

  ghost predicate NextAt(geo: Geo, states: seq<View>, events: seq<Event>, k: nat)
    requires k < |events| < |states|
  {
    Next(geo, states[k], events[k], states[k + 1])
  }

  lemma {:induction false} AlwaysGood(geo: Geo, states: seq<View>, events: seq<Event>, k: nat)
    requires IsRun(geo, states, events) && Good(states[0]) && k < |states|
    ensures Good(states[k])
  {
    hide Good, Cycle, Applies;
    if k > 0 {
      AlwaysGood(geo, states, events, k - 1);
      assert NextAt(geo, states, events, k - 1);
      NextKeepsGood(geo, states[k - 1], events[k - 1], states[k]);
    }
  }

  lemma NextKeepsGood(geo: Geo, v: View, e: Event, v': View)
    requires Good(v) && Next(geo, v, e, v')
    ensures Good(v')
  {
    hide ValidConfig, GeometrySane, Cycle, Due;
    match e
    case Cycled(w, leader, flown) => CycleKeepsGood(geo, v, w, v', leader, flown);
    case Skipped(_) =>
    case Offered(c) =>
      if ValidConfig(c) {
        ValidIsSane(c);
      }
  }

  lemma ValidIsSane(c: Config)
    requires ValidConfig(c)
    ensures GeometrySane(StaticOffset(c), c.minSep, c.minVSep)
  {}

  /** The geometry is checked once more before a waypoint leaves; from the start of any
      run that check cannot fail. */
  lemma SlotAlwaysSane(geo: Geo, states: seq<View>, events: seq<Event>, k: nat)
    requires IsRun(geo, states, events) && states[0] == INITIAL && k < |states|
    ensures var v := states[k];
            GeometrySane(v.good, v.config.minSep, v.config.minVSep) && WithinConfig(v.good, v.config)
  {
    InitialGood();
    AlwaysGood(geo, states, events, k);
  }

  /** The controller holds a lock on `uid`. */
  ghost predicate LockedOn(v: View, uid: u32)
  {
    (v.lock.state == Locked || v.lock.state == Holding) && v.lock.uid == uid
  }

  /** The gate stays active, and no configuration that is accepted pins another target. */
  ghost predicate Undisturbed(v: View, e: Event)
  {
    match e
    case Cycled(w, _, _) => w.fc.gcsNav
    case Skipped(_) => true
    case Offered(c) => ValidConfig(c) ==> c.targetUid == v.config.targetUid
  }

  /** No failover: once locked, the controller only ever loses its leader and finds the
      same one again. */
  lemma {:induction false} NoFailover(geo: Geo, states: seq<View>, events: seq<Event>, uid: u32, k: nat)
    requires IsRun(geo, states, events) && LockedOn(states[0], uid) && k < |states|
    requires forall j :: 0 <= j < |events| ==> Undisturbed(states[j], events[j])
    ensures LockedOn(states[k], uid)
  {
    hide ValidConfig;
    if k > 0 {
      NoFailover(geo, states, events, uid, k - 1);
      assert NextAt(geo, states, events, k - 1);
      assert Undisturbed(states[k - 1], events[k - 1]);
    }
  }

  /** Whoever is followed in a cycle is the peer of the lock; it is fresh, has a fix, and
      is the pinned peer if one is pinned. */
  lemma LeaderIsLocked(geo: Geo, v: View, w: World, v': View, leader: Option<Peers.Peer>, flown: Option<Waypoint>)
    requires Good(v) && Cycle(geo, v, w, v', leader, flown) && leader.Some?
    ensures v'.lock == Lock(Locked, leader.value.uid) && leader.value in w.table
    ensures Followable(leader.value, w.now, v.config.peerTimeout)
    ensures v.config.targetUid != 0 ==> leader.value.uid == v.config.targetUid
    ensures LockedOn(v, v.lock.uid) ==> leader.value.uid == v.lock.uid
  {
    hide ValidConfig, GeometrySane, Followable, WaypointFor, TooFar;
  }

  /** With no target pinned and an own fix, a new lock is on a nearest followable peer. */
  lemma LocksOnNearest(geo: Geo, v: View, w: World, v': View, leader: Option<Peers.Peer>, flown: Option<Waypoint>,
                       other: nat)
    requires Cycle(geo, v, w, v', leader, flown) && leader.Some?
    requires v.lock.state == Idle || v.lock.state == Acquiring
    requires v.config.targetUid == 0 && w.fix.valid
    requires other < |w.table| && Followable(w.table[other], w.now, v.config.peerTimeout)
    ensures geo.distance(w.fix.at, At(leader.value)) <= geo.distance(w.fix.at, At(w.table[other]))
  {
    hide WaypointFor, TooFar, Followable;
    var i: nat :| Acquires(geo, v, w, i) && leader.value == w.table[i];
    assert IsFollowable(v, w, other);
  }

  // ---- A new target ----------------------------------------------------------------------------

  /** Nobody is followed, and no configuration is accepted. */
  ghost predicate NobodyYet(e: Event)
  {
    match e
    case Cycled(_, leader, _) => leader == None
    case Skipped(_) => true
    case Offered(c) => !ValidConfig(c)
  }

  lemma {:induction false} StaysUnlocked(geo: Geo, states: seq<View>, events: seq<Event>, k: nat, m: nat)
    requires IsRun(geo, states, events) && k <= m < |states|
    requires states[k].lock.state == Idle || states[k].lock.state == Acquiring
    requires forall j :: k <= j < m ==> NobodyYet(events[j])
    ensures states[m].config == states[k].config
    ensures states[m].lock.state == Idle || states[m].lock.state == Acquiring
  {
    hide ValidConfig, Due, Flown, OffsetStep, CourseStep, Acquires;
    if k < m {
      StaysUnlocked(geo, states, events, k, m - 1);
      assert NextAt(geo, states, events, m - 1) && NobodyYet(events[m - 1]);
    }
  }

  /** Accepting another target drops the lock: whoever is followed next is chosen as the new
      configuration says, whomever the controller followed before. */
  lemma NewTargetTakesOver(geo: Geo, states: seq<View>, events: seq<Event>, k: nat, m: nat)
    requires IsRun(geo, states, events) && k < m < |events|
    requires events[k].Offered? && ValidConfig(events[k].config)
    requires events[k].config.targetUid != states[k].config.targetUid
    requires forall j :: k < j < m ==> NobodyYet(events[j])
    requires events[m].Cycled? && events[m].leader.Some?
    ensures states[m].config == events[k].config
    ensures exists i: nat :: Acquires(geo, states[m], events[m].world, i)
                             && events[m].leader.value == events[m].world.table[i]
  {
    hide ValidConfig, Due, Flown, OffsetStep, CourseStep, Acquires, StaticOffset;
    assert NextAt(geo, states, events, k);
    StaysUnlocked(geo, states, events, k + 1, m);
    assert NextAt(geo, states, events, m);
  }

  /** What every waypoint that leaves satisfies. */
  lemma EveryWaypointSafe(geo: Geo, v: View, w: World, v': View, leader: Option<Peers.Peer>, flown: Option<Waypoint>)
    requires Good(v) && Cycle(geo, v, w, v', leader, flown) && flown.Some?
    ensures w.fc.gcsNav && w.fix.valid
    ensures leader.Some? && v'.lock == Lock(Locked, leader.value.uid) && leader.value in w.table
            && Followable(leader.value, w.now, v.config.peerTimeout)
    ensures flown.value.altCm >= FloorCm(v.config)
    ensures geo.distance(w.fix.at, flown.value.at) <= v.config.maxTargetDist
    ensures v.config.headingMode == Off ==> flown.value.headingDeg == 0
    ensures v.config.headingMode != Off ==> 1 <= flown.value.headingDeg <= 359
    ensures GeometrySane(v'.good, v.config.minSep, v.config.minVSep)
  {
    hide ValidConfig, GeometrySane, Followable, Heading, OffsetStep;
    CycleKeepsGood(geo, v, w, v', leader, flown);
    LeaderIsLocked(geo, v, w, v', leader, flown);
  }

  // ---- No side switch through the leader ----------------------------------------------------------

  /** No configuration is accepted in the run. */
  ghost predicate SameConfig(states: seq<View>, events: seq<Event>)
    requires |states| == |events| + 1
  {
    forall k :: 0 <= k < |events| ==> events[k].Offered? ==> !ValidConfig(events[k].config)
  }

  /** One step never takes an axis from one side of the leader to the other, or onto the
      middle, unless the slot then keeps its distance in the other two axes. */
  lemma StepAside(geo: Geo, v: View, e: Event, v': View, axis: Axis)
    requires Good(v) && Next(geo, v, e, v') && (e.Offered? ==> !ValidConfig(e.config))
    requires Along(v.good, axis) > 0.0 >= Along(v'.good, axis) || Along(v.good, axis) < 0.0 <= Along(v'.good, axis)
    ensures v'.config == v.config && !RootBelow(Beside2(v'.good, axis), v.config.minSep)
  {
    hide ValidConfig, Followable, Candidate, RootBelow, LockStep, WaypointFor, CourseStep;
    NextKeepsGood(geo, v, e, v');
    if Along(v'.good, axis) == 0.0 {
      OnTheBoundary(v'.good, axis, v.config.minSep, v.config.minVSep);
    } else {
      Crossing(v.good, v'.good, axis, v.config.minSep, v.config.minVSep);
    }
  }

  lemma Crossing(reference: Offset, candidate: Offset, axis: Axis, minSep: real, minVSep: real)
    requires CandidateOk(candidate, reference, minSep, minVSep)
    requires Along(reference, axis) > 0.0 > Along(candidate, axis) || Along(reference, axis) < 0.0 < Along(candidate, axis)
    ensures !RootBelow(Beside2(candidate, axis), minSep)
  {
    match axis
    case Long => assert !AxisSignLocked(candidate, reference, Long, minSep);
    case Lat => assert !AxisSignLocked(candidate, reference, Lat, minSep);
    case Vert => assert !AxisSignLocked(candidate, reference, Vert, minSep);
  }

  /** Under one configuration, a slot that is on one side of the leader in one cycle and on
      the other side in a later one was clear of the leader, by the minimum separation, in
      some cycle between them, even when it steps through the middle exactly. */
  lemma {:induction false} NoSideSwitch(geo: Geo, states: seq<View>, events: seq<Event>, axis: Axis, i: nat, j: nat)
    returns (k: nat)
    requires IsRun(geo, states, events) && Good(states[0]) && SameConfig(states, events)
    requires i < j < |states|
    requires Along(states[i].good, axis) > 0.0 >= Along(states[j].good, axis)
             || Along(states[i].good, axis) < 0.0 <= Along(states[j].good, axis)
    ensures i < k <= j && states[k].config == states[0].config
    ensures !RootBelow(Beside2(states[k].good, axis), states[0].config.minSep)
    decreases j
  {
    hide Good, Next, RootBelow, ValidConfig;
    AlwaysGood(geo, states, events, j - 1);
    ConfigStays(geo, states, events, j - 1);
    assert NextAt(geo, states, events, j - 1);
    var before := Along(states[j - 1].good, axis);
    if (Along(states[i].good, axis) > 0.0 && before > 0.0) || (Along(states[i].good, axis) < 0.0 && before < 0.0) {
      StepAside(geo, states[j - 1], events[j - 1], states[j], axis);
      k := j;
    } else {
      k := NoSideSwitch(geo, states, events, axis, i, j - 1);
    }
  }

  lemma {:induction false} ConfigStays(geo: Geo, states: seq<View>, events: seq<Event>, k: nat)
    requires IsRun(geo, states, events) && SameConfig(states, events) && k < |states|
    ensures states[k].config == states[0].config
  {
    hide ValidConfig, Due, LockStep, OffsetStep, WaypointFor, TooFar, CourseStep;
    if k > 0 {
      ConfigStays(geo, states, events, k - 1);
      assert NextAt(geo, states, events, k - 1);
    }
  }

  // ---- The controller -----------------------------------------------------------------------------

  datatype Command = Fly(waypoint: Waypoint) | SetHead(deg: int) | Gvar(index: nat, value: int)

  /** The commands that move the aircraft. */
  ghost function Flights(commands: seq<Command>): (f: seq<Waypoint>)
  {
    if commands == [] then []
    else
      var rest, last := commands[..|commands| - 1], commands[|commands| - 1];
      if last.Fly? then Flights(rest) + [last.waypoint] else Flights(rest)
  }

  lemma {:induction false} FlightsAfter(before: seq<Command>, commands: seq<Command>)
    ensures Flights(before + commands) == Flights(before) + Flights(commands)
  {
    if commands == [] {
      assert before + commands == before;
    } else {
      var n := |commands| - 1;
      FlightsAfter(before, commands[..n]);
      assert (before + commands)[..|before| + n] == before + commands[..n];
    }
  }

  const NEVER := -0x8000_0000

  /** What the controller remembers of a variable of the flight controller: the value last
      sent for it, and when. */
  datatype Shown = Shown(value: int, at: u32)

  /** The variable is disabled, or this value was the last sent for it, within the heartbeat:
      the controller does not send it again. */
  predicate UpToDate(shown: Shown, index: i16, value: int, now: u32)
  {
    index >= 0 ==> shown.value == value && Sub32(now, shown.at) < GVAR_HEARTBEAT
  }

  function StatusValue(s: LockState): int
  {
    match s
    case Idle => 0
    case Acquiring => 1
    case Locked => 2
    case Holding => 3
  }

  const NO_CONDITION := 0
  const FLOOR_CLAMPED := 1
  const TARGET_TOO_FAR := 2
  const RC_INVALID := 3

  function Max(a: int, b: int): (m: int)
  {
    if a > b then a else b
  }

  // ---- The commands of a cycle ---------------------------------------------------------------

  const DEBUG_NORTH_GVAR := 0
  const DEBUG_EAST_GVAR := 1
  const DEBUG_ALT_GVAR := 2
  const DEBUG_HEADING_GVAR := 3

  function Refresh(shown: Shown, index: i16, value: int, now: u32): (commands: seq<Command>)
  {
    if UpToDate(shown, index, value, now) then [] else [Gvar(index, value)]
  }

  function Refreshed(shown: Shown, index: i16, value: int, now: u32): (after: Shown)
    ensures UpToDate(after, index, value, now)
  {
    if UpToDate(shown, index, value, now) then shown else Shown(value, now)
  }

  function StatusCommands(c: Config, status: Shown, condition: Shown, state: LockState, code: nat, now: u32)
    : (commands: seq<Command>)
  {
    Refresh(status, c.statusGvar, StatusValue(state), now) + Refresh(condition, c.conditionGvar, code, now)
  }

  function EngageCommands(c: Config, engage: Shown, engaged: bool, speed: int, now: u32): (commands: seq<Command>)
  {
    Refresh(engage, c.engageGvar, if engaged then 1 else 0, now)
    + (if engaged && c.speedGvar >= 0 then [Gvar(c.speedGvar, speed)] else [])
  }

  function DebugCommands(geo: Geo, c: Config, p: Waypoint, fix: Fix): (commands: seq<Command>)
  {
    if !c.debug then []
    else
      var (north, east) := geo.northEast(fix.at, p.at);
      [Gvar(DEBUG_NORTH_GVAR, Round(north * 100.0)), Gvar(DEBUG_EAST_GVAR, Round(east * 100.0)),
       Gvar(DEBUG_ALT_GVAR, p.altCm), Gvar(DEBUG_HEADING_GVAR, p.headingDeg)]
  }

  function FlyCommands(p: Waypoint, headingHold: bool): (commands: seq<Command>)
  {
    [Fly(p)] + (if p.headingDeg != 0 && headingHold then [SetHead(p.headingDeg)] else [])
  }

  predicate AutothrottleArmed(c: Config, rc: map<int, u16>)
  {
    c.enableChannel < 1 || c.enableChannel !in rc || c.enableMinUs <= rc[c.enableChannel] <= c.enableMaxUs
  }

  predicate Engaged(c: Config, fc: Fc)
  {
    fc.platform == Airplane && AutothrottleArmed(c, fc.rc)
  }

  /** Below `lo` it is lo, otherwise at most `hi`, even when the bounds are crossed. */
  function Clamp(v: real, lo: real, hi: real): (r: real)
    ensures lo <= hi ==> lo <= r <= hi && (lo <= v <= hi ==> r == v)
    ensures hi <= lo ==> r == lo || r == hi
  {
    if v < lo then lo else if v > hi then hi else v
  }

  function TargetSpeed(geo: Geo, c: Config, p: Peers.Peer, target: Point, course: real, fix: Fix): int
  {
    Round(Clamp(p.speed as real + geo.closingSpeed(p, target, course, fix.at, c.accel),
                c.minSpeed * 100.0, c.maxSpeed * 100.0))
  }

  /** The floor, or the stick if the configured slot alone would have stayed above it. */
  function AltitudeCondition(c: Config, w: World, p: Peers.Peer, o: Offset): (code: nat)
  {
    if Round(AltitudeCm(w, p, o.vert)) >= FloorCm(c) then NO_CONDITION
    else if Round(AltitudeCm(w, p, c.ofsVert)) >= FloorCm(c) then RC_INVALID
    else FLOOR_CLAMPED
  }

  /** The condition of a cycle that steers: the highest of those that hold. */
  function SteerCondition(geo: Geo, v: View, w: World, p: Peers.Peer): (code: nat)
  {
    var o := OffsetStep(v, w);
    var frozen := !CandidateOk(Candidate(v.config, w.fc.rc), v.good, v.config.minSep, v.config.minVSep);
    var point := WaypointFor(geo, v.config, w, p, o, CourseFlown(CourseStep(v, p), p));
    Max(Max(AltitudeCondition(v.config, w, p, o), if frozen then RC_INVALID else NO_CONDITION),
        if TooFar(geo, v.config, w.fix, point.at) then TARGET_TOO_FAR else NO_CONDITION)
  }

  /** The sticks disagree with the configured slot before take-off. */
  predicate PreArmFails(v: View, fc: Fc)
  {
    && !fc.armed && AnyChannel(v.config)
    && !(CandidateOk(Candidate(v.config, fc.rc), v.good, v.config.minSep, v.config.minVSep)
         && MatchesStatic(Candidate(v.config, fc.rc), v.config))
  }

  function Condition(geo: Geo, v: View, w: World, leader: Option<Peers.Peer>): (code: nat)
  {
    if !w.fc.gcsNav then if PreArmFails(v, w.fc) then RC_INVALID else NO_CONDITION
    else if leader == None || !w.fix.valid then NO_CONDITION
    else SteerCondition(geo, v, w, leader.value)
  }

  /** What was last sent for the three variables. */
  datatype Display = Display(status: Shown, condition: Shown, engage: Shown)

  function DisplayAfter(c: Config, d: Display, state: LockState, code: nat, engaged: bool, now: u32): (after: Display)
  {
    Display(Refreshed(d.status, c.statusGvar, StatusValue(state), now),
            Refreshed(d.condition, c.conditionGvar, code, now),
            Refreshed(d.engage, c.engageGvar, if engaged then 1 else 0, now))
  }

  function BailCommands(c: Config, d: Display, state: LockState, code: nat, now: u32): (commands: seq<Command>)
  {
    StatusCommands(c, d.status, d.condition, state, code, now) + EngageCommands(c, d.engage, false, 0, now)
  }

  function EmitCommands(geo: Geo, c: Config, w: World, point: Waypoint, p: Peers.Peer, course: real, state: LockState,
                        code: nat, d: Display)
    : (commands: seq<Command>)
  {
    DebugCommands(geo, c, point, w.fix)
    + EngageCommands(c, d.engage, Engaged(c, w.fc), TargetSpeed(geo, c, p, point.at, course, w.fix), w.now)
    + FlyCommands(point, w.fc.headingHold)
    + StatusCommands(c, d.status, d.condition, state, code, w.now)
  }

  function SteerCommands(geo: Geo, v: View, w: World, p: Peers.Peer, state: LockState, d: Display)
    : (commands: seq<Command>)
  {
    var c, course, code := v.config, CourseFlown(CourseStep(v, p), p), SteerCondition(geo, v, w, p);
    var point := WaypointFor(geo, c, w, p, OffsetStep(v, w), course);
    if TooFar(geo, c, w.fix, point.at) then BailCommands(c, d, state, code, w.now)
    else EmitCommands(geo, c, w, point, p, course, state, code, d)
  }

  function CycleCommands(geo: Geo, v: View, w: World, state: LockState, leader: Option<Peers.Peer>, d: Display)
    : (commands: seq<Command>)
  {
    if !w.fc.gcsNav || leader == None || !w.fix.valid then
      BailCommands(v.config, d, state, Condition(geo, v, w, leader), w.now)
    else SteerCommands(geo, v, w, leader.value, state, d)
  }

  /** Whether a cycle leaves the autothrottle engaged. */
  function EngagedIn(geo: Geo, v: View, w: World, leader: Option<Peers.Peer>): bool
  {
    Flown(geo, v, w, leader).Some? && Engaged(v.config, w.fc)
  }

  function CycleDisplay(geo: Geo, v: View, w: World, state: LockState, leader: Option<Peers.Peer>, d: Display)
    : (after: Display)
  {
    DisplayAfter(v.config, d, state, Condition(geo, v, w, leader), EngagedIn(geo, v, w, leader), w.now)
  }

  function Listed(flown: Option<Waypoint>): (f: seq<Waypoint>)
  {
    if flown.Some? then [flown.value] else []
  }

  ghost predicate Grounded(commands: seq<Command>)
  {
    forall i :: 0 <= i < |commands| ==> !commands[i].Fly?
  }

  lemma {:induction false} GroundedIsSilent(commands: seq<Command>)
    requires Grounded(commands)
    ensures Flights(commands) == []
  {
    if commands != [] {
      GroundedIsSilent(commands[..|commands| - 1]);
    }
  }

  /** Of all its commands exactly the waypoint of the cycle moves the aircraft. */
  lemma OneFlightACycle(geo: Geo, v: View, w: World, state: LockState, leader: Option<Peers.Peer>, d: Display)
    ensures Flights(CycleCommands(geo, v, w, state, leader, d)) == Listed(Flown(geo, v, w, leader))
  {
    hide Flights, WaypointFor, TooFar, OffsetStep, CourseStep, CourseFlown, UpToDate, SteerCondition, Engaged,
         TargetSpeed, Round, Condition;
    if !w.fc.gcsNav || leader == None || !w.fix.valid {
      GroundedIsSilent(CycleCommands(geo, v, w, state, leader, d));
    } else {
      var c, p := v.config, leader.value;
      var course := CourseFlown(CourseStep(v, p), p);
      var point := WaypointFor(geo, c, w, p, OffsetStep(v, w), course);
      if TooFar(geo, c, w.fix, point.at) {
        GroundedIsSilent(CycleCommands(geo, v, w, state, leader, d));
      } else {
        OneFlight(DebugCommands(geo, c, point, w.fix)
                  + EngageCommands(c, d.engage, Engaged(c, w.fc), TargetSpeed(geo, c, p, point.at, course, w.fix), w.now),
                  point, w.fc.headingHold,
                  StatusCommands(c, d.status, d.condition, state, SteerCondition(geo, v, w, p), w.now));
      }
    }
  }

  lemma OneFlight(before: seq<Command>, p: Waypoint, headingHold: bool, after: seq<Command>)
    requires Grounded(before) && Grounded(after)
    ensures Flights(before + FlyCommands(p, headingHold) + after) == [p]
  {
    hide Flights;
    var turn := FlyCommands(p, headingHold)[1..];
    GroundedIsSilent(before);
    GroundedIsSilent(turn + after);
    FlightsAfter(before, [Fly(p)]);
    FlightsAfter(before + [Fly(p)], turn + after);
    SingleFlight(p);
    assert before + FlyCommands(p, headingHold) + after == (before + [Fly(p)]) + (turn + after);
  }

  lemma SingleFlight(p: Waypoint)
    ensures Flights([Fly(p)]) == [p]
  {
    assert [Fly(p)][..0] == [];
  }

  class FollowController {
    const peers: Peers.PeerTable
    const geo: Geo
    var config: Config
    var started: bool
    var nextRun: u32
    var state: LockState
    var lockedUid: u32
    var haveCourse: bool
    var lastCourse: real
    var good: Offset
    var frozen: bool
    var preArmFailed: bool
    var shownStatus: Shown
    var shownCondition: Shown
    var shownEngage: Shown
    /** The commands handed to the flight controller. */
    var outbox: seq<Command>

    ghost function Abstract(): View
      reads this
    {
      View(config, started, nextRun, Lock(state, lockedUid), good, if haveCourse then Some(lastCourse) else None)
    }

    ghost function Shows(): Display
      reads `shownStatus, `shownCondition, `shownEngage
    {
      Display(shownStatus, shownCondition, shownEngage)
    }

    ghost predicate Valid()
      reads this, peers.peers
    {
      peers.Valid() && Good(Abstract())
    }

    constructor (peers: Peers.PeerTable, geo: Geo)
      requires peers.Valid()
      ensures Valid() && Abstract() == INITIAL && outbox == [] && this.peers == peers && this.geo == geo
    {
      this.peers, this.geo := peers, geo;
      config, started, nextRun := DEFAULTS, false, 0;
      state, lockedUid, haveCourse, lastCourse := Idle, 0, false, 0.0;
      good, frozen, preArmFailed := StaticOffset(DEFAULTS), false, false;
      shownStatus, shownCondition, shownEngage := Shown(NEVER, 0), Shown(NEVER, 0), Shown(NEVER, 0);
      outbox := [];
    }

    // ---- Variables of the flight controller -------------------------------------------------

    method Send(c: Command)
      modifies this`outbox
      ensures outbox == old(outbox) + [c]
    {
      outbox := outbox + [c];
    }

    method SendGvarIfDue(index: i16, value: int, shown: Shown, now: u32) returns (after: Shown)
      requires value != NEVER
      modifies this`outbox
      ensures outbox == old(outbox) + Refresh(shown, index, value, now)
      ensures after == Refreshed(shown, index, value, now) && UpToDate(after, index, value, now)
    {
      after := shown;
      if index < 0 {
        return;
      }
      var due := shown.value == NEVER || value != shown.value || Sub32(now, shown.at) >= GVAR_HEARTBEAT;
      if due {
        Send(Gvar(index, value));
        after := Shown(value, now);
      }
    }

    method UpdateStatusGvars(code: nat, now: u32)
      modifies this`outbox, this`shownStatus, this`shownCondition
      ensures outbox == old(outbox) + StatusCommands(config, old(shownStatus), old(shownCondition), state, code, now)
      ensures shownStatus == Refreshed(old(shownStatus), config.statusGvar, StatusValue(state), now)
      ensures shownCondition == Refreshed(old(shownCondition), config.conditionGvar, code, now)
    {
      shownStatus := SendGvarIfDue(config.statusGvar, StatusValue(state), shownStatus, now);
      shownCondition := SendGvarIfDue(config.conditionGvar, code, shownCondition, now);
    }

    method UpdateAutothrottleGvars(engaged: bool, speed: int, now: u32)
      modifies this`outbox, this`shownEngage
      ensures outbox == old(outbox) + EngageCommands(config, old(shownEngage), engaged, speed, now)
      ensures shownEngage == Refreshed(old(shownEngage), config.engageGvar, if engaged then 1 else 0, now)
    {
      shownEngage := SendGvarIfDue(config.engageGvar, if engaged then 1 else 0, shownEngage, now);
      if engaged && config.speedGvar >= 0 {
        Send(Gvar(config.speedGvar, speed));
      }
    }

    method UpdateDebugGvars(p: Waypoint, fix: Fix)
      modifies this`outbox
      ensures outbox == old(outbox) + DebugCommands(geo, config, p, fix)
    {
      if !config.debug {
        return;
      }
      var (north, east) := geo.northEast(fix.at, p.at);
      Send(Gvar(DEBUG_NORTH_GVAR, Round(north * 100.0)));
      Send(Gvar(DEBUG_EAST_GVAR, Round(east * 100.0)));
      Send(Gvar(DEBUG_ALT_GVAR, p.altCm));
      Send(Gvar(DEBUG_HEADING_GVAR, p.headingDeg));
    }

    /** Every way out of a cycle without a waypoint. */
    method Bail(code: nat, now: u32)
      modifies this`outbox, this`shownStatus, this`shownCondition, this`shownEngage
      ensures outbox == old(outbox) + BailCommands(config, old(Shows()), state, code, now)
      ensures Shows() == DisplayAfter(config, old(Shows()), state, code, false, now)
    {
      UpdateStatusGvars(code, now);
      UpdateAutothrottleGvars(false, 0, now);
    }

    // ---- The lock -----------------------------------------------------------------------------

    /** What the world looks like to this controller in this cycle. */
    ghost predicate Sees(w: World, fix: Fix, now: u32)
      reads peers.peers
    {
      w.table == peers.peers[..] && w.fix == fix && w.now == now
    }

    /** The slot a new lock is taken on, or -1. */
    method Pick(fix: Fix, now: u32, ghost w: World) returns (i: int)
      requires peers.Valid() && Sees(w, fix, now)
      ensures -1 <= i < Peers.MAX_PEERS
      ensures i >= 0 ==> Acquires(geo, Abstract(), w, i)
      ensures i < 0 ==> forall j: nat :: !Acquires(geo, Abstract(), w, j)
    {
      hide Followable, Peers.Knows, Peers.DistinctUids;
      if config.targetUid != 0 {
        i := PickPinned(now, w);
      } else if fix.valid {
        i := PickNearest(fix, now, w);
      } else {
        i := PickFirst(now, w);
      }
    }

    method PickPinned(now: u32, ghost w: World) returns (i: int)
      requires peers.Valid() && w.table == peers.peers[..] && w.now == now && config.targetUid != 0
      ensures -1 <= i < Peers.MAX_PEERS
      ensures i >= 0 ==> Acquires(geo, Abstract(), w, i)
      ensures i < 0 ==> forall j: nat :: !Acquires(geo, Abstract(), w, j)
    {
      hide Peers.DistinctUids;
      i := peers.Find(config.targetUid);
      if i >= 0 && !Followable(peers.peers[i], now, config.peerTimeout) {
        forall j: nat | j < |w.table| && IsFollowable(Abstract(), w, j)
          ensures w.table[j].uid != config.targetUid
        {
          SameUidSameSlot(w.table, i, j);
        }
        i := -1;
      }
    }

    static lemma SameUidSameSlot(table: seq<Peers.Peer>, i: nat, j: nat)
      requires Peers.DistinctUids(table) && i < |table| && j < |table| && table[i].valid && table[j].valid
      ensures table[i].uid == table[j].uid ==> i == j
    {}

    method PickNearest(fix: Fix, now: u32, ghost w: World) returns (i: int)
      requires peers.Valid() && Sees(w, fix, now) && config.targetUid == 0 && fix.valid
      ensures -1 <= i < Peers.MAX_PEERS
      ensures i >= 0 ==> Acquires(geo, Abstract(), w, i)
      ensures i < 0 ==> forall j: nat :: !Acquires(geo, Abstract(), w, j)
    {
      hide Followable;
      i := -1;
      var best := 0.0;
      for k := 0 to Peers.MAX_PEERS
        invariant -1 <= i < k
        invariant i < 0 ==> forall j :: 0 <= j < k ==> !IsFollowable(Abstract(), w, j)
        invariant i >= 0 ==> IsFollowable(Abstract(), w, i) && best == geo.distance(fix.at, At(w.table[i]))
        invariant i >= 0 ==> forall j :: 0 <= j < k && IsFollowable(Abstract(), w, j) ==>
                               best <= geo.distance(fix.at, At(w.table[j]))
      {
        if Followable(peers.peers[k], now, config.peerTimeout) {
          var distance := geo.distance(fix.at, At(peers.peers[k]));
          if i < 0 || distance < best {
            i, best := k, distance;
          }
        }
      }
    }

    method PickFirst(now: u32, ghost w: World) returns (i: int)
      requires peers.Valid() && w.table == peers.peers[..] && w.now == now && config.targetUid == 0 && !w.fix.valid
      ensures -1 <= i < Peers.MAX_PEERS
      ensures i >= 0 ==> Acquires(geo, Abstract(), w, i)
      ensures i < 0 ==> forall j: nat :: !Acquires(geo, Abstract(), w, j)
    {
      hide Followable;
      for k := 0 to Peers.MAX_PEERS
        invariant forall j :: 0 <= j < k ==> !IsFollowable(Abstract(), w, j)
      {
        if Followable(peers.peers[k], now, config.peerTimeout) {
          assert IsFollowable(Abstract(), w, k);
          return k;
        }
      }
      i := -1;
    }

    method ResolveLock(fix: Fix, now: u32, ghost w: World) returns (leader: Option<Peers.Peer>)
      requires peers.Valid() && Sees(w, fix, now)
      modifies this`state, this`lockedUid
      ensures LockStep(geo, old(Abstract()), w, Lock(state, lockedUid), leader)
    {
      hide Followable, Peers.Knows, Peers.DistinctUids;
      if state == Idle {
        state := Acquiring;
      }
      if state == Acquiring {
        var i := Pick(fix, now, w);
        AcquiresFromIdle(geo, old(Abstract()), Abstract(), w);
        if i < 0 {
          return None;
        }
        lockedUid := peers.peers[i].uid;
        state := Locked;
        return Some(peers.peers[i]);
      }
      leader := FindLocked(now, w);
      state := if leader.Some? then Locked else Holding;
    }

    /** The peer of the lock, if it can be followed. */
    method FindLocked(now: u32, ghost w: World) returns (leader: Option<Peers.Peer>)
      requires peers.Valid() && w.table == peers.peers[..] && w.now == now
      ensures match leader
              case None => forall i :: 0 <= i < |w.table| && IsFollowable(Abstract(), w, i) ==>
                             w.table[i].uid != lockedUid
              case Some(p) => p.uid == lockedUid && p in w.table && Followable(p, now, config.peerTimeout)
    {
      hide Peers.DistinctUids;
      var i := peers.Find(lockedUid);
      if i >= 0 && Followable(peers.peers[i], now, config.peerTimeout) {
        assert peers.peers[i] == w.table[i];
        return Some(peers.peers[i]);
      }
      if i >= 0 {
        forall j: nat | j < |w.table| && IsFollowable(Abstract(), w, j)
          ensures w.table[j].uid != lockedUid
        {
          SameUidSameSlot(w.table, i, j);
        }
      }
      return None;
    }

    static lemma AcquiresFromIdle(geo: Geo, v: View, v': View, w: World)
      requires v'.config == v.config
      ensures forall i: nat :: Acquires(geo, v', w, i) <==> Acquires(geo, v, w, i)
    {
      hide Followable;
      assert forall i: nat :: i < |w.table| ==> (IsFollowable(v', w, i) <==> IsFollowable(v, w, i));
    }

    method ForceReacquire()
      modifies this`state, this`lockedUid
      ensures state == Acquiring && lockedUid == 0
    {
      state, lockedUid := Acquiring, 0;
    }

    /** A valid configuration is taken whole, anything else changes nothing. */
    method ApplyConfig(c: Config) returns (ok: bool)
      requires Valid()
      modifies this`config, this`good, this`state, this`lockedUid
      ensures Valid() && ok == ValidConfig(c) && Next(geo, old(Abstract()), Offered(c), Abstract())
    {
      hide ValidConfig, GeometrySane, Cycle;
      ok := ValidConfig(c);
      if ok {
        var targetChanged := c.targetUid != config.targetUid;
        config := c;
        good := StaticOffset(c);
        if targetChanged {
          ForceReacquire();
        }
      }
      NextKeepsGood(geo, old(Abstract()), Offered(c), Abstract());
    }

    // ---- Offset, course, altitude -----------------------------------------------------------------

    /** An unacceptable candidate leaves the slot where it was. */
    method ResolveOffset(fc: Fc)
      modifies this`good, this`frozen
      ensures var ok := CandidateOk(Candidate(config, fc.rc), old(good), config.minSep, config.minVSep);
              frozen == !ok && good == if ok then Candidate(config, fc.rc) else old(good)
    {
      var candidate := Candidate(config, fc.rc);
      var ok := CandidateOk(candidate, good, config.minSep, config.minVSep);
      frozen := !ok;
      if ok {
        good := candidate;
      }
    }

    method ResolveCourse(p: Peers.Peer) returns (course: real)
      modifies this`haveCourse, this`lastCourse
      ensures Abstract().course == CourseStep(old(Abstract()), p)
      ensures course == CourseFlown(Abstract().course, p)
    {
      if p.speed >= Round(config.minCourseSpeed * 100.0) {
        haveCourse := true;
        lastCourse := CourseOf(p);
        return lastCourse;
      }
      course := if haveCourse then lastCourse else CourseOf(p);
    }

    /** The altitude, not below the floor, and the condition it raises. */
    method ResolveAltitude(p: Peers.Peer, w: World) returns (altCm: int, code: nat)
      ensures altCm == Max(Round(AltitudeCm(w, p, good.vert)), FloorCm(config))
      ensures code == AltitudeCondition(config, w, p, good)
    {
      var exact := AltitudeCm(w, p, good.vert);
      altCm, code := Round(exact), NO_CONDITION;
      if altCm < FloorCm(config) {
        altCm := FloorCm(config);
        var configured := exact + (config.ofsVert - good.vert) * 100.0;
        assert configured == AltitudeCm(w, p, config.ofsVert);
        code := if Round(configured) >= FloorCm(config) then RC_INVALID else FLOOR_CLAMPED;
      }
    }

    method PreArmCheck(fc: Fc)
      modifies this`preArmFailed
      ensures preArmFailed == PreArmFails(Abstract(), fc)
    {
      preArmFailed := false;
      if !fc.armed && AnyChannel(config) {
        var candidate := Candidate(config, fc.rc);
        preArmFailed := !CandidateOk(candidate, good, config.minSep, config.minVSep) || !MatchesStatic(candidate, config);
      }
    }

    // ---- The control cycle ---------------------------------------------------------------------

    /** The part of a cycle that has a leader and an own fix. */
    method Steer(p: Peers.Peer, w: World)
      requires GeometrySane(good, config.minSep, config.minVSep) && w.fix.valid && w.fc.gcsNav
      modifies this`good, this`frozen, this`haveCourse, this`lastCourse
      modifies this`outbox, this`shownStatus, this`shownCondition, this`shownEngage
      ensures Abstract() == old(Abstract()).(good := OffsetStep(old(Abstract()), w), course := CourseStep(old(Abstract()), p))
      ensures outbox == old(outbox) + SteerCommands(geo, old(Abstract()), w, p, state, old(Shows()))
      ensures var flies := Flown(geo, old(Abstract()), w, Some(p)).Some?;
              Shows() == DisplayAfter(config, old(Shows()), state, SteerCondition(geo, old(Abstract()), w, p),
                                      flies && Engaged(config, w.fc), w.now)
    {
      hide ValidConfig, CandidateOk, GeometrySane, Round, AltitudeCm, Heading, Candidate, Engaged, EmitCommands, Refresh,
           WithinConfig, StatusCommands, EngageCommands, AltitudeCondition, FloorCm, DisplayAfter;
      ghost var v := Abstract();
      ResolveOffset(w.fc);
      var course := ResolveCourse(p);
      var target := geo.project(At(p), course, good.long, good.lat);
      var altCm, code := ResolveAltitude(p, w);
      if frozen {
        code := Max(code, RC_INVALID);
      }
      // the check before a waypoint leaves never fails: see SlotAlwaysSane
      SaneCandidate(Candidate(config, w.fc.rc), v.good, config.minSep, config.minVSep);
      assert GeometrySane(good, config.minSep, config.minVSep);
      if TooFar(geo, config, w.fix, target) {
        code := Max(code, TARGET_TOO_FAR);
        Bail(code, w.now);
        return;
      }
      Emit(Waypoint(target, altCm, Heading(geo, config, p, course, w.fix)), p, course, code, w);
    }

    /** The waypoint leaves, between the variables. */
    method Emit(point: Waypoint, p: Peers.Peer, course: real, code: nat, w: World)
      modifies this`outbox, this`shownStatus, this`shownCondition, this`shownEngage
      ensures outbox == old(outbox) + EmitCommands(geo, config, w, point, p, course, state, code, old(Shows()))
      ensures Shows() == DisplayAfter(config, old(Shows()), state, code, Engaged(config, w.fc), w.now)
    {
      hide Round, Engaged, UpToDate, Refresh, Refreshed, TargetSpeed, DebugCommands, StatusCommands;
      UpdateDebugGvars(point, w.fix);
      var engaged := Engaged(config, w.fc);
      var speed := if engaged then TargetSpeed(geo, config, p, point.at, course, w.fix) else 0;
      UpdateAutothrottleGvars(engaged, speed, w.now);
      Send(Fly(point));
      if point.headingDeg != 0 && w.fc.headingHold {
        Send(SetHead(point.headingDeg));
      }
      UpdateStatusGvars(code, w.now);
    }

    /** Where the aircraft is steered depends on the lock through the leader alone. */
    static lemma SteersAlike(geo: Geo, v: View, v': View, w: World, p: Peers.Peer, state: LockState, d: Display)
      requires v'.config == v.config && v'.good == v.good && v'.course == v.course
      ensures OffsetStep(v', w) == OffsetStep(v, w) && CourseStep(v', p) == CourseStep(v, p)
      ensures SteerCondition(geo, v', w, p) == SteerCondition(geo, v, w, p)
      ensures SteerCommands(geo, v', w, p, state, d) == SteerCommands(geo, v, w, p, state, d)
      ensures Flown(geo, v', w, Some(p)) == Flown(geo, v, w, Some(p))
    {
      hide CandidateOk, WaypointFor, EmitCommands, BailCommands, AltitudeCondition, TooFar, Candidate;
    }

    /** When the cycle ran does not matter to what it does. */
    static lemma RunsAlike(geo: Geo, v: View, v': View, w: World, lock: Lock, leader: Option<Peers.Peer>, d: Display)
      requires v' == v.(started := v'.started, nextRun := v'.nextRun)
      ensures LockStep(geo, v', w, lock, leader) ==> LockStep(geo, v, w, lock, leader)
      ensures Condition(geo, v', w, leader) == Condition(geo, v, w, leader)
      ensures CycleCommands(geo, v', w, lock.state, leader, d) == CycleCommands(geo, v, w, lock.state, leader, d)
      ensures CycleDisplay(geo, v', w, lock.state, leader, d) == CycleDisplay(geo, v, w, lock.state, leader, d)
      ensures Flown(geo, v', w, leader) == Flown(geo, v, w, leader)
      ensures OffsetStep(v', w) == OffsetStep(v, w)
      ensures leader.Some? ==> CourseStep(v', leader.value) == CourseStep(v, leader.value)
    {
      if leader.Some? {
        SteersAlike(geo, v, v', w, leader.value, lock.state, d);
      }
      LocksAlike(geo, v, v', w, lock, leader);
      hide LockStep, SteerCommands, SteerCondition, OffsetStep, CourseStep, CandidateOk, WaypointFor, BailCommands;
      assert PreArmFails(v', w.fc) == PreArmFails(v, w.fc);
    }

    static lemma LocksAlike(geo: Geo, v: View, v': View, w: World, lock: Lock, leader: Option<Peers.Peer>)
      requires v'.config == v.config && v'.lock == v.lock
      ensures LockStep(geo, v', w, lock, leader) ==> LockStep(geo, v, w, lock, leader)
    {
      hide Followable;
      AcquiresFromIdle(geo, v, v', w);
      assert forall i: nat :: i < |w.table| ==> (IsFollowable(v', w, i) <==> IsFollowable(v, w, i));
    }

    /** A cycle that is due. */
    method RunCycle(w: World) returns (ghost leader: Option<Peers.Peer>)
      requires peers.Valid() && Good(Abstract()) && config.emitHz > 0 && Sees(w, w.fix, w.now)
      modifies this
      ensures Cycle(geo, old(Abstract()), w, Abstract(), leader, Flown(geo, old(Abstract()), w, leader))
      ensures outbox == old(outbox) + CycleCommands(geo, old(Abstract()), w, state, leader, old(Shows()))
      ensures Shows() == CycleDisplay(geo, old(Abstract()), w, state, leader, old(Shows()))
    {
      hide ValidConfig, GeometrySane, WithinConfig, CandidateOk, LockStep, OffsetStep, CourseStep, Engaged,
           CycleCommands, CycleDisplay, PreArmFails, WaypointFor, TooFar;
      leader := None;
      started := true;
      nextRun := Add32(w.now, 1000 / config.emitHz);
      PreArmCheck(w.fc);
      label ready:
      if !w.fc.gcsNav {
        StandDown(w);
      } else {
        leader := Pursue(w);
      }
      RunsAlike(geo, old(Abstract()), old@ready(Abstract()), w, Lock(state, lockedUid), leader, old(Shows()));
    }

    /** The rest of a cycle whose gate is not active. */
    method StandDown(w: World)
      requires !w.fc.gcsNav && preArmFailed == PreArmFails(Abstract(), w.fc)
      modifies this`state, this`lockedUid, this`haveCourse
      modifies this`outbox, this`shownStatus, this`shownCondition, this`shownEngage
      ensures Abstract() == old(Abstract()).(lock := Lock(Idle, 0), course := None)
      ensures outbox == old(outbox) + CycleCommands(geo, old(Abstract()), w, state, None, old(Shows()))
      ensures Shows() == CycleDisplay(geo, old(Abstract()), w, state, None, old(Shows()))
    {
      hide PreArmFails, Engaged, DisplayAfter, BailCommands;
      state, lockedUid, haveCourse := Idle, 0, false;
      Bail(if preArmFailed then RC_INVALID else NO_CONDITION, w.now);
    }

    /** The rest of a cycle whose gate is active. */
    method Pursue(w: World) returns (ghost leader: Option<Peers.Peer>)
      requires peers.Valid() && Good(Abstract()) && Sees(w, w.fix, w.now) && w.fc.gcsNav
      modifies this`state, this`lockedUid, this`good, this`frozen, this`haveCourse, this`lastCourse
      modifies this`outbox, this`shownStatus, this`shownCondition, this`shownEngage
      ensures LockStep(geo, old(Abstract()), w, Lock(state, lockedUid), leader)
      ensures Abstract() == old(Abstract()).(
                lock := Lock(state, lockedUid),
                good := if leader == None || !w.fix.valid then old(good) else OffsetStep(old(Abstract()), w),
                course := if leader == None || !w.fix.valid then old(Abstract()).course
                          else CourseStep(old(Abstract()), leader.value))
      ensures outbox == old(outbox) + CycleCommands(geo, old(Abstract()), w, state, leader, old(Shows()))
      ensures Shows() == CycleDisplay(geo, old(Abstract()), w, state, leader, old(Shows()))
    {
      hide ValidConfig, GeometrySane, WithinConfig, CandidateOk, LockStep, SteerCommands, SteerCondition, OffsetStep,
           CourseStep, Engaged, WaypointFor, BailCommands, DisplayAfter;
      var found := ResolveLock(w.fix, w.now, w);
      leader := found;
      if found == None || !w.fix.valid {
        Bail(NO_CONDITION, w.now);
        return;
      }
      SteersAlike(geo, old(Abstract()), Abstract(), w, found.value, state, Shows());
      Steer(found.value, w);
    }

    /** One call of the control loop: a cycle if one is due, else nothing. */
    method Service(fc: Fc, fix: Fix, now: u32) returns (ghost w: World, ghost leader: Option<Peers.Peer>)
      requires Valid()
      modifies this
      ensures Valid() && w == World(peers.peers[..], fc, fix, now)
      ensures var v := old(Abstract());
              Next(geo, v, if Due(v, now) then Cycled(w, leader, Flown(geo, v, w, leader)) else Skipped(now), Abstract())
      ensures !Due(old(Abstract()), now) ==> Abstract() == old(Abstract()) && outbox == old(outbox)
                                             && Shows() == old(Shows())
      ensures Due(old(Abstract()), now) ==>
                && Cycle(geo, old(Abstract()), w, Abstract(), leader, Flown(geo, old(Abstract()), w, leader))
                && outbox == old(outbox) + CycleCommands(geo, old(Abstract()), w, state, leader, old(Shows()))
                && Shows() == CycleDisplay(geo, old(Abstract()), w, state, leader, old(Shows()))
    {
      hide Good, Cycle, CycleCommands, CycleDisplay, Flown;
      w, leader := World(peers.peers[..], fc, fix, now), None;
      if started && ToI32(Sub32(now, nextRun)) < 0 {
        return;
      }
      GoodEmits(Abstract());
      leader := RunCycle(World(peers.peers[..], fc, fix, now));
      CycleKeepsGood(geo, old(Abstract()), w, Abstract(), leader, Flown(geo, old(Abstract()), w, leader));
    }

    static lemma GoodEmits(v: View)
      requires Good(v)
      ensures v.config.emitHz > 0
    {}
  }
}
