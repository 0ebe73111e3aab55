/** What the pilot's display shows of the follow controller (lib/ff_core/follow.cpp): the values
    that actually reached the variables of the flight controller, against what the controller
    remembers of them. */
module PilotDisplay {
  import opened MachineWords
  import opened Options
  import opened Follow
  import Peers = PeerTable

  /** The value last sent to the variable with this index. */
  function LastSent(out: seq<Command>, index: int): (value: Option<int>)
  {
    if out == [] then None
    else
      var last := out[|out| - 1];
      if last.Gvar? && last.index == index then Some(last.value) else LastSent(out[..|out| - 1], index)
  }

  function Or(a: Option<int>, b: Option<int>): Option<int>
  {
    if a.Some? then a else b
  }

  lemma {:induction false} LastSentAfter(out: seq<Command>, more: seq<Command>, index: int)
    ensures LastSent(out + more, index) == Or(LastSent(more, index), LastSent(out, index))
  {
    if more == [] {
      assert out + more == out;
    } else {
      var n := |more| - 1;
      LastSentAfter(out, more[..n], index);
      assert (out + more)[..|out| + n] == out + more[..n];
    }
  }

  lemma SentNothing(commands: seq<Command>, index: int)
    requires forall k :: 0 <= k < |commands| ==> !(commands[k].Gvar? && commands[k].index == index)
    ensures LastSent(commands, index) == None
  {
    if commands != [] {
      SentNothing(commands[..|commands| - 1], index);
    }
  }

  // ---- The variables that are sent when they change, and now and then ---------------------------

  datatype Variable = LockStatus | ConditionCode | Engagement

  function IndexOf(c: Config, x: Variable): i16
  {
    match x
    case LockStatus => c.statusGvar
    case ConditionCode => c.conditionGvar
    case Engagement => c.engageGvar
  }

  function ShownOf(d: Display, x: Variable): Shown
  {
    match x
    case LockStatus => d.status
    case ConditionCode => d.condition
    case Engagement => d.engage
  }

  /** What the variable is to tell the pilot after a cycle. */
  function ValueOf(state: LockState, code: nat, engaged: bool, x: Variable): (value: int)
    ensures value != NEVER
  {
    match x
    case LockStatus => StatusValue(state)
    case ConditionCode => code
    case Engagement => if engaged then 1 else 0
  }

  function Value(geo: Geo, v: View, w: World, state: LockState, leader: Option<Peers.Peer>, x: Variable): (value: int)
  {
    ValueOf(state, Condition(geo, v, w, leader), EngagedIn(geo, v, w, leader), x)
  }

  /** The indices of two variables that are enabled differ. */
  predicate OwnIndices(c: Config)
  {
    && Apart(c.statusGvar, c.conditionGvar) && Apart(c.statusGvar, c.speedGvar) && Apart(c.statusGvar, c.engageGvar)
    && Apart(c.conditionGvar, c.speedGvar) && Apart(c.conditionGvar, c.engageGvar) && Apart(c.speedGvar, c.engageGvar)
  }

  lemma ValidHasOwnIndices(c: Config)
    requires ValidConfig(c)
    ensures OwnIndices(c)
  {}

  function DebugValue(geo: Geo, c: Config, point: Waypoint, fix: Fix, index: int): (value: Option<int>)
  {
    if !c.debug then None
    else
      var (north, east) := geo.northEast(fix.at, point.at);
      if index == DEBUG_NORTH_GVAR then Some(Round(north * 100.0))
      else if index == DEBUG_EAST_GVAR then Some(Round(east * 100.0))
      else if index == DEBUG_ALT_GVAR then Some(point.altCm)
      else if index == DEBUG_HEADING_GVAR then Some(point.headingDeg)
      else None
  }

  /** What the debug output of a cycle writes to this index. */
  function DebugWrites(geo: Geo, v: View, w: World, leader: Option<Peers.Peer>, index: int): (value: Option<int>)
  {
    var flown := Flown(geo, v, w, leader);
    if flown == None then None else DebugValue(geo, v.config, flown.value, w.fix, index)
  }

  // ---- What the commands of a cycle send ---------------------------------------------------------

  function RefreshSends(shown: Shown, own: i16, value: int, now: u32, index: int): (sent: Option<int>)
  {
    if own == index && !UpToDate(shown, own, value, now) then Some(value) else None
  }

  lemma RefreshSent(shown: Shown, own: i16, value: int, now: u32, index: int)
    requires index >= 0
    ensures LastSent(Refresh(shown, own, value, now), index) == RefreshSends(shown, own, value, now, index)
  {
    assert [Gvar(0, 0)][..0] == [];
  }

  lemma StatusSent(c: Config, d: Display, state: LockState, code: nat, now: u32, index: int)
    requires index >= 0
    ensures LastSent(StatusCommands(c, d.status, d.condition, state, code, now), index)
         == Or(RefreshSends(d.condition, c.conditionGvar, code, now, index),
               RefreshSends(d.status, c.statusGvar, StatusValue(state), now, index))
  {
    hide LastSent, Refresh, RefreshSends;
    RefreshSent(d.status, c.statusGvar, StatusValue(state), now, index);
    RefreshSent(d.condition, c.conditionGvar, code, now, index);
    LastSentAfter(Refresh(d.status, c.statusGvar, StatusValue(state), now),
                  Refresh(d.condition, c.conditionGvar, code, now), index);
  }

  lemma EngageSent(c: Config, d: Display, engaged: bool, speed: int, now: u32, index: int)
    requires index >= 0
    ensures LastSent(EngageCommands(c, d.engage, engaged, speed, now), index)
         == if engaged && c.speedGvar == index then Some(speed)
            else RefreshSends(d.engage, c.engageGvar, if engaged then 1 else 0, now, index)
  {
    hide LastSent, Refresh, RefreshSends;
    RefreshSent(d.engage, c.engageGvar, if engaged then 1 else 0, now, index);
    var speeds := if engaged && c.speedGvar >= 0 then [Gvar(c.speedGvar, speed)] else [];
    LastSentAfter(Refresh(d.engage, c.engageGvar, if engaged then 1 else 0, now), speeds, index);
    OneSent(speeds, index);
  }

  lemma OneSent(commands: seq<Command>, index: int)
    requires |commands| <= 1
    ensures LastSent(commands, index)
         == if commands != [] && commands[0].Gvar? && commands[0].index == index then Some(commands[0].value) else None
  {}

  lemma DebugSent(geo: Geo, c: Config, point: Waypoint, fix: Fix, index: int)
    ensures LastSent(DebugCommands(geo, c, point, fix), index) == DebugValue(geo, c, point, fix, index)
  {
    hide LastSent, Round;
    if c.debug {
      var (north, east) := geo.northEast(fix.at, point.at);
      var a, b := Gvar(DEBUG_NORTH_GVAR, Round(north * 100.0)), Gvar(DEBUG_EAST_GVAR, Round(east * 100.0));
      var e, f := Gvar(DEBUG_ALT_GVAR, point.altCm), Gvar(DEBUG_HEADING_GVAR, point.headingDeg);
      OneSent([a], index);
      OneSent([b], index);
      OneSent([e], index);
      OneSent([f], index);
      LastSentAfter([a], [b], index);
      LastSentAfter([a] + [b], [e], index);
      LastSentAfter([a] + [b] + [e], [f], index);
      assert DebugCommands(geo, c, point, fix) == [a] + [b] + [e] + [f];
    } else {
      OneSent([], index);
    }
  }

  lemma FlySent(p: Waypoint, headingHold: bool, index: int)
    ensures LastSent(FlyCommands(p, headingHold), index) == None
  {
    SentNothing(FlyCommands(p, headingHold), index);
  }

  lemma BailSent(c: Config, d: Display, state: LockState, code: nat, now: u32, x: Variable)
    requires OwnIndices(c) && IndexOf(c, x) >= 0
    ensures LastSent(BailCommands(c, d, state, code, now), IndexOf(c, x))
         == RefreshSends(ShownOf(d, x), IndexOf(c, x), ValueOf(state, code, false, x), now, IndexOf(c, x))
  {
    hide LastSent, Refresh, StatusCommands, EngageCommands, UpToDate;
    var index := IndexOf(c, x);
    StatusSent(c, d, state, code, now, index);
    EngageSent(c, d, false, 0, now, index);
    LastSentAfter(StatusCommands(c, d.status, d.condition, state, code, now),
                  EngageCommands(c, d.engage, false, 0, now), index);
  }

  lemma EmitSent(geo: Geo, c: Config, w: World, point: Waypoint, p: Peers.Peer, course: real, state: LockState, code: nat,
                 d: Display, x: Variable)
    requires OwnIndices(c) && IndexOf(c, x) >= 0
    ensures var index := IndexOf(c, x);
            LastSent(EmitCommands(geo, c, w, point, p, course, state, code, d), index) ==
            Or(RefreshSends(ShownOf(d, x), index, ValueOf(state, code, Engaged(c, w.fc), x), w.now, index),
               DebugValue(geo, c, point, w.fix, index))
  {
    hide LastSent, Refresh, StatusCommands, EngageCommands, DebugCommands, DebugValue, FlyCommands, UpToDate, Engaged,
         TargetSpeed;
    var index, engaged, speed := IndexOf(c, x), Engaged(c, w.fc), TargetSpeed(geo, c, p, point.at, course, w.fix);
    var debug, engage := DebugCommands(geo, c, point, w.fix), EngageCommands(c, d.engage, engaged, speed, w.now);
    var fly, status := FlyCommands(point, w.fc.headingHold), StatusCommands(c, d.status, d.condition, state, code, w.now);
    DebugSent(geo, c, point, w.fix, index);
    EngageSent(c, d, engaged, speed, w.now, index);
    FlySent(point, w.fc.headingHold, index);
    StatusSent(c, d, state, code, w.now, index);
    LastSentAfter(debug, engage, index);
    LastSentAfter(debug + engage, fly, index);
    LastSentAfter(debug + engage + fly, status, index);
  }

  /** The speed is sent in every cycle that leaves the autothrottle engaged, after all that
      could share its index. */
  lemma SpeedSent(geo: Geo, c: Config, w: World, point: Waypoint, p: Peers.Peer, course: real, state: LockState, code: nat,
                  d: Display)
    requires ValidConfig(c) && c.speedGvar >= 0 && Engaged(c, w.fc)
    ensures LastSent(EmitCommands(geo, c, w, point, p, course, state, code, d), c.speedGvar) ==
            Some(TargetSpeed(geo, c, p, point.at, course, w.fix))
  {
    hide LastSent, Refresh, StatusCommands, EngageCommands, DebugCommands, DebugValue, FlyCommands, UpToDate, Engaged,
         TargetSpeed, ValidConfig;
    ValidHasOwnIndices(c);
    var speed := TargetSpeed(geo, c, p, point.at, course, w.fix);
    var debug, engage := DebugCommands(geo, c, point, w.fix), EngageCommands(c, d.engage, true, speed, w.now);
    var fly, status := FlyCommands(point, w.fc.headingHold), StatusCommands(c, d.status, d.condition, state, code, w.now);
    EngageSent(c, d, true, speed, w.now, c.speedGvar);
    FlySent(point, w.fc.headingHold, c.speedGvar);
    StatusSent(c, d, state, code, w.now, c.speedGvar);
    LastSentAfter(debug, engage, c.speedGvar);
    LastSentAfter(debug + engage, fly, c.speedGvar);
    LastSentAfter(debug + engage + fly, status, c.speedGvar);
  }

  /** What a cycle sends to the index of a variable, whatever was remembered of it. */
  lemma CycleSent(geo: Geo, v: View, w: World, state: LockState, leader: Option<Peers.Peer>, d: Display, x: Variable)
    requires OwnIndices(v.config) && IndexOf(v.config, x) >= 0
    ensures var index, value := IndexOf(v.config, x), Value(geo, v, w, state, leader, x);
            LastSent(CycleCommands(geo, v, w, state, leader, d), index) ==
            if !UpToDate(ShownOf(d, x), index, value, w.now) then Some(value)
            else DebugWrites(geo, v, w, leader, index)
  {
    hide LastSent, BailCommands, EmitCommands, WaypointFor, TooFar, OffsetStep, CourseStep, CourseFlown, UpToDate,
         SteerCondition, Engaged, DebugValue, PreArmFails, OwnIndices;
    var c := v.config;
    if !w.fc.gcsNav || leader == None || !w.fix.valid {
      BailSent(c, d, state, Condition(geo, v, w, leader), w.now, x);
    } else {
      var p, code := leader.value, SteerCondition(geo, v, w, leader.value);
      var course := CourseFlown(CourseStep(v, p), p);
      var point := WaypointFor(geo, c, w, p, OffsetStep(v, w), course);
      BailSent(c, d, state, code, w.now, x);
      EmitSent(geo, c, w, point, p, course, state, code, d, x);
    }
  }

  /** After a cycle the last value sent for a variable is the one it is to tell exactly if the
      variable was refreshed in it, or else neither the debug output nor whatever reached the
      index before says anything different. */
  lemma TellsTruthIff(geo: Geo, v: View, w: World, state: LockState, leader: Option<Peers.Peer>, d: Display,
                      out: seq<Command>, x: Variable)
    requires ValidConfig(v.config) && IndexOf(v.config, x) >= 0
    ensures var index, value := IndexOf(v.config, x), Value(geo, v, w, state, leader, x);
            LastSent(out + CycleCommands(geo, v, w, state, leader, d), index) == Some(value)
            <==> || !UpToDate(ShownOf(d, x), index, value, w.now)
                 || Or(DebugWrites(geo, v, w, leader, index), LastSent(out, index)) == Some(value)
  {
    hide LastSent, CycleCommands, UpToDate, Value, DebugWrites, ValidConfig;
    ValidHasOwnIndices(v.config);
    CycleSent(geo, v, w, state, leader, d, x);
    LastSentAfter(out, CycleCommands(geo, v, w, state, leader, d), IndexOf(v.config, x));
  }

  // ---- Over whole runs ---------------------------------------------------------------------------

  /** The configuration of the last cycle, what the controller remembers, and all it sent. */
  datatype Panel = Panel(last: Config, shows: Display, out: seq<Command>)

  function PanelAfter(geo: Geo, v: View, w: World, state: LockState, leader: Option<Peers.Peer>, p: Panel): (q: Panel)
  {
    Panel(v.config, CycleDisplay(geo, v, w, state, leader, p.shows),
          p.out + CycleCommands(geo, v, w, state, leader, p.shows))
  }

  /** The variable was sent within the heartbeat. */
  predicate Recent(shown: Shown, now: u32)
  {
    shown.value != NEVER && Sub32(now, shown.at) < GVAR_HEARTBEAT
  }

  /** What a caller can see to: the debug output does not share an index with a variable, and
      a variable that was moved to another index since the last cycle was not sent within the
      heartbeat. */
  ghost predicate Settled(p: Panel, c: Config, now: u32)
  {
    forall x: Variable :: SettledOne(p, c, now, x)
  }

  predicate SettledOne(p: Panel, c: Config, now: u32, x: Variable)
  {
    && (c.debug ==> IndexOf(c, x) < 0 || IndexOf(c, x) > DEBUG_HEADING_GVAR)
    && (IndexOf(c, x) == IndexOf(p.last, x) || !Recent(ShownOf(p.shows, x), now))
  }

  /** What the controller remembers was indeed the last value sent. */
  ghost predicate Honest(p: Panel)
  {
    forall x: Variable :: HonestOne(p, x)
  }

  predicate HonestOne(p: Panel, x: Variable)
  {
    var index, shown := IndexOf(p.last, x), ShownOf(p.shows, x);
    index >= 0 && shown.value != NEVER ==> LastSent(p.out, index) == Some(shown.value)
  }

  lemma CycleKeepsHonest(geo: Geo, v: View, w: World, state: LockState, leader: Option<Peers.Peer>, p: Panel)
    requires ValidConfig(v.config) && Honest(p) && Settled(p, v.config, w.now)
    ensures var q := PanelAfter(geo, v, w, state, leader, p);
            && Honest(q)
            && forall x: Variable :: IndexOf(v.config, x) >= 0 ==>
                 LastSent(q.out, IndexOf(v.config, x)) == Some(Value(geo, v, w, state, leader, x))
  {
    hide LastSent, CycleCommands, DebugWrites, ValidConfig;
    var q := PanelAfter(geo, v, w, state, leader, p);
    forall x: Variable
      ensures HonestOne(q, x)
      ensures IndexOf(v.config, x) >= 0 ==>
                LastSent(q.out, IndexOf(v.config, x)) == Some(Value(geo, v, w, state, leader, x))
    {
      assert HonestOne(p, x) && SettledOne(p, v.config, w.now, x);
      DisplayOf(geo, v, w, state, leader, p.shows, x);
      if IndexOf(v.config, x) >= 0 {
        TellsTruthIff(geo, v, w, state, leader, p.shows, p.out, x);
        NoDebug(geo, v, w, leader, IndexOf(v.config, x));
      }
    }
  }

  lemma DisplayOf(geo: Geo, v: View, w: World, state: LockState, leader: Option<Peers.Peer>, d: Display, x: Variable)
    ensures ShownOf(CycleDisplay(geo, v, w, state, leader, d), x)
         == Refreshed(ShownOf(d, x), IndexOf(v.config, x), Value(geo, v, w, state, leader, x), w.now)
  {
    hide Condition, EngagedIn, Refreshed;
  }

  lemma NoDebug(geo: Geo, v: View, w: World, leader: Option<Peers.Peer>, index: int)
    requires v.config.debug ==> index > DEBUG_HEADING_GVAR
    ensures DebugWrites(geo, v, w, leader, index) == None
  {}

  /** `panels[k + 1]` is what `events[k]` makes of `panels[k]`; only a cycle that is due sends
      anything. */
  ghost predicate IsPanelRun(geo: Geo, states: seq<View>, events: seq<Event>, panels: seq<Panel>)
    requires |states| == |events| + 1
  {
    && |panels| == |states|
    && forall k :: 0 <= k < |events| ==> PanelNext(geo, states, events, panels, k)
  }

  ghost predicate PanelNext(geo: Geo, states: seq<View>, events: seq<Event>, panels: seq<Panel>, k: nat)
    requires k < |events| < |states| == |panels|
  {
    panels[k + 1] == match events[k]
                     case Cycled(w, leader, _) =>
                       PanelAfter(geo, states[k], w, states[k + 1].lock.state, leader, panels[k])
                     case _ => panels[k]
  }

  ghost predicate SettledAt(states: seq<View>, events: seq<Event>, panels: seq<Panel>, k: nat)
    requires k < |events| < |states| == |panels|
  {
    events[k].Cycled? ==> Settled(panels[k], states[k].config, events[k].world.now)
  }

  /** From the start of any run in which every cycle is settled, the controller remembers
      what it sent ... */
  lemma {:induction false} RemembersTruth(geo: Geo, states: seq<View>, events: seq<Event>, panels: seq<Panel>, k: nat)
    requires IsRun(geo, states, events) && Good(states[0]) && IsPanelRun(geo, states, events, panels)
    requires Honest(panels[0]) && forall j: nat :: j < |events| ==> SettledAt(states, events, panels, j)
    requires k < |states|
    ensures Honest(panels[k])
  {
    hide Honest, Settled, PanelAfter, Good;
    if k > 0 {
      RemembersTruth(geo, states, events, panels, k - 1);
      AlwaysGood(geo, states, events, k - 1);
      GoodIsValid(states[k - 1]);
      assert PanelNext(geo, states, events, panels, k - 1) && SettledAt(states, events, panels, k - 1);
      match events[k - 1] {
        case Cycled(w, leader, _) =>
          CycleKeepsHonest(geo, states[k - 1], w, states[k].lock.state, leader, panels[k - 1]);
        case _ =>
      }
    }
  }

  lemma GoodIsValid(v: View)
    requires Good(v)
    ensures ValidConfig(v.config)
  {}

  /** ... and after every cycle the pilot's display tells the truth: the last value sent to
      the index of each enabled variable is what the controller has to tell. */
  lemma PilotSeesTruth(geo: Geo, states: seq<View>, events: seq<Event>, panels: seq<Panel>, k: nat, x: Variable)
    requires IsRun(geo, states, events) && Good(states[0]) && IsPanelRun(geo, states, events, panels)
    requires Honest(panels[0]) && forall j: nat :: j < |events| ==> SettledAt(states, events, panels, j)
    requires k < |events| && events[k].Cycled? && IndexOf(states[k].config, x) >= 0
    ensures var Cycled(w, leader, _) := events[k];
            LastSent(panels[k + 1].out, IndexOf(states[k].config, x)) ==
            Some(Value(geo, states[k], w, states[k + 1].lock.state, leader, x))
  {
    hide Honest, Settled, Good, LastSent, Value, IndexOf, CycleCommands, CycleDisplay;
    RemembersTruth(geo, states, events, panels, k);
    AlwaysGood(geo, states, events, k);
    GoodIsValid(states[k]);
    assert PanelNext(geo, states, events, panels, k) && SettledAt(states, events, panels, k);
    var Cycled(w, leader, _) := events[k];
    CycleKeepsHonest(geo, states[k], w, states[k + 1].lock.state, leader, panels[k]);
  }

  lemma StartsHonest(c: Config)
    ensures Honest(Panel(c, Display(Shown(NEVER, 0), Shown(NEVER, 0), Shown(NEVER, 0)), []))
  {}

  // ---- Where it does not --------------------------------------------------------------------------

  /** A valid configuration lets the debug output share an index with the lock status. With
      the status sent a quarter of a second ago, a waypoint 12 m to the north leaves the
      display at 1200, and the controller takes it for up to date. */
  lemma DebugOverwritesStatus(geo: Geo, w: World, point: Waypoint, p: Peers.Peer, course: real, code: nat, d: Display)
    requires geo.northEast(w.fix.at, point.at) == (12.0, 0.0)
    requires d.status == Shown(StatusValue(Locked), Sub32(w.now, 250))
    ensures var c := DEFAULTS.(debug := true, statusGvar := 0);
            && ValidConfig(c) && UpToDate(d.status, c.statusGvar, StatusValue(Locked), w.now)
            && LastSent(EmitCommands(geo, c, w, point, p, course, Locked, code, d), c.statusGvar) == Some(1200)
  {
    hide EmitCommands, LastSent;
    var c := DEFAULTS.(debug := true, statusGvar := 0);
    DebugIsValid();
    EmitSent(geo, c, w, point, p, course, Locked, code, d, LockStatus);
  }

  lemma DebugIsValid()
    ensures ValidConfig(DEFAULTS.(debug := true, statusGvar := 0))
    ensures ValidConfig(DEFAULTS.(statusGvar := 4)) && ValidConfig(DEFAULTS.(statusGvar := 5))
  {
    assert GeometrySane(StaticOffset(DEFAULTS), 8.0, 13.0);
  }

  /** The lock status is moved from variable 4 to 5 a quarter of a second after it was sent.
      The next cycle, with the same status, writes nothing to variable 5. */
  lemma MovedStatusIsNotSent(now: u32)
    ensures var never := Shown(NEVER, 0);
            var d := Display(Shown(StatusValue(Idle), Sub32(now, 250)), never, never);
            var out, c := [Gvar(4, StatusValue(Idle))], DEFAULTS.(statusGvar := 5);
            && ValidConfig(DEFAULTS.(statusGvar := 4)) && ValidConfig(c)
            && Honest(Panel(DEFAULTS.(statusGvar := 4), d, out))
            && UpToDate(d.status, c.statusGvar, StatusValue(Idle), now)
            && LastSent(out + BailCommands(c, d, Idle, NO_CONDITION, now), c.statusGvar) == None
  {
    hide BailCommands;
    var never := Shown(NEVER, 0);
    var d := Display(Shown(StatusValue(Idle), Sub32(now, 250)), never, never);
    var out, c := [Gvar(4, StatusValue(Idle))], DEFAULTS.(statusGvar := 5);
    DebugIsValid();
    BailSent(c, d, Idle, NO_CONDITION, now, LockStatus);
    LastSentAfter(out, BailCommands(c, d, Idle, NO_CONDITION, now), c.statusGvar);
    OneSent(out, 4);
    OneSent(out, 5);
  }
}
