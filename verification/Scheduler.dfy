/** The timers of lib/ff_core/scheduler.cpp. Their clock is a 32-bit counter; the
    proofs relate every reading of it to a time that does not wrap. */
module Scheduler {
  import opened MachineWords

  const MAX_TIMERS: nat := 16
  const HALF: int := 0x8000_0000

  type TaskId = nat

  datatype Timer = Timer(due: u32, period: u32, task: TaskId, active: bool)

  const NO_TIMER := Timer(0, 0, 0, false)

  /** What a callback may do to the scheduler. */
  datatype Op =
    | After(delay: u32, task: TaskId)
    | Every(period: u32, task: TaskId)
    | Cancel(h: int)
    | Rearm(h: int, delay: u32)

  predicate InRange(delay: u32)
  {
    1 <= delay < HALF
  }

  predicate OpInRange(op: Op)
  {
    match op
    case After(delay, _) => InRange(delay)
    case Every(period, _) => InRange(period)
    case Cancel(_) => true
    case Rearm(_, delay) => InRange(delay)
  }

  ghost predicate OpsInRange(ops: seq<Op>)
  {
    forall k :: 0 <= k < |ops| ==> OpInRange(ops[k])
  }

  ghost predicate NoCancel(ops: seq<Op>)
  {
    forall k :: 0 <= k < |ops| ==> !ops[k].Cancel?
  }

  ghost predicate ShortPeriods(ops: seq<Op>)
  {
    forall k :: 0 <= k < |ops| && ops[k].Every? ==> 2 * ops[k].period < HALF
  }

  /** Delays and periods in range; and if a callback cancels anything, no callback starts a
      timer with a period of 2^30 or more, which could take a cancelled timer's place and
      overflow the signed difference when it is moved on in the same poll. */
  ghost predicate ActsInRange(acts: nat -> seq<Op>)
  {
    && (forall i: nat :: OpsInRange(acts(i)))
    && ((forall i: nat :: NoCancel(acts(i))) || (forall i: nat :: ShortPeriods(acts(i))))
  }

  // ---- Wrapping time --------------------------------------------------------------------

  /** `u` is what the 32-bit clock shows at time `t`. */
  ghost predicate Shows(u: u32, t: int)
  {
    (t - u) % TWO32 == 0
  }

  predicate Reached(now: u32, due: u32)
  {
    ToI32(Sub32(now, due)) >= 0
  }

  lemma ShowsLater(u: u32, t: int, delay: u32)
    requires Shows(u, t)
    ensures Shows(Add32(u, delay), t + delay)
  {}

  lemma ReachedIsOrder(now: u32, t: int, due: u32, d: int)
    requires Shows(now, t) && Shows(due, d) && -HALF < d - t < HALF
    ensures Reached(now, due) <==> d <= t
    ensures ToI32(Sub32(due, now)) == d - t
  {
    assert ((d - t) - (due - now)) % TWO32 == 0;
  }

  // ---- One timer over many polls -----------------------------------------------------------

  /** The deadline of a periodic timer that fires at `t`: the next one of the series,
      unless that has been missed as well. */
  function NextDeadline(d: int, period: u32, t: int): (next: int)
  {
    if t < d + period then d + period else t + period
  }

  datatype Series = Series(deadline: int, fired: nat)

  /** A timer started at `start`, after polls at the given times. */
  function AfterPolls(start: int, period: u32, polls: seq<int>): (s: Series)
  {
    if polls == [] then Series(start + period, 0)
    else
      var s := AfterPolls(start, period, polls[..|polls| - 1]);
      var t := polls[|polls| - 1];
      if s.deadline <= t then Series(NextDeadline(s.deadline, period, t), s.fired + 1) else s
  }

  /** The time of the poll before poll `i`. */
  function Before(start: int, polls: seq<int>, i: nat): (t: int)
    requires i <= |polls|
  {
    if i == 0 then start else polls[i - 1]
  }

  ghost predicate PolledOften(start: int, period: u32, polls: seq<int>)
  {
    forall i :: 0 <= i < |polls| ==> Before(start, polls, i) <= polls[i] <= Before(start, polls, i) + period
  }

  /** No drift and nothing skipped: polled at least once a period, a timer has fired
      once for every whole period that has passed, and its next deadline is the next
      multiple of the period. */
  lemma {:induction false} NoDrift(start: int, period: u32, polls: seq<int>)
    requires period > 0 && PolledOften(start, period, polls)
    ensures var s := AfterPolls(start, period, polls);
            var last := Before(start, polls, |polls|);
            && s.deadline == start + (s.fired + 1) * period
            && s.deadline - period <= last < s.deadline
  {
    if polls != [] {
      var before := polls[..|polls| - 1];
      assert forall i :: 0 <= i <= |before| ==> Before(start, before, i) == Before(start, polls, i);
      NoDrift(start, period, before);
      var s := AfterPolls(start, period, before);
      assert (s.fired + 2) * period == (s.fired + 1) * period + period;
    }
  }

  // ---- The timers as values -----------------------------------------------------------------

  /** A timer with the true time of its deadline. */
  datatype Entry = Entry(task: TaskId, period: u32, deadline: int, active: bool)

  type Wheel = w: seq<Entry> | |w| == MAX_TIMERS witness seq(MAX_TIMERS, i => Entry(0, 0, 0, false))

  predicate IsHandle(h: int)
  {
    0 <= h < MAX_TIMERS
  }

  /** The first free slot from `i` on, or -1. */
  function FirstFree(w: Wheel, i: nat): (h: int)
    requires i <= MAX_TIMERS
    ensures -1 <= h < MAX_TIMERS
    ensures h >= 0 ==> i <= h && !w[h].active && forall k :: i <= k < h ==> w[k].active
    ensures h == -1 ==> forall k :: i <= k < MAX_TIMERS ==> w[k].active
    decreases MAX_TIMERS - i
  {
    if i == MAX_TIMERS then -1 else if !w[i].active then i else FirstFree(w, i + 1)
  }

  lemma FirstFreeIs(w: Wheel, h: nat)
    requires h < MAX_TIMERS && !w[h].active && forall k :: 0 <= k < h ==> w[k].active
    ensures FirstFree(w, 0) == h
  {}

  /** The timers after one operation at time `t`. */
  function Done(w: Wheel, op: Op, t: int): (w': Wheel)
  {
    match op
    case After(delay, task) =>
      var h := FirstFree(w, 0);
      if h == -1 then w else w[h := Entry(task, 0, t + delay, true)]
    case Every(period, task) =>
      var h := FirstFree(w, 0);
      if h == -1 then w else w[h := Entry(task, period, t + period, true)]
    case Cancel(h) => if IsHandle(h) then w[h := w[h].(active := false)] else w
    case Rearm(h, delay) => if IsHandle(h) then w[h := w[h].(period := 0, deadline := t + delay, active := true)] else w
  }

  function DoneAll(w: Wheel, ops: seq<Op>, t: int): (w': Wheel)
  {
    if ops == [] then w else Done(DoneAll(w, ops[..|ops| - 1], t), ops[|ops| - 1], t)
  }

  lemma DoneOneMore(w: Wheel, ops: seq<Op>, op: Op, t: int)
    ensures DoneAll(w, [], t) == w
    ensures DoneAll(w, ops + [op], t) == Done(DoneAll(w, ops, t), op, t)
  {
    assert (ops + [op])[..|ops|] == ops;
  }

  predicate DueIn(w: Wheel, i: nat, t: int)
    requires i < MAX_TIMERS
  {
    w[i].active && w[i].deadline <= t
  }

  /** A timer whose turn has come, before its callback runs. */
  function Turned(e: Entry, t: int): (e': Entry)
  {
    if e.period == 0 then e.(active := false) else e.(deadline := NextDeadline(e.deadline, e.period, t))
  }

  datatype Polling = Polling(wheel: Wheel, fired: seq<(nat, TaskId)>)

  /** A poll at `t` after the first `n` slots: those that were due when it began and are
      active when their turn comes are moved on or ended, and their callbacks run. */
  function Polls(w: Wheel, t: int, acts: nat -> seq<Op>, n: nat): (p: Polling)
    requires n <= MAX_TIMERS
  {
    if n == 0 then Polling(w, [])
    else Turn(w, t, acts, n - 1, Polls(w, t, acts, n - 1))
  }

  function Turn(w: Wheel, t: int, acts: nat -> seq<Op>, i: nat, p: Polling): (q: Polling)
    requires i < MAX_TIMERS
  {
    if DueIn(w, i, t) && p.wheel[i].active then
      Polling(DoneAll(p.wheel[i := Turned(p.wheel[i], t)], acts(i), t), p.fired + [(i, p.wheel[i].task)])
    else p
  }

  // ---- What one callback does to a timer ---------------------------------------------------------

  /** The last thing the operations do to handle `h` itself. */
  datatype Last = Nothing | Stopped | Again(delay: u32)

  function LastOn(ops: seq<Op>, h: nat): (r: Last)
    ensures OpsInRange(ops) && r.Again? ==> InRange(r.delay)
  {
    if ops == [] then Nothing
    else
      match ops[|ops| - 1]
      case Cancel(g) => if g == h then Stopped else LastOn(ops[..|ops| - 1], h)
      case Rearm(g, delay) => if g == h then Again(delay) else LastOn(ops[..|ops| - 1], h)
      case _ => LastOn(ops[..|ops| - 1], h)
  }

  ghost predicate Cancels(ops: seq<Op>, h: nat)
  {
    exists k :: 0 <= k < |ops| && ops[k] == Cancel(h)
  }

  /** Some operation starts a timer for this task. */
  ghost predicate Starts(ops: seq<Op>, task: TaskId)
  {
    exists k :: 0 <= k < |ops| && (ops[k].After? || ops[k].Every?) && ops[k].task == task
  }

  /** The timer is one that an operation started at `t`. */
  ghost predicate Made(e: Entry, t: int, ops: seq<Op>)
  {
    e.active && exists k :: 0 <= k < |ops| && MadeBy(e, t, ops[k])
  }

  predicate MadeBy(e: Entry, t: int, op: Op)
  {
    match op
    case After(delay, task) => e == Entry(task, 0, t + delay, true)
    case Every(period, task) => e == Entry(task, period, t + period, true)
    case _ => false
  }

  /** What a callback that does `ops` leaves of the timer in slot `h`. If it does nothing to
      that handle, a running timer stays as it was, and a free slot stays free or holds a
      timer the callback started. Otherwise the last cancellation or re-arming counts, but
      a slot may be taken again after a cancellation. */
  ghost predicate Called(was: Entry, now: Entry, t: int, ops: seq<Op>, h: nat)
  {
    match LastOn(ops, h)
    case Nothing => now == was || (!was.active && Made(now, t, ops))
    case Stopped => (!now.active && TaskOf(was, now, ops, h)) || Made(now, t, ops)
    case Again(delay) => now.active && now.period == 0 && now.deadline == t + delay && TaskOf(was, now, ops, h)
  }

  /** The timer has the task it had, or the slot was free in between and taken again. */
  ghost predicate TaskOf(was: Entry, now: Entry, ops: seq<Op>, h: nat)
  {
    now.task == was.task || ((!was.active || Cancels(ops, h)) && Starts(ops, now.task))
  }

  /** One more operation of the callback. */
  lemma CalledMore(was: Entry, mid: Entry, now: Entry, t: int, ops: seq<Op>, op: Op, h: nat)
    requires Called(was, mid, t, ops, h)
    requires match op
             case Cancel(g) => now == if g == h then mid.(active := false) else mid
             case Rearm(g, delay) => now == if g == h then mid.(period := 0, deadline := t + delay, active := true) else mid
             case _ => now == mid || (!mid.active && MadeBy(now, t, op))
    ensures Called(was, now, t, ops + [op], h)
  {
    var all := ops + [op];
    assert all[|all| - 1] == op && all[..|all| - 1] == ops;
    assert forall k :: 0 <= k < |ops| ==> all[k] == ops[k];
    CancelsMore(ops, op, h);
    if now.active && MadeBy(now, t, op) {
      assert Made(now, t, all);
    }
    if Starts(ops, now.task) {
      var k :| 0 <= k < |ops| && (ops[k].After? || ops[k].Every?) && ops[k].task == now.task;
      assert all[k].task == now.task;
    }
    if Made(mid, t, ops) {
      var k :| 0 <= k < |ops| && MadeBy(mid, t, ops[k]);
      assert MadeBy(mid, t, all[k]) && all[k].task == mid.task;
    }
  }

  lemma CancelsMore(ops: seq<Op>, op: Op, h: nat)
    ensures Cancels(ops + [op], h) <==> Cancels(ops, h) || op == Cancel(h)
    ensures LastOn(ops, h) == Stopped ==> Cancels(ops, h)
  {
    var all := ops + [op];
    assert all[|ops|] == op;
    if Cancels(ops, h) {
      var k :| 0 <= k < |ops| && ops[k] == Cancel(h);
      assert all[k] == Cancel(h);
    }
    if LastOn(ops, h) == Stopped {
      LastStops(ops, h);
    }
  }

  lemma {:induction false} LastStops(ops: seq<Op>, h: nat)
    requires LastOn(ops, h) == Stopped
    ensures Cancels(ops, h)
  {
    var n := |ops| - 1;
    if ops[n] != Cancel(h) {
      LastStops(ops[..n], h);
      var k :| 0 <= k < n && ops[..n][k] == Cancel(h);
      assert ops[k] == Cancel(h);
    }
  }

  lemma {:induction false} CalledAll(w: Wheel, t: int, ops: seq<Op>, h: nat)
    requires h < MAX_TIMERS
    ensures Called(w[h], DoneAll(w, ops, t)[h], t, ops, h)
  {
    if ops != [] {
      hide Called;
      var n := |ops| - 1;
      CalledAll(w, t, ops[..n], h);
      assert ops == ops[..n] + [ops[n]];
      CalledMore(w[h], DoneAll(w, ops[..n], t)[h], DoneAll(w, ops, t)[h], t, ops[..n], ops[n], h);
    }
  }

  // ---- What a poll does to a timer -------------------------------------------------------------

  /** The timers due at `t`, in the order of their slots, with what each runs. */
  ghost function DueList(w: Wheel, t: int, n: nat): (fired: seq<(nat, TaskId)>)
    requires n <= MAX_TIMERS
  {
    if n == 0 then []
    else if DueIn(w, n - 1, t) then DueList(w, t, n - 1) + [(n - 1, w[n - 1].task)]
    else DueList(w, t, n - 1)
  }

  /** Exactly the due timers are on the list, each once, with the task it held when the poll
      began. */
  lemma {:induction false} DueListIsExact(w: Wheel, t: int, n: nat, i: nat)
    requires n <= MAX_TIMERS && i < MAX_TIMERS
    ensures var fired := DueList(w, t, n);
            && ((i, w[i].task) in fired <==> i < n && DueIn(w, i, t))
            && (forall k :: 0 <= k < |fired| ==> fired[k].0 < n && fired[k].1 == w[fired[k].0].task)
            && (forall k, m :: 0 <= k < m < |fired| ==> fired[k].0 < fired[m].0)
  {
    if n > 0 {
      DueListIsExact(w, t, n - 1, i);
    }
  }

  ghost predicate FiredSlot(fired: seq<(nat, TaskId)>, i: nat)
  {
    exists k :: 0 <= k < |fired| && fired[k].0 == i
  }

  /** Slots below `n` that were due, each once and in order. */
  ghost predicate DueInOrder(w: Wheel, t: int, fired: seq<(nat, TaskId)>, n: nat)
  {
    && (forall k :: 0 <= k < |fired| ==> fired[k].0 < n <= MAX_TIMERS && DueIn(w, fired[k].0, t))
    && (forall k, m :: 0 <= k < m < |fired| ==> fired[k].0 < fired[m].0)
  }

  lemma DueOneMore(w: Wheel, t: int, fired: seq<(nat, TaskId)>, n: nat, task: TaskId)
    requires n < MAX_TIMERS && DueInOrder(w, t, fired, n)
    ensures DueInOrder(w, t, fired, n + 1)
    ensures DueIn(w, n, t) ==> DueInOrder(w, t, fired + [(n, task)], n + 1)
  {
    hide DueIn;
  }

  /** Whatever the callbacks do, what fires was due when the poll began, each slot once, in
      the order of the slots. */
  lemma {:induction false} FiresDueOnly(w: Wheel, t: int, acts: nat -> seq<Op>, n: nat)
    requires n <= MAX_TIMERS
    ensures DueInOrder(w, t, Polls(w, t, acts, n).fired, n)
  {
    hide DoneAll, DueIn;
    if n > 0 {
      hide DueInOrder;
      FiresDueOnly(w, t, acts, n - 1);
      var before := Polls(w, t, acts, n - 1);
      DueOneMore(w, t, before.fired, n - 1, before.wheel[n - 1].task);
    }
  }

  /** Nobody but its own callback cancels or re-arms this timer. */
  ghost predicate LeftAlone(acts: nat -> seq<Op>, h: nat)
  {
    forall i: nat :: i != h ==> LastOn(acts(i), h) == Nothing
  }

  /** Some callback that ran in the poll at `t` started this timer. */
  ghost predicate MadeIn(w: Wheel, t: int, acts: nat -> seq<Op>, e: Entry)
  {
    exists i: nat :: i < MAX_TIMERS && DueIn(w, i, t) && Made(e, t, acts(i))
  }

  /** What a poll at `t` leaves of a timer that only its own callback cancels or re-arms. One
      that is not due stays. A periodic one that is due moves on to its next deadline, a
      one-shot that is due is over: unless its callback cancelled or re-armed it. A slot that
      was free, or became so, may hold a timer that a callback of this poll started, and
      nothing else. */
  ghost predicate Polled(w: Wheel, t: int, acts: nat -> seq<Op>, j: nat, now: Entry)
    requires j < MAX_TIMERS
  {
    if !w[j].active then now == w[j] || MadeIn(w, t, acts, now)
    else if w[j].deadline > t then now == w[j]
    else
      match LastOn(acts(j), j)
      case Again(delay) =>
        now.active && now.period == 0 && now.deadline == t + delay
        && (now.task == w[j].task || ((w[j].period == 0 || Cancels(acts(j), j)) && Starts(acts(j), now.task)))
      case Stopped => !now.active || MadeIn(w, t, acts, now)
      case Nothing =>
        if w[j].period > 0 then now == Turned(w[j], t)
        else now == w[j].(active := false) || MadeIn(w, t, acts, now)
  }

  /** A timer whose turn has not come: as it was, or started in a free slot. */
  ghost predicate Waiting(w: Wheel, t: int, acts: nat -> seq<Op>, j: nat, now: Entry)
    requires j < MAX_TIMERS
  {
    now == w[j] || (!w[j].active && MadeIn(w, t, acts, now))
  }

  /** The callback of timer `i` leaves timer `j` alone, and that keeps what was said of it. */
  lemma OthersStay(w: Wheel, t: int, acts: nat -> seq<Op>, i: nat, j: nat, mid: Entry, now: Entry)
    requires i < MAX_TIMERS && j < MAX_TIMERS && DueIn(w, i, t)
    requires Called(mid, now, t, acts(i), j) && LastOn(acts(i), j) == Nothing
    ensures Polled(w, t, acts, j, mid) ==> Polled(w, t, acts, j, now)
    ensures Waiting(w, t, acts, j, mid) ==> Waiting(w, t, acts, j, now)
  {
    if now != mid {
      assert MadeIn(w, t, acts, now);
    }
  }

  /** The timer whose callback ran. */
  lemma OwnIsPolled(w: Wheel, t: int, acts: nat -> seq<Op>, i: nat, now: Entry)
    requires i < MAX_TIMERS && DueIn(w, i, t) && Called(Turned(w[i], t), now, t, acts(i), i)
    ensures Polled(w, t, acts, i, now)
  {
    if Made(now, t, acts(i)) {
      assert MadeIn(w, t, acts, now);
    }
  }

  lemma NotDue(w: Wheel, t: int, acts: nat -> seq<Op>, j: nat, now: Entry)
    requires j < MAX_TIMERS && Waiting(w, t, acts, j, now) && !DueIn(w, j, t)
    ensures Polled(w, t, acts, j, now)
  {}

  /** A timer that only its own callback cancels or re-arms fires exactly if it was due, with
      its task, and is left as `Polled` says, whatever the callbacks do to other timers. */
  lemma {:induction false} SlotLaw(w: Wheel, t: int, acts: nat -> seq<Op>, n: nat, j: nat)
    requires n <= MAX_TIMERS && j < MAX_TIMERS && LeftAlone(acts, j)
    ensures var p := Polls(w, t, acts, n);
            && (if j < n then Polled(w, t, acts, j, p.wheel[j]) else Waiting(w, t, acts, j, p.wheel[j]))
            && (FiredSlot(p.fired, j) <==> j < n && DueIn(w, j, t))
            && ((j, w[j].task) in p.fired <==> j < n && DueIn(w, j, t))
  {
    hide Polled, Waiting, Called, DoneAll, Turned, FiredSlot;
    if n == 0 {
      NothingFired(w, t, acts, j);
    } else {
      var i := n - 1;
      var before, p := Polls(w, t, acts, i), Polls(w, t, acts, n);
      SlotLaw(w, t, acts, i, j);
      if DueIn(w, i, t) && before.wheel[i].active {
        var mid := before.wheel[i := Turned(before.wheel[i], t)];
        CalledAll(mid, t, acts(i), j);
        FiredOneMore(before.fired, i, before.wheel[i].task, j);
        if j == i {
          IsWaiting(w, t, acts, i, before.wheel[i]);
          OwnIsPolled(w, t, acts, i, p.wheel[i]);
        } else {
          OthersStay(w, t, acts, i, j, mid[j], p.wheel[j]);
        }
      } else if j == i {
        StillActive(w, t, acts, i, before.wheel[i]);
        NotDue(w, t, acts, j, before.wheel[j]);
      }
    }
  }

  lemma NothingFired(w: Wheel, t: int, acts: nat -> seq<Op>, j: nat)
    requires j < MAX_TIMERS
    ensures Waiting(w, t, acts, j, w[j]) && !FiredSlot([], j)
  {}

  lemma FiredOneMore(fired: seq<(nat, TaskId)>, i: nat, task: TaskId, j: nat)
    ensures FiredSlot(fired + [(i, task)], j) <==> FiredSlot(fired, j) || i == j
  {
    var all := fired + [(i, task)];
    assert all[|fired|].0 == i;
    if FiredSlot(fired, j) {
      var k :| 0 <= k < |fired| && fired[k].0 == j;
      assert all[k].0 == j;
    }
  }

  lemma IsWaiting(w: Wheel, t: int, acts: nat -> seq<Op>, i: nat, now: Entry)
    requires i < MAX_TIMERS && DueIn(w, i, t) && Waiting(w, t, acts, i, now)
    ensures now == w[i]
  {}

  lemma StillActive(w: Wheel, t: int, acts: nat -> seq<Op>, i: nat, now: Entry)
    requires i < MAX_TIMERS && Waiting(w, t, acts, i, now)
    ensures DueIn(w, i, t) ==> now.active
  {}

  /** No callback cancels a timer of a later slot. */
  ghost predicate NoCancelAhead(acts: nat -> seq<Op>)
  {
    forall i: nat, j: nat :: i < j < MAX_TIMERS ==> !Cancels(acts(i), j)
  }

  /** A running timer that is not cancelled goes on running for the same task. */
  lemma StaysActive(was: Entry, now: Entry, t: int, ops: seq<Op>, h: nat)
    requires Called(was, now, t, ops, h) && was.active && !Cancels(ops, h)
    ensures now.active && now.task == was.task
  {
    hide Cancels;
    CancelsMore(ops, Cancel(h), h);
  }

  lemma {:induction false} DueStaysActive(w: Wheel, t: int, acts: nat -> seq<Op>, n: nat, j: nat)
    requires n <= j < MAX_TIMERS && DueIn(w, j, t) && NoCancelAhead(acts)
    ensures var e := Polls(w, t, acts, n).wheel[j]; e.active && e.task == w[j].task
  {
    hide DoneAll, Turned, Called, Cancels;
    if n > 0 {
      var i := n - 1;
      var before := Polls(w, t, acts, i);
      DueStaysActive(w, t, acts, i, j);
      var mid := before.wheel[i := Turned(before.wheel[i], t)];
      CalledAll(mid, t, acts(i), j);
      StaysActive(mid[j], DoneAll(mid, acts(i), t)[j], t, acts(i), j);
    }
  }

  /** If no callback cancels a timer of a later slot, exactly the timers that were due when
      the poll began fire, each with its own task, and none that a callback started. */
  lemma {:induction false} FiresDueList(w: Wheel, t: int, acts: nat -> seq<Op>, n: nat)
    requires n <= MAX_TIMERS && NoCancelAhead(acts)
    ensures Polls(w, t, acts, n).fired == DueList(w, t, n)
  {
    hide DoneAll, Turned, NoCancelAhead;
    if n > 0 {
      FiresDueList(w, t, acts, n - 1);
      if DueIn(w, n - 1, t) {
        DueStaysActive(w, t, acts, n - 1, n - 1);
      }
    }
  }

  // ---- Deadlines in range -------------------------------------------------------------------------

  ghost predicate EntryOk(e: Entry, t: int)
  {
    e.active ==> -HALF < e.deadline - t < HALF && e.period < HALF
  }

  /** Moving the timer on does not overflow. */
  ghost predicate Movable(e: Entry, t: int)
  {
    e.active && e.period > 0 ==> e.deadline + e.period - t < HALF
  }

  /** After `n` turns: every timer is in range, those whose turn is over and those that were
      not due are due later, and those whose turn comes can be moved on. */
  ghost predicate InOrder(w: Wheel, t: int, now: Wheel, n: nat)
  {
    forall j :: 0 <= j < MAX_TIMERS ==> SlotInOrder(w, t, now[j], n, j)
  }

  ghost predicate SlotInOrder(w: Wheel, t: int, e: Entry, n: nat, j: nat)
    requires j < MAX_TIMERS
  {
    && EntryOk(e, t)
    && (j < n || !DueIn(w, j, t) ==> e.active ==> e.deadline > t)
    && (j >= n && DueIn(w, j, t) ==> Movable(e, t))
  }

  lemma OpKeepsOrder(w: Wheel, t: int, now: Wheel, n: nat, op: Op)
    requires InOrder(w, t, now, n) && OpInRange(op)
    requires op.Every? ==> 2 * op.period < HALF || forall j :: n <= j < MAX_TIMERS && DueIn(w, j, t) ==> now[j].active
    ensures InOrder(w, t, Done(now, op, t), n)
  {
    hide DueIn;
    forall j | 0 <= j < MAX_TIMERS
      ensures SlotInOrder(w, t, Done(now, op, t)[j], n, j)
    {
      assert SlotInOrder(w, t, now[j], n, j);
    }
  }

  /** The due timers whose turn comes run, if nothing is ever cancelled. */
  ghost predicate Running(w: Wheel, t: int, now: Wheel, n: nat)
  {
    forall j :: n <= j < MAX_TIMERS && DueIn(w, j, t) ==> now[j].active
  }

  lemma {:induction false} OpsKeepOrder(w: Wheel, t: int, now: Wheel, n: nat, ops: seq<Op>)
    requires InOrder(w, t, now, n) && OpsInRange(ops)
    requires ShortPeriods(ops) || (NoCancel(ops) && Running(w, t, now, n))
    ensures InOrder(w, t, DoneAll(now, ops, t), n)
    ensures NoCancel(ops) && Running(w, t, now, n) ==> Running(w, t, DoneAll(now, ops, t), n)
  {
    hide InOrder, DueIn;
    if ops != [] {
      var k := |ops| - 1;
      OpsKeepOrder(w, t, now, n, ops[..k]);
      OpKeepsOrder(w, t, DoneAll(now, ops[..k], t), n, ops[k]);
    }
  }

  lemma TurnKeepsOrder(w: Wheel, t: int, now: Wheel, i: nat)
    requires InOrder(w, t, now, i) && i < MAX_TIMERS && DueIn(w, i, t) && now[i].active
    ensures InOrder(w, t, now[i := Turned(now[i], t)], i + 1)
    ensures Running(w, t, now, i) ==> Running(w, t, now[i := Turned(now[i], t)], i + 1)
  {
    hide DueIn;
    var next := now[i := Turned(now[i], t)];
    forall j | 0 <= j < MAX_TIMERS
      ensures SlotInOrder(w, t, next[j], i + 1, j)
    {
      assert SlotInOrder(w, t, now[j], i, j);
    }
  }

  lemma NoTurnKeepsOrder(w: Wheel, t: int, now: Wheel, i: nat)
    requires InOrder(w, t, now, i) && i < MAX_TIMERS && !(DueIn(w, i, t) && now[i].active)
    ensures InOrder(w, t, now, i + 1)
    ensures Running(w, t, now, i) ==> Running(w, t, now, i + 1)
  {
    hide DueIn;
    forall j | 0 <= j < MAX_TIMERS
      ensures SlotInOrder(w, t, now[j], i + 1, j)
    {
      assert SlotInOrder(w, t, now[j], i, j);
    }
  }

  lemma {:induction false} PollsKeepOrder(w: Wheel, t: int, acts: nat -> seq<Op>, n: nat)
    requires n <= MAX_TIMERS && ActsInRange(acts) && forall j :: 0 <= j < MAX_TIMERS ==> EntryOk(w[j], t)
    ensures InOrder(w, t, Polls(w, t, acts, n).wheel, n)
    ensures (forall i: nat :: NoCancel(acts(i))) ==> Running(w, t, Polls(w, t, acts, n).wheel, n)
  {
    if n > 0 {
      hide InOrder, Running, DoneAll, Turned, DueIn, OpsInRange, NoCancel, ShortPeriods;
      var i := n - 1;
      var before := Polls(w, t, acts, i).wheel;
      PollsKeepOrder(w, t, acts, i);
      if DueIn(w, i, t) && before[i].active {
        TurnKeepsOrder(w, t, before, i);
        OpsKeepOrder(w, t, before[i := Turned(before[i], t)], n, acts(i));
      } else {
        NoTurnKeepsOrder(w, t, before, i);
      }
    }
  }

  // ---- Callbacks that cancel other timers ----------------------------------------------------------

  /** Nothing but cancellations happens to timer `h`: no callback starts a timer, which might
      take its slot, and none but its own re-arms it. */
  ghost predicate OnlyCancels(acts: nat -> seq<Op>, h: nat)
  {
    forall i: nat, k: nat :: k < |acts(i)| ==> CancelsOnly(acts(i)[k], h)
  }

  predicate CancelsOnly(op: Op, h: nat)
  {
    match op
    case Cancel(_) => true
    case Rearm(g, _) => g != h
    case _ => false
  }

  /** A callback that ran in the first `n` turns cancelled `h`. */
  ghost predicate CancelledBefore(w: Wheel, t: int, acts: nat -> seq<Op>, n: nat, h: nat)
    requires n <= MAX_TIMERS
  {
    exists i: nat :: i < n && FiredSlot(Polls(w, t, acts, n).fired, i) && Cancels(acts(i), h)
  }

  lemma {:induction false} OpsOnlyCancel(w: Wheel, t: int, ops: seq<Op>, h: nat)
    requires h < MAX_TIMERS && forall k :: 0 <= k < |ops| ==> CancelsOnly(ops[k], h)
    ensures DoneAll(w, ops, t)[h] == if Cancels(ops, h) then w[h].(active := false) else w[h]
  {
    if ops != [] {
      hide Cancels;
      var n := |ops| - 1;
      OpsOnlyCancel(w, t, ops[..n], h);
      assert ops == ops[..n] + [ops[n]];
      CancelsMore(ops[..n], ops[n], h);
    } else {
      assert !Cancels(ops, h);
    }
  }

  /** Cancellations made by earlier callbacks of the same poll are respected: a due timer
      fires exactly if none of them cancelled it. */
  lemma CancelledDoesNotFire(w: Wheel, t: int, acts: nat -> seq<Op>, h: nat)
    requires h < MAX_TIMERS && DueIn(w, h, t) && OnlyCancels(acts, h)
    ensures FiredSlot(Polls(w, t, acts, h + 1).fired, h) <==> !CancelledBefore(w, t, acts, h, h)
  {
    hide FiredSlot, CancelledBefore, DoneAll, Turned;
    BeforeItsTurn(w, t, acts, h, h);
    var p := Polls(w, t, acts, h);
    NotItsTurn(w, t, acts, h, h);
    FiredOneMore(p.fired, h, p.wheel[h].task, h);
  }

  lemma NotItsTurn(w: Wheel, t: int, acts: nat -> seq<Op>, n: nat, h: nat)
    requires n <= h < MAX_TIMERS
    ensures !FiredSlot(Polls(w, t, acts, n).fired, h)
  {
    FiresDueOnly(w, t, acts, n);
  }

  lemma {:induction false} BeforeItsTurn(w: Wheel, t: int, acts: nat -> seq<Op>, n: nat, h: nat)
    requires n <= h < MAX_TIMERS && DueIn(w, h, t) && OnlyCancels(acts, h)
    ensures Polls(w, t, acts, n).wheel[h] ==
            if CancelledBefore(w, t, acts, n, h) then w[h].(active := false) else w[h]
  {
    hide FiredSlot, DoneAll, Turned, Cancels;
    if n > 0 {
      var i := n - 1;
      var before := Polls(w, t, acts, i);
      BeforeItsTurn(w, t, acts, i, h);
      CancelledMore(w, t, acts, i, h);
      if DueIn(w, i, t) && before.wheel[i].active {
        assert forall k: nat :: k < |acts(i)| ==> CancelsOnly(acts(i)[k], h);
        OpsOnlyCancel(before.wheel[i := Turned(before.wheel[i], t)], t, acts(i), h);
      }
    }
  }

  lemma CancelledMore(w: Wheel, t: int, acts: nat -> seq<Op>, i: nat, h: nat)
    requires i < MAX_TIMERS
    ensures CancelledBefore(w, t, acts, i + 1, h)
            <==> CancelledBefore(w, t, acts, i, h)
                 || (DueIn(w, i, t) && Polls(w, t, acts, i).wheel[i].active && Cancels(acts(i), h))
  {
    hide FiredSlot, DoneAll, Turned, Cancels;
    var before, after := Polls(w, t, acts, i), Polls(w, t, acts, i + 1);
    NotItsTurn(w, t, acts, i, i);
    forall j: nat
      ensures FiredSlot(after.fired, j)
              <==> FiredSlot(before.fired, j) || (j == i && DueIn(w, i, t) && before.wheel[i].active)
    {
      FiredOneMore(before.fired, i, before.wheel[i].task, j);
    }
  }

  /** Two timers due at `t`, the first of them periodic. */
  function TwoDue(t: int): (w: Wheel)
  {
    seq(MAX_TIMERS, i requires 0 <= i < MAX_TIMERS => if i == 0 then Entry(0, 100, t, true) else Entry(i, 0, t, i == 1))
  }

  /** What the first callback does; the others do nothing. */
  function FirstDoes(ops: seq<Op>): (acts: nat -> seq<Op>)
  {
    (i: nat) => if i == 0 then ops else []
  }

  lemma {:induction false} NoneDueFrom(w: Wheel, t: int, acts: nat -> seq<Op>, m: nat, n: nat)
    requires m <= n <= MAX_TIMERS && forall i :: m <= i < n ==> !DueIn(w, i, t)
    ensures Polls(w, t, acts, n) == Polls(w, t, acts, m)
  {
    if m < n {
      NoneDueFrom(w, t, acts, m, n - 1);
    }
  }

  lemma FirstTurn(t: int, ops: seq<Op>)
    ensures Polls(TwoDue(t), t, FirstDoes(ops), 1)
         == Polling(DoneAll(TwoDue(t)[0 := Entry(0, 100, t + 100, true)], ops, t), [(0, 0)])
  {
    hide DoneAll;
    assert Polls(TwoDue(t), t, FirstDoes(ops), 0) == Polling(TwoDue(t), []);
  }

  lemma SecondTurn(t: int, ops: seq<Op>)
    ensures var w := DoneAll(TwoDue(t)[0 := Entry(0, 100, t + 100, true)], ops, t);
            w[1].active && w[1].period == 0 ==>
              Polls(TwoDue(t), t, FirstDoes(ops), MAX_TIMERS)
              == Polling(w[1 := w[1].(active := false)], [(0, 0), (1, w[1].task)])
  {
    var w := DoneAll(TwoDue(t)[0 := Entry(0, 100, t + 100, true)], ops, t);
    if w[1].active && w[1].period == 0 {
      FirstTurn(t, ops);
      NoneDueFrom(TwoDue(t), t, FirstDoes(ops), 2, MAX_TIMERS);
      DoneOneMore(w[1 := w[1].(active := false)], [], Cancel(0), t);
    }
  }

  /** What a poll remembers as due are slots and not timers. If a callback cancels a due timer
      of a later slot and starts another one, this takes the slot and fires in the same poll,
      five milliseconds before its time. */
  lemma CreatedFiresTooEarly(t: int)
    ensures var acts := FirstDoes([Cancel(1), After(5, 7)]);
            ActsInRange(acts) && Polls(TwoDue(t), t, acts, MAX_TIMERS).fired == [(0, 0), (1, 7)]
  {
    hide Polls;
    var w := TwoDue(t)[0 := Entry(0, 100, t + 100, true)];
    var ops := [Cancel(1), After(5, 7)];
    var cancelled := w[1 := w[1].(active := false)];
    DoneOneMore(w, [], Cancel(1), t);
    DoneOneMore(w, [Cancel(1)], After(5, 7), t);
    assert [] + [Cancel(1)] == [Cancel(1)] && [Cancel(1)] + [After(5, 7)] == ops;
    FirstFreeIs(cancelled, 1);
    SecondTurn(t, ops);
  }

  /** A re-arming of a due timer of a later slot is lost: the timer fires all the same, and
      is over. */
  lemma RearmingIsLost(t: int)
    ensures var acts := FirstDoes([Rearm(1, 5)]);
            var p := Polls(TwoDue(t), t, acts, MAX_TIMERS);
            ActsInRange(acts) && p.fired == [(0, 0), (1, 1)] && !p.wheel[1].active
  {
    hide Polls;
    var w := TwoDue(t)[0 := Entry(0, 100, t + 100, true)];
    DoneOneMore(w, [], Rearm(1, 5), t);
    assert [] + [Rearm(1, 5)] == [Rearm(1, 5)];
    SecondTurn(t, [Rearm(1, 5)]);
  }

  // ---- The scheduler ---------------------------------------------------------------------------

  class Scheduler {
    const timers: array<Timer>
    var now: u32
    /** The time `now` shows, and for each timer the time its `due` shows. */
    ghost var clock: int
    ghost var deadlines: seq<int>

    ghost predicate Valid()
      reads this, timers
    {
      && timers.Length == MAX_TIMERS && |deadlines| == MAX_TIMERS
      && Shows(now, clock)
      && forall i :: 0 <= i < MAX_TIMERS && timers[i].active ==> TimerOk(timers[i], deadlines[i], clock)
    }

    static ghost predicate TimerOk(t: Timer, deadline: int, clock: int)
    {
      Shows(t.due, deadline) && deadline - clock < HALF && t.period < HALF
    }

    /** The timers with the true times of their deadlines. */
    ghost function Entries(): (w: Wheel)
      reads this, timers
      requires timers.Length == MAX_TIMERS == |deadlines|
    {
      EntriesOf(timers[..], deadlines)
    }

    static ghost function EntriesOf(ts: seq<Timer>, ds: seq<int>): (w: Wheel)
      requires |ts| == |ds| == MAX_TIMERS
      ensures forall i :: 0 <= i < MAX_TIMERS ==> w[i] == Entry(ts[i].task, ts[i].period, ds[i], ts[i].active)
    {
      seq(MAX_TIMERS, i requires 0 <= i < MAX_TIMERS => Entry(ts[i].task, ts[i].period, ds[i], ts[i].active))
    }

    constructor ()
      ensures Valid() && fresh(timers) && now == 0 && clock == 0
      ensures forall i :: 0 <= i < MAX_TIMERS ==> !timers[i].active
    {
      timers := new Timer[MAX_TIMERS](i => NO_TIMER);
      now := 0;
      clock := 0;
      deadlines := seq(MAX_TIMERS, i => 0);
    }

    method Alloc() returns (h: int)
      requires Valid()
      ensures -1 <= h < MAX_TIMERS
      ensures h >= 0 ==> !timers[h].active && forall k :: 0 <= k < h ==> timers[k].active
      ensures h == -1 ==> forall k :: 0 <= k < MAX_TIMERS ==> timers[k].active
    {
      for i := 0 to MAX_TIMERS
        invariant forall k :: 0 <= k < i ==> timers[k].active
      {
        if !timers[i].active {
          return i;
        }
      }
      return -1;
    }

    /** `i` is set to run out `delay` from now, everything else is as before. */
    twostate predicate Set(i: nat, delay: u32, period: u32, task: TaskId)
      reads this, timers
      requires old(Valid()) && i < MAX_TIMERS
    {
      && timers[..] == old(timers[..])[i := Timer(Add32(now, delay), period, task, true)]
      && deadlines == old(deadlines)[i := clock + delay]
      && now == old(now) && clock == old(clock)
    }

    twostate predicate Same()
      reads this, timers
    {
      timers[..] == old(timers[..]) && deadlines == old(deadlines) && now == old(now) && clock == old(clock)
    }

    method After(delay: u32, task: TaskId) returns (h: int)
      requires Valid()
      modifies this`deadlines, timers
      ensures delay < HALF ==> Valid()
      ensures -1 <= h < MAX_TIMERS
      ensures h >= 0 ==> !old(timers[h].active) && Set(h, delay, 0, task)
      ensures h == -1 ==> Same() && forall k :: 0 <= k < MAX_TIMERS ==> timers[k].active
      ensures Entries() == Done(old(Entries()), Op.After(delay, task), clock)
    {
      h := Alloc();
      if h == -1 {
        return;
      }
      FirstFreeIs(Entries(), h);
      ShowsLater(now, clock, delay);
      timers[h] := Timer(Add32(now, delay), 0, task, true);
      deadlines := deadlines[h := clock + delay];
      assert Entries() == old(Entries())[h := Entry(task, 0, clock + delay, true)];
    }

    method Every(period: u32, task: TaskId) returns (h: int)
      requires Valid()
      modifies this`deadlines, timers
      ensures period < HALF ==> Valid()
      ensures -1 <= h < MAX_TIMERS
      ensures h >= 0 ==> !old(timers[h].active) && Set(h, period, period, task)
      ensures h == -1 ==> Same() && forall k :: 0 <= k < MAX_TIMERS ==> timers[k].active
      ensures Entries() == Done(old(Entries()), Op.Every(period, task), clock)
    {
      h := Alloc();
      if h == -1 {
        return;
      }
      FirstFreeIs(Entries(), h);
      ShowsLater(now, clock, period);
      timers[h] := Timer(Add32(now, period), period, task, true);
      deadlines := deadlines[h := clock + period];
      assert Entries() == old(Entries())[h := Entry(task, period, clock + period, true)];
    }

    method Cancel(h: int)
      requires Valid()
      modifies timers
      ensures Valid()
      ensures if 0 <= h < MAX_TIMERS then timers[..] == old(timers[..])[h := old(timers[h]).(active := false)]
              else timers[..] == old(timers[..])
      ensures Entries() == Done(old(Entries()), Op.Cancel(h), clock)
    {
      if h < 0 || h >= MAX_TIMERS {
        return;
      }
      timers[h] := timers[h].(active := false);
    }

    method Rearm(h: int, delay: u32)
      requires Valid()
      modifies this`deadlines, timers
      ensures delay < HALF ==> Valid()
      ensures if 0 <= h < MAX_TIMERS then Set(h, delay, 0, old(timers[h]).task) else Same()
      ensures Entries() == Done(old(Entries()), Op.Rearm(h, delay), clock)
    {
      if h < 0 || h >= MAX_TIMERS {
        return;
      }
      ShowsLater(now, clock, delay);
      timers[h] := Timer(Add32(now, delay), 0, timers[h].task, true);
      deadlines := deadlines[h := clock + delay];
    }

    /** The body of a callback. */
    method Call(ops: seq<Op>)
      requires Valid() && OpsInRange(ops)
      modifies this`deadlines, timers
      ensures Valid() && Entries() == DoneAll(old(Entries()), ops, clock)
    {
      hide Done;
      ghost var was := Entries();
      for k := 0 to |ops|
        invariant Valid() && Entries() == DoneAll(was, ops[..k], clock)
      {
        assert OpInRange(ops[k]);
        match ops[k] {
          case After(delay, task) => var h := After(delay, task);
          case Every(period, task) => var h := Every(period, task);
          case Cancel(h) => Cancel(h);
          case Rearm(h, delay) => Rearm(h, delay);
        }
        DoneOneMore(was, ops[..k], ops[k], clock);
        assert ops[..k + 1] == ops[..k] + [ops[k]];
      }
      assert ops[..|ops|] == ops;
    }

    /** Runs every timer that is due at time `t`, shown as `nowMs`; `acts` says what the
        callback of each slot does. */
    method Poll(nowMs: u32, ghost t: int, acts: nat -> seq<Op>) returns (next: u32, fired: seq<(nat, TaskId)>)
      requires Valid() && Shows(nowMs, t) && clock <= t
      requires forall i :: 0 <= i < MAX_TIMERS && timers[i].active ==> t - deadlines[i] < HALF
      requires ActsInRange(acts)
      modifies this, timers
      ensures Valid() && clock == t
      ensures Polling(Entries(), fired) == Polls(old(Entries()), t, acts, MAX_TIMERS)
      ensures NoCancelAhead(acts) ==> fired == DueList(old(Entries()), t, MAX_TIMERS)
      ensures forall j: nat :: j < MAX_TIMERS && LeftAlone(acts, j) ==> Polled(old(Entries()), t, acts, j, Entries()[j])
      ensures forall j :: 0 <= j < MAX_TIMERS && timers[j].active ==> deadlines[j] > t
      ensures IsNextDelay(next)
    {
      hide NoCancelAhead, LeftAlone, Polled, Polls, ActsInRange;
      now := nowMs;
      clock := t;
      var due := new bool[MAX_TIMERS](i => false);
      for i := 0 to MAX_TIMERS
        invariant forall j :: 0 <= j < i ==> due[j] == DueIn(Entries(), j, t)
        modifies due
      {
        if timers[i].active {
          ReachedIsOrder(now, t, timers[i].due, deadlines[i]);
        }
        due[i] := timers[i].active && Reached(now, timers[i].due);
      }
      assert Entries() == old(Entries());
      fired := Fire(due, acts);
      next := NextDelay();
      PollLaws(old(Entries()), t, acts);
    }

    static lemma PollLaws(w: Wheel, t: int, acts: nat -> seq<Op>)
      ensures var p := Polls(w, t, acts, MAX_TIMERS);
              && (NoCancelAhead(acts) ==> p.fired == DueList(w, t, MAX_TIMERS))
              && (forall j: nat :: j < MAX_TIMERS && LeftAlone(acts, j) ==> Polled(w, t, acts, j, p.wheel[j]))
    {
      hide NoCancelAhead, LeftAlone, Polled, Polls;
      if NoCancelAhead(acts) {
        FiresDueList(w, t, acts, MAX_TIMERS);
      }
      forall j: nat | j < MAX_TIMERS && LeftAlone(acts, j)
        ensures Polled(w, t, acts, j, Polls(w, t, acts, MAX_TIMERS).wheel[j])
      {
        SlotLaw(w, t, acts, MAX_TIMERS, j);
      }
    }

    static function Remaining(deadline: int, clock: int): (r: int)
      ensures r >= 0
    {
      if deadline < clock then 0 else deadline - clock
    }

    /** The least time left of all running timers. */
    ghost predicate IsNextDelay(next: int)
      reads this, timers
      requires timers.Length == MAX_TIMERS == |deadlines|
    {
      && (forall j :: 0 <= j < MAX_TIMERS && timers[j].active ==> next <= Remaining(deadlines[j], clock))
      && (if next == 0xFFFF_FFFF then forall j :: 0 <= j < MAX_TIMERS ==> !timers[j].active
          else exists j :: 0 <= j < MAX_TIMERS && timers[j].active && next == Remaining(deadlines[j], clock))
    }

    method NextDelay() returns (next: u32)
      requires Valid()
      requires forall j :: 0 <= j < MAX_TIMERS && timers[j].active ==> clock - deadlines[j] < HALF
      ensures IsNextDelay(next)
    {
      next := 0xFFFF_FFFF;
      for i := 0 to MAX_TIMERS
        invariant forall j :: 0 <= j < i && timers[j].active ==> next <= Remaining(deadlines[j], clock)
        invariant if next == 0xFFFF_FFFF then forall j :: 0 <= j < i ==> !timers[j].active
                  else exists j :: 0 <= j < i && timers[j].active && next == Remaining(deadlines[j], clock)
      {
        if timers[i].active {
          ReachedIsOrder(now, clock, timers[i].due, deadlines[i]);
          var d := ToI32(Sub32(timers[i].due, now));
          var dd: u32 := if d < 0 then 0 else d;
          if dd < next {
            next := dd;
          }
        }
      }
    }

    method Fire(due: array<bool>, acts: nat -> seq<Op>) returns (fired: seq<(nat, TaskId)>)
      requires Valid() && due.Length == MAX_TIMERS
      requires forall i :: 0 <= i < MAX_TIMERS && timers[i].active ==> clock - deadlines[i] < HALF
      requires forall j :: 0 <= j < MAX_TIMERS ==> due[j] == DueIn(Entries(), j, clock)
      requires ActsInRange(acts)
      modifies this`deadlines, timers
      ensures Valid()
      ensures Polling(Entries(), fired) == Polls(old(Entries()), clock, acts, MAX_TIMERS)
      ensures forall j :: 0 <= j < MAX_TIMERS && timers[j].active ==> deadlines[j] > clock
    {
      hide DoneAll, Done, OpsInRange, Turned, InOrder, NextDeadline;
      fired := [];
      ghost var was := Entries();
      for i := 0 to MAX_TIMERS
        invariant Valid() && due[..] == old(due[..])
        invariant Polling(Entries(), fired) == Polls(was, clock, acts, i)
      {
        PollsKeepOrder(was, clock, acts, i);
        if due[i] && timers[i].active {
          var timer := timers[i];
          OrderAt(was, clock, Entries(), i);
          if timer.period == 0 {
            timers[i] := timer.(active := false);
          } else {
            Advance(i);
          }
          fired := fired + [(i, timer.task)];
          ghost var before := Polls(was, clock, acts, i).wheel;
          TurnedIs(before[i], clock);
          assert Entries() == before[i := Turned(before[i], clock)];
          Call(acts(i));
        }
      }
      PollsKeepOrder(was, clock, acts, MAX_TIMERS);
      forall j | 0 <= j < MAX_TIMERS && timers[j].active
        ensures deadlines[j] > clock
      {
        OrderAt(was, clock, Entries(), j);
      }
    }

    static lemma TurnedIs(e: Entry, t: int)
      ensures Turned(e, t) == if e.period == 0 then e.(active := false)
                              else e.(deadline := NextDeadline(e.deadline, e.period, t))
    {}

    /** What `InOrder` says of one slot, before its turn and at the end. */
    static lemma OrderAt(w: Wheel, t: int, now: Wheel, j: nat)
      requires j < MAX_TIMERS
      ensures InOrder(w, t, now, j) && DueIn(w, j, t) ==> EntryOk(now[j], t) && Movable(now[j], t)
      ensures InOrder(w, t, now, MAX_TIMERS) ==> now[j].active ==> now[j].deadline > t
    {
      if InOrder(w, t, now, j) {
        assert SlotInOrder(w, t, now[j], j, j);
      }
      if InOrder(w, t, now, MAX_TIMERS) {
        assert SlotInOrder(w, t, now[j], MAX_TIMERS, j);
      }
    }

    /** Moves the deadline of a periodic timer that is due. */
    method Advance(i: nat)
      requires Valid() && i < MAX_TIMERS && timers[i].active && timers[i].period > 0
      requires -HALF < deadlines[i] - clock && deadlines[i] + timers[i].period - clock < HALF
      modifies this`deadlines, timers
      ensures Valid()
      ensures forall j :: 0 <= j < MAX_TIMERS && j != i ==> timers[j] == old(timers[j]) && deadlines[j] == old(deadlines[j])
      ensures timers[i].active && timers[i].task == old(timers[i].task) && timers[i].period == old(timers[i].period)
      ensures deadlines[i] == NextDeadline(old(deadlines[i]), old(timers[i].period), clock) > clock
    {
      var timer := timers[i];
      var advanced := Add32(timer.due, timer.period);
      ShowsLater(timer.due, deadlines[i], timer.period);
      ReachedIsOrder(now, clock, advanced, deadlines[i] + timer.period);
      ghost var next := NextDeadline(deadlines[i], timer.period, clock);
      if Reached(now, advanced) {
        advanced := Add32(now, timer.period);
        ShowsLater(now, clock, timer.period);
      }
      timers[i] := timer.(due := advanced);
      deadlines := deadlines[i := next];
    }
  }

  // ---- A periodic timer of the scheduler ---------------------------------------------------

  /** What a poll does to a periodic timer that no callback cancels or re-arms. */
  lemma PeriodicStays(w: Wheel, t: int, acts: nat -> seq<Op>, h: nat)
    requires h < MAX_TIMERS && w[h].active && w[h].period > 0
    requires LeftAlone(acts, h) && LastOn(acts(h), h) == Nothing
    ensures var p := Polls(w, t, acts, MAX_TIMERS);
            && p.wheel[h] == (if w[h].deadline <= t then Turned(w[h], t) else w[h])
            && ((h, w[h].task) in p.fired <==> w[h].deadline <= t)
  {
    hide LastOn, Polls;
    SlotLaw(w, t, acts, MAX_TIMERS, h);
  }

  lemma SeriesBegins(start: int, period: u32, times: seq<int>)
    ensures AfterPolls(start, period, times[..0]) == Series(start + period, 0)
  {}

  lemma SeriesGoesOn(start: int, period: u32, times: seq<int>, i: nat)
    requires PolledOften(start, period, times) && i < |times|
    ensures Before(start, times, i) <= times[i] <= Before(start, times, i) + period
    ensures var s := AfterPolls(start, period, times[..i]);
            AfterPolls(start, period, times[..i + 1])
            == if s.deadline <= times[i] then Series(NextDeadline(s.deadline, period, times[i]), s.fired + 1) else s
  {
    assert times[..i + 1][..i] == times[..i];
  }

  /** How many of the lists hold this firing. */
  function Holding(fires: seq<seq<(nat, TaskId)>>, x: (nat, TaskId)): (n: nat)
  {
    if fires == [] then 0
    else Holding(fires[..|fires| - 1], x) + (if x in fires[|fires| - 1] then 1 else 0)
  }

  lemma HoldingMore(fires: seq<seq<(nat, TaskId)>>, fired: seq<(nat, TaskId)>, x: (nat, TaskId))
    ensures Holding(fires + [fired], x) == Holding(fires, x) + (if x in fired then 1 else 0)
  {
    assert (fires + [fired])[..|fires|] == fires;
  }

  /** A periodic timer `h` as `Every` has just left it, and any number of polls, at most one
      period apart, whatever the callbacks start, cancel and re-arm but `h`: it fires once for
      each period that has passed, and the next time it is due is `start` plus one period
      more. */
  method FiresEveryPeriod(s: Scheduler, h: nat, clocks: seq<u32>, ghost times: seq<int>, acts: seq<nat -> seq<Op>>)
    returns (fires: seq<seq<(nat, TaskId)>>)
    requires s.Valid() && h < MAX_TIMERS && |clocks| == |times| == |acts|
    requires s.timers[h].active && InRange(s.timers[h].period) && s.deadlines[h] == s.clock + s.timers[h].period
    requires PolledOften(s.clock, s.timers[h].period, times)
    requires forall i :: 0 <= i < |times| ==> Shows(clocks[i], times[i])
    requires forall i :: 0 <= i < |acts| ==> ActsInRange(acts[i])
    requires forall i :: 0 <= i < |acts| ==> LeftAlone(acts[i], h) && LastOn(acts[i](h), h) == Nothing
    requires forall j :: 0 <= j < MAX_TIMERS && s.timers[j].active ==> s.deadlines[j] >= s.clock
    modifies s, s.timers
    ensures s.Valid() && s.clock == Before(old(s.clock), times, |times|)
    ensures |fires| == |times|
    ensures var was, count := old(s.timers[h]), Holding(fires, (h, old(s.timers[h]).task));
            && s.timers[h].active && s.timers[h].period == was.period && s.timers[h].task == was.task
            && s.deadlines[h] == old(s.clock) + (count + 1) * was.period
            && s.deadlines[h] - was.period <= s.clock < s.deadlines[h]
  {
    hide Scheduler.IsNextDelay, AfterPolls, NextDeadline, LastOn, PolledOften, Polls, LeftAlone, ActsInRange;
    ghost var start := s.clock;
    var period, task := s.timers[h].period, s.timers[h].task;
    fires := [];
    SeriesBegins(start, period, times);
    for i := 0 to |clocks|
      invariant s.Valid()
      invariant s.clock == Before(start, times, i) && |fires| == i
      invariant s.Entries()[h] == Entry(task, period, s.deadlines[h], true)
      invariant forall j :: 0 <= j < MAX_TIMERS && s.timers[j].active ==> s.deadlines[j] >= s.clock
      invariant AfterPolls(start, period, times[..i]) == Series(s.deadlines[h], Holding(fires, (h, task)))
    {
      ghost var was := s.Entries();
      SeriesGoesOn(start, period, times, i);
      var next, fired := s.Poll(clocks[i], times[i], acts[i]);
      PeriodicStays(was, times[i], acts[i], h);
      HoldingMore(fires, fired, (h, task));
      fires := fires + [fired];
    }
    assert times[..|clocks|] == times;
    NoDrift(start, period, times);
  }
}
