/** The round-robin cursor that sends one known peer a tick to the radar output
    (lib/ff_core/node.cpp). */
module Radar {

  const SLOTS: nat := 16

  type Table = s: seq<bool> | |s| == SLOTS witness seq(16, i => false)

  datatype Tick = Tick(cursor: nat, sent: Sent)
  datatype Sent = Nothing | Slot(index: nat)

  /** The slot `k` places after the cursor, going round. */
  function Ahead(cursor: nat, k: nat): (i: nat)
    ensures i < SLOTS
  {
    (cursor + k) % SLOTS
  }

  /** One tick over a table of which slots are valid: the first valid slot from the
      cursor on is sent and the cursor is left just behind it. */
  ghost predicate IsTick(cursor: nat, table: Table, t: Tick)
  {
    match t.sent
    case Nothing => t.cursor == cursor && forall i :: 0 <= i < SLOTS ==> !table[i]
    case Slot(index) => exists k :: 0 <= k < SLOTS && TicksTo(cursor, table, t, k)
  }

  ghost predicate TicksTo(cursor: nat, table: Table, t: Tick, k: nat)
  {
    && t.sent == Slot(Ahead(cursor, k)) && t.cursor == Ahead(cursor, k + 1)
    && table[Ahead(cursor, k)]
    && forall j :: 0 <= j < k ==> !table[Ahead(cursor, j)]
  }

  /** How far ahead of the cursor slot `s` is. */
  function Distance(cursor: nat, s: nat): (d: nat)
    requires cursor < SLOTS && s < SLOTS
    ensures d < SLOTS && Ahead(cursor, d) == s
  {
    if s >= cursor then s - cursor else s + SLOTS - cursor
  }

  lemma AheadOnce(cursor: nat, k: nat)
    requires cursor < SLOTS && k <= SLOTS
    ensures Ahead(cursor, k) == if cursor + k < SLOTS then cursor + k else cursor + k - SLOTS
  {}

  lemma AheadNext(cursor: nat, k: nat)
    ensures Ahead(cursor, k + 1) == (Ahead(cursor, k) + 1) % SLOTS
  {}

  lemma TickFound(cursor: nat, table: Table, k: nat)
    requires cursor < SLOTS && k < SLOTS && table[Ahead(cursor, k)]
    requires forall j :: 0 <= j < k ==> !table[Ahead(cursor, j)]
    ensures IsTick(cursor, table, Tick(Ahead(cursor, k + 1), Slot(Ahead(cursor, k))))
  {
    assert TicksTo(cursor, table, Tick(Ahead(cursor, k + 1), Slot(Ahead(cursor, k))), k);
  }

  lemma TickSilent(cursor: nat, table: Table)
    requires cursor < SLOTS && forall j :: 0 <= j < SLOTS ==> !table[Ahead(cursor, j)]
    ensures Ahead(cursor, SLOTS) == cursor && IsTick(cursor, table, Tick(cursor, Nothing))
  {
    forall i: nat | i < SLOTS
      ensures !table[i]
    {
      assert table[i] == table[Ahead(cursor, Distance(cursor, i))];
    }
  }

  /** A tick that finds slot `s` valid sends it or comes closer to it. */
  lemma TickComesCloser(cursor: nat, table: Table, t: Tick, s: nat)
    requires cursor < SLOTS && s < SLOTS && table[s] && IsTick(cursor, table, t)
    ensures t.cursor < SLOTS && t.sent.Slot?
    ensures t.sent == Slot(s) || Distance(t.cursor, s) < Distance(cursor, s)
  {
    var k :| 0 <= k < SLOTS && TicksTo(cursor, table, t, k);
    var d := Distance(cursor, s);
    assert table[Ahead(cursor, d)];
    AheadOnce(cursor, k);
    AheadOnce(cursor, k + 1);
    AheadOnce(cursor, d);
  }

  /** A run of ticks, the table changing freely between them. */
  ghost predicate IsRun(cursor: nat, tables: seq<Table>, ticks: seq<Tick>)
    decreases |ticks|
  {
    && |tables| == |ticks|
    && (|ticks| > 0 ==> IsTick(cursor, tables[0], ticks[0]) && IsRun(ticks[0].cursor, tables[1..], ticks[1..]))
  }

  lemma {:induction false} SentWithin(cursor: nat, tables: seq<Table>, ticks: seq<Tick>, s: nat) returns (n: nat)
    requires cursor < SLOTS && s < SLOTS && IsRun(cursor, tables, ticks)
    requires |ticks| > Distance(cursor, s)
    requires forall i :: 0 <= i < |tables| ==> tables[i][s]
    ensures n < |ticks| && ticks[n].sent == Slot(s)
    decreases |ticks|
  {
    TickComesCloser(cursor, tables[0], ticks[0], s);
    if ticks[0].sent == Slot(s) {
      n := 0;
    } else {
      var m := SentWithin(ticks[0].cursor, tables[1..], ticks[1..], s);
      n := m + 1;
    }
  }

  /** Whatever else appears, expires or is evicted meanwhile, a slot that is valid at 16
      consecutive ticks is sent at one of them. */
  lemma Fairness(cursor: nat, tables: seq<Table>, ticks: seq<Tick>, s: nat)
    requires cursor < SLOTS && s < SLOTS && IsRun(cursor, tables, ticks) && |ticks| == SLOTS
    requires forall i :: 0 <= i < |tables| ==> tables[i][s]
    ensures exists n :: 0 <= n < SLOTS && ticks[n].sent == Slot(s)
  {
    var n := SentWithin(cursor, tables, ticks, s);
  }

  /** A tick sends nothing only when the whole table is empty. */
  lemma SilentOnlyWhenEmpty(cursor: nat, table: Table, t: Tick)
    requires IsTick(cursor, table, t)
    ensures t.sent.Nothing? <==> forall i :: 0 <= i < SLOTS ==> !table[i]
  {}
}
