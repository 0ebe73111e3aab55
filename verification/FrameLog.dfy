/** The rolling frame log of lib/ff_core/frame_log.h and the cursor with which the web
    page polls it (src/hal/WebServer.cpp, html/main.js). */
module FrameLog {
  import opened MachineWords

  const CAPACITY: nat := 32

  datatype FrameResult = Tx | Ok | Self | CryptoFail | ReplayFail | DecodeFail | Oversize

  datatype Entry = Entry(ms: u32, uid: u32, len: u16, rssi: i16, radio: u8, kind: u8, result: FrameResult)

  const NO_ENTRY := Entry(0, 0, 0, 0, 0, 0, Ok)

  function Min(a: nat, b: nat): nat
  {
    if a < b then a else b
  }

  class FrameLog {
    const entries: array<Entry>
    var head: nat
    var count: nat
    var total: u32
    /** The frames added since the last clear, and how many there were before it. */
    ghost var kept: seq<Entry>
    ghost var dropped: nat

    ghost predicate Valid()
      reads this, entries
    {
      && entries.Length == CAPACITY
      && head == |kept| % CAPACITY && count == Min(|kept|, CAPACITY)
      && total == (dropped + |kept|) % TWO32
      && Holds(entries[..], kept)
    }

    constructor ()
      ensures Valid() && fresh(entries) && kept == [] && dropped == 0
    {
      entries := new Entry[CAPACITY](i => NO_ENTRY);
      head, count, total := 0, 0, 0;
      kept, dropped := [], 0;
    }

    method Add(e: Entry)
      requires Valid()
      modifies this, entries
      ensures Valid() && kept == old(kept) + [e] && dropped == old(dropped)
    {
      entries[head] := e;
      head := (head + 1) % CAPACITY;
      if count < CAPACITY {
        count := count + 1;
      }
      total := Add32(total, 1);
      OneMoreKept(old(entries[..]), old(kept), e);
      kept := kept + [e];
    }

    /** Counting back from the newest entry: `At(i)` is the frame added i frames before
        the last one. */
    method At(i: nat) returns (e: Entry)
      requires Valid()
      ensures i < count ==> e == kept[|kept| - 1 - i]
      ensures e == entries[(head + CAPACITY - 1 - i % CAPACITY) % CAPACITY]
    {
      var idx := (head + CAPACITY - 1 - (i % CAPACITY)) % CAPACITY;
      e := entries[idx];
      if i < count {
        BackFromHead(|kept|, i);
      }
    }

    method Clear()
      requires Valid()
      modifies this
      ensures Valid() && kept == [] && dropped == old(dropped + |kept|) && total == old(total)
    {
      head, count := 0, 0;
      dropped := dropped + |kept|;
      kept := [];
    }
  }

  /** The ring holds the newest frames. */
  ghost predicate Holds(ring: seq<Entry>, kept: seq<Entry>)
    requires |ring| == CAPACITY
  {
    forall k :: 0 <= k < |kept| <= k + CAPACITY ==> ring[k % CAPACITY] == kept[k]
  }

  lemma OneMoreKept(ring: seq<Entry>, kept: seq<Entry>, e: Entry)
    requires |ring| == CAPACITY && Holds(ring, kept)
    ensures Holds(ring[|kept| % CAPACITY := e], kept + [e])
    ensures (|kept| + 1) % CAPACITY == (|kept| % CAPACITY + 1) % CAPACITY
  {
    forall k | 0 <= k < |kept| < k + CAPACITY
      ensures k % CAPACITY != |kept| % CAPACITY
    {
      Apart(k, |kept|);
    }
  }

  lemma Apart(k: nat, m: nat)
    requires k < m < k + CAPACITY
    ensures k % CAPACITY != m % CAPACITY
  {}

  lemma BackFromHead(n: nat, i: nat)
    requires i < n && i < CAPACITY
    ensures (n % CAPACITY + CAPACITY - 1 - i % CAPACITY) % CAPACITY == (n - 1 - i) % CAPACITY
  {}

  // ---- The polling cursor --------------------------------------------------------------------

  /** A log that has never been cleared, all of it: frame `q` is the one with sequence
      number q. */
  type History = seq<Entry>

  /** The oldest frame a request with this cursor is given. */
  function From(history: History, since: nat): (q: nat)
    ensures q <= |history|
  {
    var oldest := |history| - Min(|history|, CAPACITY);
    if since == 0 then oldest else Min(|history|, if since > oldest then since else oldest)
  }

  /** The answer to a request: the newest frame first, down to the cursor. */
  method Serve(log: FrameLog, since: u32) returns (total: u32, frames: seq<Entry>)
    requires log.Valid() && log.dropped == 0 && |log.kept| < TWO32
    ensures total == |log.kept|
    ensures var from := From(log.kept, since);
            && |frames| == total - from
            && forall i :: 0 <= i < |frames| ==> frames[i] == log.kept[total - 1 - i]
  {
    total := log.total;
    frames := [];
    var i := 0;
    while i < log.count
      invariant i <= log.count && |frames| == i
      invariant i > 0 && since != 0 ==> total - i >= since
      invariant forall k :: 0 <= k < i ==> frames[k] == log.kept[total - 1 - k]
    {
      var q := total - 1 - i;
      if since != 0 && q < since {
        break;
      }
      var e := log.At(i);
      frames := frames + [e];
      i := i + 1;
    }
  }

  datatype Frame = Frame(seqNo: nat, entry: Entry)

  /** The page: its cursor, what it has shown (newest first) and what it has reported
      as missed. */
  datatype Client = Client(since: nat, frames: seq<Frame>, missed: nat)

  function Fresh(history: History, since: nat): (frames: seq<Frame>)
    ensures |frames| == |history| - From(history, since)
  {
    seq(|history| - From(history, since),
        i requires 0 <= i < |history| - From(history, since) =>
          Frame(|history| - 1 - i, history[|history| - 1 - i]))
  }

  function Poll(c: Client, history: History): (c': Client)
  {
    var news := Fresh(history, c.since);
    var gap := |history| - c.since - |news|;
    var missed := if c.since != 0 && |history| > c.since && gap > 0 then gap else 0;
    Client(|history|, news + c.frames, c.missed + missed)
  }

  datatype Event = Logged(entry: Entry) | Polled

  datatype World = World(history: History, client: Client)

  function Run(w: World, events: seq<Event>): (w': World)
  {
    if events == [] then w
    else
      var v := Run(w, events[..|events| - 1]);
      match events[|events| - 1]
      case Logged(e) => v.(history := v.history + [e])
      case Polled => v.(client := Poll(v.client, v.history))
  }

  /** The page's frames are those with different numbers between `start` and its
      cursor, each the frame logged under that number, and with the missed ones they
      make up the whole range. */
  ghost predicate Accounted(w: World, start: nat)
  {
    var c := w.client;
    && 0 < start <= c.since <= |w.history|
    && (forall i :: 0 <= i < |c.frames| ==>
          start <= c.frames[i].seqNo < c.since && c.frames[i].entry == w.history[c.frames[i].seqNo])
    && (forall i, j :: 0 <= i < j < |c.frames| ==> c.frames[i].seqNo > c.frames[j].seqNo)
    && |c.frames| + c.missed == c.since - start
  }

  lemma PollKeepsAccounts(w: World, start: nat)
    requires Accounted(w, start)
    ensures Accounted(w.(client := Poll(w.client, w.history)), start)
  {
    var c := w.client;
    var news := Fresh(w.history, c.since);
    assert From(w.history, c.since) >= c.since;
    assert forall i :: 0 <= i < |news| ==> news[i].seqNo == |w.history| - 1 - i >= c.since;
  }

  /** For any interleaving of frames and polls after a poll that found frames, every
      frame logged since then and up to the last poll is shown exactly once, under its
      own number, or counted as missed exactly once. */
  lemma {:induction false} EveryFrameAccounted(w: World, events: seq<Event>)
    requires w.client == Client(|w.history|, [], 0) && |w.history| > 0
    ensures Accounted(Run(w, events), |w.history|)
  {
    if events != [] {
      var before := events[..|events| - 1];
      EveryFrameAccounted(w, before);
      if events[|events| - 1].Polled? {
        PollKeepsAccounts(Run(w, before), |w.history|);
      }
    }
  }

  /** Nothing is missed as long as no more frames than the log holds come between
      polls. */
  lemma NothingMissed(c: Client, history: History)
    requires 0 < c.since <= |history| <= c.since + CAPACITY
    ensures Poll(c, history).missed == c.missed
  {}
}
