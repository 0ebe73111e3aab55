/** The lock-free ring of lib/ff_core/ring_buffer.h: one producer and one consumer,
    their loads and stores interleaved in any order.

    Copying an item in or out of the buffer is not atomic: it has a beginning and an
    end, and in between a slot being written holds nothing that may be read. */
module SpscRing {

  datatype Cell<T> = Empty | Torn | Item(item: T)

  /** Where `push` stands; `head` is its own copy of the index. */
  datatype Producer<T> =
    | Idle
    | GotHead(item: T, head: nat)
    | HasRoom(item: T, head: nat)
    | Writing(item: T, head: nat)
    | Written(item: T, head: nat)

  /** Where `pop` stands; `first` is what the beginning of the copy saw. */
  datatype Consumer<T> =
    | Resting
    | GotTail(tail: nat)
    | HasItem(tail: nat)
    | Reading(tail: nat, first: Cell<T>)
    | Copied(tail: nat, copy: Cell<T>)

  /** `accepted` lists the items whose `push` has returned true, `popped` what `pop`
      has handed out. */
  datatype Ring<T> = Ring(buf: seq<Cell<T>>, head: nat, tail: nat, dropped: nat,
                          producer: Producer<T>, consumer: Consumer<T>,
                          accepted: seq<T>, popped: seq<Cell<T>>)
  {
    function Capacity(): nat
    {
      |buf|
    }

    /** `(i + 1) % Capacity` of an index. */
    function Next(i: nat): nat
    {
      if i + 1 == Capacity() then 0 else i + 1
    }
  }

  ghost predicate Init<T>(r: Ring<T>)
  {
    && r.Capacity() >= 2
    && (forall i :: 0 <= i < |r.buf| ==> r.buf[i] == Empty)
    && r.head == 0 && r.tail == 0 && r.dropped == 0
    && r.producer == Idle && r.consumer == Resting
    && r.accepted == [] && r.popped == []
  }

  // ---- Atomic steps -------------------------------------------------------------------

  ghost predicate ProducerStep<T(!new)>(r: Ring<T>, s: Ring<T>)
    requires r.Capacity() >= 2
  {
    match r.producer
    case Idle => exists item: T :: s == r.(producer := GotHead(item, r.head))
    case GotHead(item, head) =>
      if r.Next(head) == r.tail then s == r.(producer := Idle, dropped := r.dropped + 1)
      else s == r.(producer := HasRoom(item, head))
    case HasRoom(item, head) =>
      head < |r.buf| && s == r.(buf := r.buf[head := Torn], producer := Writing(item, head))
    case Writing(item, head) =>
      head < |r.buf| && s == r.(buf := r.buf[head := Item(item)], producer := Written(item, head))
    case Written(item, head) =>
      s == r.(head := r.Next(head), producer := Idle, accepted := r.accepted + [item])
  }

  ghost predicate ConsumerStep<T(!new)>(r: Ring<T>, s: Ring<T>)
    requires r.Capacity() >= 2
  {
    match r.consumer
    case Resting => s == r.(consumer := GotTail(r.tail))
    case GotTail(tail) =>
      if tail == r.head then s == r.(consumer := Resting) else s == r.(consumer := HasItem(tail))
    case HasItem(tail) => tail < |r.buf| && s == r.(consumer := Reading(tail, r.buf[tail]))
    case Reading(tail, first) =>
      // a copy that saw two different contents is of no use
      tail < |r.buf| && s == r.(consumer := Copied(tail, if r.buf[tail] == first then first else Torn))
    case Copied(tail, copy) =>
      s == r.(tail := r.Next(tail), consumer := Resting, popped := r.popped + [copy])
  }

  ghost predicate Step<T(!new)>(r: Ring<T>, s: Ring<T>)
    requires r.Capacity() >= 2
  {
    ProducerStep(r, s) || ConsumerStep(r, s)
  }

  ghost predicate Behaviour<T(!new)>(run: seq<Ring<T>>)
  {
    && |run| > 0 && Init(run[0])
    && forall i :: 0 <= i < |run| - 1 ==> run[i].Capacity() >= 2 && Step(run[i], run[i + 1])
  }

  // ---- The invariant -------------------------------------------------------------------

  /** How many items lie between the indices. */
  function Held<T>(r: Ring<T>): int
  {
    if r.head >= r.tail then r.head - r.tail else r.head + r.Capacity() - r.tail
  }

  /** The slot of the k-th item from the tail. */
  function SlotAt<T>(r: Ring<T>, k: nat): nat
  {
    if r.tail + k < r.Capacity() then r.tail + k else r.tail + k - r.Capacity()
  }

  ghost predicate ProducerInv<T>(r: Ring<T>)
  {
    match r.producer
    case Idle => true
    case GotHead(_, head) => head == r.head
    case HasRoom(_, head) => head == r.head && Held(r) < r.Capacity() - 1
    case Writing(_, head) => head == r.head && Held(r) < r.Capacity() - 1
    case Written(item, head) => head == r.head < |r.buf| && Held(r) < r.Capacity() - 1 && r.buf[head] == Item(item)
  }

  ghost predicate ConsumerInv<T>(r: Ring<T>)
    requires |r.popped| <= |r.accepted|
  {
    match r.consumer
    case Resting => true
    case GotTail(tail) => tail == r.tail
    case HasItem(tail) => tail == r.tail && Held(r) > 0
    case Reading(tail, first) =>
      tail == r.tail && Held(r) > 0 && |r.popped| < |r.accepted| && first == Item(r.accepted[|r.popped|])
    case Copied(tail, copy) =>
      tail == r.tail && Held(r) > 0 && |r.popped| < |r.accepted| && copy == Item(r.accepted[|r.popped|])
  }

  /** The items between the indices are the accepted ones not yet popped. */
  ghost predicate HoldsRest<T>(r: Ring<T>)
  {
    && r.head < r.Capacity() && r.tail < r.Capacity()
    && |r.popped| + Held(r) == |r.accepted|
    && forall k :: 0 <= k < Held(r) ==> r.buf[SlotAt(r, k)] == Item(r.accepted[|r.popped| + k])
  }

  lemma SlotsAreApart<T>(r: Ring<T>, k: nat)
    requires r.head < r.Capacity() && r.tail < r.Capacity() && k < Held(r) < r.Capacity()
    ensures SlotAt(r, k) < r.Capacity() && SlotAt(r, k) != r.head
    ensures SlotAt(r, Held(r)) == r.head
  {}

  /** Writing at the head touches none of the held items. */
  lemma WriteKeepsRest<T>(r: Ring<T>, s: Ring<T>, cell: Cell<T>)
    requires HoldsRest(r) && Held(r) < r.Capacity()
    requires s.buf == r.buf[r.head := cell] && s.head == r.head && s.tail == r.tail
    requires s.accepted == r.accepted && s.popped == r.popped
    ensures HoldsRest(s)
  {
    forall k | 0 <= k < Held(s)
      ensures s.buf[SlotAt(s, k)] == Item(s.accepted[|s.popped| + k])
    {
      SlotsAreApart(r, k);
      assert SlotAt(s, k) == SlotAt(r, k);
    }
  }

  /** Storing the head adds the item written there to the held ones. */
  lemma StoreHeadKeepsRest<T>(r: Ring<T>, s: Ring<T>, item: T)
    requires HoldsRest(r) && Held(r) < r.Capacity() - 1 && r.buf[r.head] == Item(item)
    requires s.buf == r.buf && s.head == r.Next(r.head) && s.tail == r.tail
    requires s.accepted == r.accepted + [item] && s.popped == r.popped
    ensures HoldsRest(s) && Held(s) == Held(r) + 1
  {
    forall k | 0 <= k < Held(s)
      ensures s.buf[SlotAt(s, k)] == Item(s.accepted[|s.popped| + k])
    {
      assert SlotAt(s, k) == SlotAt(r, k);
      if k == Held(r) {
        assert SlotAt(r, k) == r.head;
      }
    }
  }

  /** Storing the tail takes the oldest held item away. */
  lemma StoreTailKeepsRest<T>(r: Ring<T>, s: Ring<T>)
    requires HoldsRest(r) && Held(r) > 0
    requires s.buf == r.buf && s.head == r.head && s.tail == r.Next(r.tail)
    requires s.accepted == r.accepted && |s.popped| == |r.popped| + 1
    ensures HoldsRest(s) && Held(s) == Held(r) - 1
  {
    forall k | 0 <= k < Held(s)
      ensures s.buf[SlotAt(s, k)] == Item(s.accepted[|s.popped| + k])
    {
      assert SlotAt(s, k) == SlotAt(r, k + 1);
      assert r.buf[SlotAt(r, k + 1)] == Item(r.accepted[|r.popped| + (k + 1)]);
    }
  }

  ghost predicate Inv<T>(r: Ring<T>)
  {
    && r.Capacity() >= 2
    && HoldsRest(r)
    && (forall i :: 0 <= i < |r.popped| ==> r.popped[i] == Item(r.accepted[i]))
    && ProducerInv(r) && ConsumerInv(r)
  }

  lemma ProducerKeepsInv<T(!new)>(r: Ring<T>, s: Ring<T>)
    requires Inv(r) && ProducerStep(r, s)
    ensures Inv(s)
  {
    hide HoldsRest;
    RestBounds(r);
    match r.producer
    case Idle => SameRest(r, s);
    case GotHead(_, _) => SameRest(r, s);
    case HasRoom(_, _) => WriteKeepsRest(r, s, Torn);
    case Writing(item, _) => WriteKeepsRest(r, s, Item(item));
    case Written(item, _) => StoreHeadKeepsRest(r, s, item);
  }

  lemma RestBounds<T>(r: Ring<T>)
    requires HoldsRest(r)
    ensures r.head < r.Capacity() && r.tail < r.Capacity() && |r.popped| + Held(r) == |r.accepted|
    ensures 0 <= Held(r) < r.Capacity()
    ensures Held(r) > 0 ==> r.buf[r.tail] == Item(r.accepted[|r.popped|])
  {
    if Held(r) > 0 {
      assert SlotAt(r, 0) == r.tail;
    }
  }

  lemma SameRest<T>(r: Ring<T>, s: Ring<T>)
    requires HoldsRest(r)
    requires s.buf == r.buf && s.head == r.head && s.tail == r.tail && s.accepted == r.accepted && s.popped == r.popped
    ensures HoldsRest(s)
  {
    assert forall k :: 0 <= k < Held(s) ==> SlotAt(s, k) == SlotAt(r, k);
  }

  lemma ConsumerKeepsInv<T(!new)>(r: Ring<T>, s: Ring<T>)
    requires Inv(r) && ConsumerStep(r, s)
    ensures Inv(s)
  {
    hide HoldsRest;
    RestBounds(r);
    if r.consumer.Copied? {
      StoreTailKeepsRest(r, s);
    } else {
      SameRest(r, s);
    }
  }

  // ---- What holds on every interleaving ---------------------------------------------------

  lemma {:induction false} InvAlways<T(!new)>(run: seq<Ring<T>>, n: nat)
    requires Behaviour(run) && n < |run|
    ensures Inv(run[n])
  {
    if n > 0 {
      InvAlways(run, n - 1);
      var r, s := run[n - 1], run[n];
      assert Step(r, s);
      if ProducerStep(r, s) {
        ProducerKeepsInv(r, s);
      } else {
        ConsumerKeepsInv(r, s);
      }
    }
  }

  /** What has been popped is, item by item and in order, the beginning of what has
      been accepted; the rest of it is still held, and there is never more of that
      than one item short of the capacity. */
  lemma PoppedIsPrefixOfAccepted<T(!new)>(run: seq<Ring<T>>, n: nat)
    requires Behaviour(run) && n < |run|
    ensures var r := run[n];
            && r.Capacity() >= 2 && |r.popped| <= |r.accepted|
            && (forall i :: 0 <= i < |r.popped| ==> r.popped[i] == Item(r.accepted[i]))
            && |r.accepted| - |r.popped| == Held(r) <= r.Capacity() - 1
            && HoldsRest(r)
  {
    InvAlways(run, n);
  }

  /** The slot being written is never the one being read. */
  lemma NoOverlap<T(!new)>(run: seq<Ring<T>>, n: nat)
    requires Behaviour(run) && n < |run|
    ensures var r := run[n];
            (r.producer.Writing? || r.producer.HasRoom?) && (r.consumer.Reading? || r.consumer.HasItem?)
            ==> r.producer.head != r.consumer.tail
  {
    InvAlways(run, n);
  }

  /** At its read of the other index `push` gives up exactly when all but one slot is
      taken, and `pop` exactly when nothing is held. */
  lemma GivesUpExactlyWhen<T(!new)>(run: seq<Ring<T>>, n: nat)
    requires Behaviour(run) && n < |run| - 1
    ensures var r, s := run[n], run[n + 1];
            && r.Capacity() >= 2
            && (r.producer.GotHead? && ProducerStep(r, s)
                ==> (s.producer.Idle? <==> Held(r) == r.Capacity() - 1)
                    && s.dropped == r.dropped + (if s.producer.Idle? then 1 else 0))
            && (r.consumer.GotTail? && ConsumerStep(r, s) ==> (s.consumer.Resting? <==> Held(r) == 0))
  {
    InvAlways(run, n);
  }

  // ---- The arithmetic of the code ------------------------------------------------------------

  lemma RemainderOnce(x: nat, c: nat)
    requires 0 < c && x < 2 * c
    ensures x % c == if x < c then x else x - c
  {
    if x >= c {
      assert x == c * 1 + (x - c);
    }
  }

  /** `Next` is the code's remainder, and the difference of the indices in one state counts
      the held items. */
  lemma IndexArithmetic<T(!new)>(run: seq<Ring<T>>, n: nat)
    requires Behaviour(run) && n < |run|
    ensures var r := run[n];
            && r.Capacity() >= 2
            && r.Next(r.head) == (r.head + 1) % r.Capacity()
            && r.Next(r.tail) == (r.tail + 1) % r.Capacity()
            && (r.head + r.Capacity() - r.tail) % r.Capacity() == Held(r)
  {
    InvAlways(run, n);
    var r := run[n];
    RemainderOnce(r.head + 1, r.Capacity());
    RemainderOnce(r.tail + 1, r.Capacity());
    RemainderOnce(r.head + r.Capacity() - r.tail, r.Capacity());
  }

  lemma NextIsCount(count: nat, c: nat)
    requires c > 0
    ensures (if count % c + 1 == c then 0 else count % c + 1) == (count + 1) % c
  {
    assert count == (count / c) * c + count % c;
    Remainder(count / c, count % c, c, count);
    if count % c + 1 == c {
      assert count + 1 == (count / c + 1) * c + 0;
      Remainder(count / c + 1, 0, c, count + 1);
    } else {
      Remainder(count / c, count % c + 1, c, count + 1);
    }
  }

  lemma Remainder(q: int, r: nat, c: nat, x: int)
    requires r < c && x == q * c + r
    ensures x % c == r
  {
    var d := x / c - q;
    assert x == (x / c) * c + x % c;
    assert (x / c) * c == q * c + d * c;
    if d != 0 {
      Multiples(d, c);
    }
  }

  lemma Multiples(d: int, c: nat)
    requires c > 0 && d != 0
    ensures d * c >= c || -(d * c) >= c
  {
    if d > 0 {
      assert (d - 1) * c >= 0;
    } else {
      assert (-1 - d) * c >= 0;
    }
  }

  /** The index that a count of items stands for. */
  function Index(count: nat, c: nat): (i: nat)
    requires c > 0
  {
    count % c
  }

  /** The indices are the counts of accepted and popped items. */
  ghost predicate Counts<T>(r: Ring<T>)
  {
    && r.Capacity() >= 2
    && r.head == Index(|r.accepted|, r.Capacity()) && r.tail == Index(|r.popped|, r.Capacity())
  }

  lemma StepCounts<T(!new)>(r: Ring<T>, s: Ring<T>)
    requires Inv(r) && Counts(r) && Step(r, s)
    ensures Counts(s) && s.Capacity() == r.Capacity()
    ensures |r.accepted| <= |s.accepted| && |r.popped| <= |s.popped|
  {
    hide HoldsRest, Index;
    RestBounds(r);
    NextIndex(|r.accepted|, r.Capacity());
    NextIndex(|r.popped|, r.Capacity());
  }

  lemma NextIndex(count: nat, c: nat)
    requires c > 0
    ensures Index(count + 1, c) == if Index(count, c) + 1 == c then 0 else Index(count, c) + 1
  {
    NextIsCount(count, c);
  }

  /** The counts only grow. */
  lemma {:induction false} IndicesAreCounts<T(!new)>(run: seq<Ring<T>>, m: nat, n: nat)
    requires Behaviour(run) && m <= n < |run|
    ensures var r, s := run[m], run[n];
            && Counts(s) && s.Capacity() == r.Capacity()
            && |r.accepted| <= |s.accepted| && |r.popped| <= |s.popped|
    decreases n
  {
    hide Inv;
    if n > 0 {
      var k := n - 1;
      IndicesAreCounts(run, if n > m then m else k, k);
      InvAlways(run, k);
      assert Step(run[k], run[n]);
      StepCounts(run[k], run[n]);
    }
  }

  /** `size()` reads the head in one state and the tail in a later one. Whoever calls it, it
      is less than the capacity. It is the number of items accepted by its first read and
      not popped by its second, as long as the consumer has not overtaken that: so the
      producer, who adds none meanwhile, reads exactly what is held in the end, and the
      consumer, who takes none, what was held in the beginning and at most what is held in
      the end. */
  lemma SizeInTwoReads<T(!new)>(run: seq<Ring<T>>, m: nat, n: nat)
    requires Behaviour(run) && m <= n < |run|
    ensures var r, s := run[m], run[n];
            && r.Capacity() == s.Capacity() >= 2
            && var size := (r.head + r.Capacity() - s.tail) % r.Capacity();
               && 0 <= size <= s.Capacity() - 1
               && (|s.popped| <= |r.accepted| ==> size == |r.accepted| - |s.popped|)
               && (|r.accepted| == |s.accepted| ==> size == Held(s))
               && (|r.popped| == |s.popped| ==> size == Held(r) <= Held(s))
  {
    hide Inv, HoldsRest, Held;
    var r, s := run[m], run[n];
    IndicesAreCounts(run, m, m);
    IndicesAreCounts(run, m, n);
    PoppedIsPrefixOfAccepted(run, m);
    PoppedIsPrefixOfAccepted(run, n);
    if |s.popped| <= |r.accepted| {
      DifferenceOfCounts(|r.accepted|, |s.popped|, r.Capacity());
    }
  }

  lemma DifferenceOfCounts(a: nat, p: nat, c: nat)
    requires c > 0 && p <= a < p + c
    ensures (a % c + c - p % c) % c == a - p
  {
    assert a == (a / c) * c + a % c && p == (p / c) * c + p % c;
    var q := a / c - p / c;
    assert q * c == (a / c) * c - (p / c) * c;
    assert a % c + c - p % c == (1 - q) * c + (a - p);
    Remainder(1 - q, a - p, c, a % c + c - p % c);
  }
}
