/** The sliding replay window of lib/ff_core/crypto.cpp against the set of counters
    it has accepted since it was last reset (an epoch). */
module Replay {

  import opened MachineWords

  // ---- A word of marks --------------------------------------------------------------

  datatype Bits = Bits(v: bv32)

  function ShiftAmount(n: nat): (b: bv6)
    requires n <= 32
    ensures b <= 32 && (n < 32 ==> b < 32)
  {
    n as bv6
  }

  function Up(w: bv32, a: bv6): bv32
    requires a < 32
  {
    w << a
  }

  function SetBitOfWord(v: bv32, k: bv6): bv32
    requires k < 32
  {
    v | (1 << k)
  }

  /** The word moved up, with the bit below the old ones set. */
  function SlideWord(v: bv32, n: bv6, below: bv6): bv32
    requires n < 32 && below < 32
  {
    SetBitOfWord(Up(v, n), below)
  }

  predicate HasBit(v: bv32, k: bv6)
    requires k < 32
  {
    v & (1 << k) != 0
  }

  function Slide(w: Bits, n: nat): Bits
    requires 1 <= n < 32
  {
    Bits(SlideWord(w.v, ShiftAmount(n), ShiftAmount(n - 1)))
  }

  function SetBit(w: Bits, k: nat): Bits
    requires k < 32
  {
    Bits(SetBitOfWord(w.v, ShiftAmount(k)))
  }

  predicate Test(w: Bits, k: nat)
    requires k < 32
  {
    HasBit(w.v, ShiftAmount(k))
  }

  lemma ShiftAmountValue(n: nat)
    requires n <= 32
    ensures ShiftAmount(n) as nat == n
  {}

  lemma StepOfValue(x: bv6, y: bv6)
    requires 1 <= x as nat && x as nat - 1 == y as nat
    ensures x - 1 == y
  {}

  lemma OrderOfValue(x: bv6, y: bv6)
    ensures x <= y <==> x as nat <= y as nat
    ensures x == y <==> x as nat == y as nat
  {}

  lemma ShiftAmountStep(n: nat)
    requires 1 <= n <= 32
    ensures ShiftAmount(n) - 1 == ShiftAmount(n - 1)
  {
    hide ShiftAmount;
    ShiftAmountValue(n);
    ShiftAmountValue(n - 1);
    StepOfValue(ShiftAmount(n), ShiftAmount(n - 1));
  }

  lemma StepBoth(a: bv6, b: bv6, c: bv6, b1: bv6, c1: bv6)
    requires a - b1 == c1 && b - 1 == b1 && c1 - 1 == c
    ensures a - b == c
  {}

  lemma ShiftAmountDifference(a: nat, b: nat)
    requires b <= a <= 32
    ensures ShiftAmount(a) - ShiftAmount(b) == ShiftAmount(a - b)
  {
    hide ShiftAmount;
    if b == 0 {
      ShiftAmountZero();
    } else {
      ShiftAmountDifference(a, b - 1);
      ShiftAmountStep(b);
      ShiftAmountStep(a - b + 1);
      StepBoth(ShiftAmount(a), ShiftAmount(b), ShiftAmount(a - b), ShiftAmount(b - 1), ShiftAmount(a - b + 1));
    }
  }

  lemma ShiftAmountZero()
    ensures ShiftAmount(0) == 0
  {}

  lemma ShiftAmountOrder(a: nat, b: nat)
    requires a <= 32 && b <= 32
    ensures ShiftAmount(a) <= ShiftAmount(b) <==> a <= b
    ensures ShiftAmount(a) == ShiftAmount(b) <==> a == b
  {
    hide ShiftAmount;
    ShiftAmountValue(a);
    ShiftAmountValue(b);
    OrderOfValue(ShiftAmount(a), ShiftAmount(b));
  }

  lemma SlideBits(w: bv32, a: bv6, k: bv6, a1: bv6)
    requires 1 <= a <= 31 && k < 32 && a1 == a - 1
    ensures k < a ==> (HasBit(SlideWord(w, a, a1), k) <==> k == a1)
  {}

  predicate Even(a: bv6) { a & 1 == 0 }

  predicate TwiceOdd(a: bv6) { a & 3 == 2 }

  predicate FourOdd(a: bv6) { a & 7 == 4 }

  lemma UpByOdd(w: bv32, a: bv6, a1: bv6)
    requires 1 <= a < 32 && a1 == a - 1 && !Even(a)
    ensures Up(w, a) == Up(Up(w, a1), 1)
  {}

  lemma UpByTwice(w: bv32, a: bv6, a1: bv6)
    requires 1 <= a < 32 && a1 == a - 1 && TwiceOdd(a)
    ensures Up(w, a) == Up(Up(w, a1), 1)
  {}

  lemma UpByFour(w: bv32, a: bv6, a1: bv6)
    requires 1 <= a < 32 && a1 == a - 1 && FourOdd(a)
    ensures Up(w, a) == Up(Up(w, a1), 1)
  {}

  lemma UpByEight(w: bv32, a: bv6, a1: bv6)
    requires 1 <= a < 32 && a1 == a - 1 && Even(a) && !TwiceOdd(a) && !FourOdd(a)
    ensures Up(w, a) == Up(Up(w, a1), 1)
  {}

  /** Moving up by `a` is moving up by one less and once more. */
  lemma UpOnceMore(w: bv32, a: bv6, a1: bv6)
    requires 1 <= a < 32 && a1 == a - 1
    ensures Up(w, a) == Up(Up(w, a1), 1)
  {
    hide Even, TwiceOdd, FourOdd, Up;
    if !Even(a) {
      UpByOdd(w, a, a1);
    } else if TwiceOdd(a) {
      UpByTwice(w, a, a1);
    } else if FourOdd(a) {
      UpByFour(w, a, a1);
    } else {
      UpByEight(w, a, a1);
    }
  }

  lemma RawUpOnce(w: bv32, k: bv6, k1: bv6)
    requires 1 <= k < 32 && k1 == k - 1
    ensures (w << 1) & (1 << k) != 0 <==> w & (1 << k1) != 0
  {}

  lemma UpOnceTest(w: bv32, k: bv6, k1: bv6)
    requires 1 <= k < 32 && k1 == k - 1
    ensures HasBit(Up(w, 1), k) <==> HasBit(w, k1)
  {
    RawUpOnce(w, k, k1);
  }

  lemma LessEach(a: bv6, k: bv6)
    requires 1 <= a <= k < 32
    ensures a - 1 <= k - 1 < 32 && (k - 1) - (a - 1) == k - a && (a == 1 || 1 <= a - 1 < a)
  {}

  /** A mark at or above the shift amount is the mark that far below it, moved up. */
  lemma {:induction false} UpTest(w: bv32, a: bv6, k: bv6, ka: bv6)
    requires 1 <= a <= k < 32 && ka == k - a
    ensures HasBit(Up(w, a), k) <==> HasBit(w, ka)
    decreases a
  {
    hide Up, HasBit;
    LessEach(a, k);
    if a == 1 {
      UpOnceTest(w, k, ka);
    } else {
      UpOnceMore(w, a, a - 1);
      UpOnceTest(Up(w, a - 1), k, k - 1);
      UpTest(w, a - 1, k - 1, ka);
    }
  }

  lemma RawSet(w: bv32, a: bv6, k: bv6)
    requires a < 32 && k < 32
    ensures (w | (1 << a)) & (1 << k) != 0 <==> k == a || w & (1 << k) != 0
  {}

  lemma OrBits(w: bv32, a: bv6, k: bv6)
    requires a < 32 && k < 32
    ensures HasBit(SetBitOfWord(w, a), k) <==> k == a || HasBit(w, k)
  {
    RawSet(w, a, k);
  }

  lemma SlideBitsUp(w: bv32, a: bv6, k: bv6, a1: bv6, ka: bv6)
    requires 1 <= a <= k < 32 && a1 == a - 1 && ka == k - a && a1 < k
    ensures HasBit(SlideWord(w, a, a1), k) <==> HasBit(w, ka)
  {
    hide Up, HasBit, SetBitOfWord;
    UpTest(w, a, k, ka);
    OrBits(Up(w, a), a1, k);
  }

  lemma SlideTest(w: Bits, a: nat, k: nat)
    requires 1 <= a < 32 && k < 32
    ensures Test(Slide(w, a), k) <==> k == a - 1 || (k >= a && Test(w, k - a))
  {
    hide ShiftAmount, SlideWord, SetBitOfWord, HasBit;
    ShiftAmountStep(a);
    ShiftAmountOrder(a - 1, k);
    if k >= a {
      ShiftAmountDifference(k, a);
      SlideBitsUp(w.v, ShiftAmount(a), ShiftAmount(k), ShiftAmount(a - 1), ShiftAmount(k - a));
    } else {
      SlideBits(w.v, ShiftAmount(a), ShiftAmount(k), ShiftAmount(a - 1));
    }
  }

  lemma OrTest(w: Bits, a: nat, k: nat)
    requires a < 32 && k < 32
    ensures Test(SetBit(w, a), k) <==> k == a || Test(w, k)
  {
    hide ShiftAmount, SlideWord, SetBitOfWord, HasBit;
    ShiftAmountOrder(a, k);
    OrBits(w.v, ShiftAmount(a), ShiftAmount(k));
  }

  lemma NothingSet(k: nat)
    requires k < 32
    ensures !Test(Bits(0), k)
  {}

  // ---- The acceptance rule of the code, inside one epoch --------------------------

  /** `high` is the newest counter, mark i stands for counter `high - 1 - i`. */
  datatype Window = Window(high: u32, bits: Bits)

  const WINDOW_BITS: u32 := 32

  datatype Verdict = Verdict(accepted: bool, window: Window)

  function Offer(w: Window, counter: u32): (v: Verdict)
  {
    if counter > w.high then
      var advance := counter - w.high;
      Verdict(true, Window(counter, if advance >= WINDOW_BITS then Bits(0)
                                    else Slide(w.bits, advance)))
    else
      var behind := w.high - counter;
      if behind == 0 || behind > WINDOW_BITS || Test(w.bits, behind - 1) then Verdict(false, w)
      else Verdict(true, w.(bits := SetBit(w.bits, behind - 1)))
  }

  // ---- The rule it stands for ---------------------------------------------------------

  /** New, or unseen and not too old to tell. */
  ghost predicate ShouldAccept(seen: set<u32>, high: u32, counter: u32)
  {
    counter > high || (high - counter <= 32 && counter !in seen)
  }

  /** The newest counter is the greatest one accepted, and every mark names an
      accepted counter. */
  ghost predicate Sound(w: Window, seen: set<u32>)
  {
    && w.high in seen
    && (forall c :: c in seen ==> c <= w.high)
    && (forall k: nat :: k < 32 && Test(w.bits, k) ==> k < w.high && w.high - 1 - k in seen)
  }

  /** Every accepted counter within reach has its mark. */
  ghost predicate Complete(w: Window, seen: set<u32>)
  {
    forall c :: c in seen && 1 <= w.high - c <= 32 ==> Test(w.bits, w.high - c - 1)
  }

  ghost function After(v: Verdict, seen: set<u32>, counter: u32): set<u32>
  {
    if v.accepted then seen + {counter} else seen
  }

  /** What holds on every run: an unseen counter up to 32 behind is accepted, anything
      further behind is refused, and the window stays sound. */
  lemma OfferIsSound(w: Window, seen: set<u32>, counter: u32)
    requires Sound(w, seen)
    ensures var v := Offer(w, counter);
            && (ShouldAccept(seen, w.high, counter) ==> v.accepted)
            && (v.accepted ==> w.high - counter <= 32 && counter != w.high)
            && Sound(v.window, After(v, seen, counter))
  {
    hide Test, Slide, SetBit;
    var v := Offer(w, counter);
    if counter > w.high {
      var advance := counter - w.high;
      forall k: nat | k < 32 && Test(v.window.bits, k)
        ensures k < counter && counter - 1 - k in seen + {counter}
      {
        if advance >= 32 {
          NothingSet(k);
        } else {
          SlideTest(w.bits, advance, k);
          assert counter - 1 - k == w.high - 1 - (k - advance);
        }
      }
    } else if v.accepted {
      forall k: nat | k < 32 && Test(v.window.bits, k)
        ensures k < w.high && w.high - 1 - k in seen + {counter}
      {
        OrTest(w.bits, w.high - counter - 1, k);
      }
    }
  }

  /** While the marks are complete the code's answer is the rule's. */
  lemma OfferIsExact(w: Window, seen: set<u32>, counter: u32)
    requires Sound(w, seen) && Complete(w, seen)
    ensures Offer(w, counter).accepted <==> ShouldAccept(seen, w.high, counter)
  {
    OfferIsSound(w, seen, counter);
  }

  predicate JumpsTheWindow(w: Window, counter: u32)
  {
    counter - w.high == WINDOW_BITS
  }

  /** The marks stay complete exactly when the newest counter does not jump by the
      width of the window: then the mark of the old newest counter is cleared while
      it is still within reach. */
  lemma OfferKeepsComplete(w: Window, seen: set<u32>, counter: u32)
    requires Sound(w, seen) && Complete(w, seen)
    ensures var v := Offer(w, counter);
            Complete(v.window, After(v, seen, counter)) <==> !JumpsTheWindow(w, counter)
  {
    hide Test, Slide, SetBit;
    var v := Offer(w, counter);
    if counter > w.high {
      var advance := counter - w.high;
      if advance == 32 {
        NothingSet(31);
        assert w.high in seen + {counter} && counter - w.high - 1 == 31;
      } else {
        forall c | c in seen + {counter} && 1 <= counter - c <= 32
          ensures Test(v.window.bits, counter - c - 1)
        {
          assert c in seen && c <= w.high;
          SlideTest(w.bits, advance, counter - c - 1);
        }
      }
    } else if v.accepted {
      forall c | c in seen + {counter} && 1 <= w.high - c <= 32
        ensures Test(v.window.bits, w.high - c - 1)
      {
        OrTest(w.bits, w.high - counter - 1, w.high - c - 1);
      }
    }
  }

  /** The counterexample: counter 5, then 37, then 5 once more, all three accepted. */
  lemma AcceptedTwice()
    ensures var first := Window(5, Bits(0));
            var jumped := Offer(first, 37);
            jumped.accepted && Offer(jumped.window, 5).accepted
  {
    NothingSet(31);
  }

  // ---- Whole epochs ------------------------------------------------------------------

  /** The window after a reset at `first` and the offers that followed. */
  function Run(first: u32, offers: seq<u32>): (w: Window)
  {
    if offers == [] then Window(first, Bits(0))
    else Offer(Run(first, offers[..|offers| - 1]), offers[|offers| - 1]).window
  }

  /** The counters accepted on the way, the reset's own included. */
  ghost function Seen(first: u32, offers: seq<u32>): (seen: set<u32>)
  {
    if offers == [] then {first}
    else
      var before, last := offers[..|offers| - 1], offers[|offers| - 1];
      After(Offer(Run(first, before), last), Seen(first, before), last)
  }

  /** Offer `i` of the run was accepted. */
  predicate AcceptedAt(first: u32, offers: seq<u32>, i: nat)
    requires i < |offers|
  {
    Offer(Run(first, offers[..i]), offers[i]).accepted
  }

  predicate NoJump(first: u32, offers: seq<u32>)
  {
    forall i {:trigger offers[i]} :: 0 <= i < |offers| ==> !JumpsTheWindow(Run(first, offers[..i]), offers[i])
  }

  lemma {:induction false} RunIsSound(first: u32, offers: seq<u32>)
    ensures Sound(Run(first, offers), Seen(first, offers))
  {
    if offers == [] {
      forall k: nat | k < 32
        ensures !Test(Bits(0), k)
      {
        NothingSet(k);
      }
    } else {
      var before := offers[..|offers| - 1];
      RunIsSound(first, before);
      OfferIsSound(Run(first, before), Seen(first, before), offers[|offers| - 1]);
    }
  }

  lemma {:induction false} RunIsComplete(first: u32, offers: seq<u32>)
    requires NoJump(first, offers)
    ensures Complete(Run(first, offers), Seen(first, offers))
  {
    if offers != [] {
      var before := offers[..|offers| - 1];
      assert forall i :: 0 <= i < |before| ==> before[i] == offers[i] && before[..i] == offers[..i];
      RunIsComplete(first, before);
      RunIsSound(first, before);
      OfferKeepsComplete(Run(first, before), Seen(first, before), offers[|offers| - 1]);
    }
  }

  lemma {:induction false} SeenAt(first: u32, offers: seq<u32>, i: nat)
    requires i < |offers| && AcceptedAt(first, offers, i)
    ensures offers[i] in Seen(first, offers)
    decreases |offers|
  {
    var before := offers[..|offers| - 1];
    if i < |before| {
      assert before[..i] == offers[..i];
      SeenAt(first, before, i);
    }
  }

  /** At no point of the run would a counter it has accepted be accepted again. */
  ghost predicate ReplaySafe(first: u32, offers: seq<u32>)
  {
    forall n: nat, c :: n <= |offers| && c in Seen(first, offers[..n]) ==> !Offer(Run(first, offers[..n]), c).accepted
  }

  /** A jump of exactly 32 re-opens the counter that was the newest before it. */
  lemma JumpReopens(first: u32, offers: seq<u32>, counter: u32)
    requires JumpsTheWindow(Run(first, offers), counter)
    ensures var newest := Run(first, offers).high;
            && newest in Seen(first, offers + [counter])
            && Offer(Run(first, offers + [counter]), newest).accepted
  {
    RunIsSound(first, offers);
    assert (offers + [counter])[..|offers|] == offers;
    NothingSet(31);
  }

  /** The exact condition: a run is safe against replays if and only if its newest
      counter never jumps by exactly the width of the window. */
  lemma ReplaySafeIffNoJump(first: u32, offers: seq<u32>)
    ensures ReplaySafe(first, offers) <==> NoJump(first, offers)
  {
    hide Run, Seen, Offer;
    if NoJump(first, offers) {
      forall n: nat, c | n <= |offers| && c in Seen(first, offers[..n])
        ensures !Offer(Run(first, offers[..n]), c).accepted
      {
        NoJumpPrefix(first, offers, n);
        NoSecondAcceptance(first, offers[..n], c);
      }
    } else {
      var i :| 0 <= i < |offers| && JumpsTheWindow(Run(first, offers[..i]), offers[i]);
      JumpReopens(first, offers[..i], offers[i]);
      assert offers[..i] + [offers[i]] == offers[..i + 1];
    }
  }

  lemma NoJumpPrefix(first: u32, offers: seq<u32>, n: nat)
    requires NoJump(first, offers) && n <= |offers|
    ensures NoJump(first, offers[..n])
  {
    hide Run;
    var before := offers[..n];
    assert forall i :: 0 <= i < n ==> before[i] == offers[i] && before[..i] == offers[..i];
  }

  lemma NoSecondAcceptance(first: u32, offers: seq<u32>, c: u32)
    requires NoJump(first, offers) && c in Seen(first, offers)
    ensures !Offer(Run(first, offers), c).accepted
  {
    hide Run, Seen, Offer;
    RunIsSound(first, offers);
    RunIsComplete(first, offers);
    OfferIsExact(Run(first, offers), Seen(first, offers), c);
  }

  /** So on a run without such a jump each counter is accepted at most once. */
  lemma AcceptedAtMostOnce(first: u32, offers: seq<u32>, i: nat, j: nat)
    requires i < j < |offers| && NoJump(first, offers[..j])
    requires offers[i] == offers[j]
    ensures !(AcceptedAt(first, offers, i) && AcceptedAt(first, offers, j))
  {
    var before := offers[..j];
    if AcceptedAt(first, offers, i) {
      assert before[..i] == offers[..i];
      SeenAt(first, before, i);
      ReplaySafeIffNoJump(first, before);
      assert before[..j] == before;
    }
  }
}
