/** The flight modes that are active, out of a flag mask in the flight controller's own box
    order (lib/ff_core/msp_fc.cpp). */
module FcModes {
  import opened ByteStrings

  const MODE_COUNT: nat := 30

  /** The permanent box id of each mode. */
  function PermanentId(mode: nat): (id: nat)
    requires mode < MODE_COUNT
  {
    match mode
    case 0 => 0
    case 1 => 1
    case 2 => 2
    case 3 => 3
    case 4 => 5
    case 5 => 6
    case 6 => 7
    case 7 => 8
    case 8 => 10
    case 9 => 11
    case 10 => 12
    case 11 => 13
    case 12 => 15
    case 13 => 16
    case 14 => 19
    case 15 => 20
    case 16 => 21
    case 17 => 22
    case 18 => 26
    case 19 => 27
    case 20 => 28
    case 21 => 29
    case 22 => 30
    case 23 => 31
    case 24 => 32
    case 25 => 33
    case 26 => 34
    case 27 => 35
    case 28 => 36
    case _ => 37
  }

  /** The ids that no mode has. */
  const UNUSED: seq<nat> := [4, 9, 14, 17, 18, 23, 24, 25]

  /** How many of them are below this id. */
  function UnusedBelow(id: nat, n: nat): (count: nat)
    requires n <= |UNUSED|
  {
    if n == 0 then 0 else UnusedBelow(id, n - 1) + (if UNUSED[n - 1] < id then 1 else 0)
  }

  /** The modes have the ids from 0 to 37 in their order, but for those not used. */
  lemma IdsInOrder(mode: nat)
    requires mode < MODE_COUNT
    ensures var id := PermanentId(mode); id <= 37 && id !in UNUSED && mode + UnusedBelow(id, |UNUSED|) == id
  {
    UnusedCounted(PermanentId(mode));
  }

  lemma UnusedCounted(id: nat)
    ensures UnusedBelow(id, |UNUSED|)
         == (if id <= 4 then 0 else if id <= 9 then 1 else if id <= 14 then 2 else if id <= 17 then 3 else
             if id <= 18 then 4 else if id <= 23 then 5 else if id <= 24 then 6 else if id <= 25 then 7 else 8)
  {
    hide UnusedBelow;
    NextUnused(id, 0);
    NextUnused(id, 1);
    NextUnused(id, 2);
    NextUnused(id, 3);
    NextUnused(id, 4);
    NextUnused(id, 5);
    NextUnused(id, 6);
    NextUnused(id, 7);
  }

  lemma NextUnused(id: nat, n: nat)
    requires n < |UNUSED|
    ensures UnusedBelow(id, 0) == 0
    ensures UnusedBelow(id, n + 1) == UnusedBelow(id, n) + (if UNUSED[n] < id then 1 else 0)
  {}

  lemma IdsIncrease(a: nat, b: nat)
    requires a < b < MODE_COUNT
    ensures PermanentId(a) < PermanentId(b)
    decreases b
  {
    if a + 1 < b {
      IdsIncrease(a, b - 1);
    }
  }

  function PowerOfTwo(k: nat): (p: nat)
    ensures p > 0
  {
    if k == 0 then 1 else 2 * PowerOfTwo(k - 1)
  }

  /** Bit `k` of a byte. */
  predicate Bit(b: Byte, k: nat)
  {
    ToNat(b) / PowerOfTwo(k) % 2 == 1
  }

  /** Box `i` has a flag, and it is set. */
  predicate Flagged(flags: Bytes, i: nat)
  {
    i / 8 < |flags| && Bit(flags[i / 8], i % 8)
  }

  /** Some flagged box carries the id of this mode. */
  ghost predicate Active(flags: Bytes, boxIds: Bytes, mode: nat)
  {
    mode < MODE_COUNT && exists i: nat :: i < |boxIds| && Carries(flags, boxIds, i, mode)
  }

  ghost predicate Carries(flags: Bytes, boxIds: Bytes, i: nat, mode: nat)
    requires mode < MODE_COUNT && i < |boxIds|
  {
    Flagged(flags, i) && ToNat(boxIds[i]) == PermanentId(mode)
  }

  /** The modes are a mask of 30 bits; here the set of its positions. A box beyond the
      flags ends the scan, an id without a mode is passed over. */
  method DecodeActiveModes(flags: Bytes, boxIds: Bytes) returns (modes: set<nat>)
    ensures forall mode :: mode in modes <==> Active(flags, boxIds, mode)
  {
    hide PermanentId, Bit;
    modes := {};
    var i := 0;
    while i < |boxIds| && i / 8 < |flags|
      invariant i <= |boxIds|
      invariant forall mode :: mode in modes <==> Before(flags, boxIds, mode, i)
    {
      ghost var was := modes;
      if Bit(flags[i / 8], i % 8) {
        var found := ModeOf(ToNat(boxIds[i]));
        if found >= 0 {
          modes := modes + {found};
        }
      }
      forall mode: nat
        ensures mode in modes <==> Before(flags, boxIds, mode, i + 1)
      {
        OneMoreBox(flags, boxIds, mode, i);
      }
      i := i + 1;
    }
    forall mode
      ensures Before(flags, boxIds, mode, i) <==> Active(flags, boxIds, mode)
    {
      BeyondFlags(flags, boxIds, mode, i);
    }
  }

  /** The mode with this permanent id, or -1. */
  method ModeOf(id: nat) returns (mode: int)
    ensures -1 <= mode < MODE_COUNT
    ensures forall j: nat :: j < MODE_COUNT ==> (PermanentId(j) == id <==> j == mode)
  {
    hide PermanentId;
    for j := 0 to MODE_COUNT
      invariant forall k: nat :: k < j ==> PermanentId(k) != id
    {
      if PermanentId(j) == id {
        forall k: nat | j < k < MODE_COUNT
          ensures PermanentId(k) != id
        {
          IdsIncrease(j, k);
        }
        return j;
      }
    }
    return -1;
  }

  /** As `Active`, among the first `n` boxes. */
  ghost predicate Before(flags: Bytes, boxIds: Bytes, mode: nat, n: nat)
    requires n <= |boxIds|
  {
    mode < MODE_COUNT && exists i: nat :: i < n && Carries(flags, boxIds, i, mode)
  }

  lemma OneMoreBox(flags: Bytes, boxIds: Bytes, mode: nat, n: nat)
    requires n < |boxIds|
    ensures Before(flags, boxIds, mode, n + 1)
        <==> Before(flags, boxIds, mode, n) || (mode < MODE_COUNT && Carries(flags, boxIds, n, mode))
  {
    hide PermanentId, Bit;
    if mode < MODE_COUNT && Carries(flags, boxIds, n, mode) {
      assert Before(flags, boxIds, mode, n + 1);
    }
  }

  lemma BeyondFlags(flags: Bytes, boxIds: Bytes, mode: nat, n: nat)
    requires n <= |boxIds| && (n < |boxIds| ==> n / 8 >= |flags|)
    ensures Before(flags, boxIds, mode, n) <==> Active(flags, boxIds, mode)
  {
    hide PermanentId, Bit;
  }
}
