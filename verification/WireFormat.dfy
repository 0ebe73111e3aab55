/** The little-endian cursor codecs of lib/ff_core/wire_format.h. */
module WireFormat {
  import opened ByteStrings
  import opened MachineWords

  // ---- Little-endian strings -----------------------------------------------------------

  ghost function Le(n: nat, k: nat): (s: Bytes)
    ensures |s| == k
  {
    seq(k, i requires 0 <= i < k => Octet(n, i))
  }

  ghost function FromLe(s: Bytes): (n: nat)
  {
    if s == [] then 0 else ToNat(s[0]) + 256 * FromLe(s[1..])
  }

  lemma {:induction false} LeRoundTrip(n: nat, k: nat)
    requires n < Pow256(k)
    ensures FromLe(Le(n, k)) == n
  {
    hide ToNat, ToByte;
    if k > 0 {
      LeTail(n, k);
      LeRoundTrip(n / 256, k - 1);
    }
  }

  lemma LeTail(n: nat, k: nat)
    requires k > 0
    ensures Le(n, k) == [ToByte(n % 256)] + Le(n / 256, k - 1)
  {
    hide ToNat, ToByte;
  }

  lemma {:induction false} FromLeRoundTrip(s: Bytes)
    ensures FromLe(s) < Pow256(|s|)
    ensures Le(FromLe(s), |s|) == s
  {
    hide ToNat, ToByte;
    if s != [] {
      FromLeRoundTrip(s[1..]);
      var n := FromLe(s);
      LeTail(n, |s|);
      assert n % 256 == ToNat(s[0]) && n / 256 == FromLe(s[1..]);
      SameNat(ToByte(n % 256), s[0]);
    }
  }

  lemma {:induction false} FromLeSnoc(s: Bytes, b: Byte)
    ensures FromLe(s + [b]) == FromLe(s) + ToNat(b) * Pow256(|s|)
  {
    hide ToNat, ToByte;
    if s == [] {
      assert [] + [b] == [b];
    } else {
      assert (s + [b])[1..] == s[1..] + [b];
      FromLeSnoc(s[1..], b);
      assert 256 * (ToNat(b) * Pow256(|s| - 1)) == ToNat(b) * Pow256(|s|);
    }
  }

  lemma Widths()
    ensures Pow256(1) == 0x100 && Pow256(2) == 0x1_0000 && Pow256(4) == 0x1_0000_0000
  {
    assert Pow256(3) == 256 * Pow256(2);
  }

  /** Two bytes as a number, low byte first. */
  function Word(lo: Byte, hi: Byte): (n: u16)
  {
    ToNat(lo) + 256 * ToNat(hi)
  }

  lemma WordIsLe(n: u16)
    ensures Word(Le(n, 2)[0], Le(n, 2)[1]) == n
  {
    hide ToNat, ToByte;
    var s := Le(n, 2);
    LeRoundTrip(n, 2);
    Widths();
    assert s[1..] == [s[1]] && s[1..][1..] == [];
    assert FromLe(s[1..]) == ToNat(s[1]) + 256 * FromLe(s[1..][1..]);
  }

  lemma LeIsWord(lo: Byte, hi: Byte)
    ensures Le(Word(lo, hi), 2) == [lo, hi]
  {
    hide ToNat, ToByte, Le;
    FromLeRoundTrip([lo, hi]);
    assert [lo, hi][1..] == [hi] && [hi][1..] == [];
    assert FromLe([hi]) == ToNat(hi) + 256 * FromLe([]);
  }

  // ---- Writing and reading through a cursor ------------------------------------------

  /** `now` is `was` with `s` written at `at`. */
  ghost predicate Wrote(was: Bytes, now: Bytes, at: nat, s: Bytes)
  {
    at + |s| <= |was| && now == was[..at] + s + was[at + |s|..]
  }

  lemma WroteMore(a: Bytes, b: Bytes, c: Bytes, at: nat, s: Bytes, t: Bytes)
    requires Wrote(a, b, at, s) && Wrote(b, c, at + |s|, t)
    ensures Wrote(a, c, at, s + t)
  {}

  method PutU8(buf: array<Byte>, p: nat, v: Byte) returns (q: nat)
    requires p < buf.Length
    modifies buf
    ensures q == p + 1 && Wrote(old(buf[..]), buf[..], p, [v])
  {
    buf[p] := v;
    q := p + 1;
  }

  lemma WroteNothing(was: Bytes)
    ensures Wrote(was, was, 0, [])
  {}

  /** One byte after those written so far. */
  method Append(buf: array<Byte>, n: nat, b: Byte, ghost was: Bytes, ghost done: Bytes) returns (m: nat)
    requires n == |done| < buf.Length && Wrote(was, buf[..], 0, done)
    modifies buf
    ensures m == n + 1 && Wrote(was, buf[..], 0, done + [b])
  {
    hide Wrote;
    ghost var now := buf[..];
    m := PutU8(buf, n, b);
    WroteMore(was, now, buf[..], 0, done, [b]);
  }

  method PutU16(buf: array<Byte>, p: nat, v: u16) returns (q: nat)
    requires p + 2 <= buf.Length
    modifies buf
    ensures q == p + 2 && Wrote(old(buf[..]), buf[..], p, Le(v, 2))
  {
    hide ToByte;
    buf[p] := Octet(v, 0);
    buf[p + 1] := Octet(v, 1);
    q := p + 2;
    assert buf[..] == old(buf[..])[..p] + Le(v, 2) + old(buf[..])[p + 2..];
  }

  method PutU32(buf: array<Byte>, p: nat, v: u32) returns (q: nat)
    requires p + 4 <= buf.Length
    modifies buf
    ensures q == p + 4 && Wrote(old(buf[..]), buf[..], p, Le(v, 4))
  {
    hide ToByte, Octet;
    ghost var was := buf[..];
    for i := 0 to 4
      invariant forall k :: 0 <= k < i ==> buf[p + k] == Octet(v, k)
      invariant forall k :: 0 <= k < buf.Length && !(p <= k < p + i) ==> buf[k] == was[k]
    {
      buf[p + i] := Octet(v, i);
    }
    q := p + 4;
    assert buf[..] == was[..p] + Le(v, 4) + was[p + 4..];
  }

  method PutI16(buf: array<Byte>, p: nat, v: i16) returns (q: nat)
    requires p + 2 <= buf.Length
    modifies buf
    ensures q == p + 2 && Wrote(old(buf[..]), buf[..], p, Le(ToU16(v), 2))
  {
    q := PutU16(buf, p, ToU16(v));
  }

  method PutI32(buf: array<Byte>, p: nat, v: i32) returns (q: nat)
    requires p + 4 <= buf.Length
    modifies buf
    ensures q == p + 4 && Wrote(old(buf[..]), buf[..], p, Le(ToU32(v), 4))
  {
    q := PutU32(buf, p, ToU32(v));
  }

  method GetU16(buf: array<Byte>, p: nat) returns (v: u16, q: nat)
    requires p + 2 <= buf.Length
    ensures q == p + 2 && v == FromLe(buf[p..p + 2])
  {
    hide ToNat;
    assert buf[p..p + 2][1..] == [buf[p + 1]];
    assert FromLe([buf[p + 1]]) == ToNat(buf[p + 1]);
    v, q := ToNat(buf[p]) + 256 * ToNat(buf[p + 1]), p + 2;
  }

  method GetU32(buf: array<Byte>, p: nat) returns (v: u32, q: nat)
    requires p + 4 <= buf.Length
    ensures q == p + 4 && v == FromLe(buf[p..p + 4])
  {
    hide ToNat;
    var sum: nat := 0;
    for i := 0 to 4
      invariant sum == FromLe(buf[p..p + i])
    {
      FromLeSnoc(buf[p..p + i], buf[p + i]);
      assert buf[p..p + i + 1] == buf[p..p + i] + [buf[p + i]];
      // the bytes take disjoint bits, so or-ing one in adds it
      sum := sum + ToNat(buf[p + i]) * Pow256(i);
    }
    FromLeRoundTrip(buf[p..p + 4]);
    Widths();
    v, q := sum, p + 4;
  }

  method GetI16(buf: array<Byte>, p: nat) returns (v: i16, q: nat)
    requires p + 2 <= buf.Length
    ensures q == p + 2 && ToU16(v) == FromLe(buf[p..p + 2])
  {
    var u: u16;
    u, q := GetU16(buf, p);
    v := ToI16(u);
  }

  method GetI32(buf: array<Byte>, p: nat) returns (v: i32, q: nat)
    requires p + 4 <= buf.Length
    ensures q == p + 4 && ToU32(v) == FromLe(buf[p..p + 4])
  {
    var u: u32;
    u, q := GetU32(buf, p);
    v := ToI32(u);
  }
}
