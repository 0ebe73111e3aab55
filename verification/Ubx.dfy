/** UBX frames and the incremental parser for them (lib/ff_core/ubx.cpp). */
module Ubx {
  import opened ByteStrings
  import opened MachineWords
  import opened WireFormat
  import opened Framing

  const MAX_PAYLOAD: nat := 128

  const SYNC1 := ToByte(0xB5)
  const SYNC2 := ToByte(0x62)
  const CLASS_NAV := ToByte(0x01)
  const CLASS_CFG := ToByte(0x06)
  const CFG_PRT := ToByte(0x00)
  const CFG_MSG := ToByte(0x01)
  const CFG_RATE := ToByte(0x08)

  /** NAV-POSLLH, NAV-SOL, NAV-VELNED and NAV-DOP. */
  function LegacyIds(): (ids: seq<Byte>)
    ensures |ids| == 4
  {
    [ToByte(0x02), ToByte(0x06), ToByte(0x12), ToByte(0x04)]
  }

  lemma Syncs()
    ensures SYNC1 != SYNC2
  {
    assert ToNat(SYNC1) == 0xB5 && ToNat(SYNC2) == 0x62;
  }

  // ---- The checksum --------------------------------------------------------------------

  /** The 8-bit Fletcher checksum: the sum of the bytes and the sum of the sums. */
  datatype Fletcher = Fletcher(a: u8, b: u8)

  function Added(c: Fletcher, x: Byte): (d: Fletcher)
  {
    var a := (c.a + ToNat(x)) % 256;
    Fletcher(a, (c.b + a) % 256)
  }

  function SumOf(s: Bytes): (c: Fletcher)
  {
    if s == [] then Fletcher(0, 0) else Added(SumOf(s[..|s| - 1]), s[|s| - 1])
  }

  lemma SumMore(s: Bytes, x: Byte)
    ensures SumOf([]) == Fletcher(0, 0)
    ensures SumOf(s + [x]) == Added(SumOf(s), x)
  {
    hide Added;
    assert (s + [x])[..|s|] == s;
  }

  method UbxChecksum(buf: array<Byte>, from: nat, len: nat) returns (c: Fletcher)
    requires from + len <= buf.Length
    ensures c == SumOf(buf[from..from + len])
  {
    hide Added, SumOf, ToNat;
    c := Fletcher(0, 0);
    SumMore([], ZERO);
    assert buf[from..from] == [];
    for i := 0 to len
      invariant c == SumOf(buf[from..from + i])
    {
      SumMore(buf[from..from + i], buf[from + i]);
      assert buf[from..from + i + 1] == buf[from..from + i] + [buf[from + i]];
      c := Added(c, buf[from + i]);
    }
  }

  /** A change of one byte is always noticed, by the first sum. */
  lemma {:induction false} SumNoticesOneByte(before: Bytes, x: Byte, y: Byte, after: Bytes)
    requires x != y
    ensures SumOf(before + [x] + after).a != SumOf(before + [y] + after).a
  {
    hide SumOf, ToNat, Added;
    if after == [] {
      assert before + [x] + [] == before + [x] && before + [y] + [] == before + [y];
      SumMore(before, x);
      SumMore(before, y);
      AddedApart(SumOf(before), x, SumOf(before), y);
    } else {
      var n := |after| - 1;
      SumNoticesOneByte(before, x, y, after[..n]);
      var a, b := before + [x] + after[..n], before + [y] + after[..n];
      assert before + [x] + after == a + [after[n]] && before + [y] + after == b + [after[n]];
      SumMore(a, after[n]);
      SumMore(b, after[n]);
      AddedApart(SumOf(a), after[n], SumOf(b), after[n]);
    }
  }

  lemma AddedApart(c: Fletcher, x: Byte, d: Fletcher, y: Byte)
    requires (c.a == d.a && x != y) || (c.a != d.a && x == y)
    ensures Added(c, x).a != Added(d, y).a
  {
    hide ToNat;
    if ToNat(x) == ToNat(y) {
      SameNat(x, y);
    }
    ModApart(c.a, ToNat(x), d.a, ToNat(y));
  }

  lemma ModApart(a: nat, x: nat, b: nat, y: nat)
    requires a < 256 && b < 256 && x < 256 && y < 256
    requires (a == b && x != y) || (a != b && x == y)
    ensures (a + x) % 256 != (b + y) % 256
  {}

  // ---- Messages as byte strings -----------------------------------------------------------

  datatype Message = Message(cls: Byte, id: Byte, payload: Bytes)

  predicate Fits(m: Message)
  {
    |m.payload| < 0x1_0000
  }

  ghost function Covered(m: Message): (s: Bytes)
    requires Fits(m)
    ensures |s| == 4 + |m.payload|
  {
    [m.cls, m.id] + Le(|m.payload|, 2) + m.payload
  }

  ghost function Encode(m: Message): (s: Bytes)
    requires Fits(m)
    ensures |s| == 8 + |m.payload|
  {
    var sum := SumOf(Covered(m));
    [SYNC1, SYNC2] + Covered(m) + [ToByte(sum.a), ToByte(sum.b)]
  }

  function Progressed(t: Bytes): (p: Progress)
  {
    if |t| > 0 && t[0] != SYNC1 then Dead
    else if |t| > 1 && t[1] != SYNC2 then Dead
    else if |t| < 6 then Pending
    else Against(|t|, 8 + Word(t[4], t[5]))
  }

  function UbxFormat(): Format
  {
    Format(SYNC1, 2, t => Progressed(t))
  }

  lemma UbxFormatIsSound()
    ensures Sound(UbxFormat())
  {
    hide ToNat, ToByte, Word;
    Syncs();
  }

  lemma UbxFormatIsSteady()
    ensures Steady(UbxFormat())
  {
    hide ToNat, ToByte, Word;
    Syncs();
  }

  predicate Intact(t: Bytes)
    requires Progressed(t) == Complete
  {
    var sum := SumOf(t[2..|t| - 2]);
    ToNat(t[|t| - 2]) == sum.a && ToNat(t[|t| - 1]) == sum.b
  }

  function Decode(t: Bytes): (m: Message)
    requires Progressed(t) == Complete
  {
    Message(t[2], t[3], t[6..|t| - 2])
  }

  lemma DecodeOfEncode(m: Message)
    requires Fits(m)
    ensures var t := Encode(m); Progressed(t) == Complete && Intact(t) && Decode(t) == m
  {
    hide ToNat, ToByte, Le, Word, SumOf;
    var t := Encode(m);
    WordIsLe(|m.payload|);
    assert t[2..|t| - 2] == Covered(m) && t[4..6] == Le(|m.payload|, 2) && t[6..|t| - 2] == m.payload;
    assert t[4] == t[4..6][0] && t[5] == t[4..6][1];
  }

  lemma EncodeOfDecode(t: Bytes)
    requires Progressed(t) == Complete && Intact(t)
    ensures Fits(Decode(t)) && Encode(Decode(t)) == t
  {
    hide ToNat, ToByte, Le, SumOf;
    var m := Decode(t);
    LeIsWord(t[4], t[5]);
    assert t[2..|t| - 2] == Covered(m);
    var sum := SumOf(Covered(m));
    SameNat(ToByte(sum.a), t[|t| - 2]);
    SameNat(ToByte(sum.b), t[|t| - 1]);
  }

  lemma EncodeIsFramed(m: Message)
    requires Fits(m)
    ensures Framed(UbxFormat(), Encode(m))
  {
    hide ToNat, ToByte, Word, Encode;
    DecodeOfEncode(m);
    BeginningsPend(Encode(m));
  }

  lemma BeginningsPend(t: Bytes)
    requires Progressed(t) == Complete
    ensures forall k :: 0 <= k < |t| ==> Progressed(t[..k]) == Pending
  {
    hide ToNat, ToByte, Word;
  }

  // ---- The builders ---------------------------------------------------------------------------

  /** The frame around a payload that is already in its place. */
  method FinishFrame(buf: array<Byte>, at: nat, cls: Byte, id: Byte, len: u16) returns (n: nat)
    requires at + 8 + len <= buf.Length
    modifies buf
    ensures n == 8 + len
    ensures Wrote(old(buf[..]), buf[..], at, Encode(Message(cls, id, old(buf[at + 6..at + 6 + len]))))
  {
    hide ToByte, SumOf, Octet, Encode, Covered, Wrote;
    ghost var was, m := buf[..], Message(cls, id, buf[at + 6..at + 6 + len]);
    PutHead(buf, at, cls, id, len);
    ghost var mid := buf[..];
    HeadCovers(was, mid, at, m);
    var sum := UbxChecksum(buf, at + 2, 4 + len);
    assert buf[at + 2..at + 6 + len] == mid[at + 2..at + 6 + len];
    buf[at + 6 + len] := ToByte(sum.a);
    buf[at + 6 + len + 1] := ToByte(sum.b);
    n := 8 + len;
    SumEnds(was, mid, buf[..], at, m);
  }

  method PutHead(buf: array<Byte>, at: nat, cls: Byte, id: Byte, len: u16)
    requires at + 6 <= buf.Length
    modifies buf
    ensures buf[..] == old(buf[..])[..at] + ([SYNC1, SYNC2, cls, id] + Le(len, 2)) + old(buf[..])[at + 6..]
  {
    hide ToByte, Octet;
    ghost var was := buf[..];
    buf[at] := SYNC1;
    buf[at + 1] := SYNC2;
    buf[at + 2] := cls;
    buf[at + 3] := id;
    buf[at + 4] := Octet(len, 0);
    buf[at + 5] := Octet(len, 1);
    assert [SYNC1, SYNC2, cls, id] + Le(len, 2) == [SYNC1, SYNC2, cls, id, Octet(len, 0), Octet(len, 1)];
    assert buf[..at] == was[..at] && buf[at + 6..] == was[at + 6..];
    assert buf[at..at + 6] == [SYNC1, SYNC2, cls, id, Octet(len, 0), Octet(len, 1)];
    assert buf[..] == buf[..at] + buf[at..at + 6] + buf[at + 6..];
  }

  lemma HeadCovers(was: Bytes, mid: Bytes, at: nat, m: Message)
    requires Fits(m) && at + 8 + |m.payload| <= |was| && m.payload == was[at + 6..at + 6 + |m.payload|]
    requires mid == was[..at] + ([SYNC1, SYNC2, m.cls, m.id] + Le(|m.payload|, 2)) + was[at + 6..]
    ensures |mid| == |was| && mid[at + 2..at + 6 + |m.payload|] == Covered(m)
    ensures mid[..at + 6 + |m.payload|] == was[..at] + ([SYNC1, SYNC2] + Covered(m))
    ensures mid[at + 6 + |m.payload|..] == was[at + 6 + |m.payload|..]
  {
    hide ToByte, Le;
    var n, head := |m.payload|, [SYNC1, SYNC2, m.cls, m.id] + Le(|m.payload|, 2);
    HeadBeforePayload(was, mid, at, head, n);
    assert head + m.payload == [SYNC1, SYNC2] + Covered(m);
    assert ([SYNC1, SYNC2] + Covered(m))[2..] == Covered(m);
  }

  lemma HeadBeforePayload(was: Bytes, mid: Bytes, at: nat, head: Bytes, n: nat)
    requires |head| == 6 && at + 6 + n <= |was| && mid == was[..at] + head + was[at + 6..]
    ensures |mid| == |was| && mid[at + 6 + n..] == was[at + 6 + n..]
    ensures mid[at + 2..at + 6 + n] == (head + was[at + 6..at + 6 + n])[2..]
    ensures mid[..at + 6 + n] == was[..at] + (head + was[at + 6..at + 6 + n])
  {}

  lemma SumEnds(was: Bytes, mid: Bytes, now: Bytes, at: nat, m: Message)
    requires Fits(m) && at + 8 + |m.payload| <= |was| == |mid| == |now|
    requires mid[..at + 6 + |m.payload|] == was[..at] + ([SYNC1, SYNC2] + Covered(m))
    requires mid[at + 6 + |m.payload|..] == was[at + 6 + |m.payload|..]
    requires var e, sum := at + 6 + |m.payload|, SumOf(Covered(m)); now == mid[e := ToByte(sum.a)][e + 1 := ToByte(sum.b)]
    ensures Wrote(was, now, at, Encode(m))
  {
    hide ToByte, SumOf, Covered;
    var e, sum := at + 6 + |m.payload|, SumOf(Covered(m));
    assert now[..e] == mid[..e] && now[e + 2..] == mid[e + 2..] == was[e + 2..];
    assert now == now[..e] + [ToByte(sum.a), ToByte(sum.b)] + now[e + 2..];
  }

  /** The payload goes into its place first. */
  method PutPayload(buf: array<Byte>, at: nat, payload: Bytes)
    requires at + 6 + |payload| <= buf.Length
    modifies buf
    ensures Wrote(old(buf[..]), buf[..], at + 6, payload)
  {
    ghost var was := buf[..];
    for i := 0 to |payload|
      invariant buf[..at + 6] == was[..at + 6] && buf[at + 6..at + 6 + i] == payload[..i]
      invariant buf[at + 6 + i..] == was[at + 6 + i..]
    {
      buf[at + 6 + i] := payload[i];
      assert buf[at + 6..at + 6 + i + 1] == payload[..i] + [payload[i]];
    }
    assert buf[..] == buf[..at + 6] + buf[at + 6..at + 6 + |payload|] + buf[at + 6 + |payload|..];
  }

  /** What every builder does once its payload is known. */
  method BuildCfg(id: Byte, payload: Bytes, buf: array<Byte>, at: nat, cap: nat) returns (n: nat)
    requires at + cap <= buf.Length && |payload| < 0x1_0000
    modifies buf
    ensures n == if cap < 8 + |payload| then 0 else 8 + |payload|
    ensures if n == 0 then buf[..] == old(buf[..])
            else Wrote(old(buf[..]), buf[..], at, Encode(Message(CLASS_CFG, id, payload)))
  {
    hide Encode;
    if cap < 8 + |payload| {
      return 0;
    }
    ghost var was := buf[..];
    PutPayload(buf, at, payload);
    ghost var mid := buf[..];
    assert buf[at + 6..at + 6 + |payload|] == payload;
    n := FinishFrame(buf, at, CLASS_CFG, id, |payload|);
    WroteOver(was, mid, buf[..], at, payload, Encode(Message(CLASS_CFG, id, payload)));
  }

  lemma WroteOver(was: Bytes, mid: Bytes, now: Bytes, at: nat, payload: Bytes, s: Bytes)
    requires Wrote(was, mid, at + 6, payload) && Wrote(mid, now, at, s) && |s| == 8 + |payload|
    ensures Wrote(was, now, at, s)
  {
    assert mid[..at] == was[..at] && mid[at + |s|..] == was[at + |s|..];
  }

  ghost function RateMessage(measMs: u16): (m: Message)
  {
    Message(CLASS_CFG, CFG_RATE, Le(measMs, 2) + [ToByte(1), ZERO, ToByte(1), ZERO])
  }

  method BuildCfgRate(measMs: u16, buf: array<Byte>, cap: nat) returns (n: nat)
    requires cap <= buf.Length
    modifies buf
    ensures n == if cap < 14 then 0 else 14
    ensures if n == 0 then buf[..] == old(buf[..]) else Wrote(old(buf[..]), buf[..], 0, Encode(RateMessage(measMs)))
  {
    hide ToByte, Octet, Encode, Wrote;
    // every solution, referred to GPS time
    var payload := [Octet(measMs, 0), Octet(measMs, 1), ToByte(1), ZERO, ToByte(1), ZERO];
    assert payload == RateMessage(measMs).payload;
    n := BuildCfg(CFG_RATE, payload, buf, 0, cap);
  }

  ghost function PortMessage(baud: u32): (m: Message)
  {
    Message(CLASS_CFG, CFG_PRT,
            [ToByte(1), ZERO, ZERO, ZERO] + Le(0x8D0, 4) + Le(baud, 4) + Le(3, 2) + Le(1, 2) + Zeros(4))
  }

  method BuildCfgPrtUart(baud: u32, buf: array<Byte>, cap: nat) returns (n: nat)
    requires cap <= buf.Length
    modifies buf
    ensures n == if cap < 28 then 0 else 28
    ensures if n == 0 then buf[..] == old(buf[..]) else Wrote(old(buf[..]), buf[..], 0, Encode(PortMessage(baud)))
  {
    hide ToByte, Octet, Encode, Wrote;
    // UART1, mode 0x8D0, UBX and NMEA in, UBX out
    var payload := [ToByte(1), ZERO, ZERO, ZERO,
                    ToByte(0xD0), ToByte(0x08), ZERO, ZERO,
                    Octet(baud, 0), Octet(baud, 1), Octet(baud, 2), Octet(baud, 3),
                    ToByte(3), ZERO, ToByte(1), ZERO, ZERO, ZERO, ZERO, ZERO];
    PortPayload(baud, payload);
    n := BuildCfg(CFG_PRT, payload, buf, 0, cap);
  }

  lemma SmallOctets()
    ensures ToByte(0) == ZERO
    ensures Le(0x8D0, 4) == [ToByte(0xD0), ToByte(0x08), ZERO, ZERO] && Le(3, 2) == [ToByte(3), ZERO]
    ensures Le(1, 2) == [ToByte(1), ZERO]
  {
    SameNat(ToByte(0), ZERO);
    OctetsOf(0x8D0);
    OctetsOf(3);
    OctetsOf(1);
  }

  lemma OctetStep(n: nat, k: nat)
    ensures Octet(n, 0) == ToByte(n % 256) && Octet(n, k + 1) == Octet(n / 256, k)
  {
    hide ToByte;
  }

  lemma OctetsOf(n: nat)
    requires n < 0x1_0000
    ensures Octet(n, 0) == ToByte(n % 256) && Octet(n, 1) == ToByte(n / 256)
    ensures Octet(n, 2) == ToByte(0) && Octet(n, 3) == ToByte(0)
  {
    hide ToByte, Octet;
    OctetStep(n, 0);
    OctetStep(n / 256, 0);
    OctetStep(n, 1);
    OctetStep(n, 2);
    OctetStep(n / 256, 1);
    OctetStep(0, 0);
  }

  lemma PortPayload(baud: u32, payload: Bytes)
    requires payload == [ToByte(1), ZERO, ZERO, ZERO, ToByte(0xD0), ToByte(0x08), ZERO, ZERO,
                         Octet(baud, 0), Octet(baud, 1), Octet(baud, 2), Octet(baud, 3),
                         ToByte(3), ZERO, ToByte(1), ZERO, ZERO, ZERO, ZERO, ZERO]
    ensures payload == PortMessage(baud).payload
  {
    hide ToByte, Octet;
    SmallOctets();
    assert Le(baud, 4) == [Octet(baud, 0), Octet(baud, 1), Octet(baud, 2), Octet(baud, 3)];
    assert Zeros(4) == [ZERO, ZERO, ZERO, ZERO];
    hide Le;
    assert payload[..4] == [ToByte(1), ZERO, ZERO, ZERO] && payload[4..8] == Le(0x8D0, 4)
        && payload[8..12] == Le(baud, 4) && payload[12..14] == Le(3, 2) && payload[14..16] == Le(1, 2)
        && payload[16..] == Zeros(4);
    assert payload == payload[..4] + payload[4..8] + payload[8..12] + payload[12..14] + payload[14..16] + payload[16..];
  }

  function RequestMessage(cls: Byte, id: Byte, rate: Byte): (m: Message)
  {
    Message(CLASS_CFG, CFG_MSG, [cls, id, rate])
  }

  method BuildCfgMsg(cls: Byte, id: Byte, rate: Byte, buf: array<Byte>, at: nat, cap: nat) returns (n: nat)
    requires at + cap <= buf.Length
    modifies buf
    ensures n == if cap < 11 then 0 else 11
    ensures if n == 0 then buf[..] == old(buf[..])
            else Wrote(old(buf[..]), buf[..], at, Encode(RequestMessage(cls, id, rate)))
  {
    hide ToByte, Encode, Wrote;
    n := BuildCfg(CFG_MSG, [cls, id, rate], buf, at, cap);
  }

  ghost function LegacyMessages(n: nat): (ms: seq<Message>)
    requires n <= 4
    ensures |ms| == n && forall i :: 0 <= i < n ==> Fits(ms[i])
  {
    seq(n, i requires 0 <= i < n => RequestMessage(CLASS_NAV, LegacyIds()[i], ToByte(1)))
  }

  /** Messages one after the other. */
  ghost function Chain(ms: seq<Message>): (s: Bytes)
    requires forall i :: 0 <= i < |ms| ==> Fits(ms[i])
  {
    if ms == [] then [] else Chain(ms[..|ms| - 1]) + Encode(ms[|ms| - 1])
  }

  lemma ChainLegacy(n: nat)
    requires n < 4
    ensures Chain(LegacyMessages(0)) == []
    ensures Chain(LegacyMessages(n + 1))
         == Chain(LegacyMessages(n)) + Encode(RequestMessage(CLASS_NAV, LegacyIds()[n], ToByte(1)))
  {
    hide ToByte, Encode, LegacyIds;
    assert LegacyMessages(n + 1)[..n] == LegacyMessages(n);
  }

  /** The legacy navigation set: four requests in a row. */
  method BuildLegacyNavConfig(buf: array<Byte>, cap: nat) returns (total: nat)
    requires cap <= buf.Length
    modifies buf
    ensures total == if cap < 44 then 0 else 44
    ensures cap >= 44 ==> Wrote(old(buf[..]), buf[..], 0, Chain(LegacyMessages(4)))
  {
    hide ToByte, Encode, Wrote, LegacyIds, Chain, LegacyMessages, RequestMessage;
    ghost var was := buf[..];
    total := 0;
    WroteNothing(was);
    ChainLegacy(0);
    for i := 0 to 4
      invariant total == 11 * i <= cap
      invariant |Chain(LegacyMessages(i))| == total && Wrote(was, buf[..], 0, Chain(LegacyMessages(i)))
    {
      ghost var now := buf[..];
      var n := BuildCfgMsg(CLASS_NAV, LegacyIds()[i], ToByte(1), buf, total, cap - total);
      if n == 0 {
        return 0;
      }
      ChainLegacy(i);
      EncodedLength(CLASS_NAV, LegacyIds()[i], ToByte(1));
      WroteMore(was, now, buf[..], 0, Chain(LegacyMessages(i)), Encode(RequestMessage(CLASS_NAV, LegacyIds()[i], ToByte(1))));
      total := total + n;
    }
  }

  lemma EncodedLength(cls: Byte, id: Byte, rate: Byte)
    ensures |Encode(RequestMessage(cls, id, rate))| == 11
  {}
}
