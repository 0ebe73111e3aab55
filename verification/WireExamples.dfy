/** What the codecs put on the wire, byte by byte: the layout of the packets, and messages that
    the tests of the repository (test/test_protocol, test/test_ubx, test/test_msp_fc) and the
    catalogues of checksums give in full. */
module WireExamples {
  import opened ByteStrings
  import opened MachineWords
  import opened WireFormat
  import Protocol
  import Msp
  import Ubx

  // ---- Byte order ---------------------------------------------------------------------------

  /** The least significant byte goes first. */
  lemma {:induction false} LittleEndian(n: nat, k: nat, i: nat)
    requires i < k
    ensures ToNat(Le(n, k)[i]) == n / Pow256(i) % 256
  {
    hide ToNat, ToByte;
    OctetIs(n, i);
  }

  lemma {:induction false} OctetIs(n: nat, i: nat)
    ensures ToNat(Octet(n, i)) == n / Pow256(i) % 256
  {
    hide ToNat, ToByte;
    if i > 0 {
      OctetIs(n / 256, i - 1);
      DividedTwice(n, Pow256(i - 1));
    }
  }

  lemma DividedTwice(n: nat, p: nat)
    requires p > 0
    ensures n / 256 / p == n / (256 * p)
  {
    var q := n / 256 / p;
    var r, s := n / 256 % p, n % 256;
    assert n == 256 * (p * q + r) + s;
    assert 256 * (p * q) == (256 * p) * q;
    assert 256 * r + s < 256 * p;
    QuotientIs(n, 256 * p, q, 256 * r + s);
  }

  lemma QuotientIs(n: nat, d: nat, q: nat, r: nat)
    requires n == d * q + r && r < d
    ensures n / d == q
  {
    var e, f := n / d, n % d;
    assert n == d * e + f;
    assert d * (q - e) == f - r;
    if q > e {
      Multiple(d, q - e);
    } else if q < e {
      Multiple(d, e - q);
    }
  }

  lemma Multiple(d: nat, k: nat)
    requires k >= 1
    ensures d * k >= d
  {
    assert d * (k - 1) >= 0;
  }

  lemma FourBytes(s: Bytes)
    requires |s| == 4
    ensures FromLe(s) == ToNat(s[0]) + 0x100 * ToNat(s[1]) + 0x1_0000 * ToNat(s[2]) + 0x100_0000 * ToNat(s[3])
  {
    hide ToNat;
    FirstByte(s);
    FirstByte(s[1..]);
    FirstByte(s[2..]);
    FirstByte(s[3..]);
    assert s[1..][1..] == s[2..] && s[2..][1..] == s[3..] && s[3..][1..] == [];
  }

  lemma TwoBytes(s: Bytes)
    requires |s| == 2
    ensures FromLe(s) == ToNat(s[0]) + 0x100 * ToNat(s[1])
  {
    hide ToNat;
    FirstByte(s);
    FirstByte(s[1..]);
    assert s[1..][1..] == [];
  }

  lemma FirstByte(s: Bytes)
    requires s != []
    ensures FromLe(s) == ToNat(s[0]) + 256 * FromLe(s[1..]) && FromLe([]) == 0
  {
    hide ToNat;
  }

  // ---- Packets --------------------------------------------------------------------------------

  /** Where each field of a position packet stands, as a number. */
  lemma PositionLayout(p: Protocol.PositionPacket)
    ensures var s := Protocol.PositionBytes(p);
            && |s| == 21 && ToNat(s[0]) == 2 && ToNat(s[1]) == 1 && FromLe(s[2..6]) == p.uid
            && FromLe(s[6..10]) == (p.lat + TWO32) % TWO32 && FromLe(s[10..14]) == (p.lon + TWO32) % TWO32
            && FromLe(s[14..16]) == (p.alt + 0x1_0000) % 0x1_0000
            && FromLe(s[16..18]) == p.speed && FromLe(s[18..20]) == p.course && s[20] == p.flags
  {
    hide ToNat, Le, FromLe;
    Widths();
    LeRoundTrip(p.uid, 4);
    LeRoundTrip(ToU32(p.lat), 4);
    LeRoundTrip(ToU32(p.lon), 4);
    LeRoundTrip(ToU16(p.alt), 2);
    LeRoundTrip(p.speed, 2);
    LeRoundTrip(p.course, 2);
    var s := Protocol.PositionBytes(p);
    assert s[2..6] == Le(p.uid, 4) && s[6..10] == Le(ToU32(p.lat), 4) && s[10..14] == Le(ToU32(p.lon), 4);
    assert s[14..16] == Le(ToU16(p.alt), 2) && s[16..18] == Le(p.speed, 2) && s[18..20] == Le(p.course, 2);
  }

  /** And of an announcement. */
  lemma AnnounceLayout(uid: u32, text: Bytes, capabilities: u32)
    requires |text| <= Protocol.MAX_NAME_LEN
    ensures var s := Protocol.AnnounceBytes(uid, text, capabilities);
            && |s| == 11 + |text| && ToNat(s[0]) == 2 && ToNat(s[1]) == 2 && FromLe(s[2..6]) == uid
            && ToNat(s[6]) == |text| && s[7..7 + |text|] == text && FromLe(s[7 + |text|..]) == capabilities
  {
    hide ToNat, Le, FromLe;
    Widths();
    LeRoundTrip(uid, 4);
    LeRoundTrip(capabilities, 4);
    var s := Protocol.AnnounceBytes(uid, text, capabilities);
    assert s[2..6] == Le(uid, 4) && s[7..7 + |text|] == text && s[7 + |text|..] == Le(capabilities, 4);
  }

  // ---- Bytes by their values ----------------------------------------------------------------------

  ghost function Of(values: seq<u8>): (s: Bytes)
    ensures |s| == |values|
  {
    seq(|values|, i requires 0 <= i < |values| => ToByte(values[i]))
  }

  lemma OneMoreOf(values: seq<u8>, x: u8)
    ensures Of(values + [x]) == Of(values) + [ToByte(x)]
  {
    hide ToByte;
  }

  lemma SmallNumbers(n: u8)
    ensures Le(n, 2) == [ToByte(n), ZERO] && ToByte(0) == ZERO
  {
    hide ToByte, Octet;
    Ubx.OctetsOf(n);
    SameNat(ToByte(0), ZERO);
    assert n % 256 == n && n / 256 == 0;
  }

  // ---- UBX ------------------------------------------------------------------------------------

  lemma NoSum()
    ensures Ubx.SumOf(Of([])) == Ubx.Fletcher(0, 0)
  {}

  lemma SumMoves(values: seq<u8>, x: u8, more: seq<u8>, c: Ubx.Fletcher)
    requires Ubx.SumOf(Of(values)) == c && more == values + [x]
    ensures var a := (c.a + x) % 256; Ubx.SumOf(Of(more)) == Ubx.Fletcher(a, (c.b + a) % 256)
  {
    hide ToByte, ToNat, Ubx.SumOf, Of;
    OneMoreOf(values, x);
    Ubx.SumMore(Of(values), ToByte(x));
  }

  lemma SetTenHertzSum()
    ensures Ubx.SumOf(Of([0x06, 0x08, 0x06, 0x00, 0x64, 0x00, 0x01, 0x00, 0x01, 0x00])) == Ubx.Fletcher(0x7A, 0x12)
  {
    hide Ubx.SumOf, Of;
    NoSum();
    SumMoves([], 0x06, [0x06], Ubx.Fletcher(0x00, 0x00));
    SumMoves([0x06], 0x08, [0x06, 0x08], Ubx.Fletcher(0x06, 0x06));
    SumMoves([0x06, 0x08], 0x06, [0x06, 0x08, 0x06], Ubx.Fletcher(0x0E, 0x14));
    SumMoves([0x06, 0x08, 0x06], 0x00, [0x06, 0x08, 0x06, 0x00], Ubx.Fletcher(0x14, 0x28));
    SumMoves([0x06, 0x08, 0x06, 0x00], 0x64, [0x06, 0x08, 0x06, 0x00, 0x64], Ubx.Fletcher(0x14, 0x3C));
    SumMoves([0x06, 0x08, 0x06, 0x00, 0x64], 0x00, [0x06, 0x08, 0x06, 0x00, 0x64, 0x00], Ubx.Fletcher(0x78, 0xB4));
    SumMoves([0x06, 0x08, 0x06, 0x00, 0x64, 0x00], 0x01, [0x06, 0x08, 0x06, 0x00, 0x64, 0x00, 0x01], Ubx.Fletcher(0x78, 0x2C));
    SumMoves([0x06, 0x08, 0x06, 0x00, 0x64, 0x00, 0x01], 0x00, [0x06, 0x08, 0x06, 0x00, 0x64, 0x00, 0x01, 0x00], Ubx.Fletcher(0x79, 0xA5));
    SumMoves([0x06, 0x08, 0x06, 0x00, 0x64, 0x00, 0x01, 0x00], 0x01, [0x06, 0x08, 0x06, 0x00, 0x64, 0x00, 0x01, 0x00, 0x01], Ubx.Fletcher(0x79, 0x1E));
    SumMoves([0x06, 0x08, 0x06, 0x00, 0x64, 0x00, 0x01, 0x00, 0x01], 0x00, [0x06, 0x08, 0x06, 0x00, 0x64, 0x00, 0x01, 0x00, 0x01, 0x00], Ubx.Fletcher(0x7A, 0x98));
  }

  /** The command that sets a receiver to ten solutions a second, as its maker gives it. */
  lemma SetTenHertz()
    ensures Ubx.Encode(Ubx.RateMessage(100))
            == Of([0xB5, 0x62, 0x06, 0x08, 0x06, 0x00, 0x64, 0x00, 0x01, 0x00, 0x01, 0x00, 0x7A, 0x12])
  {
    hide ToByte, Le, Ubx.SumOf;
    SmallNumbers(6);
    SmallNumbers(100);
    SetTenHertzSum();
    assert Ubx.Covered(Ubx.RateMessage(100)) == Of([0x06, 0x08, 0x06, 0x00, 0x64, 0x00, 0x01, 0x00, 0x01, 0x00]);
  }

  lemma EnablePvtSum()
    ensures Ubx.SumOf(Of([0x06, 0x01, 0x03, 0x00, 0x01, 0x07, 0x01])) == Ubx.Fletcher(0x13, 0x51)
  {
    hide Ubx.SumOf, Of;
    NoSum();
    SumMoves([], 0x06, [0x06], Ubx.Fletcher(0x00, 0x00));
    SumMoves([0x06], 0x01, [0x06, 0x01], Ubx.Fletcher(0x06, 0x06));
    SumMoves([0x06, 0x01], 0x03, [0x06, 0x01, 0x03], Ubx.Fletcher(0x07, 0x0D));
    SumMoves([0x06, 0x01, 0x03], 0x00, [0x06, 0x01, 0x03, 0x00], Ubx.Fletcher(0x0A, 0x17));
    SumMoves([0x06, 0x01, 0x03, 0x00], 0x01, [0x06, 0x01, 0x03, 0x00, 0x01], Ubx.Fletcher(0x0A, 0x21));
    SumMoves([0x06, 0x01, 0x03, 0x00, 0x01], 0x07, [0x06, 0x01, 0x03, 0x00, 0x01, 0x07], Ubx.Fletcher(0x0B, 0x2C));
    SumMoves([0x06, 0x01, 0x03, 0x00, 0x01, 0x07], 0x01, [0x06, 0x01, 0x03, 0x00, 0x01, 0x07, 0x01], Ubx.Fletcher(0x12, 0x3E));
  }

  /** The request for one NAV-PVT message in each solution. */
  lemma EnablePvt()
    ensures Ubx.Encode(Ubx.RequestMessage(ToByte(1), ToByte(7), ToByte(1)))
            == Of([0xB5, 0x62, 0x06, 0x01, 0x03, 0x00, 0x01, 0x07, 0x01, 0x13, 0x51])
  {
    hide ToByte, Le, Ubx.SumOf;
    SmallNumbers(3);
    EnablePvtSum();
    assert Ubx.Covered(Ubx.RequestMessage(ToByte(1), ToByte(7), ToByte(1))) == Of([0x06, 0x01, 0x03, 0x00, 0x01, 0x07, 0x01]);
  }

  // ---- MSP ------------------------------------------------------------------------------------

  /** Multiplication by x, eight times, on the bits. */
  function Eight(c: bv8): (d: bv8)
  {
    Msp.Reduced(Msp.Reduced(Msp.Reduced(Msp.Reduced(Msp.Reduced(Msp.Reduced(Msp.Reduced(Msp.Reduced(c))))))))
  }

  lemma EightIs(c: bv8)
    ensures Msp.TimesXToThe(Byte(c), 8) == Byte(Eight(c))
  {
    hide Msp.Reduced, Msp.TimesXToThe;
    OnceMore(c, 0);
    OnceMore(c, 1);
    OnceMore(c, 2);
    OnceMore(c, 3);
    OnceMore(c, 4);
    OnceMore(c, 5);
    OnceMore(c, 6);
    OnceMore(c, 7);
  }

  lemma OnceMore(c: bv8, n: nat)
    ensures Msp.TimesXToThe(Byte(c), 0) == Byte(c)
    ensures Msp.TimesXToThe(Byte(c), n + 1) == Byte(Msp.Reduced(Msp.TimesXToThe(Byte(c), n).v))
  {
    hide Msp.Reduced;
  }

  lemma CrcMoves(crc: bv8, a: bv8, next: bv8)
    requires next == Eight(crc ^ a)
    ensures Msp.CrcStep(Byte(crc), Byte(a)) == Byte(next)
  {
    hide Msp.TimesXToThe, Eight;
    EightIs(crc ^ a);
  }

  /** The digits 1 to 9 in ASCII. */
  const DIGITS: Bytes := [Byte(0x31), Byte(0x32), Byte(0x33), Byte(0x34), Byte(0x35),
                          Byte(0x36), Byte(0x37), Byte(0x38), Byte(0x39)]

  /** The check value of CRC-8/DVB-S2: that of the digits 1 to 9. */
  lemma CheckValue()
    ensures Msp.CrcOf(DIGITS) == Byte(0xBC)
  {
    hide Msp.CrcStep, Msp.CrcOf;
    Msp.NoChecksum();
    DigitsStep(0);
    CrcMoves(0x00, 0x31, 0x23);
    DigitsStep(1);
    CrcMoves(0x23, 0x32, 0x87);
    DigitsStep(2);
    CrcMoves(0x87, 0x33, 0xE7);
    DigitsStep(3);
    CrcMoves(0xE7, 0x34, 0x8A);
    DigitsStep(4);
    CrcMoves(0x8A, 0x35, 0x64);
    DigitsStep(5);
    CrcMoves(0x64, 0x36, 0xB0);
    DigitsStep(6);
    CrcMoves(0xB0, 0x37, 0xBB);
    DigitsStep(7);
    CrcMoves(0xBB, 0x38, 0x45);
    DigitsStep(8);
    CrcMoves(0x45, 0x39, 0xBC);
    assert DIGITS[..9] == DIGITS;
  }

  lemma DigitsStep(i: nat)
    requires i < 9
    ensures DIGITS[..i + 1] == DIGITS[..i] + [DIGITS[i]]
    ensures Msp.CrcOf(DIGITS[..i + 1]) == Msp.CrcStep(Msp.CrcOf(DIGITS[..i]), DIGITS[i])
    ensures DIGITS[..0] == []
  {
    hide Msp.CrcStep, Msp.CrcOf;
    Msp.ChecksumMore(DIGITS[..i], DIGITS[i]);
  }

  /** The request for the position, in version 1: '$', 'M', '<', no payload, message 106, and
      the exclusive or of the last two. */
  lemma RequestRawGps()
    ensures Msp.Encode(Msp.REQUEST, Msp.V1(ToByte(106), [])) == Of([0x24, 0x4D, 0x3C, 0, 106, 106])
  {
    hide ToByte, Msp.XorOf, Xor;
    var id := ToByte(106);
    SameNat(ToByte(0), ZERO);
    assert [ZERO] + [id] == [ZERO, id] && [] + [ZERO] == [ZERO];
    Msp.NoChecksum();
    Msp.ChecksumMore([], ZERO);
    Msp.ChecksumMore([ZERO], id);
    XorZero(ZERO);
    XorZero(id);
    var f := Msp.V1(id, []);
    assert Msp.Covered(f) == [ZERO, id] + [] == [ZERO, id];
    assert Msp.XorOf([ZERO, id]) == id;
  }

  /** Where each field of a version 2 request stands. */
  lemma RequestLayout(number: u16, payload: Bytes)
    requires |payload| < 0x1_0000
    ensures var s := Msp.Encode(Msp.REQUEST, Msp.V2(ZERO, number, payload));
            && |s| == 9 + |payload| && s[..3] == Of([0x24, 0x58, 0x3C]) && s[3] == ZERO
            && FromLe(s[4..6]) == number && FromLe(s[6..8]) == |payload| && s[8..8 + |payload|] == payload
            && s[8 + |payload|] == Msp.CrcOf(s[3..8 + |payload|])
  {
    hide ToByte, Le, FromLe, Msp.CrcOf;
    Widths();
    LeRoundTrip(number, 2);
    LeRoundTrip(|payload|, 2);
    var s := Msp.Encode(Msp.REQUEST, Msp.V2(ZERO, number, payload));
    assert s[3..8 + |payload|] == [ZERO] + Le(number, 2) + Le(|payload|, 2) + payload;
    assert s[4..6] == Le(number, 2) && s[6..8] == Le(|payload|, 2) && s[8..8 + |payload|] == payload;
  }
}
