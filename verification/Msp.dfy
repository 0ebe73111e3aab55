/** MSP frames, versions 1 and 2: the builders of lib/ff_core/msp_fc.cpp with the checksum
    of msp_crc.h, and the frame format the parser listens for. */
module Msp {
  import opened ByteStrings
  import opened MachineWords
  import opened WireFormat
  import opened Framing

  const MAX_PAYLOAD: nat := 128

  /** The bytes '$', 'M', 'X', '>' and '<'. */
  const DOLLAR := ToByte(36)
  const LETTER_M := ToByte(77)
  const LETTER_X := ToByte(88)
  const REPLY := ToByte(62)
  const REQUEST := ToByte(60)

  lemma Letters()
    ensures DOLLAR != LETTER_M && DOLLAR != LETTER_X && DOLLAR != REPLY && LETTER_M != LETTER_X && REPLY != REQUEST
  {
    assert ToNat(DOLLAR) == 36 && ToNat(LETTER_M) == 77 && ToNat(LETTER_X) == 88;
    assert ToNat(REPLY) == 62 && ToNat(REQUEST) == 60;
  }

  // ---- Checksums ---------------------------------------------------------------------------

  /** Multiplication by x modulo the generator x^8 + x^7 + x^6 + x^4 + x^2 + 1. */
  function TimesX(c: Byte): (d: Byte)
  {
    Byte(Reduced(c.v))
  }

  function Reduced(v: bv8): (r: bv8)
  {
    if v & 0x80 != 0 then (v << 1) ^ 0xD5 else v << 1
  }

  function TimesXToThe(c: Byte, n: nat): (d: Byte)
  {
    if n == 0 then c else TimesX(TimesXToThe(c, n - 1))
  }

  function CrcStep(crc: Byte, a: Byte): (c: Byte)
  {
    TimesXToThe(Xor(crc, a), 8)
  }

  method MspCrc8DvbS2(crc: Byte, a: Byte) returns (c: Byte)
    ensures c == CrcStep(crc, a)
  {
    c := Xor(crc, a);
    for i := 0 to 8
      invariant c == TimesXToThe(Xor(crc, a), i)
    {
      c := if c.v & 0x80 != 0 then Byte((c.v << 1) ^ 0xD5) else Byte(c.v << 1);
    }
  }

  function CrcOf(s: Bytes): (c: Byte)
  {
    if s == [] then ZERO else CrcStep(CrcOf(s[..|s| - 1]), s[|s| - 1])
  }

  function XorOf(s: Bytes): (x: Byte)
  {
    if s == [] then ZERO else Xor(XorOf(s[..|s| - 1]), s[|s| - 1])
  }

  lemma NoChecksum()
    ensures CrcOf([]) == ZERO && XorOf([]) == ZERO
  {}

  lemma ChecksumMore(s: Bytes, b: Byte)
    ensures CrcOf(s + [b]) == CrcStep(CrcOf(s), b) && XorOf(s + [b]) == Xor(XorOf(s), b)
  {
    hide CrcStep, Xor;
    assert (s + [b])[..|s|] == s;
  }

  lemma TimesXIsInjective(a: Byte, b: Byte)
    requires TimesX(a) == TimesX(b)
    ensures a == b
  {
    hide Reduced;
    ReducedIsInjective(a.v, b.v);
  }

  lemma ReducedIsInjective(a: bv8, b: bv8)
    ensures Reduced(a) == Reduced(b) ==> a == b
  {}

  lemma {:induction false} StepsAreInjective(a: Byte, b: Byte, n: nat)
    requires TimesXToThe(a, n) == TimesXToThe(b, n)
    ensures a == b
  {
    hide TimesX;
    if n > 0 {
      TimesXIsInjective(TimesXToThe(a, n - 1), TimesXToThe(b, n - 1));
      StepsAreInjective(a, b, n - 1);
    }
  }

  lemma XorIsInjective(a: Byte, b: Byte, c: Byte)
    ensures Xor(a, c) == Xor(b, c) ==> a == b
    ensures Xor(c, a) == Xor(c, b) ==> a == b
  {
    Cancel(a, c);
    Cancel(b, c);
    Comm(a, c);
    Comm(b, c);
  }

  /** Both checksums notice any change of one byte: the strings before and after it being
      equal, different bytes leave different checksums. */
  lemma {:induction false} ChecksumsNoticeOneByte(before: Bytes, x: Byte, y: Byte, after: Bytes)
    requires x != y
    ensures CrcOf(before + [x] + after) != CrcOf(before + [y] + after)
    ensures XorOf(before + [x] + after) != XorOf(before + [y] + after)
  {
    hide CrcOf, XorOf, Xor, TimesXToThe;
    if after == [] {
      assert before + [x] + [] == before + [x] && before + [y] + [] == before + [y];
      ChecksumMore(before, x);
      ChecksumMore(before, y);
      OneStepApart(CrcOf(before), x, CrcOf(before), y);
      XorIsInjective(x, y, XorOf(before));
    } else {
      var n := |after| - 1;
      ChecksumsNoticeOneByte(before, x, y, after[..n]);
      var a, b := before + [x] + after[..n], before + [y] + after[..n];
      assert before + [x] + after == a + [after[n]] && before + [y] + after == b + [after[n]];
      ChecksumMore(a, after[n]);
      ChecksumMore(b, after[n]);
      OneStepApart(CrcOf(a), after[n], CrcOf(b), after[n]);
      XorIsInjective(XorOf(a), XorOf(b), after[n]);
    }
  }

  lemma OneStepApart(c: Byte, a: Byte, d: Byte, b: Byte)
    requires (c == d) != (a == b)
    ensures CrcStep(c, a) != CrcStep(d, b)
  {
    hide Xor, TimesXToThe;
    if CrcStep(c, a) == CrcStep(d, b) {
      StepsAreInjective(Xor(c, a), Xor(d, b), 8);
      XorIsInjective(c, d, a);
      XorIsInjective(a, b, c);
    }
  }

  // ---- Frames as byte strings ------------------------------------------------------------------

  datatype Frame = V1(id: Byte, payload: Bytes) | V2(flag: Byte, number: u16, payload: Bytes)

  predicate Fits(f: Frame)
  {
    match f
    case V1(_, p) => |p| < 0x100
    case V2(_, _, p) => |p| < 0x1_0000
  }

  /** The part a checksum covers. */
  ghost function Covered(f: Frame): (s: Bytes)
    requires Fits(f)
  {
    match f
    case V1(id, p) => [ToByte(|p|), id] + p
    case V2(flag, number, p) => [flag] + Le(number, 2) + Le(|p|, 2) + p
  }

  ghost function Checksum(f: Frame): (c: Byte)
    requires Fits(f)
  {
    if f.V1? then XorOf(Covered(f)) else CrcOf(Covered(f))
  }

  /** A frame on the wire, as a request or as a reply. */
  ghost function Encode(direction: Byte, f: Frame): (s: Bytes)
    requires Fits(f)
    ensures |s| == |f.payload| + if f.V1? then 6 else 9
  {
    [DOLLAR, if f.V1? then LETTER_M else LETTER_X, direction] + Covered(f) + [Checksum(f)]
  }

  /** What a string amounts to for the listener: a reply as long as its size field says,
      or the beginning of one. */
  function Progressed(t: Bytes): (p: Progress)
  {
    if |t| > 0 && t[0] != DOLLAR then Dead
    else if |t| > 1 && t[1] != LETTER_M && t[1] != LETTER_X then Dead
    else if |t| > 2 && t[2] != REPLY then Dead
    else if |t| < 3 then Pending
    else if t[1] == LETTER_M then if |t| < 4 then Pending else Against(|t|, 6 + ToNat(t[3]))
    else if |t| < 8 then Pending else Against(|t|, 9 + Word(t[6], t[7]))
  }

  function MspFormat(): Format
  {
    Format(DOLLAR, 3, t => Progressed(t))
  }

  lemma MspFormatIsSound()
    ensures Sound(MspFormat())
  {
    hide ToNat;
    Letters();
  }

  lemma MspFormatIsSteady()
    ensures Steady(MspFormat())
  {
    hide ToNat, Word;
    Letters();
  }

  predicate Intact(t: Bytes)
    requires Progressed(t) == Complete
  {
    var covered := t[3..|t| - 1];
    t[|t| - 1] == if t[1] == LETTER_M then XorOf(covered) else CrcOf(covered)
  }

  function Decode(t: Bytes): (f: Frame)
    requires Progressed(t) == Complete
  {
    if t[1] == LETTER_M then V1(t[4], t[5..|t| - 1])
    else V2(t[3], Word(t[4], t[5]), t[8..|t| - 1])
  }

  /** Decoding undoes encoding ... */
  lemma DecodeOfEncode(f: Frame)
    requires Fits(f)
    ensures var t := Encode(REPLY, f); Progressed(t) == Complete && Intact(t) && Decode(t) == f
  {
    hide ToNat, ToByte, Le, Word, XorOf, CrcOf, Progressed, Intact, Decode;
    match f
    case V1(_, _) => DecodeOfV1(f);
    case V2(_, _, _) => DecodeOfV2(f);
  }

  lemma DecodeOfV1(f: Frame)
    requires Fits(f) && f.V1?
    ensures var t := Encode(REPLY, f); Progressed(t) == Complete && Intact(t) && Decode(t) == f
  {
    hide ToNat, ToByte, XorOf, CrcOf;
    Letters();
    var t := Encode(REPLY, f);
    assert t[3..|t| - 1] == Covered(f);
    assert t[3] == ToByte(|f.payload|) && t[5..|t| - 1] == f.payload;
  }

  lemma DecodeOfV2(f: Frame)
    requires Fits(f) && f.V2?
    ensures var t := Encode(REPLY, f); Progressed(t) == Complete && Intact(t) && Decode(t) == f
  {
    hide ToNat, ToByte, Le, Word, XorOf, CrcOf, Covered;
    Letters();
    var t := Encode(REPLY, f);
    CoveredV2(f);
    WordIsLe(f.number);
    WordIsLe(|f.payload|);
    assert t[3..|t| - 1] == Covered(f);
    var c := Covered(f);
    assert t[4] == c[1] && t[5] == c[2] && t[6] == c[3] && t[7] == c[4] && t[8..|t| - 1] == c[5..];
  }

  lemma CoveredV2(f: Frame)
    requires Fits(f) && f.V2?
    ensures var c, a, n := Covered(f), Le(f.number, 2), Le(|f.payload|, 2);
            && |c| == 5 + |f.payload| && c[0] == f.flag && c[1] == a[0] && c[2] == a[1]
            && c[3] == n[0] && c[4] == n[1] && c[5..] == f.payload
  {
    hide Le;
  }

  /** ... and encoding undoes decoding, so an intact string is exactly an encoded reply. */
  lemma EncodeOfDecode(t: Bytes)
    requires Progressed(t) == Complete && Intact(t)
    ensures Fits(Decode(t)) && Encode(REPLY, Decode(t)) == t
  {
    hide ToNat, ToByte, Le, XorOf, CrcOf;
    var f := Decode(t);
    var covered := t[3..|t| - 1];
    match f
    case V1(id, p) =>
      SameNat(ToByte(|p|), t[3]);
      assert covered == Covered(f);
    case V2(flag, number, p) =>
      LeIsWord(t[4], t[5]);
      LeIsWord(t[6], t[7]);
      assert covered == Covered(f);
  }

  /** A reply is complete at its last byte and not before. */
  lemma EncodeIsFramed(f: Frame)
    requires Fits(f)
    ensures Framed(MspFormat(), Encode(REPLY, f))
  {
    hide ToNat, Word, Encode;
    DecodeOfEncode(f);
    BeginningsPend(Encode(REPLY, f));
  }

  lemma BeginningsPend(t: Bytes)
    requires Progressed(t) == Complete
    ensures forall k :: 0 <= k < |t| ==> Progressed(t[..k]) == Pending
  {
    hide ToNat, Word;
  }

  // ---- The builders -------------------------------------------------------------------------------

  method BuildMspV1(id: Byte, payload: Bytes, buf: array<Byte>, cap: nat) returns (n: nat)
    requires cap <= buf.Length
    modifies buf
    ensures n == if |payload| > 255 || cap < 6 + |payload| then 0 else 6 + |payload|
    ensures if n == 0 then buf[..] == old(buf[..])
            else Wrote(old(buf[..]), buf[..], 0, Encode(REQUEST, V1(id, payload)))
  {
    hide ToByte, Xor, Wrote, XorOf;
    if |payload| > 255 || cap < 6 + |payload| {
      return 0;
    }
    ghost var was := buf[..];
    ghost var start, covered := [DOLLAR, LETTER_M, REQUEST], [ToByte(|payload|), id];
    n := PutHeader(buf, LETTER_M);
    n := Append(buf, n, ToByte(|payload|), was, start);
    n := Append(buf, n, id, was, start + [ToByte(|payload|)]);
    var crc := Xor(ToByte(|payload|), id);
    XorOfTwo(ToByte(|payload|), id);
    assert start + [ToByte(|payload|)] + [id] == start + (covered + payload[..0]);
    assert covered + payload[..0] == covered;
    for i := 0 to |payload|
      invariant n == 5 + i && Wrote(was, buf[..], 0, start + (covered + payload[..i]))
      invariant crc == XorOf(covered + payload[..i])
    {
      n := Append(buf, n, payload[i], was, start + (covered + payload[..i]));
      crc := Xor(crc, payload[i]);
      ChecksumMore(covered + payload[..i], payload[i]);
      OneMoreByte(start, covered, payload, i);
    }
    assert payload[..|payload|] == payload;
    n := Append(buf, n, crc, was, start + (covered + payload));
    assert start + (covered + payload) + [crc] == Encode(REQUEST, V1(id, payload));
  }

  lemma OneMoreByte(start: Bytes, covered: Bytes, payload: Bytes, i: nat)
    requires i < |payload|
    ensures covered + payload[..i] + [payload[i]] == covered + payload[..i + 1]
    ensures start + (covered + payload[..i]) + [payload[i]] == start + (covered + payload[..i + 1])
  {
    assert payload[..i + 1] == payload[..i] + [payload[i]];
  }

  lemma XorOfTwo(a: Byte, b: Byte)
    ensures XorOf([a, b]) == Xor(a, b)
  {
    hide Xor, XorOf;
    NoChecksum();
    ChecksumMore([], a);
    ChecksumMore([a], b);
    assert [] + [a] == [a] && [a] + [b] == [a, b];
    XorZero(a);
  }

  method PutHeader(buf: array<Byte>, letter: Byte) returns (n: nat)
    requires buf.Length >= 3
    modifies buf
    ensures n == 3 && Wrote(old(buf[..]), buf[..], 0, [DOLLAR, letter, REQUEST])
  {
    hide Wrote;
    ghost var was := buf[..];
    WroteNothing(was);
    assert [] + [DOLLAR] == [DOLLAR] && [DOLLAR] + [letter] == [DOLLAR, letter];
    assert [DOLLAR, letter] + [REQUEST] == [DOLLAR, letter, REQUEST];
    n := Append(buf, 0, DOLLAR, was, []);
    n := Append(buf, n, letter, was, [DOLLAR]);
    n := Append(buf, n, REQUEST, was, [DOLLAR, letter]);
  }

  method BuildMspV2(number: u16, payload: Bytes, buf: array<Byte>, cap: nat) returns (n: nat)
    requires cap <= buf.Length
    modifies buf
    ensures n == if |payload| > 0xFFFF || cap < 9 + |payload| then 0 else 9 + |payload|
    ensures if n == 0 then buf[..] == old(buf[..])
            else Wrote(old(buf[..]), buf[..], 0, Encode(REQUEST, V2(ZERO, number, payload)))
  {
    hide ToByte, Xor, Wrote, CrcOf, CrcStep, Le, Octet;
    if |payload| > 0xFFFF || cap < 9 + |payload| {
      return 0;
    }
    ghost var was := buf[..];
    ghost var start, covered := [DOLLAR, LETTER_X, REQUEST], [ZERO] + Le(number, 2) + Le(|payload|, 2);
    n := PutHeadV2(buf, number, |payload|);
    var crc := CrcOfHead(number, |payload|);
    assert covered + payload[..0] == covered;
    for i := 0 to |payload|
      invariant n == 8 + i && Wrote(was, buf[..], 0, start + (covered + payload[..i]))
      invariant crc == CrcOf(covered + payload[..i])
    {
      n := Append(buf, n, payload[i], was, start + (covered + payload[..i]));
      crc := MspCrc8DvbS2(crc, payload[i]);
      ChecksumMore(covered + payload[..i], payload[i]);
      OneMoreByte(start, covered, payload, i);
    }
    assert payload[..|payload|] == payload;
    n := Append(buf, n, crc, was, start + (covered + payload));
    assert start + (covered + payload) + [crc] == Encode(REQUEST, V2(ZERO, number, payload));
  }

  method PutHeadV2(buf: array<Byte>, number: u16, len: u16) returns (n: nat)
    requires buf.Length >= 8
    modifies buf
    ensures n == 8
    ensures Wrote(old(buf[..]), buf[..], 0, [DOLLAR, LETTER_X, REQUEST] + ([ZERO] + Le(number, 2) + Le(len, 2)))
  {
    hide Wrote, Le;
    ghost var was := buf[..];
    n := PutHeader(buf, LETTER_X);
    n := Append(buf, n, ZERO, was, [DOLLAR, LETTER_X, REQUEST]);
    ghost var done, now := [DOLLAR, LETTER_X, REQUEST] + [ZERO], buf[..];
    n := PutU16(buf, n, number);
    WroteMore(was, now, buf[..], 0, done, Le(number, 2));
    done, now := done + Le(number, 2), buf[..];
    n := PutU16(buf, n, len);
    WroteMore(was, now, buf[..], 0, done, Le(len, 2));
    assert done + Le(len, 2) == [DOLLAR, LETTER_X, REQUEST] + ([ZERO] + Le(number, 2) + Le(len, 2));
  }

  method CrcOfHead(number: u16, len: u16) returns (crc: Byte)
    ensures crc == CrcOf([ZERO] + Le(number, 2) + Le(len, 2))
  {
    hide CrcStep, Octet, CrcOf;
    crc := ZERO;
    NoChecksum();
    var octets := [ZERO, Octet(number, 0), Octet(number, 1), Octet(len, 0), Octet(len, 1)];
    for i := 0 to 5
      invariant crc == CrcOf(octets[..i])
    {
      crc := MspCrc8DvbS2(crc, octets[i]);
      ChecksumMore(octets[..i], octets[i]);
      assert octets[..i + 1] == octets[..i] + [octets[i]];
    }
    assert octets[..5] == octets == [ZERO] + Le(number, 2) + Le(len, 2);
  }

  /** A request is the reply but for its direction byte. */
  lemma RequestIsReply(f: Frame)
    requires Fits(f)
    ensures Encode(REQUEST, f)[2 := REPLY] == Encode(REPLY, f)
  {}
}
