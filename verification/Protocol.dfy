/** The plaintext packets of lib/ff_core/protocol.cpp. */
module Protocol {
  import opened ByteStrings
  import opened MachineWords
  import opened WireFormat

  const HEADER_SIZE: nat := 6
  const POSITION_PACKET_SIZE: nat := 21
  const MAX_NAME_LEN: nat := 15

  /** The bytes 2, 1 and 2 of the protocol. */
  const VERSION := ToByte(2)
  const POSITION := ToByte(1)
  const ANNOUNCE := ToByte(2)

  datatype PositionPacket = PositionPacket(
    uid: u32, lat: i32, lon: i32, alt: i16, speed: u16, course: u16, flags: Byte)

  /** A fixed name buffer, with room for the terminating zero. */
  type Name = s: Bytes | |s| == MAX_NAME_LEN + 1 witness seq(16, i => ZERO)

  datatype AnnouncePacket = AnnouncePacket(uid: u32, name: Name, capabilities: u32)

  datatype DecodeResult = Ok | TooShort | BadVersion | BadType | LengthMismatch

  // ---- The packets as byte strings ----------------------------------------------------

  ghost function HeaderBytes(kind: Byte, uid: u32): (s: Bytes)
    ensures |s| == HEADER_SIZE
  {
    [VERSION, kind] + Le(uid, 4)
  }

  ghost function PositionBytes(p: PositionPacket): (s: Bytes)
    ensures |s| == POSITION_PACKET_SIZE
  {
    HeaderBytes(POSITION, p.uid) + Le(ToU32(p.lat), 4) + Le(ToU32(p.lon), 4) + Le(ToU16(p.alt), 2)
    + Le(p.speed, 2) + Le(p.course, 2) + [p.flags]
  }

  /** The name up to its terminating zero. */
  ghost function Text(name: Name): (s: Bytes)
    ensures |s| <= MAX_NAME_LEN
    ensures s <= name && ZERO !in s
    ensures |s| < MAX_NAME_LEN ==> name[|s|] == ZERO
  {
    TextFrom(name, 0)
  }

  ghost function TextFrom(name: Name, i: nat): (s: Bytes)
    requires i <= MAX_NAME_LEN && ZERO !in name[..i]
    ensures i <= |s| <= MAX_NAME_LEN
    ensures s <= name && ZERO !in s
    ensures |s| < MAX_NAME_LEN ==> name[|s|] == ZERO
    decreases MAX_NAME_LEN - i
  {
    if i < MAX_NAME_LEN && name[i] != ZERO then
      assert name[..i + 1] == name[..i] + [name[i]];
      TextFrom(name, i + 1)
    else name[..i]
  }

  lemma TextIsUnique(name: Name, s: Bytes)
    requires |s| <= MAX_NAME_LEN && s <= name && ZERO !in s
    requires |s| < MAX_NAME_LEN ==> name[|s|] == ZERO
    ensures Text(name) == s
  {
    var t := Text(name);
    assert forall i :: 0 <= i < |s| ==> name[i] == s[i] && name[i] != ZERO;
    assert forall i :: 0 <= i < |t| ==> name[i] == t[i] && name[i] != ZERO;
  }

  ghost function AnnounceBytes(uid: u32, text: Bytes, capabilities: u32): (s: Bytes)
    requires |text| <= MAX_NAME_LEN
    ensures |s| == HEADER_SIZE + 1 + |text| + 4
  {
    HeaderBytes(ANNOUNCE, uid) + [ToByte(|text|)] + text + Le(capabilities, 4)
  }

  // ---- What a decoder makes of a byte string -----------------------------------------------

  ghost function U32At(s: Bytes, at: nat): (v: u32)
    requires at + 4 <= |s|
    ensures Le(v, 4) == s[at..at + 4]
  {
    FromLeRoundTrip(s[at..at + 4]);
    Widths();
    FromLe(s[at..at + 4])
  }

  ghost function U16At(s: Bytes, at: nat): (v: u16)
    requires at + 2 <= |s|
    ensures Le(v, 2) == s[at..at + 2]
  {
    FromLeRoundTrip(s[at..at + 2]);
    Widths();
    FromLe(s[at..at + 2])
  }

  lemma U32AtIs(s: Bytes, at: nat, v: u32)
    requires at + 4 <= |s| && s[at..at + 4] == Le(v, 4)
    ensures U32At(s, at) == v
  {
    Widths();
    LeRoundTrip(v, 4);
  }

  lemma U16AtIs(s: Bytes, at: nat, v: u16)
    requires at + 2 <= |s| && s[at..at + 2] == Le(v, 2)
    ensures U16At(s, at) == v
  {
    Widths();
    LeRoundTrip(v, 2);
  }

  /** The checks every decoder starts with. */
  function Triage(s: Bytes): (r: DecodeResult)
  {
    if |s| < HEADER_SIZE then TooShort
    else if s[0] != VERSION then BadVersion
    else if s[1] != POSITION && s[1] != ANNOUNCE then BadType
    else Ok
  }

  datatype Parsed<T> = Decoded(packet: T) | Refused(why: DecodeResult)

  ghost function ParsePosition(s: Bytes): (r: Parsed<PositionPacket>)
  {
    if Triage(s) != Ok then Refused(Triage(s))
    else if s[1] != POSITION then Refused(BadType)
    else if |s| < POSITION_PACKET_SIZE then Refused(TooShort)
    else Decoded(PositionPacket(U32At(s, 2), ToI32(U32At(s, 6)), ToI32(U32At(s, 10)), ToI16(U16At(s, 14)),
                                U16At(s, 16), U16At(s, 18), s[20]))
  }

  /** A received announcement: what the sender's name buffer held before its zero. */
  datatype Announcement = Announcement(uid: u32, text: Bytes, capabilities: u32)

  ghost function ParseAnnounce(s: Bytes): (r: Parsed<Announcement>)
  {
    if Triage(s) != Ok then Refused(Triage(s))
    else if s[1] != ANNOUNCE then Refused(BadType)
    else if |s| < HEADER_SIZE + 1 then Refused(TooShort)
    else if ToNat(s[6]) > MAX_NAME_LEN then Refused(LengthMismatch)
    else if |s| < HEADER_SIZE + 1 + ToNat(s[6]) + 4 then Refused(TooShort)
    else Decoded(Announcement(U32At(s, 2), s[7..7 + ToNat(s[6])], U32At(s, 7 + ToNat(s[6]))))
  }

  /** A byte string decodes to a position exactly when it begins with its encoding. */
  lemma PositionCodecIsExact(s: Bytes, p: PositionPacket)
    ensures ParsePosition(s) == Decoded(p) <==> PositionBytes(p) <= s
  {
    hide ToNat, ToByte, Le, FromLe, U32At, U16At;
    if PositionBytes(p) <= s {
      PositionParses(s, p);
    }
    if ParsePosition(s) == Decoded(p) {
      PositionPieces(s);
    }
  }

  lemma PositionPieces(s: Bytes)
    requires |s| >= POSITION_PACKET_SIZE
    ensures s[..21] == [s[0], s[1]] + s[2..6] + s[6..10] + s[10..14] + s[14..16] + s[16..18] + s[18..20] + [s[20]]
  {
    SplitAt(s, 2, 6);
    SplitAt(s, 6, 10);
    SplitAt(s, 10, 14);
    SplitAt(s, 14, 16);
    SplitAt(s, 16, 18);
    SplitAt(s, 18, 20);
    SplitAt(s, 20, 21);
    assert s[..2] == [s[0], s[1]] && s[20..21] == [s[20]];
  }

  lemma PositionParses(s: Bytes, p: PositionPacket)
    requires PositionBytes(p) <= s
    ensures ParsePosition(s) == Decoded(p)
  {
    hide ToNat, ToByte, Le, FromLe, U32At, U16At;
    var e := PositionBytes(p);
    SameSlice(e, s, 2, 6);
    SameSlice(e, s, 6, 10);
    SameSlice(e, s, 10, 14);
    SameSlice(e, s, 14, 16);
    SameSlice(e, s, 16, 18);
    SameSlice(e, s, 18, 20);
    U32AtIs(s, 2, p.uid);
    U32AtIs(s, 6, ToU32(p.lat));
    U32AtIs(s, 10, ToU32(p.lon));
    U16AtIs(s, 14, ToU16(p.alt));
    U16AtIs(s, 16, p.speed);
    U16AtIs(s, 18, p.course);
  }

  /** The same for announcements. */
  lemma AnnounceCodecIsExact(s: Bytes, a: Announcement)
    ensures ParseAnnounce(s) == Decoded(a)
            <==> |a.text| <= MAX_NAME_LEN && AnnounceBytes(a.uid, a.text, a.capabilities) <= s
  {
    hide ToNat, ToByte, Le, FromLe, U32At, AnnounceBytes, ParseAnnounce;
    if |a.text| <= MAX_NAME_LEN && AnnounceBytes(a.uid, a.text, a.capabilities) <= s {
      AnnounceParses(s, a);
    }
    if ParseAnnounce(s) == Decoded(a) {
      ParsedAnnounce(s, a);
    }
  }

  lemma AnnounceParses(s: Bytes, a: Announcement)
    requires |a.text| <= MAX_NAME_LEN && AnnounceBytes(a.uid, a.text, a.capabilities) <= s
    ensures ParseAnnounce(s) == Decoded(a)
  {
    hide ToNat, ToByte, Le, FromLe, U32At;
    var e := AnnounceBytes(a.uid, a.text, a.capabilities);
    var n := |a.text|;
    AnnounceLayout(HeaderBytes(ANNOUNCE, a.uid), ToByte(n), a.text, Le(a.capabilities, 4));
    assert HeaderBytes(ANNOUNCE, a.uid)[2..] == Le(a.uid, 4);
    SameSlice(e, s, 2, 6);
    SameSlice(e, s, 7, 7 + n);
    SameSlice(e, s, 7 + n, 11 + n);
    U32AtIs(s, 2, a.uid);
    U32AtIs(s, 7 + n, a.capabilities);
  }

  lemma AnnounceLayout(header: Bytes, n: Byte, text: Bytes, last: Bytes)
    requires |header| == HEADER_SIZE && |last| == 4
    ensures var e := header + [n] + text + last;
            && e[0] == header[0] && e[1] == header[1] && e[2..6] == header[2..] && e[6] == n
            && e[7..7 + |text|] == text && e[7 + |text|..11 + |text|] == last
  {}

  lemma SameSlice(e: Bytes, s: Bytes, from: nat, to: nat)
    requires e <= s && from <= to <= |e|
    ensures s[from..to] == e[from..to]
  {}

  lemma ParsedAnnounce(s: Bytes, a: Announcement)
    requires ParseAnnounce(s) == Decoded(a)
    ensures |a.text| <= MAX_NAME_LEN && AnnounceBytes(a.uid, a.text, a.capabilities) <= s
  {
    hide ToNat, ToByte, Le, FromLe, U32At;
    var n := |a.text|;
    SameNat(s[6], ToByte(n));
    AnnouncePieces(s, n);
  }

  lemma AnnouncePieces(s: Bytes, n: nat)
    requires 11 + n <= |s|
    ensures s[..11 + n] == [s[0], s[1]] + s[2..6] + [s[6]] + s[7..7 + n] + s[7 + n..11 + n]
  {
    SplitAt(s, 2, 6);
    SplitAt(s, 6, 7);
    SplitAt(s, 7, 7 + n);
    SplitAt(s, 7 + n, 11 + n);
    assert s[..2] == [s[0], s[1]] && s[6..7] == [s[6]];
  }

  lemma SplitAt(s: Bytes, m: nat, n: nat)
    requires m <= n <= |s|
    ensures s[..n] == s[..m] + s[m..n]
  {}

  // ---- The code ------------------------------------------------------------------------------

  method WriteHeader(buf: array<Byte>, p: nat, kind: Byte, uid: u32) returns (q: nat)
    requires p + HEADER_SIZE <= buf.Length
    modifies buf
    ensures q == p + HEADER_SIZE && Wrote(old(buf[..]), buf[..], p, HeaderBytes(kind, uid))
  {
    hide Le, Wrote, HeaderBytes;
    ghost var was := buf[..];
    q := PutU8(buf, p, VERSION);
    ghost var one := buf[..];
    q := PutU8(buf, q, kind);
    ghost var two := buf[..];
    q := PutU32(buf, q, uid);
    WroteHeader(was, one, two, buf[..], p, kind, uid);
  }

  lemma WroteHeader(was: Bytes, one: Bytes, two: Bytes, now: Bytes, p: nat, kind: Byte, uid: u32)
    requires Wrote(was, one, p, [VERSION]) && Wrote(one, two, p + 1, [kind]) && Wrote(two, now, p + 2, Le(uid, 4))
    ensures Wrote(was, now, p, HeaderBytes(kind, uid))
  {
    hide Le, Wrote;
    WroteMore(was, one, two, p, [VERSION], [kind]);
    WroteMore(was, two, now, p, [VERSION] + [kind], Le(uid, 4));
    assert [VERSION] + [kind] == [VERSION, kind];
  }

  method BoundedLen(name: Name) returns (n: nat)
    ensures n == |Text(name)|
  {
    n := 0;
    while n < MAX_NAME_LEN && name[n] != ZERO
      invariant n <= MAX_NAME_LEN && ZERO !in name[..n]
    {
      n := n + 1;
    }
    TextIsUnique(name, name[..n]);
  }

  method EncodePosition(p: PositionPacket, buf: array<Byte>, bufLen: nat) returns (n: nat)
    requires bufLen <= buf.Length
    modifies buf
    ensures n == if bufLen < POSITION_PACKET_SIZE then 0 else POSITION_PACKET_SIZE
    ensures if n == 0 then buf[..] == old(buf[..]) else Wrote(old(buf[..]), buf[..], 0, PositionBytes(p))
  {
    hide Le, Wrote, HeaderBytes;
    if bufLen < POSITION_PACKET_SIZE {
      return 0;
    }
    ghost var was := buf[..];
    n := WriteHeader(buf, 0, POSITION, p.uid);
    ghost var now := buf[..];
    n := PutI32(buf, n, p.lat);
    WroteMore(was, now, buf[..], 0, HeaderBytes(POSITION, p.uid), Le(ToU32(p.lat), 4));
    ghost var done := HeaderBytes(POSITION, p.uid) + Le(ToU32(p.lat), 4);
    now := buf[..];
    n := PutI32(buf, n, p.lon);
    WroteMore(was, now, buf[..], 0, done, Le(ToU32(p.lon), 4));
    done, now := done + Le(ToU32(p.lon), 4), buf[..];
    n := PutI16(buf, n, p.alt);
    WroteMore(was, now, buf[..], 0, done, Le(ToU16(p.alt), 2));
    done, now := done + Le(ToU16(p.alt), 2), buf[..];
    n := PutU16(buf, n, p.speed);
    WroteMore(was, now, buf[..], 0, done, Le(p.speed, 2));
    done, now := done + Le(p.speed, 2), buf[..];
    n := PutU16(buf, n, p.course);
    WroteMore(was, now, buf[..], 0, done, Le(p.course, 2));
    done, now := done + Le(p.course, 2), buf[..];
    n := PutU8(buf, n, p.flags);
    WroteMore(was, now, buf[..], 0, done, [p.flags]);
  }

  method EncodeAnnounce(a: AnnouncePacket, buf: array<Byte>, bufLen: nat) returns (n: nat)
    requires bufLen <= buf.Length
    modifies buf
    ensures var total := HEADER_SIZE + 1 + |Text(a.name)| + 4;
            n == if bufLen < total then 0 else total
    ensures if n == 0 then buf[..] == old(buf[..])
            else Wrote(old(buf[..]), buf[..], 0, AnnounceBytes(a.uid, Text(a.name), a.capabilities))
  {
    hide Le, Wrote, HeaderBytes, ToByte;
    var nameLen := BoundedLen(a.name);
    if bufLen < HEADER_SIZE + 1 + nameLen + 4 {
      return 0;
    }
    n := EncodeChecked(a, buf, nameLen);
  }

  method EncodeChecked(a: AnnouncePacket, buf: array<Byte>, nameLen: nat) returns (n: nat)
    requires nameLen == |Text(a.name)| && HEADER_SIZE + 1 + nameLen + 4 <= buf.Length
    modifies buf
    ensures n == HEADER_SIZE + 1 + nameLen + 4
    ensures Wrote(old(buf[..]), buf[..], 0, AnnounceBytes(a.uid, Text(a.name), a.capabilities))
  {
    hide Le, Wrote, HeaderBytes, ToByte;
    ghost var was, text := buf[..], Text(a.name);
    n := WriteHeader(buf, 0, ANNOUNCE, a.uid);
    ghost var done, now := HeaderBytes(ANNOUNCE, a.uid), buf[..];
    n := PutU8(buf, n, ToByte(nameLen));
    WroteMore(was, now, buf[..], 0, done, [ToByte(nameLen)]);
    done, now := done + [ToByte(nameLen)], buf[..];
    n := PutText(buf, n, a.name, nameLen);
    WroteMore(was, now, buf[..], 0, done, text);
    now := buf[..];
    n := PutU32(buf, n, a.capabilities);
    WroteMore(was, now, buf[..], 0, done + text, Le(a.capabilities, 4));
  }

  method PutText(buf: array<Byte>, p: nat, name: Name, nameLen: nat) returns (q: nat)
    requires nameLen == |Text(name)| && p + nameLen <= buf.Length
    modifies buf
    ensures q == p + nameLen && Wrote(old(buf[..]), buf[..], p, Text(name))
  {
    hide Text;
    q := p;
    for i := 0 to nameLen
      invariant q == p + i
      invariant forall k :: p <= k < p + i ==> buf[k] == name[k - p]
      invariant forall k :: 0 <= k < buf.Length && !(p <= k < p + i) ==> buf[k] == old(buf[k])
    {
      buf[q] := name[i];
      q := q + 1;
    }
  }

  lemma PieceOfFront(buf: array<Byte>, len: nat, from: nat, to: nat)
    requires from <= to <= len <= buf.Length
    ensures buf[..len][from..to] == buf[from..to]
  {}

  method PeekHeader(buf: array<Byte>, len: nat) returns (r: DecodeResult, kind: Byte, uid: u32)
    requires len <= buf.Length
    ensures r == Triage(buf[..len])
    ensures r == Ok ==> kind == buf[1] && uid == U32At(buf[..len], 2)
  {
    hide FromLe;
    kind, uid := ZERO, 0;
    if len < HEADER_SIZE {
      return TooShort, kind, uid;
    }
    kind := buf[1];
    var q;
    uid, q := GetU32(buf, 2);
    PieceOfFront(buf, len, 2, 6);
    r := if buf[0] != VERSION then BadVersion else if kind != POSITION && kind != ANNOUNCE then BadType else Ok;
  }

  method DecodePosition(buf: array<Byte>, len: nat) returns (r: DecodeResult, out: PositionPacket)
    requires len <= buf.Length
    ensures match ParsePosition(buf[..len])
            case Decoded(p) => r == Ok && out == p
            case Refused(why) => r == why && r != Ok
  {
    hide FromLe, Le;
    out := PositionPacket(0, 0, 0, 0, 0, 0, ZERO);
    var kind, uid;
    r, kind, uid := PeekHeader(buf, len);
    if r != Ok {
      return;
    }
    if kind != POSITION {
      return BadType, out;
    }
    if len < POSITION_PACKET_SIZE {
      return TooShort, out;
    }
    var lat, lon, alt, speed, course;
    var q := HEADER_SIZE;
    lat, q := GetI32(buf, q);
    lon, q := GetI32(buf, q);
    alt, q := GetI16(buf, q);
    speed, q := GetU16(buf, q);
    course, q := GetU16(buf, q);
    out := PositionPacket(uid, lat, lon, alt, speed, course, buf[q]);
    PieceOfFront(buf, len, 6, 10);
    PieceOfFront(buf, len, 10, 14);
    PieceOfFront(buf, len, 14, 16);
    PieceOfFront(buf, len, 16, 18);
    PieceOfFront(buf, len, 18, 20);
  }

  /** The name and a zero, over what was there before. */
  method GetName(buf: array<Byte>, p: nat, n: nat, prior: Name) returns (name: Name, q: nat)
    requires n <= MAX_NAME_LEN && p + n <= buf.Length
    ensures q == p + n && name == buf[p..p + n] + [ZERO] + prior[n + 1..]
  {
    name, q := prior, p;
    for i := 0 to n
      invariant q == p + i
      invariant forall k :: 0 <= k < i ==> name[k] == buf[p + k]
      invariant forall k :: i <= k <= MAX_NAME_LEN ==> name[k] == prior[k]
    {
      name := name[i := buf[q]];
      q := q + 1;
    }
    name := name[n := ZERO];
  }

  /** `prior` is what the caller's packet held: bytes of the name buffer beyond the
      terminator keep it. */
  method DecodeAnnounce(buf: array<Byte>, len: nat, prior: AnnouncePacket)
    returns (r: DecodeResult, out: AnnouncePacket)
    requires len <= buf.Length
    ensures match ParseAnnounce(buf[..len])
            case Decoded(a) => r == Ok && out.uid == a.uid && out.capabilities == a.capabilities
                               && out.name == a.text + [ZERO] + prior.name[|a.text| + 1..]
            case Refused(why) => r == why && r != Ok && out == prior
  {
    hide FromLe, Le, ToNat;
    out := prior;
    var kind, uid;
    r, kind, uid := PeekHeader(buf, len);
    if r != Ok {
      return;
    }
    if kind != ANNOUNCE {
      return BadType, out;
    }
    if len < HEADER_SIZE + 1 {
      return TooShort, out;
    }
    var nameLen := ToNat(buf[HEADER_SIZE]);
    if nameLen > MAX_NAME_LEN {
      return LengthMismatch, out;
    }
    if len < HEADER_SIZE + 1 + nameLen + 4 {
      return TooShort, out;
    }
    var name, q := GetName(buf, HEADER_SIZE + 1, nameLen, prior.name);
    var capabilities;
    capabilities, q := GetU32(buf, q);
    out := AnnouncePacket(uid, name, capabilities);
    PieceOfFront(buf, len, 7, 7 + nameLen);
    PieceOfFront(buf, len, 7 + nameLen, 11 + nameLen);
  }
}
