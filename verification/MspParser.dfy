/** The incremental MSP reply parser of lib/ff_core/msp_parser.cpp. */
module MspParser {
  import opened ByteStrings
  import opened Framing
  import opened WireFormat
  import opened Msp

  datatype State = Idle | HdrM
    | V1Dir | V1Size | V1Id | V1Payload | V1Crc
    | V2Dir | V2Flag | V2IdLo | V2IdHi | V2SizeLo | V2SizeHi | V2Payload | V2Crc

  /** A complete reply with the right checksum and a payload that is kept. */
  predicate Accepts(t: Bytes)
  {
    Progressed(t) == Complete && Intact(t) && |Decode(t).payload| <= MAX_PAYLOAD
  }

  predicate Head(t: Bytes, letter: Byte)
  {
    |t| >= 3 && t[0] == DOLLAR && t[1] == letter && t[2] == REPLY
  }

  /** How long the frame is whose beginning is `t`, once its size is known. */
  function Whole(t: Bytes): (n: nat)
    requires SizeKnown(t)
  {
    if t[1] == LETTER_M then 6 + ToNat(t[3]) else 9 + Word(t[6], t[7])
  }

  predicate SizeKnown(t: Bytes)
  {
    (Head(t, LETTER_M) && |t| >= 4) || (Head(t, LETTER_X) && |t| >= 8)
  }

  /** Behind the header every byte is kept until the frame is whole. */
  lemma StillGoing(t: Bytes, b: Byte)
    requires Head(t, LETTER_M) || Head(t, LETTER_X)
    requires SizeKnown(t + [b]) ==> |t| + 1 < Whole(t + [b])
    ensures Advance(MspFormat(), t, b) == t + [b] && !Accepts(t + [b])
    ensures Head(t, LETTER_M) ==> Head(t + [b], LETTER_M)
    ensures Head(t, LETTER_X) ==> Head(t + [b], LETTER_X)
  {
    hide ToByte, ToNat, Word;
    Letters();
  }

  lemma StillGoing1(t: Bytes, b: Byte)
    requires Head(t, LETTER_M) && |t| + 1 < 6 + ToNat((t + [b])[3])
    ensures Advance(MspFormat(), t, b) == t + [b] && !Accepts(t + [b]) && Head(t + [b], LETTER_M)
  {
    hide ToByte, ToNat, Word, Accepts, Advance;
    Letters();
    StillGoing(t, b);
  }

  lemma StillGoing2(t: Bytes, b: Byte)
    requires Head(t, LETTER_X) && (|t| < 7 || |t| + 1 < 9 + Word((t + [b])[6], (t + [b])[7]))
    ensures Advance(MspFormat(), t, b) == t + [b] && !Accepts(t + [b]) && Head(t + [b], LETTER_X)
  {
    hide ToByte, ToNat, Word, Accepts, Advance;
    Letters();
    StillGoing(t, b);
  }

  lemma Headed()
    ensures Head([DOLLAR, LETTER_M, REPLY], LETTER_M) && Head([DOLLAR, LETTER_X, REPLY], LETTER_X)
  {}

  lemma Finished(t: Bytes, b: Byte)
    requires SizeKnown(t) && |t| + 1 == Whole(t)
    ensures Advance(MspFormat(), t, b) == [] && Progressed(t + [b]) == Complete
  {
    hide ToByte, ToNat, Word;
    Letters();
  }

  class MspParser {
    var state: State
    var version: nat
    var size: nat
    var id: nat
    var flag: Byte
    var idx: nat
    var crc: Byte
    var oversize: bool
    const payload: array<Byte>
    /** Every byte fed since the last reset. */
    ghost var fed: Bytes

    /** The fields are what the bytes in hand amount to. */
    ghost predicate Holds(t: Bytes)
      reads `state, `version, `size, `id, `flag, `idx, `crc, `oversize, payload
    {
      match state
      case Idle => t == []
      case HdrM => t == [DOLLAR]
      case V1Dir => t == [DOLLAR, LETTER_M]
      case V1Size => t == [DOLLAR, LETTER_M, REPLY]
      case V1Id => |t| == 4 && Sized1(t) && idx == 0 && crc == XorOf(t[3..])
      case V1Payload => Read1(t) && |t| == 5 + idx && idx < size && crc == XorOf(t[3..])
      case V1Crc => Read1(t) && |t| == 5 + size && crc == XorOf(t[3..])
      case V2Dir => t == [DOLLAR, LETTER_X]
      case V2Flag => t == [DOLLAR, LETTER_X, REPLY]
      case V2IdLo => |t| == 4 && Begun2(t) && crc == CrcOf(t[3..])
      case V2IdHi => |t| == 5 && Begun2(t) && id == ToNat(t[4]) && crc == CrcOf(t[3..])
      case V2SizeLo => |t| == 6 && Begun2(t) && id == Word(t[4], t[5]) && crc == CrcOf(t[3..])
      case V2SizeHi => |t| == 7 && Begun2(t) && id == Word(t[4], t[5]) && size == ToNat(t[6]) && crc == CrcOf(t[3..])
      case V2Payload => Read2(t) && |t| == 8 + idx && idx < size && crc == CrcOf(t[3..])
      case V2Crc => Read2(t) && |t| == 8 + size && crc == CrcOf(t[3..])
    }

    ghost predicate Sized1(t: Bytes)
      reads `version, `flag, `size, `oversize
      requires |t| >= 4
    {
      Head(t, LETTER_M) && version == 1 && flag == ZERO
      && size == ToNat(t[3]) && oversize == (size > MAX_PAYLOAD)
    }

    ghost predicate Read1(t: Bytes)
      reads `version, `flag, `size, `oversize, `id, payload
    {
      |t| >= 5 && Sized1(t) && id == ToNat(t[4]) && Stored(t[5..])
    }

    ghost predicate Begun2(t: Bytes)
      reads `version, `flag
      requires |t| >= 4
    {
      Head(t, LETTER_X) && version == 2 && flag == t[3]
    }

    ghost predicate Read2(t: Bytes)
      reads `version, `flag, `size, `oversize, `id, payload
    {
      && |t| >= 8 && Begun2(t) && id == Word(t[4], t[5]) && size == Word(t[6], t[7])
      && oversize == (size > MAX_PAYLOAD) && Stored(t[8..])
    }

    /** The payload so far is kept, unless it is too long to be. */
    ghost predicate Stored(p: Bytes)
      reads `oversize, payload
    {
      payload.Length == MAX_PAYLOAD && (!oversize ==> |p| <= MAX_PAYLOAD && payload[..|p|] == p)
    }

    ghost predicate Valid()
      reads this, payload
    {
      payload.Length == MAX_PAYLOAD && Holds(Rest(MspFormat(), fed))
    }

    /** In these four states the next reply is heard: see HeardIffSeeking. */
    lemma SeekingStates()
      requires Valid()
      ensures Seeking(MspFormat(), fed) <==> state == Idle || state == HdrM || state == V1Dir || state == V2Dir
    {
      hide ToByte, ToNat, Word, XorOf, CrcOf, Rest;
    }

    constructor ()
      ensures Valid() && fed == [] && fresh(payload)
    {
      state, version, size, id, flag, idx, crc, oversize := Idle, 0, 0, 0, ZERO, 0, ZERO, false;
      payload := new Byte[MAX_PAYLOAD](i => ZERO);
      fed := [];
    }

    method Reset()
      requires Valid()
      modifies this
      ensures Valid() && fed == []
    {
      state, version, size, id, flag, idx, crc, oversize := Idle, 0, 0, 0, ZERO, 0, ZERO, false;
      fed := [];
    }

    /** What a listener reads after a frame. */
    ghost predicate Exposes(f: Frame)
      reads `version, `size, `id, `flag, payload
    {
      && size == |f.payload| <= payload.Length && payload[..size] == f.payload
      && match f
         case V1(i, _) => version == 1 && id == ToNat(i) && flag == ZERO
         case V2(fl, number, _) => version == 2 && id == number && flag == fl
    }

    /** One byte: true exactly when it completes an acceptable frame, which is then what
        the fields expose. */
    method Feed(b: Byte) returns (ok: bool)
      requires Valid()
      modifies this, payload
      ensures Valid() && fed == old(fed) + [b]
      ensures var t := Rest(MspFormat(), old(fed)) + [b]; ok == Accepts(t) && (ok ==> Exposes(Decode(t)))
      ensures var t := Rest(MspFormat(), old(fed)) + [b];
              Heard(fed) == if ok then Heard(old(fed)) + [Decode(t)] else Heard(old(fed))
    {
      hide Rest, Holds, Exposes, Accepts, Advance, Decode, ToByte, Told;
      ghost var t := Rest(MspFormat(), fed);
      OneMore(MspFormat(), fed, b);
      ToldOne(MspFormat(), Reads(), fed, b);
      ok := false;
      match state {
        case Idle | HdrM | V1Dir | V2Dir => FeedHeader(b, t);
        case V1Size | V1Id => FeedV1Head(b, t);
        case V2Flag | V2IdLo | V2IdHi | V2SizeLo => FeedV2Head(b, t);
        case V2SizeHi => FeedV2SizeHi(b, t);
        case V1Payload => FeedV1Payload(b, t);
        case V2Payload => FeedV2Payload(b, t);
        case V1Crc | V2Crc => ok := FeedCrc(b, t);
      }
      fed := fed + [b];
    }

    /** Up to the direction byte: anything else resynchronises. */
    method FeedHeader(b: Byte, ghost t: Bytes)
      requires payload.Length == MAX_PAYLOAD && Holds(t)
      requires state == Idle || state == HdrM || state == V1Dir || state == V2Dir
      modifies this`state
      ensures Holds(Advance(MspFormat(), t, b)) && !Accepts(t + [b])
    {
      hide ToByte, ToNat, Word, XorOf, CrcOf, Intact, Decode;
      Letters();
      match state
      case Idle =>
        assert t + [b] == [b];
        if b == DOLLAR {
          state := HdrM;
        }
      case HdrM =>
        assert t + [b] == [DOLLAR, b];
        state := if b == LETTER_M then V1Dir else if b == LETTER_X then V2Dir else if b == DOLLAR then HdrM else Idle;
      case V1Dir =>
        assert t + [b] == [DOLLAR, LETTER_M, b];
        state := if b == REPLY then V1Size else if b == DOLLAR then HdrM else Idle;
      case V2Dir =>
        assert t + [b] == [DOLLAR, LETTER_X, b];
        state := if b == REPLY then V2Flag else if b == DOLLAR then HdrM else Idle;
    }

    method FeedV1Head(b: Byte, ghost t: Bytes)
      requires payload.Length == MAX_PAYLOAD && Holds(t)
      requires state == V1Size || state == V1Id
      modifies this`state, this`version, this`size, this`id, this`flag, this`idx, this`crc, this`oversize
      ensures Holds(Advance(MspFormat(), t, b)) && !Accepts(t + [b])
    {
      hide ToByte, ToNat, XorOf, CrcOf, Xor, Accepts, Advance, Progressed, Stored, Head;
      Headed();
      StillGoing1(t, b);
      SumsMore(t, b);
      if state == V1Size {
        version, flag := 1, ZERO;
        size, crc, idx := ToNat(b), b, 0;
        oversize := size > MAX_PAYLOAD;
        state := V1Id;
      } else {
        id, crc := ToNat(b), Xor(crc, b);
        state := if size == 0 then V1Crc else V1Payload;
        NothingStored((t + [b])[5..]);
      }
    }

    /** The checksums over what follows the header. */
    static lemma SumsMore(t: Bytes, b: Byte)
      requires |t| >= 3
      ensures XorOf((t + [b])[3..]) == if |t| == 3 then b else Xor(XorOf(t[3..]), b)
      ensures CrcOf((t + [b])[3..]) == CrcStep(if |t| == 3 then ZERO else CrcOf(t[3..]), b)
    {
      hide XorOf, CrcOf, Xor, CrcStep;
      assert (t + [b])[3..] == t[3..] + [b];
      ChecksumMore(t[3..], b);
      NoChecksum();
      XorZero(b);
    }

    lemma NothingStored(p: Bytes)
      requires payload.Length == MAX_PAYLOAD && p == []
      ensures Stored(p)
    {}

    /** One payload byte, kept if there is room. */
    method Store(b: Byte, ghost p: Bytes)
      requires Stored(p) && idx == |p| && (!oversize ==> idx < MAX_PAYLOAD)
      modifies payload, this`idx
      ensures Stored(p + [b]) && idx == old(idx) + 1
    {
      if !oversize {
        payload[idx] := b;
      }
      idx := idx + 1;
    }

    method FeedV1Payload(b: Byte, ghost t: Bytes)
      requires Holds(t) && state == V1Payload
      modifies this`state, this`idx, this`crc, payload
      ensures Holds(Advance(MspFormat(), t, b)) && !Accepts(t + [b])
    {
      hide ToByte, ToNat, XorOf, CrcOf, Xor, Accepts, Advance, Progressed, Stored, Head;
      assert (t + [b])[3] == t[3];
      StillGoing1(t, b);
      SumsMore(t, b);
      crc := Xor(crc, b);
      Store(b, t[5..]);
      assert (t + [b])[5..] == t[5..] + [b];
      if idx >= size {
        state := V1Crc;
      }
    }

    method FeedCrc(b: Byte, ghost t: Bytes) returns (ok: bool)
      requires payload.Length == MAX_PAYLOAD && Holds(t)
      requires state == V1Crc || state == V2Crc
      modifies this`state
      ensures Holds(Advance(MspFormat(), t, b))
      ensures ok == Accepts(t + [b]) && (ok ==> Exposes(Decode(t + [b])))
    {
      hide ToByte, ToNat, Word, XorOf, CrcOf, Progressed, Advance;
      Letters();
      Finished(t, b);
      ghost var u := t + [b];
      assert u[3..|u| - 1] == t[3..];
      ok := b == crc && !oversize;
      if state == V1Crc {
        assert u[5..|u| - 1] == t[5..];
      } else {
        assert u[8..|u| - 1] == t[8..];
      }
      state := Idle;
    }

    method FeedV2Head(b: Byte, ghost t: Bytes)
      requires payload.Length == MAX_PAYLOAD && Holds(t)
      requires state in {V2Flag, V2IdLo, V2IdHi, V2SizeLo}
      modifies this`state, this`version, this`size, this`id, this`flag, this`idx, this`crc, this`oversize
      ensures Holds(Advance(MspFormat(), t, b)) && !Accepts(t + [b])
    {
      hide ToByte, ToNat, XorOf, CrcOf, Xor, CrcStep, Accepts, Advance, Progressed, Stored, Head;
      Headed();
      StillGoing2(t, b);
      SumsMore(t, b);
      match state
      case V2Flag =>
        version, flag := 2, b;
        crc := MspCrc8DvbS2(ZERO, b);
        state := V2IdLo;
      case V2IdLo =>
        id := ToNat(b);
        crc := MspCrc8DvbS2(crc, b);
        state := V2IdHi;
      case V2IdHi =>
        // the bytes take disjoint bits, so or-ing the high one in adds it
        id := id + 256 * ToNat(b);
        crc := MspCrc8DvbS2(crc, b);
        state := V2SizeLo;
      case V2SizeLo =>
        size := ToNat(b);
        crc := MspCrc8DvbS2(crc, b);
        state := V2SizeHi;
    }

    method FeedV2SizeHi(b: Byte, ghost t: Bytes)
      requires payload.Length == MAX_PAYLOAD && Holds(t) && state == V2SizeHi
      modifies this`state, this`size, this`idx, this`crc, this`oversize
      ensures Holds(Advance(MspFormat(), t, b)) && !Accepts(t + [b])
    {
      hide ToByte, ToNat, XorOf, CrcOf, Xor, CrcStep, Accepts, Advance, Progressed, Stored, Head;
      StillGoing2(t, b);
      SumsMore(t, b);
      size := size + 256 * ToNat(b);
      crc := MspCrc8DvbS2(crc, b);
      idx := 0;
      oversize := size > MAX_PAYLOAD;
      state := if size == 0 then V2Crc else V2Payload;
      NothingStored((t + [b])[8..]);
    }

    method FeedV2Payload(b: Byte, ghost t: Bytes)
      requires Holds(t) && state == V2Payload
      modifies this`state, this`idx, this`crc, payload
      ensures Holds(Advance(MspFormat(), t, b)) && !Accepts(t + [b])
    {
      hide ToByte, ToNat, Word, XorOf, CrcOf, CrcStep, Accepts, Advance, Progressed, Stored, Head;
      assert (t + [b])[6] == t[6] && (t + [b])[7] == t[7];
      StillGoing2(t, b);
      SumsMore(t, b);
      crc := MspCrc8DvbS2(crc, b);
      Store(b, t[8..]);
      assert (t + [b])[8..] == t[8..] + [b];
      if idx >= size {
        state := V2Crc;
      }
    }
  }

  // ---- Whole streams --------------------------------------------------------------------

  function Reads(): (read: Bytes -> Reading<Frame>)
  {
    t => if Accepts(t) then Read(Decode(t)) else Ignored
  }

  /** The frames a listener is told of in a stream. */
  ghost function Heard(s: Bytes): (frames: seq<Frame>)
  {
    Told(MspFormat(), Reads(), s)
  }

  /** A reply the flight controller sent, with what came in before it. */
  datatype Reply = Reply(noise: Bytes, frame: Frame)

  ghost predicate Sendable(replies: seq<Reply>)
  {
    forall i :: 0 <= i < |replies| ==> Fits(replies[i].frame)
  }

  ghost function Items(replies: seq<Reply>): (items: seq<Item>)
    requires Sendable(replies)
  {
    seq(|replies|, i requires 0 <= i < |replies| => Item(replies[i].noise, Encode(REPLY, replies[i].frame)))
  }

  ghost function Sent(replies: seq<Reply>): (s: Bytes)
    requires Sendable(replies)
  {
    Stream(Items(replies))
  }

  ghost function IfShort(f: Frame): (frames: seq<Frame>)
  {
    if |f.payload| <= MAX_PAYLOAD then [f] else []
  }

  /** The replies short enough to be kept, and between them what is heard in the noise. */
  ghost function Expected(replies: seq<Reply>): (frames: seq<Frame>)
  {
    if replies == [] then []
    else
      var last := replies[|replies| - 1];
      Expected(replies[..|replies| - 1]) + (Heard(last.noise) + IfShort(last.frame))
  }

  /** Those short enough to be kept. */
  ghost function Short(replies: seq<Reply>): (frames: seq<Frame>)
  {
    if replies == [] then []
    else Short(replies[..|replies| - 1]) + IfShort(replies[|replies| - 1].frame)
  }

  ghost predicate Silent(replies: seq<Reply>)
  {
    forall i :: 0 <= i < |replies| ==> Heard(replies[i].noise) == []
  }

  /** Whatever replies are sent and whatever comes in between them, damaged and overlong
      replies included: every reply is taken where it was sent exactly if no noise, taken by
      itself, leaves the parser in the middle of a frame. Then the replies that are not too
      long are heard, each as it was built, and besides them what the noise holds itself;
      and the parser ends up in sync. */
  lemma HearsEveryReply(replies: seq<Reply>)
    requires Sendable(replies)
    ensures Frames(MspFormat(), Items(replies))
    ensures AllFound(MspFormat(), Items(replies)) <==> AllSeeking(MspFormat(), Items(replies))
    ensures AllSeeking(MspFormat(), Items(replies)) ==>
              && Rest(MspFormat(), Sent(replies)) == [] && Heard(Sent(replies)) == Expected(replies)
              && (Silent(replies) ==> Heard(Sent(replies)) == Short(replies))
  {
    hide Rest, Cut, Told, Kept, Sound, Steady, Encode, Accepts, Decode, Seeking, FoundAfter, Framed;
    MspFormatIsSound();
    MspFormatIsSteady();
    RepliesAreFrames(replies);
    EveryFrameFound(MspFormat(), Items(replies));
    ReadsComplete();
    ToldIsKept(MspFormat(), Reads(), Sent(replies));
    KeptOfReplies(replies);
    if Silent(replies) {
      NothingInTheNoise(replies);
    }
  }

  lemma RepliesAreFrames(replies: seq<Reply>)
    requires Sendable(replies)
    ensures Frames(MspFormat(), Items(replies))
  {
    hide Encode, Framed;
    forall i | 0 <= i < |replies|
      ensures Framed(MspFormat(), Encode(REPLY, replies[i].frame))
    {
      EncodeIsFramed(replies[i].frame);
    }
  }

  lemma ReadsComplete()
    ensures forall t :: Reads()(t).Read? ==> MspFormat().progress(t) == Complete
  {
    hide Progressed, Intact, Decode;
  }

  lemma {:induction false} KeptOfReplies(replies: seq<Reply>)
    requires Sendable(replies)
    ensures Kept(Reads(), Pieces(MspFormat(), Items(replies))) == Expected(replies)
  {
    hide Cut, Kept, Told, Encode, Accepts, Decode;
    NothingKept(Reads());
    if replies != [] {
      var n := |replies| - 1;
      var last := replies[n];
      var frame := Encode(REPLY, last.frame);
      KeptOfReplies(replies[..n]);
      assert Items(replies)[..n] == Items(replies[..n]);
      ReadsComplete();
      ToldIsKept(MspFormat(), Reads(), last.noise);
      KeptMore(Reads(), Pieces(MspFormat(), Items(replies[..n])), Cut(MspFormat(), last.noise) + [frame]);
      KeptOne(Reads(), Cut(MspFormat(), last.noise), frame);
      AcceptsShort(last.frame);
    }
  }

  lemma {:induction false} NothingInTheNoise(replies: seq<Reply>)
    requires Silent(replies)
    ensures Expected(replies) == Short(replies)
  {
    hide Heard;
    if replies != [] {
      NothingInTheNoise(replies[..|replies| - 1]);
    }
  }

  /** After any stream at all the next reply is taken exactly if the parser is looking for a
      header. */
  lemma HeardIffSeeking(s: Bytes, f: Frame)
    requires Fits(f)
    ensures FoundAfter(MspFormat(), s, Encode(REPLY, f)) <==> Seeking(MspFormat(), s)
    ensures Seeking(MspFormat(), s) ==>
              Heard(s + Encode(REPLY, f)) == Heard(s) + IfShort(f) && Rest(MspFormat(), s + Encode(REPLY, f)) == []
  {
    hide Rest, Cut, Told, Kept, Sound, Steady, Encode, Accepts, Decode, Framed, Seeking, FoundAfter;
    MspFormatIsSound();
    MspFormatIsSteady();
    EncodeIsFramed(f);
    FoundIffSeeking(MspFormat(), s, Encode(REPLY, f));
    ReadsComplete();
    ToldIsKept(MspFormat(), Reads(), s);
    ToldIsKept(MspFormat(), Reads(), s + Encode(REPLY, f));
    KeptOne(Reads(), Cut(MspFormat(), s), Encode(REPLY, f));
    AcceptsShort(f);
  }

  // ---- Damaged and swallowed replies ---------------------------------------------------------

  /** Behind the header, and no size byte. */
  predicate BehindSize(f: Frame, k: nat)
  {
    if f.V1? then k > 3 else k > 7 || 3 <= k < 6
  }

  /** A reply damaged in any one byte but the header and the size is not heard, and the
      next one is. */
  lemma HearsAfterDamage(f: Frame, k: nat, x: Byte, hiss: Bytes, next: Frame)
    requires Fits(f) && Fits(next) && !HasHeader(MspFormat(), hiss)
    requires k < |Encode(REPLY, f)| && BehindSize(f, k) && x != Encode(REPLY, f)[k]
    ensures var bad := Encode(REPLY, f)[k := x];
            && Heard(bad + hiss) == []
            && Heard(bad + hiss + Encode(REPLY, next)) == IfShort(next)
  {
    hide Rest, Cut, Told, Kept, Sound, Encode, Accepts, Decode, HasHeader, Framed, Seeking;
    var bad := Encode(REPLY, f)[k := x];
    MspFormatIsSound();
    DamagedIsRefused(f, k, x);
    FrameThenHiss(MspFormat(), bad, hiss);
    HeardIffSeeking(bad + hiss, next);
    ReadsComplete();
    ToldIsKept(MspFormat(), Reads(), bad + hiss);
    NothingKept(Reads());
    KeptOne(Reads(), [], bad);
    assert [] + [bad] == [bad];
  }

  lemma DamagedIsRefused(f: Frame, k: nat, x: Byte)
    requires Fits(f) && k < |Encode(REPLY, f)| && BehindSize(f, k) && x != Encode(REPLY, f)[k]
    ensures var bad := Encode(REPLY, f)[k := x]; Framed(MspFormat(), bad) && !Accepts(bad)
  {
    hide ToNat, Word, Encode, XorOf, CrcOf, Decode;
    var t := Encode(REPLY, f);
    var bad, n := t[k := x], |t| - 1;
    DecodeOfEncode(f);
    assert Progressed(bad) == Complete by {
      SizeStays(f, k, x);
    }
    BeginningsPend(bad);
    if k < n {
      assert t[3..n] == t[3..k] + [t[k]] + t[k + 1..n];
      assert bad[3..n] == t[3..k] + [x] + t[k + 1..n];
      ChecksumsNoticeOneByte(t[3..k], t[k], x, t[k + 1..n]);
    } else {
      assert bad[3..n] == t[3..n];
    }
  }

  lemma SizeStays(f: Frame, k: nat, x: Byte)
    requires Fits(f) && k < |Encode(REPLY, f)| && BehindSize(f, k)
    ensures Progressed(Encode(REPLY, f)[k := x]) == Complete
  {
    hide ToNat, Word, Covered, Checksum;
    Letters();
    DecodeOfEncode(f);
  }

  /** Four bytes of noise that promise a reply of 255 bytes swallow the good one behind
      them: nothing is heard, and all ten bytes are still in hand. */
  lemma SwallowedByNoise(id: Byte)
    ensures var noise, reply := [DOLLAR, LETTER_M, REPLY, ToByte(255)], Encode(REPLY, V1(id, []));
            && !Seeking(MspFormat(), noise) && Heard(noise + reply) == []
            && Rest(MspFormat(), noise + reply) == noise + reply && |noise + reply| == 10
  {
    hide ToNat, Rest, Cut, Told, Kept, Encode, Accepts, Decode;
    var noise, reply := [DOLLAR, LETTER_M, REPLY, ToByte(255)], Encode(REPLY, V1(id, []));
    var s := noise + reply;
    Letters();
    forall j | 0 <= j <= 10
      ensures MspFormat().progress(s[..j]) == Pending
    {
      assert ToNat(ToByte(255)) == 255;
    }
    PrefixPending(MspFormat(), s, 4);
    PrefixPending(MspFormat(), s, 10);
    assert s[..4] == noise && s[..10] == s;
    ReadsComplete();
    ToldIsKept(MspFormat(), Reads(), s);
    NothingKept(Reads());
  }

  lemma AcceptsShort(f: Frame)
    requires Fits(f)
    ensures var t := Encode(REPLY, f);
            (Accepts(t) <==> |f.payload| <= MAX_PAYLOAD) && Progressed(t) == Complete && Decode(t) == f
  {
    hide Encode, Intact, Decode, Progressed;
    DecodeOfEncode(f);
  }

  /** What is heard was sent: an accepted string is, byte for byte, a reply frame with its
      own checksum. */
  lemma AcceptedIsAReply(t: Bytes)
    ensures Accepts(t) <==> exists f: Frame :: Fits(f) && |f.payload| <= MAX_PAYLOAD && t == Encode(REPLY, f)
  {
    hide Encode, Intact, Decode, Progressed;
    if Accepts(t) {
      EncodeOfDecode(t);
    }
    forall f: Frame | Fits(f) && |f.payload| <= MAX_PAYLOAD && t == Encode(REPLY, f)
      ensures Accepts(t)
    {
      AcceptsShort(f);
    }
  }

  /** What a builder makes, turned into a reply, parses back to what was built. */
  lemma BuiltFrameParsesBack(f: Frame)
    requires Fits(f) && |f.payload| <= MAX_PAYLOAD
    ensures var s := Encode(REQUEST, f)[2 := REPLY]; Heard(s) == [f] && Rest(MspFormat(), s) == []
  {
    hide Encode, Rest, Told, Kept, Accepts, Decode;
    var s := Encode(REPLY, f);
    RequestIsReply(f);
    ReadsComplete();
    ToldIsKept(MspFormat(), Reads(), s);
    EncodeIsFramed(f);
    FrameIsCut(MspFormat(), s);
    KeptOne(Reads(), [], s);
    NothingKept(Reads());
    AcceptsShort(f);
    assert [] + [s] == [s];
  }
}
