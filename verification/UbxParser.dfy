/** The incremental UBX parser of lib/ff_core/ubx.cpp. */
module UbxParser {
  import opened ByteStrings
  import opened MachineWords
  import opened WireFormat
  import opened Framing
  import opened Ubx

  datatype State = Sync1 | Sync2 | Class | Id | LenLo | LenHi | Payload | CkA | CkB

  /** A complete message with the right checksum and a payload that is kept. */
  predicate Accepts(t: Bytes)
  {
    Progressed(t) == Complete && Intact(t) && |Decode(t).payload| <= MAX_PAYLOAD
  }

  predicate Head(t: Bytes)
  {
    |t| >= 2 && t[0] == SYNC1 && t[1] == SYNC2
  }

  /** Behind the sync bytes every byte is kept until the message is whole. */
  lemma StillGoing(t: Bytes, b: Byte)
    requires Head(t)
    requires |t| + 1 >= 6 ==> |t| + 1 < 8 + Word((t + [b])[4], (t + [b])[5])
    ensures Advance(UbxFormat(), t, b) == t + [b] && !Accepts(t + [b]) && Head(t + [b])
  {
    hide ToNat, ToByte, Word;
    Syncs();
  }

  lemma Finished(t: Bytes, b: Byte)
    requires Head(t) && |t| >= 6 && |t| + 1 == 8 + Word(t[4], t[5])
    ensures Advance(UbxFormat(), t, b) == [] && Progressed(t + [b]) == Complete
  {
    hide ToNat, ToByte, Word;
    Syncs();
  }

  class UbxParser {
    var state: State
    var cls: Byte
    var id: Byte
    var len: nat
    var idx: nat
    var ckA: u8
    var ckB: u8
    var rxA: Byte
    var oversize: bool
    const payload: array<Byte>
    /** Every byte fed since the last reset. */
    ghost var fed: Bytes

    /** The fields are what the bytes in hand amount to. */
    ghost predicate Holds(t: Bytes)
      reads `state, `cls, `id, `len, `idx, `ckA, `ckB, `rxA, `oversize, payload
    {
      match state
      case Sync1 => t == []
      case Sync2 => t == [SYNC1]
      case Class => t == [SYNC1, SYNC2]
      case Id => |t| == 3 && Head(t) && cls == t[2] && Summed(t[2..])
      case LenLo => |t| == 4 && Named(t) && Summed(t[2..])
      case LenHi => |t| == 5 && Named(t) && len == ToNat(t[4]) && Summed(t[2..])
      case Payload => Sized(t) && |t| == 6 + idx && idx < len && Summed(t[2..])
      case CkA => Sized(t) && |t| == 6 + len && Summed(t[2..])
      case CkB => |t| == 7 + len && Sized(t[..6 + len]) && rxA == t[6 + len] && Summed(t[2..6 + len])
    }

    ghost predicate Summed(s: Bytes)
      reads `ckA, `ckB
    {
      SumOf(s) == Fletcher(ckA, ckB)
    }

    ghost predicate Named(t: Bytes)
      reads `cls, `id
    {
      |t| >= 4 && Head(t) && cls == t[2] && id == t[3]
    }

    ghost predicate Sized(t: Bytes)
      reads `cls, `id, `len, `oversize, payload
    {
      |t| >= 6 && Named(t) && len == Word(t[4], t[5]) && oversize == (len > MAX_PAYLOAD) && Stored(t[6..])
    }

    /** The payload so far is kept, unless it is too long to be. */
    ghost predicate Stored(p: Bytes)
      reads `oversize, payload
    {
      payload.Length == MAX_PAYLOAD && (!oversize ==> |p| <= MAX_PAYLOAD && payload[..|p|] == p)
    }

    ghost predicate Valid()
      reads this, payload
    {
      payload.Length == MAX_PAYLOAD && Holds(Rest(UbxFormat(), fed))
    }

    /** What a listener reads after a message. */
    ghost predicate Exposes(m: Message)
      reads `cls, `id, `len, payload
    {
      len == |m.payload| <= payload.Length && payload[..len] == m.payload && cls == m.cls && id == m.id
    }

    /** In these two states the next message is heard: see HeardIffSeeking. */
    lemma SeekingStates()
      requires Valid()
      ensures Seeking(UbxFormat(), fed) <==> state == Sync1 || state == Sync2
    {
      hide ToByte, ToNat, Word, SumOf, Rest;
    }

    constructor ()
      ensures Valid() && fed == [] && fresh(payload)
    {
      state, cls, id, len, idx, ckA, ckB, rxA, oversize := Sync1, ZERO, ZERO, 0, 0, 0, 0, ZERO, false;
      payload := new Byte[MAX_PAYLOAD](i => ZERO);
      fed := [];
    }

    method Reset()
      requires Valid()
      modifies this
      ensures Valid() && fed == []
    {
      state, idx, oversize := Sync1, 0, false;
      fed := [];
    }

    /** One byte: true exactly when it completes an acceptable message, which is then what
        the fields expose. */
    method Feed(b: Byte) returns (ok: bool)
      requires Valid()
      modifies this, payload
      ensures Valid() && fed == old(fed) + [b]
      ensures var t := Rest(UbxFormat(), old(fed)) + [b]; ok == Accepts(t) && (ok ==> Exposes(Decode(t)))
      ensures var t := Rest(UbxFormat(), old(fed)) + [b];
              Heard(fed) == if ok then Heard(old(fed)) + [Decode(t)] else Heard(old(fed))
    {
      hide Rest, Holds, Exposes, Accepts, Advance, Decode, ToByte, Told;
      ghost var t := Rest(UbxFormat(), fed);
      OneMore(UbxFormat(), fed, b);
      ToldOne(UbxFormat(), Reads(), fed, b);
      ok := false;
      match state {
        case Sync1 | Sync2 => FeedSync(b, t);
        case Class | Id | LenLo => FeedHead(b, t);
        case LenHi => FeedLenHi(b, t);
        case Payload => FeedPayload(b, t);
        case CkA => FeedCkA(b, t);
        case CkB => ok := FeedCkB(b, t);
      }
      fed := fed + [b];
    }

    method FeedSync(b: Byte, ghost t: Bytes)
      requires payload.Length == MAX_PAYLOAD && Holds(t) && (state == Sync1 || state == Sync2)
      modifies this`state
      ensures Holds(Advance(UbxFormat(), t, b)) && !Accepts(t + [b])
    {
      hide ToByte, ToNat, Word, SumOf, Intact, Decode;
      Syncs();
      if state == Sync1 {
        assert t + [b] == [b];
        if b == SYNC1 {
          state := Sync2;
        }
      } else {
        assert t + [b] == [SYNC1, b];
        state := if b == SYNC2 then Class else if b == SYNC1 then Sync2 else Sync1;
      }
    }

    /** The byte enters the two running sums. */
    method AddUp(b: Byte, ghost s: Bytes)
      requires Summed(s)
      modifies this`ckA, this`ckB
      ensures Summed(s + [b])
    {
      hide SumOf, ToNat;
      SumMore(s, b);
      ckA := (ckA + ToNat(b)) % 256;
      ckB := (ckB + ckA) % 256;
    }

    method FeedHead(b: Byte, ghost t: Bytes)
      requires payload.Length == MAX_PAYLOAD && Holds(t) && state in {Class, Id, LenLo}
      modifies this`state, this`cls, this`id, this`len, this`ckA, this`ckB
      ensures Holds(Advance(UbxFormat(), t, b)) && !Accepts(t + [b])
    {
      hide ToByte, ToNat, Word, Accepts, Advance, Progressed, SumOf;
      StillGoing(t, b);
      assert (t + [b])[2..] == t[2..] + [b];
      match state
      case Class =>
        cls := b;
        ckA, ckB := ToNat(b), ToNat(b);
        FirstSum(b);
        assert t[2..] + [b] == [b];
        state := Id;
      case Id =>
        id := b;
        AddUp(b, t[2..]);
        state := LenLo;
      case LenLo =>
        len := ToNat(b);
        AddUp(b, t[2..]);
        state := LenHi;
    }

    static lemma FirstSum(b: Byte)
      ensures SumOf([b]) == Fletcher(ToNat(b), ToNat(b))
    {
      hide SumOf, ToNat;
      SumMore([], b);
      assert [] + [b] == [b];
    }

    method FeedLenHi(b: Byte, ghost t: Bytes)
      requires payload.Length == MAX_PAYLOAD && Holds(t) && state == LenHi
      modifies this`state, this`len, this`idx, this`oversize, this`ckA, this`ckB
      ensures Holds(Advance(UbxFormat(), t, b)) && !Accepts(t + [b])
    {
      hide ToByte, ToNat, Accepts, Advance, Progressed, SumOf;
      StillGoing(t, b);
      assert (t + [b])[2..] == t[2..] + [b];
      // the bytes take disjoint bits, so or-ing the high one in adds it
      len := len + 256 * ToNat(b);
      AddUp(b, t[2..]);
      idx := 0;
      oversize := len > MAX_PAYLOAD;
      state := if len == 0 then CkA else Payload;
    }

    method FeedPayload(b: Byte, ghost t: Bytes)
      requires Holds(t) && state == Payload
      modifies this`state, this`idx, this`ckA, this`ckB, payload
      ensures Holds(Advance(UbxFormat(), t, b)) && !Accepts(t + [b])
    {
      hide ToByte, ToNat, Word, Accepts, Advance, Progressed, SumOf;
      assert (t + [b])[4] == t[4] && (t + [b])[5] == t[5];
      StillGoing(t, b);
      assert (t + [b])[2..] == t[2..] + [b] && (t + [b])[6..] == t[6..] + [b];
      AddUp(b, t[2..]);
      if !oversize {
        payload[idx] := b;
      }
      idx := idx + 1;
      if idx >= len {
        state := CkA;
      }
    }

    method FeedCkA(b: Byte, ghost t: Bytes)
      requires Holds(t) && state == CkA
      modifies this`state, this`rxA
      ensures Holds(Advance(UbxFormat(), t, b)) && !Accepts(t + [b])
    {
      hide ToByte, ToNat, Word, Accepts, Advance, Progressed, SumOf;
      assert (t + [b])[4] == t[4] && (t + [b])[5] == t[5];
      StillGoing(t, b);
      assert (t + [b])[..6 + len] == t && (t + [b])[2..6 + len] == t[2..];
      rxA := b;
      state := CkB;
    }

    method FeedCkB(b: Byte, ghost t: Bytes) returns (ok: bool)
      requires Holds(t) && state == CkB
      modifies this`state
      ensures Holds(Advance(UbxFormat(), t, b))
      ensures ok == Accepts(t + [b]) && (ok ==> Exposes(Decode(t + [b])))
    {
      hide ToByte, ToNat, Word, Advance, Progressed, SumOf;
      ghost var head := t[..6 + len];
      assert Head(t) && t[4] == head[4] && t[5] == head[5] && t[2] == head[2] && t[3] == head[3];
      Finished(t, b);
      ghost var u := t + [b];
      WithoutChecksum(t, b, 6 + len);
      assert Decode(u) == Message(head[2], head[3], head[6..]) && |head[6..]| == len;
      ok := ToNat(rxA) == ckA && ToNat(b) == ckB && !oversize;
      state := Sync1;
    }
  }

  lemma WithoutChecksum(t: Bytes, b: Byte, n: nat)
    requires 6 <= n && |t| == n + 1
    ensures var u := t + [b];
            && |u| - 2 == n && u[2..n] == t[2..n] && u[6..n] == t[..n][6..] && u[n] == t[n] && u[n + 1] == b
            && u[2] == t[..n][2] && u[3] == t[..n][3]
  {}

  // ---- Whole streams --------------------------------------------------------------------

  function Reads(): (read: Bytes -> Reading<Message>)
  {
    t => if Accepts(t) then Read(Decode(t)) else Ignored
  }

  /** The messages a listener is told of in a stream. */
  ghost function Heard(s: Bytes): (messages: seq<Message>)
  {
    Told(UbxFormat(), Reads(), s)
  }

  /** A message with what came in before it. */
  datatype Report = Report(noise: Bytes, message: Message)

  ghost predicate Sendable(reports: seq<Report>)
  {
    forall i :: 0 <= i < |reports| ==> Fits(reports[i].message)
  }

  ghost function Items(reports: seq<Report>): (items: seq<Item>)
    requires Sendable(reports)
  {
    seq(|reports|, i requires 0 <= i < |reports| => Item(reports[i].noise, Encode(reports[i].message)))
  }

  ghost function Sent(reports: seq<Report>): (s: Bytes)
    requires Sendable(reports)
  {
    Stream(Items(reports))
  }

  ghost function IfShort(m: Message): (messages: seq<Message>)
  {
    if |m.payload| <= MAX_PAYLOAD then [m] else []
  }

  /** The messages short enough to be kept, and between them what is heard in the noise. */
  ghost function Expected(reports: seq<Report>): (messages: seq<Message>)
  {
    if reports == [] then []
    else
      var last := reports[|reports| - 1];
      Expected(reports[..|reports| - 1]) + (Heard(last.noise) + IfShort(last.message))
  }

  /** Those short enough to be kept. */
  ghost function Short(reports: seq<Report>): (messages: seq<Message>)
  {
    if reports == [] then []
    else Short(reports[..|reports| - 1]) + IfShort(reports[|reports| - 1].message)
  }

  ghost predicate Silent(reports: seq<Report>)
  {
    forall i :: 0 <= i < |reports| ==> Heard(reports[i].noise) == []
  }

  /** Whatever messages are sent and whatever comes in between them, damaged and overlong
      messages included: every message is taken where it was sent exactly if no noise, taken
      by itself, leaves the parser in the middle of a frame. Then the messages that are not
      too long are heard, each as it was built, and besides them what the noise holds
      itself; and the parser ends up in sync. */
  lemma HearsEveryMessage(reports: seq<Report>)
    requires Sendable(reports)
    ensures Frames(UbxFormat(), Items(reports))
    ensures AllFound(UbxFormat(), Items(reports)) <==> AllSeeking(UbxFormat(), Items(reports))
    ensures AllSeeking(UbxFormat(), Items(reports)) ==>
              && Rest(UbxFormat(), Sent(reports)) == [] && Heard(Sent(reports)) == Expected(reports)
              && (Silent(reports) ==> Heard(Sent(reports)) == Short(reports))
  {
    hide Rest, Cut, Told, Kept, Sound, Steady, Encode, Accepts, Decode, Seeking, FoundAfter, Framed;
    UbxFormatIsSound();
    UbxFormatIsSteady();
    ReportsAreFrames(reports);
    EveryFrameFound(UbxFormat(), Items(reports));
    ReadsComplete();
    ToldIsKept(UbxFormat(), Reads(), Sent(reports));
    KeptOfReports(reports);
    if Silent(reports) {
      NothingInTheNoise(reports);
    }
  }

  lemma ReportsAreFrames(reports: seq<Report>)
    requires Sendable(reports)
    ensures Frames(UbxFormat(), Items(reports))
  {
    hide Encode, Framed;
    forall i | 0 <= i < |reports|
      ensures Framed(UbxFormat(), Encode(reports[i].message))
    {
      EncodeIsFramed(reports[i].message);
    }
  }

  lemma ReadsComplete()
    ensures forall t :: Reads()(t).Read? ==> UbxFormat().progress(t) == Complete
  {
    hide Progressed, Intact, Decode;
  }

  lemma {:induction false} KeptOfReports(reports: seq<Report>)
    requires Sendable(reports)
    ensures Kept(Reads(), Pieces(UbxFormat(), Items(reports))) == Expected(reports)
  {
    hide Cut, Kept, Told, Encode, Accepts, Decode;
    NothingKept(Reads());
    if reports != [] {
      var n := |reports| - 1;
      var last := reports[n];
      var frame := Encode(last.message);
      KeptOfReports(reports[..n]);
      assert Items(reports)[..n] == Items(reports[..n]);
      ReadsComplete();
      ToldIsKept(UbxFormat(), Reads(), last.noise);
      KeptMore(Reads(), Pieces(UbxFormat(), Items(reports[..n])), Cut(UbxFormat(), last.noise) + [frame]);
      KeptOne(Reads(), Cut(UbxFormat(), last.noise), frame);
      AcceptsShort(last.message);
    }
  }

  lemma {:induction false} NothingInTheNoise(reports: seq<Report>)
    requires Silent(reports)
    ensures Expected(reports) == Short(reports)
  {
    hide Heard;
    if reports != [] {
      NothingInTheNoise(reports[..|reports| - 1]);
    }
  }

  /** After any stream at all the next message is taken exactly if the parser is looking for a
      header. */
  lemma HeardIffSeeking(s: Bytes, m: Message)
    requires Fits(m)
    ensures FoundAfter(UbxFormat(), s, Encode(m)) <==> Seeking(UbxFormat(), s)
    ensures Seeking(UbxFormat(), s) ==>
              Heard(s + Encode(m)) == Heard(s) + IfShort(m) && Rest(UbxFormat(), s + Encode(m)) == []
  {
    hide Rest, Cut, Told, Kept, Sound, Steady, Encode, Accepts, Decode, Framed, Seeking, FoundAfter;
    UbxFormatIsSound();
    UbxFormatIsSteady();
    EncodeIsFramed(m);
    FoundIffSeeking(UbxFormat(), s, Encode(m));
    ReadsComplete();
    ToldIsKept(UbxFormat(), Reads(), s);
    ToldIsKept(UbxFormat(), Reads(), s + Encode(m));
    KeptOne(Reads(), Cut(UbxFormat(), s), Encode(m));
    AcceptsShort(m);
  }

  // ---- Damaged and swallowed messages --------------------------------------------------------

  /** A message damaged in any one byte but the sync bytes and the length is not heard, and
      the next one is. */
  lemma HearsAfterDamage(m: Message, k: nat, x: Byte, hiss: Bytes, next: Message)
    requires Fits(m) && Fits(next) && !HasHeader(UbxFormat(), hiss)
    requires k < |Encode(m)| && (2 <= k < 4 || k >= 6) && x != Encode(m)[k]
    ensures var bad := Encode(m)[k := x];
            && Heard(bad + hiss) == []
            && Heard(bad + hiss + Encode(next)) == IfShort(next)
  {
    hide Rest, Cut, Told, Kept, Sound, Encode, Accepts, Decode, HasHeader, Framed, Seeking;
    var bad := Encode(m)[k := x];
    UbxFormatIsSound();
    DamagedIsRefused(m, k, x);
    FrameThenHiss(UbxFormat(), bad, hiss);
    HeardIffSeeking(bad + hiss, next);
    ReadsComplete();
    ToldIsKept(UbxFormat(), Reads(), bad + hiss);
    NothingKept(Reads());
    KeptOne(Reads(), [], bad);
    assert [] + [bad] == [bad];
  }

  lemma DamagedIsRefused(m: Message, k: nat, x: Byte)
    requires Fits(m) && k < |Encode(m)| && (2 <= k < 4 || k >= 6) && x != Encode(m)[k]
    ensures var bad := Encode(m)[k := x]; Framed(UbxFormat(), bad) && !Accepts(bad)
  {
    hide ToNat, Word, Encode, SumOf, Decode;
    var t := Encode(m);
    var bad, n := t[k := x], |t| - 2;
    DecodeOfEncode(m);
    assert Progressed(bad) == Complete by {
      LengthStays(m, k, x);
    }
    BeginningsPend(bad);
    if k < n {
      assert t[2..n] == t[2..k] + [t[k]] + t[k + 1..n];
      assert bad[2..n] == t[2..k] + [x] + t[k + 1..n];
      SumNoticesOneByte(t[2..k], t[k], x, t[k + 1..n]);
    } else {
      assert bad[2..n] == t[2..n];
      if ToNat(x) == ToNat(t[k]) {
        SameNat(x, t[k]);
      }
    }
  }

  lemma LengthStays(m: Message, k: nat, x: Byte)
    requires Fits(m) && k < |Encode(m)| && (2 <= k < 4 || k >= 6)
    ensures Progressed(Encode(m)[k := x]) == Complete
  {
    hide ToNat, Word, Covered, SumOf;
    Syncs();
    DecodeOfEncode(m);
  }

  /** Six bytes of noise that promise a message of 255 bytes swallow the good one behind
      them: nothing is heard, and all fourteen bytes are still in hand. */
  lemma SwallowedByNoise(cls: Byte, id: Byte)
    ensures var noise, message := [SYNC1, SYNC2, ZERO, ZERO, ToByte(255), ToByte(0)], Encode(Message(cls, id, []));
            && !Seeking(UbxFormat(), noise) && Heard(noise + message) == []
            && Rest(UbxFormat(), noise + message) == noise + message && |noise + message| == 14
  {
    hide ToNat, Rest, Cut, Told, Kept, Encode, Accepts, Decode;
    var noise, message := [SYNC1, SYNC2, ZERO, ZERO, ToByte(255), ToByte(0)], Encode(Message(cls, id, []));
    var s := noise + message;
    Syncs();
    forall j | 0 <= j <= 14
      ensures UbxFormat().progress(s[..j]) == Pending
    {
      assert ToNat(ToByte(255)) == 255 && ToNat(ToByte(0)) == 0;
    }
    PrefixPending(UbxFormat(), s, 6);
    PrefixPending(UbxFormat(), s, 14);
    assert s[..6] == noise && s[..14] == s;
    ReadsComplete();
    ToldIsKept(UbxFormat(), Reads(), s);
    NothingKept(Reads());
  }

  lemma AcceptsShort(m: Message)
    requires Fits(m)
    ensures var t := Encode(m); (Accepts(t) <==> |m.payload| <= MAX_PAYLOAD) && Progressed(t) == Complete && Decode(t) == m
  {
    hide Encode, Intact, Decode, Progressed;
    DecodeOfEncode(m);
  }

  /** What is heard was sent: an accepted string is, byte for byte, a message with its own
      checksum. */
  lemma AcceptedIsAMessage(t: Bytes)
    ensures Accepts(t) <==> exists m: Message :: Fits(m) && |m.payload| <= MAX_PAYLOAD && t == Encode(m)
  {
    hide Encode, Intact, Decode, Progressed;
    if Accepts(t) {
      EncodeOfDecode(t);
    }
    forall m: Message | Fits(m) && |m.payload| <= MAX_PAYLOAD && t == Encode(m)
      ensures Accepts(t)
    {
      AcceptsShort(m);
    }
  }

  ghost function Quietly(ms: seq<Message>): (reports: seq<Report>)
    ensures |reports| == |ms|
  {
    seq(|ms|, i requires 0 <= i < |ms| => Report([], ms[i]))
  }

  /** Messages built one after the other are heard one after the other; among them the
      four requests of the legacy navigation set. */
  lemma ChainParsesBack(ms: seq<Message>)
    requires forall i :: 0 <= i < |ms| ==> |ms[i].payload| <= MAX_PAYLOAD
    ensures forall i :: 0 <= i < |ms| ==> Fits(ms[i])
    ensures Heard(Chain(ms)) == ms && Rest(UbxFormat(), Chain(ms)) == []
  {
    hide Encode, Rest, Cut, Told, AllFound;
    Nothing(UbxFormat());
    ToldOne(UbxFormat(), Reads(), [], ZERO);
    ChainIsSent(ms);
    HearsEveryMessage(Quietly(ms));
  }

  lemma SentMore(reports: seq<Report>, last: Report)
    requires Sendable(reports) && Fits(last.message)
    ensures Sent(reports + [last]) == Sent(reports) + (last.noise + Encode(last.message))
    ensures Short(reports + [last]) == Short(reports) + IfShort(last.message)
  {
    hide Encode;
    assert (reports + [last])[..|reports|] == reports;
    assert Items(reports + [last])[..|reports|] == Items(reports);
  }

  lemma {:induction false} ChainIsSent(ms: seq<Message>)
    requires forall i :: 0 <= i < |ms| ==> |ms[i].payload| <= MAX_PAYLOAD
    ensures Sent(Quietly(ms)) == Chain(ms) && Short(Quietly(ms)) == ms
  {
    hide Encode, Sent, Short, Chain, Quietly;
    if ms == [] {
      EmptyChain();
    } else {
      var n := |ms| - 1;
      ChainIsSent(ms[..n]);
      assert ms == ms[..n] + [ms[n]];
      QuietlyMore(ms[..n], ms[n]);
      ChainLast(ms);
      SentMore(Quietly(ms[..n]), Report([], ms[n]));
    }
  }

  lemma EmptyChain()
    ensures Sent(Quietly([])) == Chain([]) && Short(Quietly([])) == []
  {}

  lemma QuietlyMore(ms: seq<Message>, m: Message)
    requires forall i :: 0 <= i < |ms| ==> Fits(ms[i])
    ensures Quietly(ms + [m]) == Quietly(ms) + [Report([], m)]
    ensures Sendable(Quietly(ms))
  {}

  lemma ChainLast(ms: seq<Message>)
    requires ms != [] && forall i :: 0 <= i < |ms| ==> Fits(ms[i])
    ensures Chain(ms) == Chain(ms[..|ms| - 1]) + ([] + Encode(ms[|ms| - 1]))
  {
    hide Encode, Fits;
    assert [] + Encode(ms[|ms| - 1]) == Encode(ms[|ms| - 1]);
  }

  lemma LegacyConfigParsesBack()
    ensures Heard(Chain(LegacyMessages(4))) == LegacyMessages(4)
  {
    hide ToByte, LegacyIds;
    ChainParsesBack(LegacyMessages(4));
  }
}
