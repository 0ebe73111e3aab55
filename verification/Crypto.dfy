/** The frame cipher of lib/ff_core/crypto.cpp: packets become frames and frames
    become packets inside one buffer, and a frame is taken in once. */
module Crypto {
  import opened ByteStrings
  import opened MachineWords
  import opened WireFormat
  import opened Aes
  import opened Ccm
  import Protocol
  import Peers = PeerTable
  import opened Replay

  const FRAME_HEADER_LEN: nat := 10
  const FRAME_TAG_LEN: nat := 6
  const FRAME_OVERHEAD: nat := 10
  const NONCE_LEN: nat := 13
  const REPLAY_RESYNC_MS: u32 := 10000

  // ---- Frames as byte strings ------------------------------------------------------

  ghost function Nonce(uid: u32, counter: u32): (n: Bytes)
    ensures |n| == NONCE_LEN
  {
    Le(uid, 4) + Le(counter, 4) + Zeros(5)
  }

  /** Uid and counter stand in the nonce in places of their own ... */
  lemma NonceParts(uid: u32, counter: u32)
    ensures var n := Nonce(uid, counter);
            && FromLe(n[..4]) == uid && FromLe(n[4..8]) == counter
            && forall i :: 8 <= i < NONCE_LEN ==> n[i] == ZERO
  {
    hide Le, FromLe;
    var n := Nonce(uid, counter);
    Widths();
    LeRoundTrip(uid, 4);
    LeRoundTrip(counter, 4);
    assert n[..4] == Le(uid, 4) && n[4..8] == Le(counter, 4);
  }

  /** ... so that no two senders and no two counters share one. */
  lemma NoncesTellApart(uid: u32, counter: u32, vid: u32, other: u32)
    ensures Nonce(uid, counter) == Nonce(vid, other) <==> uid == vid && counter == other
  {
    hide Nonce;
    NonceParts(uid, counter);
    NonceParts(vid, other);
  }

  /** The clear header: the packet's own, then the counter. */
  ghost function ClearHeader(packet: Bytes, counter: u32): (h: Bytes)
    requires |packet| >= Protocol.HEADER_SIZE
    ensures |h| == FRAME_HEADER_LEN
  {
    packet[..6] + Le(counter, 4)
  }

  ghost function Frame(E: BlockCipher, uid: u32, counter: u32, packet: Bytes): (f: Bytes)
    requires |packet| >= Protocol.HEADER_SIZE
    ensures |f| == |packet| + FRAME_OVERHEAD
  {
    var header := ClearHeader(packet, counter);
    var sealed := Seal(E, Nonce(uid, counter), header, packet[6..], FRAME_TAG_LEN);
    header + sealed.ciphertext + sealed.tag
  }

  ghost function UidOf(frame: Bytes): (uid: u32)
    requires |frame| >= FRAME_HEADER_LEN
  {
    Protocol.U32At(frame, 2)
  }

  ghost function CounterOf(frame: Bytes): (counter: u32)
    requires |frame| >= FRAME_HEADER_LEN
  {
    Protocol.U32At(frame, 6)
  }

  /** The packet inside, if the tag verifies under the nonce the header names. */
  ghost function OpenFrame(E: BlockCipher, frame: Bytes): (o: Opened)
    requires |frame| >= FRAME_HEADER_LEN + FRAME_TAG_LEN
  {
    var n := |frame| - FRAME_TAG_LEN;
    match Open(E, Nonce(UidOf(frame), CounterOf(frame)), frame[..10], Sealed(frame[10..n], frame[n..]))
    case Accepted(data) => Accepted(frame[..6] + data)
    case Rejected => Rejected
  }

  lemma FrameParts(E: BlockCipher, uid: u32, counter: u32, packet: Bytes)
    requires |packet| >= Protocol.HEADER_SIZE
    ensures var f := Frame(E, uid, counter, packet);
            var sealed := Seal(E, Nonce(uid, counter), ClearHeader(packet, counter), packet[6..], FRAME_TAG_LEN);
            && f[..10] == ClearHeader(packet, counter) && f[..6] == packet[..6] && f[6..10] == Le(counter, 4)
            && Sealed(f[10..|packet| + 4], f[|packet| + 4..]) == sealed
  {
    hide Le, Nonce, Tag, Keystream;
  }

  /** What lies between header and end of the frame is the sealing of some data under this
      nonce, with the ten bytes of the header authenticated. */
  ghost predicate SealedUnder(E: BlockCipher, nonce: Bytes, frame: Bytes)
    requires |nonce| == NONCE_LEN
  {
    && |frame| >= FRAME_HEADER_LEN + FRAME_TAG_LEN
    && var n := |frame| - FRAME_TAG_LEN;
       exists data: Bytes :: Seal(E, nonce, frame[..10], data, FRAME_TAG_LEN) == Sealed(frame[10..n], frame[n..])
  }

  lemma FrameIsSealed(E: BlockCipher, uid: u32, counter: u32, packet: Bytes)
    requires |packet| >= Protocol.HEADER_SIZE
    ensures SealedUnder(E, Nonce(uid, counter), Frame(E, uid, counter, packet))
  {
    hide Nonce, Seal, Frame;
    FrameParts(E, uid, counter, packet);
    var f := Frame(E, uid, counter, packet);
    assert Seal(E, Nonce(uid, counter), f[..10], packet[6..], FRAME_TAG_LEN) == Sealed(f[10..|f| - 6], f[|f| - 6..]);
  }

  lemma FrameOfParts(E: BlockCipher, uid: u32, counter: u32, packet: Bytes, f: Bytes)
    requires |packet| >= Protocol.HEADER_SIZE && |f| == |packet| + FRAME_OVERHEAD
    requires f[..10] == ClearHeader(packet, counter)
    requires Sealed(f[10..|packet| + 4], f[|packet| + 4..])
          == Seal(E, Nonce(uid, counter), f[..10], packet[6..], FRAME_TAG_LEN)
    ensures f == Frame(E, uid, counter, packet)
  {
    hide Nonce, Seal, ClearHeader;
    assert f == f[..10] + f[10..|packet| + 4] + f[|packet| + 4..];
  }

  lemma FramePieces(s: Bytes, len: nat)
    requires FRAME_HEADER_LEN + FRAME_TAG_LEN <= len <= |s|
    ensures var f := s[..len]; f[..10] == s[..10] && f[10..len - 6] == s[10..len - 6] && f[len - 6..] == s[len - 6..len]
    ensures var f := s[..len]; f[2..6] == s[2..6] && f[6..10] == s[6..10]
  {}

  /** A frame opens to a packet exactly when it is the frame of that packet, sent
      under the uid and counter that it names itself. */
  lemma FrameCodecIsExact(E: BlockCipher, frame: Bytes, packet: Bytes)
    requires |frame| >= FRAME_HEADER_LEN + FRAME_TAG_LEN && |packet| >= Protocol.HEADER_SIZE
    ensures OpenFrame(E, frame) == Accepted(packet)
            <==> frame == Frame(E, UidOf(frame), CounterOf(frame), packet)
  {
    hide Le, FromLe, Nonce, Tag, Keystream, Seal, Open;
    var uid, counter := UidOf(frame), CounterOf(frame);
    var n := |frame| - FRAME_TAG_LEN;
    var nonce := Nonce(uid, counter);
    var sealed := Sealed(frame[10..n], frame[n..]);
    if OpenFrame(E, frame) == Accepted(packet) {
      var data := Open(E, nonce, frame[..10], sealed).data;
      OpenInvertsSeal(E, nonce, frame[..10], sealed, data);
      assert packet[6..] == data && packet[..6] == frame[..6];
      assert ClearHeader(packet, counter) == frame[..10] by {
        assert frame[..10] == frame[..6] + frame[6..10];
      }
      assert frame == frame[..10] + frame[10..n] + frame[n..];
    }
    if frame == Frame(E, uid, counter, packet) {
      FrameParts(E, uid, counter, packet);
      OpenInvertsSeal(E, nonce, frame[..10], sealed, packet[6..]);
      assert packet == packet[..6] + packet[6..];
    }
  }

  /** What `FrameCodecIsExact` means for a sender whose packet carries its own uid. */
  lemma FrameRoundTrip(E: BlockCipher, uid: u32, counter: u32, packet: Bytes)
    requires |packet| >= Protocol.HEADER_SIZE && Protocol.U32At(packet, 2) == uid
    ensures var f := Frame(E, uid, counter, packet);
            UidOf(f) == uid && CounterOf(f) == counter && OpenFrame(E, f) == Accepted(packet)
  {
    hide Le, FromLe, Nonce, Tag, Keystream, Seal, Open;
    var f := Frame(E, uid, counter, packet);
    FrameParts(E, uid, counter, packet);
    assert f[2..6] == f[..6][2..6] == packet[..6][2..6] == packet[2..6];
    Protocol.U32AtIs(f, 2, uid);
    Protocol.U32AtIs(f, 6, counter);
    FrameCodecIsExact(E, f, packet);
  }

  // ---- Replay slots -----------------------------------------------------------------------

  datatype Slot = Slot(uid: u32, window: Window, lastMs: u32, used: bool)

  const EMPTY_SLOT := Slot(0, Window(0, Bits(0)), 0, false)

  predicate Tracks(s: Slot, uid: u32)
  {
    s.used && s.uid == uid
  }

  ghost predicate DistinctUids(slots: seq<Slot>)
  {
    forall i, j :: 0 <= i < j < |slots| && slots[i].used && slots[j].used ==> slots[i].uid != slots[j].uid
  }

  ghost predicate AllUsed(slots: seq<Slot>)
  {
    forall i :: 0 <= i < |slots| ==> slots[i].used
  }

  /** Slot `i` may be given up: it is free, or none is and (as long as nobody has been
      silent for half the clock's range) nobody has been silent longer. */
  ghost predicate MayEvict(slots: seq<Slot>, i: nat, now: u32)
    requires i < |slots|
  {
    && (!AllUsed(slots) ==> !slots[i].used)
    && (AllUsed(slots) && (forall j :: 0 <= j < |slots| ==> Sub32(now, slots[j].lastMs) < 0x8000_0000)
        ==> forall j :: 0 <= j < |slots| ==> Sub32(now, slots[j].lastMs) <= Sub32(now, slots[i].lastMs))
  }

  /** The epoch a slot is in: the counter it was reset at and those offered since. */
  datatype Epoch = Epoch(first: u32, offers: seq<u32>)

  /** What becomes of the counter of an authentic frame: the slot it is checked against
      is the sender's own, or one the sender takes over; the check starts afresh for a
      new or long silent sender. */
  ghost predicate Taken(was: seq<Slot>, epochsWas: seq<Epoch>, slots: seq<Slot>, epochs: seq<Epoch>,
                        uid: u32, counter: u32, now: u32, i: nat, reset: bool, ok: bool)
    requires |was| == |epochsWas| == Peers.MAX_PEERS && i < Peers.MAX_PEERS
  {
    var tracked := Tracks(was[i], uid);
    var v := Admit(was[i].window, counter, reset);
    && (tracked || ((forall k :: 0 <= k < Peers.MAX_PEERS ==> !Tracks(was[k], uid)) && MayEvict(was, i, now)))
    && reset == (!tracked || Sub32(now, was[i].lastMs) > REPLAY_RESYNC_MS)
    && ok == v.accepted
    && slots == was[i := Slot(uid, v.window, if ok then now else was[i].lastMs, true)]
    && epochs == epochsWas[i := if reset then Epoch(counter, [])
                                else Epoch(epochsWas[i].first, epochsWas[i].offers + [counter])]
  }

  /** The window after a counter arrived. */
  function Admit(w: Window, counter: u32, reset: bool): (v: Verdict)
  {
    if reset then Verdict(true, Window(counter, Bits(0))) else Offer(w, counter)
  }

  /** Every used slot's window is the outcome of its epoch, and no two slots track one
      sender. */
  ghost predicate Consistent(slots: seq<Slot>, epochs: seq<Epoch>)
  {
    && |slots| == |epochs| == Peers.MAX_PEERS
    && DistinctUids(slots)
    && forall i :: 0 <= i < Peers.MAX_PEERS && slots[i].used ==> slots[i].window == Run(epochs[i].first, epochs[i].offers)
  }

  lemma TakenKeepsConsistent(was: seq<Slot>, epochsWas: seq<Epoch>, slots: seq<Slot>, epochs: seq<Epoch>,
                             uid: u32, counter: u32, now: u32, i: nat, reset: bool, ok: bool)
    requires Consistent(was, epochsWas) && i < Peers.MAX_PEERS
    requires Taken(was, epochsWas, slots, epochs, uid, counter, now, i, reset, ok)
    ensures Consistent(slots, epochs)
  {
    hide Offer;
    var offers := epochsWas[i].offers;
    assert (offers + [counter])[..|offers|] == offers;
  }

  /** No sender gets a counter through twice in one epoch, provided its newest counter
      has not jumped by exactly 32; an unseen counter up to 32 behind does get through,
      and anything older does not. */
  lemma TakenOnce(was: seq<Slot>, epochsWas: seq<Epoch>, slots: seq<Slot>, epochs: seq<Epoch>,
                  uid: u32, counter: u32, now: u32, i: nat, ok: bool)
    requires Consistent(was, epochsWas) && i < Peers.MAX_PEERS
    requires Taken(was, epochsWas, slots, epochs, uid, counter, now, i, false, ok)
    ensures var Epoch(first, offers) := epochsWas[i];
            var high := was[i].window.high;
            && (NoJump(first, offers) ==> (ok <==> ShouldAccept(Seen(first, offers), high, counter)))
            && (ShouldAccept(Seen(first, offers), high, counter) ==> ok)
            && (high - counter > 32 ==> !ok)
  {
    hide Offer;
    var Epoch(first, offers) := epochsWas[i];
    RunIsSound(first, offers);
    OfferIsSound(Run(first, offers), Seen(first, offers), counter);
    if NoJump(first, offers) {
      RunIsComplete(first, offers);
      OfferIsExact(Run(first, offers), Seen(first, offers), counter);
    }
  }

  class CcmCrypto {
    const aes: Aes128
    var uid: u32
    var counter: u32
    var badTag: u32
    var replay: u32
    var lastRejectReplay: bool
    const slots: array<Slot>
    ghost var epochs: seq<Epoch>

    ghost predicate Valid()
      reads this, aes, aes.rk, slots
    {
      aes.rk.Length == 176 && Consistent(slots[..], epochs)
    }

    ghost function E(): BlockCipher
      reads this, aes, aes.rk
      requires aes.rk.Length == 176
    {
      CipherOf(aes.Key())
    }

    constructor ()
      ensures Valid() && fresh(aes) && fresh(aes.rk) && fresh(slots)
    {
      aes := new Aes128();
      slots := new Slot[Peers.MAX_PEERS](i => EMPTY_SLOT);
      epochs := seq(Peers.MAX_PEERS, i => Epoch(0, []));
      uid, counter, badTag, replay, lastRejectReplay := 0, 0, 0, 0, false;
    }

    method Begin(uid: u32, key: Block, initialCounter: u32)
      requires Valid()
      modifies this, aes.rk, slots
      ensures Valid() && this.uid == uid && counter == initialCounter
      ensures aes.Key() == KeySchedule(key)
      ensures forall i :: 0 <= i < Peers.MAX_PEERS ==> !slots[i].used
      ensures badTag == old(badTag) && replay == old(replay) && lastRejectReplay == old(lastRejectReplay)
    {
      this.uid, counter := uid, initialCounter;
      aes.SetKey(key);
      for i := 0 to Peers.MAX_PEERS
        invariant forall k :: 0 <= k < i ==> !slots[k].used
        modifies slots
      {
        slots[i] := EMPTY_SLOT;
      }
    }

    method EncryptAs(uid: u32, counter: u32, buf: array<Byte>, len: nat, cap: nat) returns (n: nat)
      requires aes.rk.Length == 176 && buf != aes.rk
      requires len <= buf.Length && cap <= buf.Length
      modifies buf
      ensures n == if len < 6 || cap < len + FRAME_OVERHEAD || len - 6 >= 0x1_0000 then 0 else len + FRAME_OVERHEAD
      ensures n > 0 ==> buf[..n] == Frame(E(), uid, counter, old(buf[..len]))
      ensures len < 6 || cap < len + FRAME_OVERHEAD ==> buf[..] == old(buf[..])
      ensures len + FRAME_OVERHEAD <= cap ==> buf[len + FRAME_OVERHEAD..] == old(buf[len + FRAME_OVERHEAD..])
    {
      if len < 6 || cap < len + FRAME_OVERHEAD {
        return 0;
      }
      n := EncryptChecked(uid, counter, buf, len);
    }

    method EncryptChecked(uid: u32, counter: u32, buf: array<Byte>, len: nat) returns (n: nat)
      requires aes.rk.Length == 176 && buf != aes.rk
      requires 6 <= len && len + FRAME_OVERHEAD <= buf.Length
      modifies buf
      ensures n == if len - 6 >= 0x1_0000 then 0 else len + FRAME_OVERHEAD
      ensures n > 0 ==> buf[..n] == Frame(E(), uid, counter, old(buf[..len]))
      ensures buf[len + FRAME_OVERHEAD..] == old(buf[len + FRAME_OVERHEAD..])
    {
      hide Le, Nonce, Seal, CipherOf, Cipher, ClearHeader;
      ghost var packet := buf[..len];
      var payloadLen := len - 6;
      PutCounter(buf, payloadLen, counter);
      ghost var data := packet[6..];
      assert buf[10..10 + payloadLen] == data;
      var nonce := BuildNonce(uid, counter);
      Widths();
      ghost var header := buf[..10];
      var ok := CcmEncrypt(aes, nonce, buf[..10], buf, 10, payloadLen, 10 + payloadLen, FRAME_TAG_LEN);
      if !ok {
        return 0;
      }
      n := len + FRAME_OVERHEAD;
      assert buf[..10] == header;
      FrameOfParts(E(), uid, counter, packet, buf[..n]);
    }

    /** The payload makes room for the counter, which goes behind the header. */
    static method PutCounter(buf: array<Byte>, payloadLen: nat, counter: u32)
      requires 10 + payloadLen <= buf.Length
      modifies buf
      ensures buf[..10] == ClearHeader(old(buf[..6 + payloadLen]), counter)
      ensures buf[10..10 + payloadLen] == old(buf[6..6 + payloadLen])
      ensures buf[10 + payloadLen..] == old(buf[10 + payloadLen..])
    {
      hide Le;
      OpenGap(buf, payloadLen);
      ghost var spread := buf[..];
      var q := PutU32(buf, 6, counter);
      assert buf[..10] == buf[..6] + buf[6..10];
      assert buf[10..10 + payloadLen] == buf[10..][..payloadLen] == spread[10..][..payloadLen];
      assert buf[10 + payloadLen..] == buf[10..][payloadLen..] == spread[10..][payloadLen..];
    }

    static method BuildNonce(uid: u32, counter: u32) returns (nonce: Bytes)
      ensures nonce == Nonce(uid, counter)
    {
      hide Le;
      var out := new Byte[NONCE_LEN](i => ZERO);
      var q := PutU32(out, 0, uid);
      q := PutU32(out, q, counter);
      for i := 8 to NONCE_LEN
        invariant out[..8] == Le(uid, 4) + Le(counter, 4)
        invariant forall k :: 8 <= k < i ==> out[k] == ZERO
      {
        out[i] := ZERO;
      }
      nonce := out[..];
      assert nonce == out[..8] + out[8..13];
    }

    /** Moves the payload up by four bytes, backwards so that nothing is overwritten
        before it has been copied. */
    static method OpenGap(buf: array<Byte>, payloadLen: nat)
      requires 10 + payloadLen <= buf.Length
      modifies buf
      ensures buf[..6] == old(buf[..6])
      ensures buf[10..10 + payloadLen] == old(buf[6..6 + payloadLen])
      ensures buf[10 + payloadLen..] == old(buf[10 + payloadLen..])
    {
      var i := payloadLen;
      while i > 0
        invariant 0 <= i <= payloadLen
        invariant forall p :: 10 + i <= p < 10 + payloadLen ==> buf[p] == old(buf[p - 4])
        invariant forall k :: 0 <= k < buf.Length && !(10 + i <= k < 10 + payloadLen) ==> buf[k] == old(buf[k])
      {
        buf[10 + i - 1] := buf[6 + i - 1];
        i := i - 1;
      }
    }

    /** Moves the payload back down, forwards. */
    static method CloseGap(buf: array<Byte>, payloadLen: nat)
      requires 10 + payloadLen <= buf.Length
      modifies buf
      ensures buf[..6] == old(buf[..6])
      ensures buf[6..6 + payloadLen] == old(buf[10..10 + payloadLen])
      ensures buf[6 + payloadLen..] == old(buf[6 + payloadLen..])
    {
      for i := 0 to payloadLen
        invariant forall p :: 6 <= p < 6 + i ==> buf[p] == old(buf[p + 4])
        invariant forall k :: 0 <= k < buf.Length && !(6 <= k < 6 + i) ==> buf[k] == old(buf[k])
      {
        buf[6 + i] := buf[10 + i];
      }
    }

    method Encrypt(buf: array<Byte>, len: nat, cap: nat) returns (n: nat)
      requires aes.rk.Length == 176 && buf != aes.rk
      requires len <= buf.Length && cap <= buf.Length
      modifies this`counter, buf
      ensures counter == Add32(old(counter), 1)
      ensures n == if len < 6 || cap < len + FRAME_OVERHEAD || len - 6 >= 0x1_0000 then 0 else len + FRAME_OVERHEAD
      ensures n > 0 ==> buf[..n] == Frame(E(), uid, counter, old(buf[..len]))
      ensures len + FRAME_OVERHEAD <= cap ==> buf[len + FRAME_OVERHEAD..] == old(buf[len + FRAME_OVERHEAD..])
    {
      counter := Add32(counter, 1);
      n := EncryptAs(uid, counter, buf, len, cap);
    }

    /** The slot of this sender; a sender that is not tracked gets one, by eviction if
        it must. */
    method SlotFor(uid: u32, now: u32) returns (i: nat, created: bool)
      requires Valid()
      modifies slots
      ensures i < Peers.MAX_PEERS && Tracks(slots[i], uid) && DistinctUids(slots[..])
      ensures created <==> forall k :: 0 <= k < Peers.MAX_PEERS ==> !Tracks(old(slots[..])[k], uid)
      ensures !created ==> slots[..] == old(slots[..])
      ensures created ==> MayEvict(old(slots[..]), i, now)
      ensures created ==> slots[..] == old(slots[..])[i := Slot(uid, Window(0, Bits(0)), now, true)]
    {
      hide MayEvict;
      for k := 0 to Peers.MAX_PEERS
        invariant forall j :: 0 <= j < k ==> !Tracks(slots[j], uid)
      {
        if slots[k].used && slots[k].uid == uid {
          return k, false;
        }
      }
      ghost var was := slots[..];
      var victim := Victim(now);
      slots[victim] := Slot(uid, Window(0, Bits(0)), now, true);
      assert slots[..] == was[victim := Slot(uid, Window(0, Bits(0)), now, true)];
      return victim, true;
    }

    /** A free slot, or else the one that was silent longest. */
    method Victim(now: u32) returns (victim: nat)
      requires slots.Length == Peers.MAX_PEERS
      ensures victim < Peers.MAX_PEERS && MayEvict(slots[..], victim, now)
    {
      victim := 0;
      var k := 0;
      while k < Peers.MAX_PEERS && slots[k].used
        invariant k <= Peers.MAX_PEERS && (victim < k || victim == k == 0)
        invariant forall j :: 0 <= j < k ==> slots[j].used
        invariant (forall j :: 0 <= j < k ==> Sub32(now, slots[j].lastMs) < 0x8000_0000)
                  ==> forall j :: 0 <= j < k ==> Sub32(now, slots[j].lastMs) <= Sub32(now, slots[victim].lastMs)
      {
        // a negative signed difference: slot k was heard before the victim so far
        if k == 0 || ToI32(Sub32(slots[k].lastMs, slots[victim].lastMs)) < 0 {
          victim := k;
        }
        k := k + 1;
      }
      if k < Peers.MAX_PEERS {
        victim := k;
      }
    }

    static method AcceptCounter(slots: array<Slot>, i: nat, counter: u32, reset: bool) returns (ok: bool)
      requires i < slots.Length
      modifies slots
      ensures var v := Admit(old(slots[i]).window, counter, reset);
              ok == v.accepted && slots[..] == old(slots[..])[i := old(slots[i]).(window := v.window)]
    {
      hide Slide, SetBit, Test;
      var slot := slots[i];
      if reset {
        slots[i] := slot.(window := Window(counter, Bits(0)));
        return true;
      }
      if counter > slot.window.high {
        var advance := counter - slot.window.high;
        var bits := if advance >= WINDOW_BITS then Bits(0) else Slide(slot.window.bits, advance);
        slots[i] := slot.(window := Window(counter, bits));
        return true;
      }
      var behind := slot.window.high - counter;
      if behind == 0 || behind > WINDOW_BITS {
        return false;
      }
      if Test(slot.window.bits, behind - 1) {
        return false;
      }
      slots[i] := slot.(window := slot.window.(bits := SetBit(slot.window.bits, behind - 1)));
      return true;
    }

    /** The frame is too short, or its tag does not verify. */
    ghost predicate BadTag(frame: Bytes)
      reads this, aes, aes.rk
      requires aes.rk.Length == 176
    {
      || |frame| < FRAME_HEADER_LEN + FRAME_TAG_LEN
      || |frame| >= FRAME_HEADER_LEN + FRAME_TAG_LEN + 0x1_0000
      || OpenFrame(E(), frame) == Rejected
    }

    /** The authentication half: on success the payload lies deciphered in its place. */
    method Authenticate(buf: array<Byte>, len: nat) returns (ok: bool)
      requires aes.rk.Length == 176 && buf != aes.rk
      requires FRAME_HEADER_LEN + FRAME_TAG_LEN <= len <= buf.Length
      modifies buf
      ensures ok == !old(BadTag(buf[..len]))
      ensures ok ==> Accepted(buf[..6] + buf[10..len - 6]) == old(OpenFrame(E(), buf[..len]))
      ensures buf[..10] == old(buf[..10]) && buf[len..] == old(buf[len..])
    {
      hide Le, FromLe, Nonce, Open, CipherOf, Cipher;
      ghost var frame := buf[..len];
      FramePieces(buf[..], len);
      ghost var was := buf[..];
      assert was[..10] == buf[..10] && was[10..len - 6] == buf[10..len - 6] && was[len - 6..len] == buf[len - 6..len];
      assert was[2..6] == buf[2..6] && was[6..10] == buf[6..10];
      var uid, q := GetU32(buf, 2);
      var counter;
      counter, q := GetU32(buf, 6);
      var nonce := BuildNonce(uid, counter);
      Widths();
      var payloadLen := len - FRAME_HEADER_LEN - FRAME_TAG_LEN;
      ok := CcmDecrypt(aes, nonce, buf[..10], buf, 10, payloadLen, buf[len - 6..len]);
      assert buf[..6] == buf[..10][..6] && frame[..6] == frame[..10][..6];
      assert buf[len..] == buf[10 + payloadLen..][6..];
    }

    /** The replay half. */
    method TakeCounter(uid: u32, counter: u32, now: u32) returns (ok: bool, ghost i: nat, ghost reset: bool)
      requires Valid()
      modifies this`epochs, slots
      ensures Valid() && i < Peers.MAX_PEERS
      ensures Taken(old(slots[..]), old(epochs), slots[..], epochs, uid, counter, now, i, reset, ok)
    {
      hide Offer, Run;
      ghost var was := slots[..];
      var at, created := SlotFor(uid, now);
      var quiet := Sub32(now, slots[at].lastMs) > REPLAY_RESYNC_MS;
      i, reset := at, created || quiet;
      ok := AcceptCounter(slots, at, counter, created || quiet);
      if ok {
        slots[at] := slots[at].(lastMs := now);
      }
      epochs := epochs[i := if reset then Epoch(counter, []) else Epoch(epochs[i].first, epochs[i].offers + [counter])];
      ghost var v := Admit(was[i].window, counter, reset);
      assert slots[..] == was[i := Slot(uid, v.window, if ok then now else was[i].lastMs, true)];
      TakenKeepsConsistent(was, old(epochs), slots[..], epochs, uid, counter, now, i, reset, ok);
    }

    method Decrypt(buf: array<Byte>, len: nat, now: u32)
      returns (ok: bool, outLen: nat, ghost i: nat, ghost reset: bool)
      requires Valid() && buf != aes.rk && len <= buf.Length
      modifies this`badTag, this`replay, this`lastRejectReplay, this`epochs, slots, buf
      ensures Valid() && i < Peers.MAX_PEERS
      ensures buf[len..] == old(buf[len..])
      ensures old(BadTag(buf[..len])) ==>
                && !ok && !lastRejectReplay
                && badTag == Add32(old(badTag), 1) && replay == old(replay)
                && slots[..] == old(slots[..]) && epochs == old(epochs)
      ensures !old(BadTag(buf[..len])) ==>
                var frame := old(buf[..len]);
                && Taken(old(slots[..]), old(epochs), slots[..], epochs, UidOf(frame), CounterOf(frame), now, i, reset, ok)
                && lastRejectReplay == !ok
                && badTag == old(badTag) && replay == (if ok then old(replay) else Add32(old(replay), 1))
                && (ok ==> outLen == len - FRAME_OVERHEAD
                           && Accepted(buf[..outLen]) == old(OpenFrame(E(), buf[..len])))
    {
      hide Le, FromLe, Taken, OpenFrame, Consistent;
      lastRejectReplay := false;
      outLen, i, reset := 0, 0, false;
      if len < FRAME_HEADER_LEN + FRAME_TAG_LEN {
        badTag := Add32(badTag, 1);
        return false, outLen, i, reset;
      }
      ghost var frame := buf[..len];
      var uid, q := GetU32(buf, 2);
      var counter;
      counter, q := GetU32(buf, 6);
      assert frame[2..6] == buf[2..6] && frame[6..10] == buf[6..10];
      ok := Authenticate(buf, len);
      if !ok {
        badTag := Add32(badTag, 1);
        return;
      }
      ok, i, reset := TakeCounter(uid, counter, now);
      if !ok {
        replay := Add32(replay, 1);
        lastRejectReplay := true;
        return;
      }
      var payloadLen := len - FRAME_HEADER_LEN - FRAME_TAG_LEN;
      ghost var packet := buf[..6] + buf[10..len - 6];
      ghost var rest := buf[len..];
      CloseGap(buf, payloadLen);
      outLen := 6 + payloadLen;
      assert buf[..outLen] == buf[..6] + buf[6..6 + payloadLen] == packet;
      assert buf[len..] == buf[6 + payloadLen..][10..] == rest;
    }
  }
}
