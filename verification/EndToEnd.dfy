/** A packet on its whole way: encoded, sealed in place, opened in place by another
    node, decoded. */
module EndToEnd {
  import opened ByteStrings
  import opened MachineWords
  import opened WireFormat
  import opened Aes
  import opened Ccm
  import opened Protocol
  import opened Replay
  import opened Crypto
  import Peers = PeerTable

  /** The receiver has no slot for this sender, or has only heard older counters. */
  ghost predicate NotYetHeard(slots: seq<Slot>, uid: u32, counter: u32)
  {
    forall k :: 0 <= k < |slots| && Tracks(slots[k], uid) ==> slots[k].window.high < counter
  }

  lemma NewCounterIsTaken(was: seq<Slot>, epochsWas: seq<Epoch>, slots: seq<Slot>, epochs: seq<Epoch>,
                          uid: u32, counter: u32, now: u32, i: nat, reset: bool, ok: bool)
    requires |was| == |epochsWas| == Peers.MAX_PEERS && i < Peers.MAX_PEERS
    requires Taken(was, epochsWas, slots, epochs, uid, counter, now, i, reset, ok)
    requires NotYetHeard(was, uid, counter)
    ensures ok
  {}

  lemma UidInPacket(kind: Byte, uid: u32, rest: Bytes)
    ensures U32At(HeaderBytes(kind, uid) + rest, 2) == uid
  {
    hide Le, ToByte;
    assert (HeaderBytes(kind, uid) + rest)[2..6] == HeaderBytes(kind, uid)[2..6] == Le(uid, 4);
    U32AtIs(HeaderBytes(kind, uid) + rest, 2, uid);
  }

  lemma PositionUid(p: PositionPacket)
    ensures U32At(PositionBytes(p), 2) == p.uid
  {
    hide Le, HeaderBytes, U32At;
    var rest := Le(ToU32(p.lat), 4) + Le(ToU32(p.lon), 4) + Le(ToU16(p.alt), 2)
                + Le(p.speed, 2) + Le(p.course, 2) + [p.flags];
    UidInPacket(POSITION, p.uid, rest);
    assert PositionBytes(p) == HeaderBytes(POSITION, p.uid) + rest;
  }

  lemma AnnounceUid(uid: u32, text: Bytes, capabilities: u32)
    requires |text| <= MAX_NAME_LEN
    ensures U32At(AnnounceBytes(uid, text, capabilities), 2) == uid
  {
    hide Le, HeaderBytes, U32At, ToByte;
    var rest := [ToByte(|text|)] + text + Le(capabilities, 4);
    UidInPacket(ANNOUNCE, uid, rest);
    assert AnnounceBytes(uid, text, capabilities) == HeaderBytes(ANNOUNCE, uid) + rest;
  }

  /** Sealing a packet and opening the frame at the other end. */
  method Deliver(tx: CcmCrypto, rx: CcmCrypto, buf: array<Byte>, len: nat, now: u32) returns (outLen: nat)
    requires tx != rx && tx.Valid() && rx.Valid() && tx.aes.Key() == rx.aes.Key()
    requires buf != tx.aes.rk && buf != rx.aes.rk
    requires 6 <= len < 0x1_0000 && len + FRAME_OVERHEAD <= buf.Length
    requires U32At(buf[..len], 2) == tx.uid
    requires NotYetHeard(rx.slots[..], tx.uid, Add32(tx.counter, 1))
    modifies tx`counter, rx`badTag, rx`replay, rx`lastRejectReplay, rx`epochs, rx.slots, buf
    ensures outLen == len && buf[..len] == old(buf[..len])
    ensures buf[len + FRAME_OVERHEAD..] == old(buf[len + FRAME_OVERHEAD..])
    ensures rx.Valid() && rx.badTag == old(rx.badTag) && rx.replay == old(rx.replay)
  {
    hide Le, FromLe, Frame, OpenFrame, Taken, CipherOf, Run, DistinctUids;
    ghost var packet := buf[..len];
    var n := tx.Encrypt(buf, len, buf.Length);
    FrameRoundTrip(tx.E(), tx.uid, tx.counter, packet);
    assert tx.E() == rx.E();
    assert !rx.BadTag(buf[..n]);
    ghost var was, epochsWas := rx.slots[..], rx.epochs;
    var ok;
    ghost var i, reset;
    ok, outLen, i, reset := rx.Decrypt(buf, n, now);
    NewCounterIsTaken(was, epochsWas, rx.slots[..], rx.epochs, tx.uid, tx.counter, now, i, reset, ok);
  }

  /** Every position packet arrives as it was sent. */
  method DeliverPosition(tx: CcmCrypto, rx: CcmCrypto, buf: array<Byte>, p: PositionPacket, now: u32)
    returns (r: DecodeResult, received: PositionPacket)
    requires tx != rx && tx.Valid() && rx.Valid() && tx.aes.Key() == rx.aes.Key()
    requires buf != tx.aes.rk && buf != rx.aes.rk
    requires POSITION_PACKET_SIZE + FRAME_OVERHEAD <= buf.Length && p.uid == tx.uid
    requires NotYetHeard(rx.slots[..], tx.uid, Add32(tx.counter, 1))
    modifies tx`counter, rx`badTag, rx`replay, rx`lastRejectReplay, rx`epochs, rx.slots, buf
    ensures r == Ok && received == p
    ensures buf[31..] == old(buf[31..])
  {
    hide Le, FromLe, U32At, PositionBytes, ParsePosition, Consistent;
    var n := EncodePosition(p, buf, buf.Length);
    assert buf[..21] == PositionBytes(p);
    assert buf[31..] == buf[21..][10..] == old(buf[31..]);
    PositionUid(p);
    n := Deliver(tx, rx, buf, n, now);
    PositionCodecIsExact(buf[..n], p);
    r, received := DecodePosition(buf, n);
  }

  /** Every announcement arrives with its name up to the terminating zero. */
  method DeliverAnnounce(tx: CcmCrypto, rx: CcmCrypto, buf: array<Byte>, a: AnnouncePacket, prior: AnnouncePacket,
                         now: u32) returns (r: DecodeResult, received: AnnouncePacket)
    requires tx != rx && tx.Valid() && rx.Valid() && tx.aes.Key() == rx.aes.Key()
    requires buf != tx.aes.rk && buf != rx.aes.rk
    requires 26 + FRAME_OVERHEAD <= buf.Length && a.uid == tx.uid
    requires NotYetHeard(rx.slots[..], tx.uid, Add32(tx.counter, 1))
    modifies tx`counter, rx`badTag, rx`replay, rx`lastRejectReplay, rx`epochs, rx.slots, buf
    ensures r == Ok && received.uid == a.uid && received.capabilities == a.capabilities
    ensures Text(received.name) == Text(a.name)
    ensures buf[36..] == old(buf[36..])
  {
    hide Le, FromLe, U32At, AnnounceBytes, ParseAnnounce, Consistent;
    ghost var text := Text(a.name);
    var n := EncodeAnnounce(a, buf, buf.Length);
    assert buf[..n] == AnnounceBytes(a.uid, text, a.capabilities);
    assert buf[36..] == buf[n..][36 - n..] == old(buf[36..]);
    AnnounceUid(a.uid, text, a.capabilities);
    ghost var sealed := n + FRAME_OVERHEAD;
    n := Deliver(tx, rx, buf, n, now);
    assert buf[36..] == buf[sealed..][36 - sealed..];
    AnnounceCodecIsExact(buf[..n], Announcement(a.uid, text, a.capabilities));
    r, received := DecodeAnnounce(buf, n, prior);
    TextIsUnique(received.name, text);
  }
}
