/** What one node tells the air and what another makes of it: lib/ff_core/node.cpp,
    peer_table.cpp and follow.cpp taken together. */
module Delivery {
  import opened ByteStrings
  import opened MachineWords
  import opened WireFormat
  import Protocol
  import Crypto
  import Ccm
  import Log = FrameLog
  import Peers = PeerTable
  import Follow
  import EndToEnd
  import opened N = Node

  /** Both ends have no cipher, or the same key. */
  ghost predicate SameKey(tx: Cipher, rx: Cipher)
  {
    if tx == Clear then rx == Clear else rx.Keyed? && rx.E == tx.E
  }

  // ---- The flags of a beacon ---------------------------------------------------------------

  lemma BytesByValue()
    ensures ToByte(0) == Byte(0) && ToByte(1) == Byte(1) && ToByte(2) == Byte(2) && ToByte(3) == Byte(3)
  {
    hide ToByte;
    SameNat(ToByte(0), Byte(0));
    SameNat(ToByte(1), Byte(1));
    SameNat(ToByte(2), Byte(2));
    SameNat(ToByte(3), Byte(3));
  }

  /** The node is armed. */
  predicate IsArmed(flags: Byte)
  {
    flags.v & 1 != 0
  }

  lemma FixBits()
    ensures !Follow.HasFix(Byte(0)) && !Follow.HasFix(Byte(1)) && Follow.HasFix(Byte(2)) && Follow.HasFix(Byte(3))
    ensures !IsArmed(Byte(0)) && IsArmed(Byte(1)) && !IsArmed(Byte(2)) && IsArmed(Byte(3))
  {}

  lemma FlagsTell(loc: Location, uid: u32)
    ensures Follow.HasFix(Beacon(uid, loc).flags) <==> loc.valid
    ensures IsArmed(Beacon(uid, loc).flags) <==> loc.armed
  {
    hide ToByte, Follow.HasFix, IsArmed;
    BytesByValue();
    FixBits();
  }

  // ---- From the air into the table ------------------------------------------------------------

  /** The packet inside a frame that was sealed under the sender's own uid. */
  lemma PacketInside(c: Cipher, counter: u32, packet: Bytes)
    requires |packet| >= Protocol.HEADER_SIZE && (c.Keyed? ==> Protocol.U32At(packet, 2) == c.uid)
    ensures var f := Framed(c, counter, packet);
            c.Keyed? ==> Authentic(c, f) && Crypto.OpenFrame(c.E, f) == Ccm.Accepted(packet)
  {
    hide Crypto.Frame, Crypto.OpenFrame, Protocol.U32At;
    if c.Keyed? {
      Crypto.FrameRoundTrip(c.E, c.uid, counter, packet);
    }
  }

  /** A frame that is taken in as good carries this packet, which is then taken in. */
  lemma GoodIsTakenIn(n: Node, tx: Cipher, rx: Cipher, counter: u32, packet: Bytes, o: Outcome, now: u32, rssi: i16,
                      radio: nat, was: seq<Peers.Peer>, table: seq<Peers.Peer>)
    requires |packet| >= Protocol.HEADER_SIZE && (tx.Keyed? ==> Protocol.U32At(packet, 2) == tx.uid) && SameKey(tx, rx)
    requires n.Received(rx, Framed(tx, counter, packet), o, now, rssi, radio, was, table) && o.result == Log.Ok
    ensures n.TakenIn(packet, o, now, rssi, radio, was, table)
  {
    hide Framed, N.Authentic, Node.TakenIn, Protocol.U32At;
    PacketInside(tx, counter, packet);
    ClearIsPlain(tx, counter, packet);
    SameVerdict(tx, rx, Framed(tx, counter, packet));
  }

  lemma ClearIsPlain(c: Cipher, counter: u32, packet: Bytes)
    requires |packet| >= Protocol.HEADER_SIZE
    ensures c == Clear ==> Framed(c, counter, packet) == packet
  {}

  lemma SameVerdict(tx: Cipher, rx: Cipher, frame: Bytes)
    requires SameKey(tx, rx)
    ensures tx.Keyed? ==> (N.Authentic(tx, frame) <==> N.Authentic(rx, frame))
  {}

  lemma FoldedIn(was: seq<Peers.Peer>, table: seq<Peers.Peer>, uid: u32, p: Peers.Peer)
    requires Node.Into(was, table, uid, p)
    ensures Peers.Knows(table, uid) && Peers.Known(table)[uid] == p
  {
    hide Peers.Known, Peers.Knows;
  }

  /** A beacon taken in as good puts the location of its sender into the table: position,
      altitude, speed and course, whether it has a fix and is armed, and when it was heard. */
  lemma BeaconArrives(n: Node, tx: Cipher, rx: Cipher, counter: u32, uid: u32, loc: Location, o: Outcome, now: u32,
                      rssi: i16, radio: nat, was: seq<Peers.Peer>, table: seq<Peers.Peer>)
    requires SameKey(tx, rx) && (tx.Keyed? ==> tx.uid == uid)
    requires n.Received(rx, Framed(tx, counter, Protocol.PositionBytes(Beacon(uid, loc))), o, now, rssi, radio, was, table)
    requires o.result == Log.Ok
    ensures o.from == uid != n.uid && Peers.Knows(table, uid)
    ensures var p := Peers.Known(table)[uid];
            && p.uid == uid && p.valid
            && p.lat == loc.lat && p.lon == loc.lon && p.alt == loc.alt && p.speed == loc.speed && p.course == loc.course
            && (Follow.HasFix(p.flags) <==> loc.valid) && (IsArmed(p.flags) <==> loc.armed)
            && p.lastUpdate == now && p.lastPosition == now && (rssi != 0 ==> p.rssi == rssi)
            && (radio < Peers.MAX_RADIOS ==> p.radiosSeen[radio] && p.lastSeenOn[radio] == now)
            && (if Peers.Knows(was, uid) then
                  var q := Peers.Known(was)[uid];
                  && p.packetsReceived == Add32(q.packetsReceived, 1) && (rssi == 0 ==> p.rssi == q.rssi)
                  && p.name == q.name && p.capabilities == q.capabilities
                else p.packetsReceived == 1)
  {
    hide Node.Received, Protocol.U32At, Protocol.PositionBytes, Protocol.ParsePosition, Peers.Known, Peers.Knows,
         Node.Into, Framed, Follow.HasFix, IsArmed;
    var packet, sent := Protocol.PositionBytes(Beacon(uid, loc)), Beacon(uid, loc);
    EndToEnd.PositionUid(sent);
    GoodIsTakenIn(n, tx, rx, counter, packet, o, now, rssi, radio, was, table);
    Protocol.PositionCodecIsExact(packet, sent);
    PositionKind(sent);
    FoldedIn(was, table, uid, Peers.WithPosition(Node.Before(was, uid), sent, now, rssi, radio));
    BeforeHasUid(was, uid);
    FlagsTell(loc, uid);
  }

  lemma PositionKind(p: Protocol.PositionPacket)
    ensures Protocol.PositionBytes(p)[1] == Protocol.POSITION
  {}

  lemma BeforeHasUid(was: seq<Peers.Peer>, uid: u32)
    ensures var p := Node.Before(was, uid); p.uid == uid && p.valid
  {}

  /** Whether it may be followed later on depends on its fix and its age alone. */
  lemma BeaconMayBeFollowed(n: Node, tx: Cipher, rx: Cipher, counter: u32, uid: u32, loc: Location, o: Outcome, now: u32,
                            rssi: i16, radio: nat, was: seq<Peers.Peer>, table: seq<Peers.Peer>, later: u32, timeout: u32)
    requires SameKey(tx, rx) && (tx.Keyed? ==> tx.uid == uid)
    requires n.Received(rx, Framed(tx, counter, Protocol.PositionBytes(Beacon(uid, loc))), o, now, rssi, radio, was, table)
    requires o.result == Log.Ok
    ensures Peers.Knows(table, uid)
    ensures Follow.Followable(Peers.Known(table)[uid], later, timeout) <==> loc.valid && Sub32(later, now) <= timeout
  {
    hide Node.Received, Peers.Known, Peers.Knows, Framed, Follow.HasFix, Protocol.PositionBytes, Beacon;
    BeaconArrives(n, tx, rx, counter, uid, loc, o, now, rssi, radio, was, table);
  }

  /** An announcement taken in as good puts name and capabilities of its sender into the
      table, and nothing of where it was. */
  lemma AnnounceArrives(n: Node, tx: Cipher, rx: Cipher, counter: u32, uid: u32, text: Bytes, capabilities: u32,
                        o: Outcome, now: u32, rssi: i16, radio: nat, was: seq<Peers.Peer>, table: seq<Peers.Peer>)
    requires |text| <= Protocol.MAX_NAME_LEN && ZERO !in text
    requires SameKey(tx, rx) && (tx.Keyed? ==> tx.uid == uid)
    requires n.Received(rx, Framed(tx, counter, Protocol.AnnounceBytes(uid, text, capabilities)), o, now, rssi, radio, was, table)
    requires o.result == Log.Ok
    ensures o.from == uid != n.uid && Peers.Knows(table, uid)
    ensures var p := Peers.Known(table)[uid];
            && p.uid == uid && p.valid && Protocol.Text(p.name) == text && p.capabilities == capabilities
            && p.lastUpdate == now
            && (radio < Peers.MAX_RADIOS ==> p.radiosSeen[radio] && p.lastSeenOn[radio] == now)
            && (if Peers.Knows(was, uid) then
                  var q := Peers.Known(was)[uid];
                  && p.packetsReceived == Add32(q.packetsReceived, 1) && p.rssi == q.rssi
                  && p.lat == q.lat && p.lon == q.lon && p.alt == q.alt && p.speed == q.speed && p.course == q.course
                  && p.flags == q.flags
                  && p.lastPosition == q.lastPosition
                else p.packetsReceived == 1 && !Follow.HasFix(p.flags))
  {
    hide Node.Received, Protocol.U32At, Protocol.AnnounceBytes, Protocol.ParseAnnounce, Protocol.Text, Peers.Known,
         Peers.Knows, Node.Into, Framed;
    var packet, a := Protocol.AnnounceBytes(uid, text, capabilities), Protocol.Announcement(uid, text, capabilities);
    EndToEnd.AnnounceUid(uid, text, capabilities);
    GoodIsTakenIn(n, tx, rx, counter, packet, o, now, rssi, radio, was, table);
    Protocol.AnnounceCodecIsExact(packet, a);
    AnnounceKind(uid, text, capabilities);
    FoldedIn(was, table, uid, Peers.WithAnnounce(Node.Before(was, uid), Node.Plain(a), now, radio));
    BeforeHasUid(was, uid);
    PlainText(a);
    Renamed(Node.Before(was, uid).name, Node.Plain(a).name);
    assert !Follow.HasFix(ZERO);
  }

  lemma AnnounceKind(uid: u32, text: Bytes, capabilities: u32)
    requires |text| <= Protocol.MAX_NAME_LEN
    ensures Protocol.AnnounceBytes(uid, text, capabilities)[1] == Protocol.ANNOUNCE != Protocol.POSITION
  {
    assert ToNat(Protocol.ANNOUNCE) == 2 && ToNat(Protocol.POSITION) == 1;
  }

  lemma PlainText(a: Protocol.Announcement)
    requires |a.text| <= Protocol.MAX_NAME_LEN && ZERO !in a.text
    ensures Protocol.Text(Node.Plain(a).name) == a.text
  {
    hide Protocol.Text;
    Protocol.TextIsUnique(Node.Plain(a).name, a.text);
  }

  /** The entry's name has the text that was announced. */
  lemma Renamed(name: Protocol.Name, announced: Protocol.Name)
    ensures Protocol.Text(Peers.Renamed(name, announced)) == Protocol.Text(announced)
  {
    hide Protocol.Text;
    var text := Protocol.Text(announced);
    Protocol.TextIsUnique(Peers.Renamed(name, announced), text);
  }

  // ---- What is taken in, and what is not --------------------------------------------------------

  /** A beacon sealed under the receiver's key is its own, a repetition, or good. */
  lemma BeaconIsTaken(n: Node, tx: Cipher, rx: Cipher, counter: u32, uid: u32, loc: Location, o: Outcome, now: u32,
                      rssi: i16, radio: nat, was: seq<Peers.Peer>, table: seq<Peers.Peer>)
    requires SameKey(tx, rx) && (tx.Keyed? ==> tx.uid == uid)
    requires n.Received(rx, Framed(tx, counter, Protocol.PositionBytes(Beacon(uid, loc))), o, now, rssi, radio, was, table)
    ensures if o.result == Log.ReplayFail then rx.Keyed? && table == was
            else o.from == uid && o.kind == 1 && o.result == if uid == n.uid then Log.Self else Log.Ok
  {
    hide Protocol.U32At, Protocol.PositionBytes, Protocol.ParsePosition, Protocol.Triage, Node.Into, Framed, N.Authentic;
    var packet, sent := Protocol.PositionBytes(Beacon(uid, loc)), Beacon(uid, loc);
    EndToEnd.PositionUid(sent);
    PacketInside(tx, counter, packet);
    ClearIsPlain(tx, counter, packet);
    SameVerdict(tx, rx, Framed(tx, counter, packet));
    FrameLength(tx, counter, packet);
    Protocol.PositionCodecIsExact(packet, sent);
    PositionKind(sent);
    PassesTriage(packet, sent);
    assert ToNat(Protocol.POSITION) == 1;
  }

  lemma PassesTriage(s: Bytes, p: Protocol.PositionPacket)
    requires Protocol.ParsePosition(s) == Protocol.Decoded(p)
    ensures Protocol.Triage(s) == Protocol.Ok && |s| >= 6 && s[1] == Protocol.POSITION && Protocol.U32At(s, 2) == p.uid
  {
    hide Protocol.U32At, Protocol.U16At;
  }

  lemma FrameLength(c: Cipher, counter: u32, packet: Bytes)
    requires |packet| >= Protocol.HEADER_SIZE
    ensures |packet| <= |Framed(c, counter, packet)| <= |packet| + 10
  {}

  /** A node with a cipher takes nothing in that was not sealed under its key, by the node and
      under the counter that the frame names; and whatever it refuses leaves its table alone. */
  lemma GoodWasSealed(n: Node, rx: Cipher, frame: Bytes, o: Outcome, now: u32, rssi: i16, radio: nat,
                      was: seq<Peers.Peer>, table: seq<Peers.Peer>) returns (packet: Bytes)
    requires rx.Keyed? && n.Received(rx, frame, o, now, rssi, radio, was, table)
    requires o.result == Log.Ok || table != was
    ensures o.result == Log.Ok && |frame| >= Crypto.FRAME_HEADER_LEN && |packet| >= Protocol.HEADER_SIZE
    ensures frame == Crypto.Frame(rx.E, o.from, Crypto.CounterOf(frame), packet) && Crypto.UidOf(frame) == o.from
    ensures o.from == Protocol.U32At(packet, 2) != n.uid
  {
    hide Protocol.U32At, Protocol.ParsePosition, Protocol.ParseAnnounce, Node.Into, Crypto.Frame, Ccm.Open;
    packet := Crypto.OpenFrame(rx.E, frame).data;
    Crypto.FrameCodecIsExact(rx.E, frame, packet);
    assert packet[..6] == frame[..6];
    SameUid(packet, frame);
  }

  lemma SameUid(packet: Bytes, frame: Bytes)
    requires |packet| >= 6 && |frame| >= 6 && packet[..6] == frame[..6]
    ensures Protocol.U32At(packet, 2) == Protocol.U32At(frame, 2)
  {
    hide FromLe;
    assert packet[2..6] == packet[..6][2..6] == frame[..6][2..6] == frame[2..6];
  }
}
