/** The frame path of lib/ff_core/node.cpp: what a node receives, sends, logs and
    shows on the radar. */
module Node {
  import opened ByteStrings
  import opened MachineWords
  import opened WireFormat
  import Protocol
  import Crypto
  import Ccm
  import CcmBinding
  import Log = FrameLog
  import Peers = PeerTable
  import Radar

  const MAX_RX_FRAME: nat := 64

  datatype Stats = Stats(beaconsSent: u32, announcesSent: u32, rxOk: u32, rxRejected: u32, rxSelf: u32, lastTx: u32)

  datatype RadioStats = RadioStats(tx: u32, rxOk: u32, rxCryptoFail: u32, rxReplay: u32, rxDecodeFail: u32,
                                   rxSelf: u32, lastRx: u32, lastRssi: i16)

  const NO_RADIO_STATS := RadioStats(0, 0, 0, 0, 0, 0, 0, 0)

  datatype Location = Location(valid: bool, armed: bool, lat: i32, lon: i32, alt: i16, speed: u16, course: u16)

  /** A frame handed to a radio. */
  datatype Transmission = Transmission(radio: nat, frame: Bytes)

  /** A peer handed to the radar output, under its table position counted from 1. */
  datatype Blip = NoBlip | Blip(slotId: nat, peer: Peers.Peer)

  /** What became of a received frame, as it is logged: the verdict, the sender and the
      packet kind, 0 where they are not known. */
  datatype Outcome = Outcome(result: Log.FrameResult, from: u32, kind: u8)

  function SentOn(r: RadioStats): (t: RadioStats)
  {
    r.(tx := Add32(r.tx, 1))
  }

  /** How a transmission is logged. */
  function TxEntry(now: u32, uid: u32, kind: u8, t: Transmission): (e: Log.Entry)
  {
    Log.Entry(now, uid, |t.frame| % 0x1_0000, 0, t.radio % 0x100, kind, Log.Tx)
  }

  function Entries(now: u32, uid: u32, kind: u8, out: seq<Transmission>): (es: seq<Log.Entry>)
    ensures |es| == |out|
  {
    if out == [] then []
    else Entries(now, uid, kind, out[..|out| - 1]) + [TxEntry(now, uid, kind, out[|out| - 1])]
  }

  const FLAG_ARMED: nat := 1
  const FLAG_HAS_FIX: nat := 2

  /** The position packet a node makes of its own location. */
  function Beacon(uid: u32, loc: Location): (p: Protocol.PositionPacket)
  {
    var flags := (if loc.valid then FLAG_HAS_FIX else 0) + (if loc.armed then FLAG_ARMED else 0);
    Protocol.PositionPacket(uid, loc.lat, loc.lon, loc.alt, loc.speed, loc.course, ToByte(flags))
  }

  datatype Cipher = Clear | Keyed(E: Ccm.BlockCipher, uid: u32)

  /** A packet as it goes on the air under this counter. */
  ghost function Framed(c: Cipher, counter: u32, packet: Bytes): (frame: Bytes)
    requires |packet| >= Protocol.HEADER_SIZE
  {
    if c == Clear then packet else Crypto.Frame(c.E, c.uid, counter, packet)
  }

  ghost predicate Authentic(c: Cipher, frame: Bytes)
    requires c.Keyed?
  {
    && |frame| >= Crypto.FRAME_HEADER_LEN + Crypto.FRAME_TAG_LEN
    && Crypto.OpenFrame(c.E, frame) != Ccm.Rejected
  }

  function Touched(radios: seq<RadioStats>, radio: nat, nowMs: u32, rssi: i16): (r: seq<RadioStats>)
    requires |radios| == Peers.MAX_RADIOS
  {
    var i := Node.RadioSlot(radio);
    radios[i := radios[i].(lastRx := nowMs, lastRssi := rssi)]
  }

  class Node {
    const uid: u32
    const name: Protocol.Name
    const capabilities: u32
    const crypto: Crypto.CcmCrypto?
    const peers: Peers.PeerTable
    const frames: Log.FrameLog
    const radioStats: array<RadioStats>
    const radioCount: nat
    var now: u32
    var stats: Stats
    var radarCursor: nat
    /** Every call of `OnReceive`, and every frame handed to a radio. */
    ghost var receiveCalls: nat
    ghost var sent: seq<Transmission>
    /** The counter of the cipher when the node was made. */
    ghost const first: u32

    ghost predicate Sized()
    {
      radioStats.Length == Peers.MAX_RADIOS && radioCount <= Peers.MAX_RADIOS
    }

    ghost predicate Shape()
      reads `radarCursor, peers.peers, frames, frames.entries
      reads if crypto == null then {} else {crypto, crypto.aes, crypto.aes.rk, crypto.slots}
    {
      && peers.Valid() && frames.Valid()
      && (crypto != null ==> crypto.Valid())
      && Sized()
      && radarCursor < Radar.SLOTS
    }

    /** Nothing goes unlogged and nothing uncounted: the log holds one entry for each
        receive call and each transmission, and every receive call is counted as good,
        rejected or our own. */
    ghost predicate Valid()
      reads this, peers, peers.peers, frames, frames.entries, radioStats
      reads if crypto == null then {} else {crypto, crypto.aes, crypto.aes.rk, crypto.slots}
    {
      && Sized() && Shape()
      && |frames.kept| + frames.dropped == receiveCalls + |sent|
      && (stats.rxOk + stats.rxRejected + stats.rxSelf - receiveCalls) % TWO32 == 0
      && Numbered()
    }

    /** With a cipher, the frames sent since the node was made carry one counter after the
        other. */
    ghost predicate Numbered()
      reads `sent
      reads if crypto == null then {} else {crypto, crypto.aes, crypto.aes.rk}
    {
      crypto != null ==>
        && crypto.aes.rk.Length == 176
        && crypto.counter == After(first, |sent|) && InSequence(Key(), sent, first)
    }

    constructor (uid: u32, name: Protocol.Name, capabilities: u32, peerTimeout: u32, radioCount: nat,
                 crypto: Crypto.CcmCrypto?)
      requires crypto != null ==> crypto.Valid()
      ensures Valid() && sent == [] && receiveCalls == 0
      ensures fresh(peers) && fresh(peers.peers) && fresh(frames) && fresh(frames.entries) && fresh(radioStats)
      ensures this.uid == uid && this.crypto == crypto
    {
      this.uid, this.name, this.capabilities := uid, name, capabilities;
      this.crypto := crypto;
      peers := new Peers.PeerTable(peerTimeout);
      frames := new Log.FrameLog();
      radioStats := new RadioStats[Peers.MAX_RADIOS](i => NO_RADIO_STATS);
      this.radioCount := if radioCount > Peers.MAX_RADIOS then Peers.MAX_RADIOS else radioCount;
      now, stats, radarCursor := 0, Stats(0, 0, 0, 0, 0, 0), 0;
      receiveCalls, sent := 0, [];
      first := if crypto == null then 0 else crypto.counter;
    }

    method LogFrame(radio: nat, uid: u32, len: nat, rssi: i16, kind: u8, result: Log.FrameResult)
      requires frames.Valid()
      modifies frames, frames.entries
      ensures frames.Valid() && frames.dropped == old(frames.dropped)
      ensures frames.kept == old(frames.kept) + [Log.Entry(now, uid, len % 0x1_0000, rssi, radio % 0x100, kind, result)]
    {
      frames.Add(Log.Entry(now, uid, len % 0x1_0000, rssi, radio % 0x100, kind, result));
    }

    /** Which counter of the node a received frame goes to. */
    static function Counted(s: Stats, result: Log.FrameResult): (t: Stats)
    {
      match result
      case Ok => s.(rxOk := Add32(s.rxOk, 1))
      case Self => s.(rxSelf := Add32(s.rxSelf, 1))
      case _ => s.(rxRejected := Add32(s.rxRejected, 1))
    }

    /** Which counter of the radio. */
    static function CountedOn(r: RadioStats, result: Log.FrameResult): (t: RadioStats)
    {
      match result
      case Ok => r.(rxOk := Add32(r.rxOk, 1))
      case Self => r.(rxSelf := Add32(r.rxSelf, 1))
      case CryptoFail => r.(rxCryptoFail := Add32(r.rxCryptoFail, 1))
      case ReplayFail => r.(rxReplay := Add32(r.rxReplay, 1))
      case _ => r.(rxDecodeFail := Add32(r.rxDecodeFail, 1))
    }

    /** Every received frame is counted once, as good, rejected or our own. */
    static lemma CountedOnce(s: Stats, result: Log.FrameResult, calls: nat)
      requires (s.rxOk + s.rxRejected + s.rxSelf - calls) % TWO32 == 0
      ensures var t := Counted(s, result); (t.rxOk + t.rxRejected + t.rxSelf - (calls + 1)) % TWO32 == 0
    {
      var t := Counted(s, result);
      var before, after := s.rxOk + s.rxRejected + s.rxSelf - calls, t.rxOk + t.rxRejected + t.rxSelf - (calls + 1);
      assert after == before || after == before - TWO32;
    }

    static function RadioSlot(radio: nat): (i: nat)
      ensures i < Peers.MAX_RADIOS
    {
      if radio < Peers.MAX_RADIOS then radio else 0
    }

    /** The books are closed on one received frame: the counter of its outcome goes up
        on the node and on the radio, and one entry is logged. */
    ghost predicate Accounted(was: Stats, radiosWas: seq<RadioStats>, keptWas: seq<Log.Entry>, droppedWas: nat,
                                 radio: nat, len: nat, rssi: i16, o: Outcome)
      reads this, radioStats, frames, frames.entries
    {
      && frames.Valid() && frames.dropped == droppedWas
      && frames.kept == keptWas + [Log.Entry(now, o.from, len % 0x1_0000, rssi, radio % 0x100, o.kind, o.result)]
      && stats == Counted(was, o.result)
      && |radiosWas| == Peers.MAX_RADIOS
      && radioStats[..] == radiosWas[RadioSlot(radio) := CountedOn(radiosWas[RadioSlot(radio)], o.result)]
    }

    method Account(radio: nat, uid: u32, len: nat, rssi: i16, kind: u8, result: Log.FrameResult) returns (ghost o: Outcome)
      requires frames.Valid() && radioStats.Length == Peers.MAX_RADIOS
      modifies this`stats, frames, frames.entries, radioStats
      ensures o == Outcome(result, uid, kind) && frames.Valid()
      ensures Accounted(old(stats), old(radioStats[..]), old(frames.kept), old(frames.dropped), radio, len, rssi, o)
    {
      stats := Counted(stats, result);
      radioStats[RadioSlot(radio)] := CountedOn(radioStats[RadioSlot(radio)], result);
      LogFrame(radio, uid, len, rssi, kind, result);
      o := Outcome(result, uid, kind);
    }

    /** What the node makes of the bytes of a packet: the verdict that is logged and the
        peer table afterwards. */
    ghost predicate TakenIn(plain: Bytes, o: Outcome, nowMs: u32, rssi: i16, radio: nat,
                            was: seq<Peers.Peer>, table: seq<Peers.Peer>)
    {
      if Protocol.Triage(plain) != Protocol.Ok then o == Outcome(Log.DecodeFail, 0, 0) && table == was
      else
        && o.from == Protocol.U32At(plain, 2) && o.kind == ToNat(plain[1])
        && if o.from == uid then o.result == Log.Self && table == was
           else if plain[1] == Protocol.POSITION then
             match Protocol.ParsePosition(plain)
             case Decoded(p) =>
               o.result == Log.Ok && Into(was, table, o.from, Peers.WithPosition(Before(was, o.from), p, nowMs, rssi, radio))
             case Refused(_) => o.result == Log.DecodeFail && table == was
           else
             match Protocol.ParseAnnounce(plain)
             case Decoded(a) =>
               o.result == Log.Ok && AnnouncedInto(was, table, a, nowMs, radio)
             case Refused(_) => o.result == Log.DecodeFail && table == was
    }

    static ghost function Before(was: seq<Peers.Peer>, from: u32): Peers.Peer
    {
      if Peers.Knows(was, from) then Peers.Known(was)[from] else Peers.NewPeer(from)
    }

    static ghost predicate Into(was: seq<Peers.Peer>, table: seq<Peers.Peer>, from: u32, p: Peers.Peer)
    {
      Peers.PeerTable.Folded(Peers.Known(was), Peers.Full(was), Peers.Known(table), from, p)
    }

    static ghost predicate AnnouncedInto(was: seq<Peers.Peer>, table: seq<Peers.Peer>, a: Protocol.Announcement,
                                         nowMs: u32, radio: nat)
      requires |a.text| <= Protocol.MAX_NAME_LEN
    {
      Into(was, table, a.uid, Peers.WithAnnounce(Before(was, a.uid), Plain(a), nowMs, radio))
    }

    /** An announcement in a cleared packet. */
    static ghost function Plain(a: Protocol.Announcement): (p: Protocol.AnnouncePacket)
      requires |a.text| <= Protocol.MAX_NAME_LEN
    {
      Protocol.AnnouncePacket(a.uid, a.text + [ZERO] + Zeros(Protocol.MAX_NAME_LEN - |a.text|), a.capabilities)
    }

    /** What the packet held behind the terminating zero does not matter. */
    static lemma PlainWillDo(a: Protocol.Announcement, packet: Protocol.AnnouncePacket, p: Peers.Peer, nowMs: u32, radio: nat)
      requires |a.text| <= Protocol.MAX_NAME_LEN && packet.uid == a.uid && packet.capabilities == a.capabilities
      requires a.text + [ZERO] <= packet.name
      ensures Peers.WithAnnounce(p, packet, nowMs, radio) == Peers.WithAnnounce(p, Plain(a), nowMs, radio)
    {
      hide Protocol.Text;
      var text, zero := Protocol.Text(packet.name), |a.text|;
      assert packet.name[zero] == ZERO;
      assert forall i :: 0 <= i < |text| ==> packet.name[i] == text[i] && text[i] != ZERO;
      assert |text| <= zero;
      assert forall i :: 0 <= i <= zero ==> Plain(a).name[i] == packet.name[i];
      Protocol.TextIsUnique(Plain(a).name, text);
    }

    /** The plaintext half of `OnReceive`. */
    method TakeIn(buf: array<Byte>, plainLen: nat, len: nat, nowMs: u32, rssi: i16, radio: nat)
      returns (ghost o: Outcome)
      requires peers.Valid() && frames.Valid() && radioStats.Length == Peers.MAX_RADIOS && plainLen <= buf.Length
      modifies this`stats, peers.peers, frames, frames.entries, radioStats
      ensures peers.Valid() && frames.Valid() && o.result in {Log.Ok, Log.Self, Log.DecodeFail}
      ensures Accounted(old(stats), old(radioStats[..]), old(frames.kept), old(frames.dropped), radio, len, rssi, o)
      ensures TakenIn(old(buf[..plainLen]), o, nowMs, rssi, radio, old(peers.peers[..]), peers.peers[..])
    {
      hide Protocol.U32At, Protocol.ParsePosition, Protocol.ParseAnnounce, Peers.Known, Peers.Knows,
           Peers.PeerTable.Folded, Peers.WithPosition, Peers.WithAnnounce, Counted, CountedOn;
      var r, kind, sender := Protocol.PeekHeader(buf, plainLen);
      if r != Protocol.Ok {
        o := Account(radio, 0, len, rssi, 0, Log.DecodeFail);
      } else if sender == uid {
        o := Account(radio, sender, len, rssi, ToNat(kind), Log.Self);
      } else if kind == Protocol.POSITION {
        o := TakePosition(buf, plainLen, len, nowMs, rssi, radio, sender, kind);
      } else {
        o := TakeAnnounce(buf, plainLen, len, nowMs, rssi, radio, sender, kind);
      }
    }

    method TakePosition(buf: array<Byte>, plainLen: nat, len: nat, nowMs: u32, rssi: i16, radio: nat,
                        sender: u32, kind: Byte)
      returns (ghost o: Outcome)
      requires peers.Valid() && frames.Valid() && radioStats.Length == Peers.MAX_RADIOS && plainLen <= buf.Length
      requires Protocol.Triage(buf[..plainLen]) == Protocol.Ok && sender == Protocol.U32At(buf[..plainLen], 2) != uid
      requires kind == buf[1] == Protocol.POSITION
      modifies this`stats, peers.peers, frames, frames.entries, radioStats
      ensures peers.Valid() && frames.Valid() && o.result in {Log.Ok, Log.Self, Log.DecodeFail}
      ensures Accounted(old(stats), old(radioStats[..]), old(frames.kept), old(frames.dropped), radio, len, rssi, o)
      ensures TakenIn(old(buf[..plainLen]), o, nowMs, rssi, radio, old(peers.peers[..]), peers.peers[..])
    {
      hide Protocol.U32At, Peers.Known, Peers.Knows, Peers.PeerTable.Folded, Peers.WithPosition, Counted, CountedOn;
      var verdict, packet := Protocol.DecodePosition(buf, plainLen);
      if verdict != Protocol.Ok {
        o := Account(radio, sender, len, rssi, ToNat(kind), Log.DecodeFail);
        return;
      }
      var i := peers.UpdatePosition(packet, nowMs, rssi, radio);
      o := Account(radio, sender, len, rssi, ToNat(kind), Log.Ok);
    }

    method TakeAnnounce(buf: array<Byte>, plainLen: nat, len: nat, nowMs: u32, rssi: i16, radio: nat,
                        sender: u32, kind: Byte)
      returns (ghost o: Outcome)
      requires peers.Valid() && frames.Valid() && radioStats.Length == Peers.MAX_RADIOS && plainLen <= buf.Length
      requires Protocol.Triage(buf[..plainLen]) == Protocol.Ok && sender == Protocol.U32At(buf[..plainLen], 2) != uid
      requires kind == buf[1] != Protocol.POSITION
      modifies this`stats, peers.peers, frames, frames.entries, radioStats
      ensures peers.Valid() && frames.Valid() && o.result in {Log.Ok, Log.Self, Log.DecodeFail}
      ensures Accounted(old(stats), old(radioStats[..]), old(frames.kept), old(frames.dropped), radio, len, rssi, o)
      ensures TakenIn(old(buf[..plainLen]), o, nowMs, rssi, radio, old(peers.peers[..]), peers.peers[..])
    {
      hide Protocol.U32At, Peers.Known, Peers.Knows, Peers.PeerTable.Folded, Peers.WithAnnounce, Counted, CountedOn, Plain;
      // the packet starts out with whatever is on the stack
      var prior: Protocol.AnnouncePacket := *;
      var verdict, packet := Protocol.DecodeAnnounce(buf, plainLen, prior);
      if verdict != Protocol.Ok {
        o := Account(radio, sender, len, rssi, ToNat(kind), Log.DecodeFail);
        return;
      }
      ghost var a, was := Protocol.ParseAnnounce(buf[..plainLen]).packet, peers.peers[..];
      PlainWillDo(a, packet, Before(was, a.uid), nowMs, radio);
      var i := peers.UpdateAnnounce(packet, nowMs, radio);
      o := Account(radio, sender, len, rssi, ToNat(kind), Log.Ok);
    }

    ghost function Key(): (c: Cipher)
      reads if crypto == null then {} else {crypto, crypto.aes, crypto.aes.rk}
      requires crypto != null ==> crypto.aes.rk.Length == 176
    {
      if crypto == null then Clear else Keyed(crypto.E(), crypto.uid)
    }

    /** What a frame off the air becomes: the checks in their order. */
    ghost predicate Received(c: Cipher, frame: Bytes, o: Outcome, nowMs: u32, rssi: i16, radio: nat,
                             was: seq<Peers.Peer>, table: seq<Peers.Peer>)
    {
      if |frame| == 0 || |frame| > MAX_RX_FRAME then o == Outcome(Log.Oversize, 0, 0) && table == was
      else if c == Clear then TakenIn(frame, o, nowMs, rssi, radio, was, table)
      else if !Authentic(c, frame) then o == Outcome(Log.CryptoFail, 0, 0) && table == was
      else if o.result == Log.ReplayFail then o == Outcome(Log.ReplayFail, 0, 0) && table == was
      else TakenIn(Crypto.OpenFrame(c.E, frame).data, o, nowMs, rssi, radio, was, table)
    }

    method OnReceive(data: Bytes, nowMs: u32, rssi: i16, radio: nat)
      returns (ghost o: Outcome, ghost i: nat, ghost reset: bool)
      requires Valid()
      modifies this`stats, this`receiveCalls, peers.peers, frames, frames.entries, radioStats
      modifies if crypto == null then {} else {crypto, crypto.slots}
      ensures Valid() && receiveCalls == old(receiveCalls) + 1
      ensures Key() == old(Key())
      ensures Accounted(old(stats), Touched(old(radioStats[..]), radio, nowMs, rssi), old(frames.kept),
                        old(frames.dropped), radio, |data|, rssi, o)
      ensures Received(Key(), data, o, nowMs, rssi, radio, old(peers.peers[..]), peers.peers[..])
      ensures crypto != null && 0 < |data| <= MAX_RX_FRAME && Authentic(Key(), data) ==>
                && i < Peers.MAX_PEERS
                && Crypto.Taken(old(crypto.slots[..]), old(crypto.epochs), crypto.slots[..], crypto.epochs,
                                Crypto.UidOf(data), Crypto.CounterOf(data), nowMs, i, reset, o.result != Log.ReplayFail)
    {
      hide Shape, Received, Authentic, Crypto.Taken, Counted, CountedOn, Crypto.UidOf, Crypto.CounterOf, InSequence;
      var rs := RadioSlot(radio);
      radioStats[rs] := radioStats[rs].(lastRx := nowMs, lastRssi := rssi);
      receiveCalls := receiveCalls + 1;
      o, i, reset := Handle(data, nowMs, rssi, radio);
      CountedOnce(old(stats), o.result, old(receiveCalls));
    }

    /** The checks of `OnReceive`. */
    method Handle(data: Bytes, nowMs: u32, rssi: i16, radio: nat)
      returns (ghost o: Outcome, ghost i: nat, ghost reset: bool)
      requires Shape()
      modifies this`stats, peers.peers, frames, frames.entries, radioStats
      modifies if crypto == null then {} else {crypto, crypto.slots}
      ensures Shape()
      ensures Key() == old(Key()) && NextCounter() == old(NextCounter())
      ensures Accounted(old(stats), old(radioStats[..]), old(frames.kept), old(frames.dropped), radio, |data|, rssi, o)
      ensures Received(Key(), data, o, nowMs, rssi, radio, old(peers.peers[..]), peers.peers[..])
      ensures crypto != null && 0 < |data| <= MAX_RX_FRAME && Authentic(Key(), data) ==>
                && i < Peers.MAX_PEERS
                && Crypto.Taken(old(crypto.slots[..]), old(crypto.epochs), crypto.slots[..], crypto.epochs,
                                Crypto.UidOf(data), Crypto.CounterOf(data), nowMs, i, reset, o.result != Log.ReplayFail)
    {
      hide Crypto.Taken, Crypto.OpenFrame, Crypto.Consistent, Counted, CountedOn, TakenIn, Accounted,
           Crypto.UidOf, Crypto.CounterOf, Peers.DistinctUids;
      i, reset := 0, false;
      if |data| == 0 || |data| > MAX_RX_FRAME {
        o := Account(radio, 0, |data|, rssi, 0, Log.Oversize);
        return;
      }
      var buf := Copied(data);
      var verdict, plainLen;
      verdict, plainLen, i, reset := Unwrap(buf, |data|, nowMs);
      if verdict != Log.Ok {
        o := Account(radio, 0, |data|, rssi, 0, verdict);
      } else {
        o := TakeIn(buf, plainLen, |data|, nowMs, rssi, radio);
      }
    }

    static method Copied(data: Bytes) returns (buf: array<Byte>)
      requires |data| <= MAX_RX_FRAME
      ensures fresh(buf) && buf.Length == MAX_RX_FRAME && buf[..|data|] == data
    {
      buf := new Byte[MAX_RX_FRAME](k => ZERO);
      for k := 0 to |data|
        invariant buf[..k] == data[..k]
      {
        buf[k] := data[k];
      }
    }

    /** The cipher half of `OnReceive`. */
    method Unwrap(buf: array<Byte>, len: nat, nowMs: u32)
      returns (verdict: Log.FrameResult, plainLen: nat, ghost i: nat, ghost reset: bool)
      requires crypto != null ==> crypto.Valid() && buf != crypto.aes.rk
      requires len <= buf.Length && len <= MAX_RX_FRAME
      modifies buf, if crypto == null then {} else {crypto, crypto.slots}
      ensures crypto != null ==> crypto.Valid()
      ensures Key() == old(Key()) && NextCounter() == old(NextCounter()) && plainLen <= buf.Length
      ensures crypto == null ==> verdict == Log.Ok && plainLen == len && buf[..] == old(buf[..])
      ensures crypto != null && !Authentic(Key(), old(buf[..len])) ==> verdict == Log.CryptoFail
      ensures crypto != null && Authentic(Key(), old(buf[..len])) ==>
                && verdict in {Log.Ok, Log.ReplayFail}
                && (verdict == Log.Ok ==>
                      Ccm.Accepted(buf[..plainLen]) == Crypto.OpenFrame(crypto.E(), old(buf[..len])))
                && i < Peers.MAX_PEERS
                && Crypto.Taken(old(crypto.slots[..]), old(crypto.epochs), crypto.slots[..], crypto.epochs,
                                Crypto.UidOf(old(buf[..len])), Crypto.CounterOf(old(buf[..len])), nowMs, i, reset,
                                verdict == Log.Ok)
    {
      hide Crypto.Taken, Crypto.OpenFrame, Crypto.Consistent, Crypto.UidOf, Crypto.CounterOf;
      verdict, plainLen, i, reset := Log.Ok, len, 0, false;
      if crypto != null {
        var ok;
        ok, plainLen, i, reset := crypto.Decrypt(buf, len, nowMs);
        if !ok {
          verdict := if crypto.lastRejectReplay then Log.ReplayFail else Log.CryptoFail;
          plainLen := 0;
        }
      }
    }

    // ---- Sending ---------------------------------------------------------------------------

    /** The frame in `buf` goes to a radio: it is counted there and logged. */
    method Hand(buf: array<Byte>, len: nat, index: nat, kind: u8)
      requires frames.Valid() && radioStats.Length == Peers.MAX_RADIOS && index < Peers.MAX_RADIOS && len <= buf.Length
      modifies this`sent, frames, frames.entries, radioStats
      ensures frames.Valid() && frames.dropped == old(frames.dropped)
      ensures sent == old(sent) + [Transmission(index, buf[..len])]
      ensures frames.kept == old(frames.kept) + [TxEntry(now, uid, kind, Transmission(index, buf[..len]))]
      ensures radioStats[..] == old(radioStats[..])[index := SentOn(old(radioStats[index]))]
    {
      sent := sent + [Transmission(index, buf[..len])];
      radioStats[index] := SentOn(radioStats[index]);
      LogFrame(index, uid, len, 0, kind, Log.Tx);
    }

    /** The packet in `buf` becomes a frame, under the next counter if there is a cipher. */
    method Wrap(buf: array<Byte>, len: nat) returns (n: nat)
      requires crypto != null ==> crypto.Valid() && buf != crypto.aes.rk
      requires Protocol.HEADER_SIZE <= len && len + Crypto.FRAME_OVERHEAD <= buf.Length == MAX_RX_FRAME
      modifies buf, if crypto == null then {} else {crypto}
      ensures crypto != null ==> crypto.Valid() && crypto.counter == Add32(old(crypto.counter), 1)
                                 && crypto.epochs == old(crypto.epochs)
      ensures Key() == old(Key()) && 0 < n <= buf.Length
      ensures buf[..n] == Framed(Key(), NextCounter(), old(buf[..len]))
    {
      hide Crypto.Consistent, Crypto.Frame;
      n := len;
      if crypto != null {
        n := crypto.Encrypt(buf, len, MAX_RX_FRAME);
      }
    }

    /** The counter of the frame just sealed. */
    ghost function NextCounter(): (counter: u32)
      reads crypto
    {
      if crypto == null then 0 else crypto.counter
    }

    /** Sealing the packet and handing it to one radio. */
    method SendPacket(buf: array<Byte>, len: nat, index: nat, kind: u8)
      requires Shape() && Numbered() && index < Peers.MAX_RADIOS
      requires crypto != null ==> buf != crypto.aes.rk
      requires Protocol.HEADER_SIZE <= len && len + Crypto.FRAME_OVERHEAD <= buf.Length == MAX_RX_FRAME
      modifies this`sent, frames, frames.entries, radioStats, buf, if crypto == null then {} else {crypto}
      ensures Shape() && Numbered()
      ensures Key() == old(Key()) && frames.dropped == old(frames.dropped)
      ensures crypto != null ==> NextCounter() == Add32(old(NextCounter()), 1)
      ensures var t := Transmission(index, Framed(Key(), NextCounter(), old(buf[..len])));
              && sent == old(sent) + [t]
              && frames.kept == old(frames.kept) + [TxEntry(now, uid, kind, t)]
      ensures radioStats[..] == old(radioStats[..])[index := SentOn(old(radioStats[index]))]
    {
      hide Crypto.Consistent, Framed, Peers.DistinctUids, TxEntry, SentOn, After, InSequence;
      ghost var packet := buf[..len];
      var n := Wrap(buf, len);
      Hand(buf, n, index, kind);
      if crypto != null {
        AfterStep(first, |old(sent)|);
        SequenceGoesOn(Key(), old(sent), first, index, packet);
      }
    }

    method SendBeacon(index: nat, transmits: bool, loc: Location)
      requires Valid() && index < Peers.MAX_RADIOS
      modifies this`stats, this`sent, frames, frames.entries, radioStats
      modifies if crypto == null then {} else {crypto}
      ensures Valid()
      ensures Key() == old(Key())
      ensures !transmits ==> sent == old(sent) && stats == old(stats) && frames.kept == old(frames.kept)
                             && radioStats[..] == old(radioStats[..]) && NextCounter() == old(NextCounter())
      ensures transmits ==>
                var t := Transmission(index, Framed(Key(), NextCounter(), Protocol.PositionBytes(Beacon(uid, loc))));
                && (crypto != null ==> NextCounter() == Add32(old(NextCounter()), 1))
                && sent == old(sent) + [t]
                && frames.kept == old(frames.kept) + [TxEntry(now, uid, 1, t)]
                && stats == old(stats).(beaconsSent := Add32(old(stats.beaconsSent), 1), lastTx := now)
                && radioStats[..] == old(radioStats[..])[index := SentOn(old(radioStats[index]))]
    {
      hide Shape, Numbered, Framed, Protocol.PositionBytes, Beacon, TxEntry, SentOn;
      if !transmits {
        return;
      }
      var buf := new Byte[MAX_RX_FRAME](k => ZERO);
      var len := Protocol.EncodePosition(Beacon(uid, loc), buf, MAX_RX_FRAME);
      assert buf[..len] == Protocol.PositionBytes(Beacon(uid, loc));
      SendPacket(buf, len, index, 1);
      stats := stats.(beaconsSent := Add32(stats.beaconsSent, 1), lastTx := now);
    }

    /** The name the packet carries: the node's own, in a cleared buffer. */
    static method PlainName(name: Protocol.Name) returns (out: Protocol.Name)
      ensures Protocol.Text(out) == Protocol.Text(name)
    {
      var copied: Bytes := Peers.BlankName();
      var i := 0;
      while i < Protocol.MAX_NAME_LEN && name[i] != ZERO
        invariant i <= Protocol.MAX_NAME_LEN && |copied| == 16
        invariant copied[..i] == name[..i] && ZERO !in name[..i]
        invariant forall k :: i <= k < 16 ==> copied[k] == ZERO
      {
        copied := copied[i := name[i]];
        i := i + 1;
      }
      Protocol.TextIsUnique(name, name[..i]);
      out := copied;
      Protocol.TextIsUnique(out, name[..i]);
    }

    /** The announcement goes out once on every radio that transmits, sealed anew for each. */
    method SendAnnounce(transmits: seq<bool>)
      requires Valid() && |transmits| == radioCount
      modifies this`stats, this`sent, frames, frames.entries, radioStats
      modifies if crypto == null then {} else {crypto}
      ensures Valid()
      ensures Key() == old(Key())
      ensures var packet := Protocol.AnnounceBytes(uid, Protocol.Text(name), capabilities);
              var out := Copies(Key(), old(NextCounter()), packet, transmits);
              && sent == old(sent) + out
              && frames.kept == old(frames.kept) + Entries(now, uid, 2, out)
              && radioStats[..] == TxCounted(old(radioStats[..]), out)
              && stats == if out == [] then old(stats)
                          else old(stats).(announcesSent := Add32(old(stats.announcesSent), 1), lastTx := now)
    {
      hide Shape, Numbered, Framed, Protocol.AnnounceBytes, Protocol.Text, After, Copies, Entries, TxCounted;
      var plain, len := EncodeOwn();
      var any := SendCopies(plain, len, transmits);
      if any {
        stats := stats.(announcesSent := Add32(stats.announcesSent, 1), lastTx := now);
      }
    }

    method EncodeOwn() returns (plain: array<Byte>, len: nat)
      ensures fresh(plain) && plain.Length == MAX_RX_FRAME
      ensures Protocol.HEADER_SIZE <= len <= MAX_RX_FRAME - Crypto.FRAME_OVERHEAD
      ensures plain[..len] == Protocol.AnnounceBytes(uid, Protocol.Text(name), capabilities)
    {
      hide Protocol.AnnounceBytes;
      plain := new Byte[MAX_RX_FRAME](k => ZERO);
      var plainName := PlainName(name);
      len := Protocol.EncodeAnnounce(Protocol.AnnouncePacket(uid, plainName, capabilities), plain, MAX_RX_FRAME);
    }

    ghost function InBooks(): (b: Books)
      reads this, crypto, frames, radioStats
    {
      Books(NextCounter(), sent, frames.kept, radioStats[..])
    }

    lemma KeyFits()
      requires Shape()
      ensures crypto != null ==> crypto.aes.rk.Length == 176
      ensures radioStats.Length == Peers.MAX_RADIOS && radioCount <= Peers.MAX_RADIOS
    {}

    method SendCopies(plain: array<Byte>, len: nat, transmits: seq<bool>) returns (any: bool)
      requires Shape() && Numbered() && |transmits| == radioCount
      requires Protocol.HEADER_SIZE <= len && len + Crypto.FRAME_OVERHEAD <= plain.Length == MAX_RX_FRAME
      modifies this`sent, frames, frames.entries, radioStats, if crypto == null then {} else {crypto}
      ensures Shape() && Numbered()
      ensures Key() == old(Key()) && frames.dropped == old(frames.dropped)
      ensures var out := Copies(Key(), old(NextCounter()), plain[..len], transmits);
              && (any <==> out != [])
              && CopiesOut(old(InBooks()), InBooks(), out, crypto != null, now, uid)
    {
      hide Shape, Numbered, Framed, Copies, CopiesOut;
      KeyFits();
      ghost var c, was, packet := Key(), InBooks(), plain[..len];
      any := false;
      CopiesBegin(was, crypto != null, now, uid, c, packet, transmits);
      for i := 0 to radioCount
        invariant Shape() && Numbered()
        invariant Key() == c && frames.dropped == old(frames.dropped)
        invariant any <==> Copies(c, was.counter, packet, transmits[..i]) != []
        invariant CopiesOut(was, InBooks(), Copies(c, was.counter, packet, transmits[..i]), crypto != null, now, uid)
      {
        CopiesStep(c, was.counter, packet, transmits, i);
        if transmits[i] {
          SendCopy(plain, len, i, c, was, Copies(c, was.counter, packet, transmits[..i]));
          any := true;
        }
      }
      assert transmits[..radioCount] == transmits;
    }

    /** One more copy, after `out`, which went out since the books were `was`. */
    method SendCopy(plain: array<Byte>, len: nat, index: nat, ghost c: Cipher, ghost was: Books,
                    ghost out: seq<Transmission>)
      requires Shape() && Numbered() && index < Peers.MAX_RADIOS && c == Key()
      requires Protocol.HEADER_SIZE <= len && len + Crypto.FRAME_OVERHEAD <= plain.Length == MAX_RX_FRAME
      requires CopiesOut(was, InBooks(), out, crypto != null, now, uid)
      modifies this`sent, frames, frames.entries, radioStats, if crypto == null then {} else {crypto}
      ensures Shape() && Numbered()
      ensures Key() == c && frames.dropped == old(frames.dropped)
      ensures var t := Transmission(index, Framed(c, After(was.counter, |out| + 1), plain[..len]));
              CopiesOut(was, InBooks(), out + [t], crypto != null, now, uid)
    {
      hide Shape, Numbered, Framed, TxEntry, SentOn, After, CopiesOut;
      KeyFits();
      var buf := CopyOf(plain, len);
      ghost var before := InBooks();
      SendPacket(buf, len, index, 2);
      ghost var t := Transmission(index, Framed(c, NextCounter(), plain[..len]));
      CopiesMore(was, before, out, crypto != null, now, uid, t, InBooks());
      FramedOnce(c, After(was.counter, |out| + 1), NextCounter(), plain[..len]);
    }

    static method CopyOf(plain: array<Byte>, len: nat) returns (buf: array<Byte>)
      requires len <= plain.Length == MAX_RX_FRAME
      ensures fresh(buf) && buf.Length == MAX_RX_FRAME && buf[..len] == plain[..len]
    {
      buf := new Byte[MAX_RX_FRAME](k => ZERO);
      for b := 0 to len
        invariant buf[..b] == plain[..b]
      {
        buf[b] := plain[b];
      }
    }

    // ---- The radar ---------------------------------------------------------------------------

    /** One radar tick: the slot sent is the next valid one from the cursor on, under its
        table position counted from 1. */
    method OnMspRadarTick() returns (blip: Blip)
      requires peers.Valid() && radarCursor < Radar.SLOTS
      modifies this`radarCursor
      ensures radarCursor < Radar.SLOTS
      ensures blip.Blip? ==> 1 <= blip.slotId <= Radar.SLOTS && blip.peer == peers.peers[blip.slotId - 1]
      ensures Radar.IsTick(old(radarCursor), InUse(peers.peers[..]), Radar.Tick(radarCursor, SlotSent(blip)))
    {
      hide Peers.DistinctUids, Radar.IsTick, Radar.Ahead;
      ghost var start, table := radarCursor, InUse(peers.peers[..]);
      Radar.AheadOnce(start, 0);
      for tries := 0 to Radar.SLOTS
        invariant radarCursor == Radar.Ahead(start, tries)
        invariant forall j :: 0 <= j < tries ==> !table[Radar.Ahead(start, j)]
      {
        var idx := radarCursor;
        radarCursor := (radarCursor + 1) % Radar.SLOTS;
        Radar.AheadNext(start, tries);
        var found, peer := peers.At(idx);
        if found {
          Radar.TickFound(start, table, tries);
          return Blip(idx + 1, peer);
        }
      }
      Radar.TickSilent(start, table);
      return NoBlip;
    }
  }

  /** Which slots of the table hold a peer. */
  function InUse(peers: seq<Peers.Peer>): (table: Radar.Table)
    requires |peers| == Radar.SLOTS
  {
    seq(Radar.SLOTS, i requires 0 <= i < Radar.SLOTS => peers[i].valid)
  }

  function SlotSent(blip: Blip): (s: Radar.Sent)
    requires blip.Blip? ==> blip.slotId > 0
  {
    match blip
    case NoBlip => Radar.Nothing
    case Blip(slotId, _) => Radar.Slot(slotId - 1)
  }

  // ---- The copies of an announcement --------------------------------------------------------

  /** The counter `k` steps on. */
  function After(counter: u32, k: nat): (c: u32)
  {
    (counter + k) % TWO32
  }

  lemma AfterStep(counter: u32, k: nat)
    ensures After(counter, 0) == counter && After(counter, k + 1) == Add32(After(counter, k), 1)
  {}

  /** One frame for each radio that transmits, each under its own counter. */
  ghost function Copies(c: Cipher, counter: u32, packet: Bytes, on: seq<bool>): (out: seq<Transmission>)
    requires |packet| >= Protocol.HEADER_SIZE
    ensures |out| <= |on|
    ensures forall k :: 0 <= k < |out| ==> out[k].radio < |on|
  {
    if on == [] then []
    else
      var n := |on| - 1;
      var rest := Copies(c, counter, packet, on[..n]);
      if on[n] then rest + [Transmission(n, Framed(c, After(counter, |rest| + 1), packet))] else rest
  }

  /** The transmit counters of the radios after these frames. */
  ghost function TxCounted(radios: seq<RadioStats>, out: seq<Transmission>): (r: seq<RadioStats>)
    ensures |r| == |radios|
  {
    if out == [] then radios
    else
      var rest, t := TxCounted(radios, out[..|out| - 1]), out[|out| - 1];
      if t.radio < |rest| then rest[t.radio := SentOn(rest[t.radio])] else rest
  }

  /** The counter last used, the frames sent, the entries logged and the radios' counters. */
  datatype Books = Books(counter: u32, sent: seq<Transmission>, kept: seq<Log.Entry>, radios: seq<RadioStats>)

  /** The books after these copies. */
  ghost predicate CopiesOut(was: Books, b: Books, out: seq<Transmission>, keyed: bool, now: u32, uid: u32)
  {
    && (keyed ==> b.counter == After(was.counter, |out|))
    && b.sent == was.sent + out
    && b.kept == was.kept + Entries(now, uid, 2, out)
    && b.radios == TxCounted(was.radios, out)
  }

  lemma CopiesBegin(was: Books, keyed: bool, now: u32, uid: u32, c: Cipher, packet: Bytes, on: seq<bool>)
    requires |packet| >= Protocol.HEADER_SIZE
    ensures Copies(c, was.counter, packet, on[..0]) == []
    ensures CopiesOut(was, was, [], keyed, now, uid)
  {}

  lemma CopiesMore(was: Books, b: Books, out: seq<Transmission>, keyed: bool, now: u32, uid: u32,
                   t: Transmission, next: Books)
    requires CopiesOut(was, b, out, keyed, now, uid) && t.radio < |b.radios|
    requires keyed ==> next.counter == Add32(b.counter, 1)
    requires next.sent == b.sent + [t] && next.kept == b.kept + [TxEntry(now, uid, 2, t)]
    requires next.radios == b.radios[t.radio := SentOn(b.radios[t.radio])]
    ensures CopiesOut(was, next, out + [t], keyed, now, uid)
    ensures keyed ==> next.counter == After(was.counter, |out| + 1)
  {
    hide TxEntry, SentOn, After;
    AfterStep(was.counter, |out|);
    assert (out + [t])[..|out|] == out;
  }

  lemma FramedOnce(c: Cipher, a: u32, b: u32, packet: Bytes)
    requires |packet| >= Protocol.HEADER_SIZE && (c.Keyed? ==> a == b)
    ensures Framed(c, a, packet) == Framed(c, b, packet)
  {}

  lemma CopiesStep(c: Cipher, counter: u32, packet: Bytes, on: seq<bool>, i: nat)
    requires |packet| >= Protocol.HEADER_SIZE && i < |on|
    ensures var rest := Copies(c, counter, packet, on[..i]);
            Copies(c, counter, packet, on[..i + 1])
            == if on[i] then rest + [Transmission(i, Framed(c, After(counter, |rest| + 1), packet))] else rest
  {
    hide Framed;
    assert on[..i + 1][..i] == on[..i];
  }

  lemma {:induction false} CopyAt(c: Cipher, counter: u32, packet: Bytes, on: seq<bool>, k: nat)
    requires |packet| >= Protocol.HEADER_SIZE && k < |Copies(c, counter, packet, on)|
    ensures Copies(c, counter, packet, on)[k].frame == Framed(c, After(counter, k + 1), packet)
  {
    hide Framed;
    if k < |Copies(c, counter, packet, on[..|on| - 1])| {
      CopyAt(c, counter, packet, on[..|on| - 1], k);
    }
  }

  /** No two copies carry the same counter, so a receiver that hears both takes neither
      for a repetition. */
  lemma CopiesDiffer(c: Cipher, counter: u32, packet: Bytes, on: seq<bool>, i: nat, j: nat)
    requires c.Keyed? && |packet| >= Protocol.HEADER_SIZE && |on| <= Peers.MAX_RADIOS
    requires i < j < |Copies(c, counter, packet, on)|
    ensures var out := Copies(c, counter, packet, on);
            && |out[i].frame| == |out[j].frame| == |packet| + Crypto.FRAME_OVERHEAD
            && Crypto.CounterOf(out[i].frame) != Crypto.CounterOf(out[j].frame)
  {
    hide Copies, Framed, Crypto.CounterOf;
    CopyAt(c, counter, packet, on, i);
    CopyAt(c, counter, packet, on, j);
    CounterOfFramed(c, After(counter, i + 1), packet);
    CounterOfFramed(c, After(counter, j + 1), packet);
    assert After(counter, i + 1) != After(counter, j + 1);
  }

  lemma CounterOfFramed(c: Cipher, counter: u32, packet: Bytes)
    requires c.Keyed? && |packet| >= Protocol.HEADER_SIZE
    ensures var f := Framed(c, counter, packet);
            |f| == |packet| + Crypto.FRAME_OVERHEAD && Crypto.CounterOf(f) == counter
  {
    hide Le, FromLe, Crypto.Nonce, Ccm.Tag, Ccm.Keystream, Ccm.Seal;
    var f := Crypto.Frame(c.E, c.uid, counter, packet);
    Crypto.FrameParts(c.E, c.uid, counter, packet);
    assert f[6..10] == Le(counter, 4);
    Protocol.U32AtIs(f, 6, counter);
  }

  /** How many of these frames go to radio `r`. */
  ghost function CopiesTo(out: seq<Transmission>, r: nat): (n: nat)
  {
    if out == [] then 0
    else
      var rest, t := out[..|out| - 1], out[|out| - 1];
      CopiesTo(rest, r) + (if t.radio == r then 1 else 0)
  }

  /** One copy for each radio that transmits and none for the others. */
  lemma {:induction false} OneCopyEach(c: Cipher, counter: u32, packet: Bytes, on: seq<bool>, r: nat)
    requires |packet| >= Protocol.HEADER_SIZE
    ensures CopiesTo(Copies(c, counter, packet, on), r) == if r < |on| && on[r] then 1 else 0
  {
    hide Copies, CopiesTo, Framed, After;
    var out := Copies(c, counter, packet, on);
    if on == [] {
      assert out == [];
      CopiesToMore([], Transmission(0, []), r);
    } else {
      var n := |on| - 1;
      var rest := Copies(c, counter, packet, on[..n]);
      OneCopyEach(c, counter, packet, on[..n], r);
      CopiesStep(c, counter, packet, on, n);
      assert on[..n + 1] == on;
      if on[n] {
        CopiesToMore(rest, out[|rest|], r);
      }
    }
  }

  lemma CopiesToMore(out: seq<Transmission>, t: Transmission, r: nat)
    ensures CopiesTo([], r) == 0
    ensures CopiesTo(out + [t], r) == CopiesTo(out, r) + (if t.radio == r then 1 else 0)
  {
    assert (out + [t])[..|out|] == out;
  }

  // ---- Counters over a whole run ----------------------------------------------------------------

  /** Frame i carries the counter i + 1 steps after `first`, and is sealed under the nonce of
      that counter. */
  ghost predicate InSequence(c: Cipher, sent: seq<Transmission>, first: u32)
    requires c.Keyed?
  {
    forall i :: 0 <= i < |sent| ==> SealedAs(c, sent[i].frame, After(first, i + 1))
  }

  ghost predicate SealedAs(c: Cipher, frame: Bytes, counter: u32)
    requires c.Keyed?
  {
    && |frame| >= Crypto.FRAME_HEADER_LEN && Crypto.CounterOf(frame) == counter
    && Crypto.SealedUnder(c.E, Crypto.Nonce(c.uid, counter), frame)
  }

  lemma SequenceGoesOn(c: Cipher, sent: seq<Transmission>, first: u32, radio: nat, packet: Bytes)
    requires c.Keyed? && |packet| >= Protocol.HEADER_SIZE && InSequence(c, sent, first)
    ensures InSequence(c, sent + [Transmission(radio, Framed(c, After(first, |sent| + 1), packet))], first)
  {
    hide After, Crypto.CounterOf, Crypto.SealedUnder, Crypto.Frame;
    CounterOfFramed(c, After(first, |sent| + 1), packet);
    Crypto.FrameIsSealed(c.E, c.uid, After(first, |sent| + 1), packet);
  }

  /** Over the whole life of a node with a cipher, any two of its frames fewer than 2^32
      apart carry different counters and are sealed under different nonces. */
  lemma NoCounterTwice(n: Node, i: nat, j: nat)
    requires n.Valid() && n.crypto != null && i < j < |n.sent| && j - i < TWO32
    ensures |n.sent[i].frame| >= Crypto.FRAME_HEADER_LEN && |n.sent[j].frame| >= Crypto.FRAME_HEADER_LEN
    ensures var c, d := Crypto.CounterOf(n.sent[i].frame), Crypto.CounterOf(n.sent[j].frame);
            && c != d
            && Crypto.SealedUnder(n.crypto.E(), Crypto.Nonce(n.crypto.uid, c), n.sent[i].frame)
            && Crypto.SealedUnder(n.crypto.E(), Crypto.Nonce(n.crypto.uid, d), n.sent[j].frame)
            && Crypto.Nonce(n.crypto.uid, c) != Crypto.Nonce(n.crypto.uid, d)
  {
    hide Crypto.CounterOf, Crypto.SealedUnder, Crypto.Nonce, After;
    assert InSequence(n.Key(), n.sent, n.first);
    assert SealedAs(n.Key(), n.sent[i].frame, After(n.first, i + 1));
    assert SealedAs(n.Key(), n.sent[j].frame, After(n.first, j + 1));
    AfterDiffers(n.first, i + 1, j + 1);
    Crypto.NoncesTellApart(n.crypto.uid, After(n.first, i + 1), n.crypto.uid, After(n.first, j + 1));
  }

  /** So no block of the keystream masks data of two frames, whatever is in them, nor is it
      the mask of a tag. */
  lemma NoKeystreamTwice(n: Node, i: nat, j: nat, len: nat, wid: nat, a: nat, b: nat)
    requires n.Valid() && n.crypto != null && i < j < |n.sent| && j - i < TWO32
    requires 16 * a + 16 <= len < 0x1_0000 && 16 * b + 16 <= wid < 0x1_0000
    requires |n.sent[i].frame| >= Crypto.FRAME_HEADER_LEN && |n.sent[j].frame| >= Crypto.FRAME_HEADER_LEN
    ensures var rk, uid := n.crypto.aes.Key(), n.crypto.uid;
            var m, o := Crypto.Nonce(uid, Crypto.CounterOf(n.sent[i].frame)), Crypto.Nonce(uid, Crypto.CounterOf(n.sent[j].frame));
            && CcmBinding.StreamBlock(rk, m, len, a) != CcmBinding.StreamBlock(rk, o, wid, b)
            && CcmBinding.StreamBlock(rk, m, len, a) != Ccm.CipherOf(rk)(Ccm.CounterBlock(o, 0))
            && CcmBinding.StreamBlock(rk, o, wid, b) != Ccm.CipherOf(rk)(Ccm.CounterBlock(m, 0))
  {
    hide Crypto.CounterOf, Crypto.SealedUnder, Crypto.Nonce, CcmBinding.StreamBlock, Ccm.CipherOf, Ccm.CounterBlock;
    NoCounterTwice(n, i, j);
    CcmBinding.TwoOctets();
    var rk, uid := n.crypto.aes.Key(), n.crypto.uid;
    var m, o := Crypto.Nonce(uid, Crypto.CounterOf(n.sent[i].frame)), Crypto.Nonce(uid, Crypto.CounterOf(n.sent[j].frame));
    CcmBinding.NoStreamBlockTwice(rk, m, o, len, wid, a, b);
    CcmBinding.NoStreamBlockTwice(rk, o, m, wid, len, b, a);
  }

  lemma AfterDiffers(first: u32, a: nat, b: nat)
    requires a < b && b - a < TWO32
    ensures After(first, a) != After(first, b)
  {}
}
