/** The peer table of lib/ff_core/peer_table.cpp as a bounded map keyed by uid. */
module PeerTable {
  import opened ByteStrings
  import opened MachineWords
  import opened Protocol

  const MAX_PEERS: nat := 16
  const MAX_RADIOS: nat := 4

  /** One bit of `radios_seen` a radio. */
  type RadioBits = s: seq<bool> | |s| == MAX_RADIOS witness [false, false, false, false]
  type RadioTimes = s: seq<u32> | |s| == MAX_RADIOS witness [0, 0, 0, 0]

  datatype Peer = Peer(
    uid: u32, valid: bool,
    lat: i32, lon: i32, alt: i16, speed: u16, course: u16, flags: Byte,
    name: Name, capabilities: u32,
    lastUpdate: u32, lastPosition: u32, rssi: i16, packetsReceived: u32,
    lastSeenOn: RadioTimes, radiosSeen: RadioBits)

  function BlankName(): Name
  {
    seq(16, i => ZERO)
  }

  function NoPeer(): Peer
  {
    Peer(0, false, 0, 0, 0, 0, 0, ZERO, BlankName(), 0, 0, 0, 0, 0, [0, 0, 0, 0], [false, false, false, false])
  }

  // ---- What a packet does to an entry ------------------------------------------------------

  function HeardOn(p: Peer, radio: nat, now: u32): (q: Peer)
  {
    if radio < MAX_RADIOS then p.(lastSeenOn := p.lastSeenOn[radio := now], radiosSeen := p.radiosSeen[radio := true])
    else p
  }

  /** The entry a first packet of `uid` is folded into. */
  function NewPeer(uid: u32): Peer
  {
    NoPeer().(uid := uid, valid := true)
  }

  function WithPosition(p: Peer, packet: PositionPacket, now: u32, rssi: i16, radio: nat): (q: Peer)
  {
    var moved := p.(lat := packet.lat, lon := packet.lon, alt := packet.alt, speed := packet.speed,
                    course := packet.course, flags := packet.flags, lastUpdate := now, lastPosition := now,
                    rssi := if rssi != 0 then rssi else p.rssi);
    HeardOn(moved, radio, now).(packetsReceived := Add32(p.packetsReceived, 1))
  }

  /** The announced text, a zero after it, and what the buffer held beyond. */
  ghost function Renamed(name: Name, announced: Name): (n: Name)
  {
    var text := Text(announced);
    text + [ZERO] + name[|text| + 1..]
  }

  ghost function WithAnnounce(p: Peer, packet: AnnouncePacket, now: u32, radio: nat): (q: Peer)
  {
    var named := p.(name := Renamed(p.name, packet.name), capabilities := packet.capabilities, lastUpdate := now);
    HeardOn(named, radio, now).(packetsReceived := Add32(p.packetsReceived, 1))
  }

  // ---- The table as a map --------------------------------------------------------------------

  ghost predicate DistinctUids(peers: seq<Peer>)
  {
    forall i, j :: 0 <= i < j < |peers| && peers[i].valid && peers[j].valid ==> peers[i].uid != peers[j].uid
  }

  ghost predicate Knows(peers: seq<Peer>, uid: u32)
  {
    exists i :: 0 <= i < |peers| && peers[i].valid && peers[i].uid == uid
  }

  ghost function SlotOf(peers: seq<Peer>, uid: u32): (i: nat)
    requires Knows(peers, uid)
    ensures i < |peers| && peers[i].valid && peers[i].uid == uid
  {
    var i :| 0 <= i < |peers| && peers[i].valid && peers[i].uid == uid;
    i
  }

  ghost function Known(peers: seq<Peer>): (m: map<u32, Peer>)
    ensures forall uid :: uid in m <==> Knows(peers, uid)
    ensures forall uid :: uid in m ==> m[uid] == peers[SlotOf(peers, uid)]
  {
    var uids := set i | 0 <= i < |peers| && peers[i].valid :: peers[i].uid;
    map uid | uid in uids :: peers[SlotOf(peers, uid)]
  }

  ghost predicate Full(peers: seq<Peer>)
  {
    forall i :: 0 <= i < |peers| ==> peers[i].valid
  }

  lemma KnownAt(peers: seq<Peer>, i: nat)
    requires DistinctUids(peers) && i < |peers| && peers[i].valid
    ensures peers[i].uid in Known(peers) && Known(peers)[peers[i].uid] == peers[i]
  {
    assert Knows(peers, peers[i].uid);
    assert SlotOf(peers, peers[i].uid) == i;
  }

  /** Replacing the entry of a known uid changes the map at that key alone. */
  lemma UpdateKnown(peers: seq<Peer>, i: nat, p: Peer)
    requires DistinctUids(peers) && i < |peers| && peers[i].valid && p.valid && p.uid == peers[i].uid
    ensures DistinctUids(peers[i := p])
    ensures Known(peers[i := p]) == Known(peers)[p.uid := p]
  {
    var now := peers[i := p];
    forall uid
      ensures uid in Known(now) <==> uid in Known(peers)[p.uid := p]
      ensures uid in Known(now) ==> Known(now)[uid] == Known(peers)[p.uid := p][uid]
    {
      if Knows(peers, uid) {
        assert now[SlotOf(peers, uid)].uid == uid;
        KnownAt(peers, SlotOf(peers, uid));
        KnownAt(now, SlotOf(peers, uid));
      }
      if Knows(now, uid) {
        assert peers[SlotOf(now, uid)].uid == uid;
      }
    }
  }

  /** Putting an unknown uid into slot `i` adds it, and drops whom the slot held. */
  lemma InsertKnown(peers: seq<Peer>, i: nat, p: Peer)
    requires DistinctUids(peers) && i < |peers| && p.valid && !Knows(peers, p.uid)
    ensures DistinctUids(peers[i := p])
    ensures Known(peers[i := p])
         == (Known(peers) - (if peers[i].valid then {peers[i].uid} else {}))[p.uid := p]
  {
    hide Known, Knows, SlotOf, DistinctUids;
    InsertedUids(peers, i, p);
    var now := peers[i := p];
    forall uid: u32 | uid in Known(now) && uid != p.uid
      ensures uid in Known(peers) && Known(now)[uid] == Known(peers)[uid]
    {
      var k := SlotOf(now, uid);
      KnownAt(now, k);
      KnownAt(peers, k);
    }
    KnownAt(now, i);
  }

  lemma InsertedUids(peers: seq<Peer>, i: nat, p: Peer)
    requires DistinctUids(peers) && i < |peers| && p.valid && !Knows(peers, p.uid)
    ensures DistinctUids(peers[i := p])
    ensures Known(peers[i := p]).Keys == Known(peers).Keys - (if peers[i].valid then {peers[i].uid} else {}) + {p.uid}
  {
    hide Known, SlotOf;
    var now := peers[i := p];
    assert forall j :: 0 <= j < |peers| && j != i ==> now[j] == peers[j];
    assert now[i].valid && now[i].uid == p.uid;
    forall uid: u32 | uid != p.uid
      ensures Knows(now, uid) <==> Knows(peers, uid) && !(peers[i].valid && peers[i].uid == uid)
    {
      if Knows(now, uid) {
        assert peers[SlotOf(now, uid)].uid == uid;
      }
      if Knows(peers, uid) && SlotOf(peers, uid) != i {
        assert now[SlotOf(peers, uid)].uid == uid;
      }
    }
  }

  /** The map has no more entries than the table has slots. */
  lemma {:induction false} KnownIsBounded(peers: seq<Peer>)
    ensures |Known(peers)| <= |peers|
  {
    hide Known;
    if peers == [] {
      assert forall uid :: !Knows(peers, uid);
      assert Known(peers).Keys == {};
    } else {
      var n := |peers| - 1;
      KnownIsBounded(peers[..n]);
      var rest := Known(peers[..n]).Keys;
      forall uid | uid in Known(peers)
        ensures uid in rest + {peers[n].uid}
      {
        var i := SlotOf(peers, uid);
        if i < n {
          assert peers[..n][i].valid && peers[..n][i].uid == uid;
          assert Knows(peers[..n], uid);
        }
      }
      UidsCount(Known(peers).Keys, rest, peers[n].uid);
    }
  }

  lemma UidsCount(a: set<u32>, b: set<u32>, uid: u32)
    requires a <= b + {uid}
    ensures |a| <= |b| + 1
  {
    SubsetSize(a - {uid}, b);
    assert a <= (a - {uid}) + {uid};
    assert |a - {uid}| >= |a| - 1;
  }

  // ---- Ages and counts ---------------------------------------------------------------------------

  predicate Active(p: Peer, now: u32, timeout: u32)
  {
    p.valid && Sub32(now, p.lastUpdate) <= timeout
  }

  predicate ActiveOn(p: Peer, radio: nat, now: u32, timeout: u32)
    requires radio < MAX_RADIOS
  {
    p.valid && p.radiosSeen[radio] && Sub32(now, p.lastSeenOn[radio]) <= timeout
  }

  /** A clock that wraps tells the age of anything younger than 2^32 milliseconds. */
  lemma AgeIs(heard: nat, now: nat)
    requires heard <= now < heard + TWO32
    ensures Sub32(now % TWO32, heard % TWO32) == now - heard
  {
    assert (now - heard) % TWO32 == now - heard;
  }

  /** A peer is active while it was heard no longer ago than the timeout, and so on a radio. */
  lemma ActiveIff(p: Peer, radio: nat, heard: nat, now: nat, timeout: u32)
    requires heard <= now < heard + TWO32 && radio < MAX_RADIOS
    ensures p.lastUpdate == heard % TWO32 ==>
              (Active(p, now % TWO32, timeout) <==> p.valid && now - heard <= timeout)
    ensures p.lastSeenOn[radio] == heard % TWO32 ==>
              (ActiveOn(p, radio, now % TWO32, timeout) <==> p.valid && p.radiosSeen[radio] && now - heard <= timeout)
  {
    AgeIs(heard, now);
  }

  /** The slots up to `n` whose entry satisfies `wanted`. */
  ghost function Slots(peers: seq<Peer>, n: nat, wanted: Peer -> bool): (s: set<nat>)
    requires n <= |peers|
  {
    set i: nat | i < n && wanted(peers[i])
  }

  lemma SlotsStep(peers: seq<Peer>, n: nat, wanted: Peer -> bool)
    requires n < |peers|
    ensures |Slots(peers, n + 1, wanted)| == |Slots(peers, n, wanted)| + (if wanted(peers[n]) then 1 else 0)
  {
    assert Slots(peers, n + 1, wanted) == Slots(peers, n, wanted) + (if wanted(peers[n]) then {n} else {});
  }

  lemma SlotsOfFewer(peers: seq<Peer>, wanted: Peer -> bool, rarer: Peer -> bool)
    requires forall i :: 0 <= i < |peers| && rarer(peers[i]) ==> wanted(peers[i])
    ensures |Slots(peers, |peers|, rarer)| <= |Slots(peers, |peers|, wanted)|
  {
    SubsetSize(Slots(peers, |peers|, rarer), Slots(peers, |peers|, wanted));
  }

  lemma SubsetSize<T>(a: set<T>, b: set<T>)
    requires a <= b
    ensures |a| <= |b|
  {
    if a != {} {
      var x :| x in a;
      SubsetSize(a - {x}, b - {x});
    }
  }

  /** In time that has not wrapped no radio was heard after the entry's last update. */
  ghost predicate InOrder(peers: seq<Peer>, now: u32)
  {
    forall i :: 0 <= i < |peers| && peers[i].valid ==>
      && peers[i].lastUpdate <= now
      && forall r :: 0 <= r < MAX_RADIOS && peers[i].radiosSeen[r] ==> peers[i].lastSeenOn[r] <= peers[i].lastUpdate
  }

  lemma UpdateKeepsOrder(peers: seq<Peer>, i: nat, p: Peer, radio: nat, now: u32)
    requires InOrder(peers, now) && i < |peers| && peers[i].valid && p.lastUpdate == now
    requires radio < MAX_RADIOS ==> p.lastSeenOn == peers[i].lastSeenOn[radio := now]
                                    && p.radiosSeen == peers[i].radiosSeen[radio := true]
    requires radio >= MAX_RADIOS ==> p.lastSeenOn == peers[i].lastSeenOn && p.radiosSeen == peers[i].radiosSeen
    ensures InOrder(peers[i := p], now)
  {}

  class PeerTable {
    const peers: array<Peer>
    const timeout: u32

    ghost predicate Valid()
      reads peers
    {
      peers.Length == MAX_PEERS && DistinctUids(peers[..])
    }

    constructor (timeout: u32)
      ensures Valid() && fresh(peers) && this.timeout == timeout && Known(peers[..]) == map[]
    {
      peers := new Peer[MAX_PEERS](i => NoPeer());
      this.timeout := timeout;
      new;
      assert forall uid :: !Knows(peers[..], uid);
    }

    method Find(uid: u32) returns (i: int)
      requires Valid()
      ensures -1 <= i < MAX_PEERS
      ensures i >= 0 <==> Knows(peers[..], uid)
      ensures i >= 0 ==> peers[i].valid && peers[i].uid == uid && i == SlotOf(peers[..], uid)
    {
      for k := 0 to MAX_PEERS
        invariant forall j :: 0 <= j < k ==> !(peers[j].valid && peers[j].uid == uid)
      {
        if peers[k].valid && peers[k].uid == uid {
          assert Knows(peers[..], uid) by {
            assert peers[..][k].valid && peers[..][k].uid == uid;
          }
          return k;
        }
      }
      return -1;
    }

    /** A free slot, or else one whose last update is the oldest. */
    method AllocSlot() returns (i: nat)
      requires Valid()
      ensures i < MAX_PEERS
      ensures !Full(peers[..]) ==> !peers[i].valid
      ensures Full(peers[..]) ==> forall j :: 0 <= j < MAX_PEERS ==> peers[i].lastUpdate <= peers[j].lastUpdate
    {
      i := 0;
      for k := 0 to MAX_PEERS
        invariant i < MAX_PEERS
        invariant forall j :: 0 <= j < k ==> peers[j].valid && peers[i].lastUpdate <= peers[j].lastUpdate
      {
        if !peers[k].valid {
          return k;
        }
        if peers[k].lastUpdate < peers[i].lastUpdate {
          i := k;
        }
      }
    }

    /** The map afterwards: a known uid is updated and nobody goes; a new one is added,
        and only when the table was full does anyone go, one whose last update is the
        oldest of all. */
    static ghost predicate Folded(was: map<u32, Peer>, full: bool, now: map<u32, Peer>, uid: u32, p: Peer)
    {
      if uid in was || !full then now == was[uid := p]
      else exists gone :: gone in was && now == (was - {gone})[uid := p]
                          && forall other :: other in was ==> was[gone].lastUpdate <= was[other].lastUpdate
    }

    /** Slot `i` takes the place of the entry of `uid`: the code shared by the two
        updates. */
    method Claim(uid: u32, ghost now: u32) returns (i: nat, ghost created: bool)
      requires Valid()
      modifies peers
      ensures Valid() && i < MAX_PEERS && peers[i].valid && peers[i].uid == uid
      ensures created == !old(Knows(peers[..], uid))
      ensures !created ==> peers[..] == old(peers[..]) && old(Known(peers[..]))[uid] == peers[i]
      ensures created ==> peers[..] == old(peers[..])[i := NewPeer(uid)]
      ensures created ==> (!Full(old(peers[..])) ==> !old(peers[..])[i].valid)
      ensures InOrder(old(peers[..]), now) ==> InOrder(peers[..], now)
      ensures created && Full(old(peers[..])) ==>
                forall j :: 0 <= j < MAX_PEERS ==> old(peers[..])[i].lastUpdate <= old(peers[..])[j].lastUpdate
    {
      ghost var was := peers[..];
      var found := Find(uid);
      created := found < 0;
      if found < 0 {
        i := AllocSlot();
        peers[i] := NewPeer(uid);
        assert peers[..] == was[i := NewPeer(uid)];
        InsertKnown(was, i, NewPeer(uid));
      } else {
        i := found;
        KnownAt(was, i);
      }
    }

    /** Writing the claimed slot is folding the packet into the map. */
    static lemma ClaimedIsFolded(was: seq<Peer>, claimed: seq<Peer>, i: nat, created: bool, uid: u32, p: Peer)
      requires DistinctUids(was) && DistinctUids(claimed) && i < |was| == |claimed|
      requires claimed[i].valid && claimed[i].uid == uid && p.valid && p.uid == uid
      requires created == !Knows(was, uid)
      requires !created ==> claimed == was
      requires created ==> claimed == was[i := NewPeer(uid)]
      requires created ==> (!Full(was) ==> !was[i].valid)
      requires created && Full(was) ==> forall j :: 0 <= j < |was| ==> was[i].lastUpdate <= was[j].lastUpdate
      ensures DistinctUids(claimed[i := p])
      ensures Folded(Known(was), Full(was), Known(claimed[i := p]), uid, p)
    {
      if created {
        assert claimed[i := p] == was[i := p];
        InsertKnown(was, i, p);
        if Full(was) {
          var gone := was[i].uid;
          KnownAt(was, i);
          forall other | other in Known(was)
            ensures Known(was)[gone].lastUpdate <= Known(was)[other].lastUpdate
          {
            KnownAt(was, SlotOf(was, other));
          }
        } else {
          assert Known(was) - {} == Known(was);
        }
      } else {
        UpdateKnown(was, i, p);
      }
    }

    method UpdatePosition(packet: PositionPacket, now: u32, rssi: i16, radio: nat) returns (i: nat)
      requires Valid()
      modifies peers
      ensures Valid() && i < MAX_PEERS
      ensures var before := if Knows(old(peers[..]), packet.uid) then old(Known(peers[..]))[packet.uid] else NewPeer(packet.uid);
              Folded(old(Known(peers[..])), Full(old(peers[..])), Known(peers[..]), packet.uid,
                     WithPosition(before, packet, now, rssi, radio))
      ensures InOrder(old(peers[..]), now) ==> InOrder(peers[..], now)
    {
      hide Known, Knows, SlotOf, Folded, InOrder, Renamed;
      ghost var was := peers[..];
      ghost var created;
      i, created := Claim(packet.uid, now);
      ghost var claimed := peers[..];
      ghost var p := WithPosition(peers[i], packet, now, rssi, radio);
      var peer := peers[i].(lat := packet.lat, lon := packet.lon, alt := packet.alt, speed := packet.speed,
                            course := packet.course, flags := packet.flags, lastUpdate := now, lastPosition := now);
      if rssi != 0 {
        peer := peer.(rssi := rssi);
      }
      peer := HeardOn(peer, radio, now);
      peer := peer.(packetsReceived := Add32(peer.packetsReceived, 1));
      peers[i] := peer;
      assert peers[..] == claimed[i := p];
      ClaimedIsFolded(was, claimed, i, created, packet.uid, p);
      if InOrder(was, now) {
        UpdateKeepsOrder(claimed, i, p, radio, now);
      }
    }

    method UpdateAnnounce(packet: AnnouncePacket, now: u32, radio: nat) returns (i: nat)
      requires Valid()
      modifies peers
      ensures Valid() && i < MAX_PEERS
      ensures var before := if Knows(old(peers[..]), packet.uid) then old(Known(peers[..]))[packet.uid] else NewPeer(packet.uid);
              Folded(old(Known(peers[..])), Full(old(peers[..])), Known(peers[..]), packet.uid,
                     WithAnnounce(before, packet, now, radio))
      ensures InOrder(old(peers[..]), now) ==> InOrder(peers[..], now)
    {
      hide Known, Knows, SlotOf, Folded, InOrder, Renamed;
      ghost var was := peers[..];
      ghost var created;
      i, created := Claim(packet.uid, now);
      ghost var claimed := peers[..];
      ghost var p := WithAnnounce(peers[i], packet, now, radio);
      var name := CopyName(peers[i].name, packet.name);
      var peer := peers[i].(name := name, capabilities := packet.capabilities, lastUpdate := now);
      peer := HeardOn(peer, radio, now);
      peer := peer.(packetsReceived := Add32(peer.packetsReceived, 1));
      peers[i] := peer;
      assert peers[..] == claimed[i := p];
      ClaimedIsFolded(was, claimed, i, created, packet.uid, p);
      if InOrder(was, now) {
        UpdateKeepsOrder(claimed, i, p, radio, now);
      }
    }

    static method CopyName(into: Name, from: Name) returns (name: Name)
      ensures name == Renamed(into, from)
    {
      var copied: Bytes := into;
      var i := 0;
      while i < MAX_NAME_LEN && from[i] != ZERO
        invariant i <= MAX_NAME_LEN && |copied| == 16 && ZERO !in from[..i]
        invariant forall k :: 0 <= k < i ==> copied[k] == from[k]
        invariant forall k :: i <= k <= MAX_NAME_LEN ==> copied[k] == into[k]
      {
        copied := copied[i := from[i]];
        i := i + 1;
      }
      TextIsUnique(from, from[..i]);
      name := copied[i := ZERO];
    }

    method Expire(now: u32)
      requires Valid()
      modifies peers
      ensures Valid()
      ensures forall i :: 0 <= i < MAX_PEERS ==>
                peers[i] == old(peers[i]).(valid := Active(old(peers[i]), now, timeout))
    {
      for i := 0 to MAX_PEERS
        invariant forall j :: 0 <= j < i ==> peers[j] == old(peers[j]).(valid := Active(old(peers[j]), now, timeout))
        invariant forall j :: i <= j < MAX_PEERS ==> peers[j] == old(peers[j])
      {
        if peers[i].valid && Sub32(now, peers[i].lastUpdate) > timeout {
          peers[i] := peers[i].(valid := false);
        }
      }
    }

    method CountActive(now: u32) returns (n: nat)
      requires Valid()
      ensures n == |Slots(peers[..], MAX_PEERS, p => Active(p, now, timeout))|
    {
      ghost var wanted := p => Active(p, now, timeout);
      n := 0;
      for i := 0 to MAX_PEERS
        invariant n == |Slots(peers[..], i, wanted)|
      {
        SlotsStep(peers[..], i, wanted);
        if peers[i].valid && Sub32(now, peers[i].lastUpdate) <= timeout {
          n := n + 1;
        }
      }
    }

    method CountActiveOn(radio: nat, now: u32) returns (n: nat)
      requires Valid()
      ensures radio >= MAX_RADIOS ==> n == 0
      ensures radio < MAX_RADIOS ==> n == |Slots(peers[..], MAX_PEERS, p => ActiveOn(p, radio, now, timeout))|
      ensures InOrder(peers[..], now) ==> n <= |Slots(peers[..], MAX_PEERS, p => Active(p, now, timeout))|
    {
      if radio >= MAX_RADIOS {
        return 0;
      }
      ghost var wanted := p => ActiveOn(p, radio, now, timeout);
      n := 0;
      for i := 0 to MAX_PEERS
        invariant n == |Slots(peers[..], i, wanted)|
      {
        SlotsStep(peers[..], i, wanted);
        if peers[i].valid && peers[i].radiosSeen[radio] && Sub32(now, peers[i].lastSeenOn[radio]) <= timeout {
          n := n + 1;
        }
      }
      if InOrder(peers[..], now) {
        SlotsOfFewer(peers[..], p => Active(p, now, timeout), wanted);
      }
    }

    /** The entry of a slot, if it is valid. */
    method At(index: nat) returns (found: bool, p: Peer)
      requires Valid()
      ensures found <==> index < MAX_PEERS && peers[index].valid
      ensures found ==> p == peers[index]
    {
      p := NoPeer();
      found := index < MAX_PEERS && peers[index].valid;
      if found {
        p := peers[index];
      }
    }
  }

  /** Expiring takes out exactly the peers that the count already left out, so the
      count stays what it was. */
  lemma ExpireKeepsCount(was: seq<Peer>, peers: seq<Peer>, now: u32, timeout: u32)
    requires |was| == |peers|
    requires forall i :: 0 <= i < |was| ==> peers[i] == was[i].(valid := Active(was[i], now, timeout))
    ensures Slots(peers, |peers|, (p: Peer) => p.valid) == Slots(was, |was|, p => Active(p, now, timeout))
    ensures Slots(peers, |peers|, p => Active(p, now, timeout)) == Slots(was, |was|, p => Active(p, now, timeout))
  {}
}
