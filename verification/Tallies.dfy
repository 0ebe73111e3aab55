/** What the counters of lib/ff_core/node.cpp tell: over any calls each has gone up by how
    often what it is named after happened, modulo 2^32, and no other has moved. */
module Tallies {
  import opened MachineWords
  import opened Node
  import Log = FrameLog
  import Peers = PeerTable

  /** A receive call: the radio it is counted on and what became of the frame. */
  datatype Heard = Heard(radio: nat, result: Log.FrameResult)

  /** The counters of the node after these calls. */
  function Total(s: Stats, calls: seq<Heard>): (t: Stats)
  {
    if calls == [] then s else Node.Counted(Total(s, calls[..|calls| - 1]), calls[|calls| - 1].result)
  }

  /** The counters of one radio. */
  function TotalOn(q: RadioStats, radio: nat, calls: seq<Heard>): (t: RadioStats)
  {
    if calls == [] then q
    else
      var rest, h := TotalOn(q, radio, calls[..|calls| - 1]), calls[|calls| - 1];
      if h.radio == radio then Node.CountedOn(rest, h.result) else rest
  }

  /** How many of the calls, on any of these radios, ended in one of these ways. */
  function HowMany(calls: seq<Heard>, radios: set<nat>, results: set<Log.FrameResult>): (n: nat)
  {
    if calls == [] then 0
    else
      var h := calls[|calls| - 1];
      HowMany(calls[..|calls| - 1], radios, results) + (if h.radio in radios && h.result in results then 1 else 0)
  }

  /** The counter has gone up by `n`, modulo 2^32. */
  predicate Rose(was: u32, now: u32, n: nat)
  {
    now == (was + n) % TWO32
  }

  lemma RoseOnce(was: u32, now: u32, n: nat)
    requires Rose(was, now, n)
    ensures Rose(was, Add32(now, 1), n + 1)
  {}

  const REFUSED: set<Log.FrameResult> := {Log.CryptoFail, Log.ReplayFail, Log.DecodeFail, Log.Oversize}

  /** Good frames, our own and refused ones are counted apart. */
  lemma {:induction false} NodeTallies(s: Stats, calls: seq<Heard>, radios: set<nat>)
    requires forall k :: 0 <= k < |calls| ==> calls[k].radio in radios && calls[k].result != Log.Tx
    ensures var t := Total(s, calls);
            && Rose(s.rxOk, t.rxOk, HowMany(calls, radios, {Log.Ok}))
            && Rose(s.rxSelf, t.rxSelf, HowMany(calls, radios, {Log.Self}))
            && Rose(s.rxRejected, t.rxRejected, HowMany(calls, radios, REFUSED))
            && t.beaconsSent == s.beaconsSent && t.announcesSent == s.announcesSent && t.lastTx == s.lastTx
  {
    if calls != [] {
      var rest := calls[..|calls| - 1];
      NodeTallies(s, rest, radios);
      var t := Total(s, rest);
      hide Rose, Add32, Total;
      RoseOnce(s.rxOk, t.rxOk, HowMany(rest, radios, {Log.Ok}));
      RoseOnce(s.rxSelf, t.rxSelf, HowMany(rest, radios, {Log.Self}));
      RoseOnce(s.rxRejected, t.rxRejected, HowMany(rest, radios, REFUSED));
      assert Total(s, calls) == Node.Counted(t, calls[|calls| - 1].result) by { TotalMore(s, calls); }
    }
  }

  lemma TotalMore(s: Stats, calls: seq<Heard>)
    requires calls != []
    ensures Total(s, calls) == Node.Counted(Total(s, calls[..|calls| - 1]), calls[|calls| - 1].result)
  {}

  lemma HowManyMore(calls: seq<Heard>, radio: nat)
    requires calls != []
    ensures var rest, h := calls[..|calls| - 1], calls[|calls| - 1];
            forall results :: HowMany(calls, {radio}, results)
                              == HowMany(rest, {radio}, results) + (if h.radio == radio && h.result in results then 1 else 0)
  {}

  lemma TotalOnMore(q: RadioStats, radio: nat, calls: seq<Heard>)
    requires calls != []
    ensures var rest, h := TotalOn(q, radio, calls[..|calls| - 1]), calls[|calls| - 1];
            TotalOn(q, radio, calls) == if h.radio == radio then Node.CountedOn(rest, h.result) else rest
  {}

  /** On a radio good frames and our own are counted apart too. */
  lemma {:induction false} RadioTallies(q: RadioStats, radio: nat, calls: seq<Heard>)
    requires forall k :: 0 <= k < |calls| ==> calls[k].result != Log.Tx
    ensures var t := TotalOn(q, radio, calls);
            && Rose(q.rxOk, t.rxOk, HowMany(calls, {radio}, {Log.Ok}))
            && Rose(q.rxSelf, t.rxSelf, HowMany(calls, {radio}, {Log.Self}))
            && t.tx == q.tx && t.lastRx == q.lastRx && t.lastRssi == q.lastRssi
  {
    if calls != [] {
      var rest := calls[..|calls| - 1];
      RadioTallies(q, radio, rest);
      var t := TotalOn(q, radio, rest);
      hide Rose, Add32, HowMany, TotalOn;
      TotalOnMore(q, radio, calls);
      HowManyMore(calls, radio);
      RoseOnce(q.rxOk, t.rxOk, HowMany(rest, {radio}, {Log.Ok}));
      RoseOnce(q.rxSelf, t.rxSelf, HowMany(rest, {radio}, {Log.Self}));
    }
  }

  /** And so is each way of refusing, but for a frame that is too long, which goes with those
      that cannot be decoded. */
  lemma {:induction false} RefusalTallies(q: RadioStats, radio: nat, calls: seq<Heard>)
    requires forall k :: 0 <= k < |calls| ==> calls[k].result != Log.Tx
    ensures var t := TotalOn(q, radio, calls);
            && Rose(q.rxCryptoFail, t.rxCryptoFail, HowMany(calls, {radio}, {Log.CryptoFail}))
            && Rose(q.rxReplay, t.rxReplay, HowMany(calls, {radio}, {Log.ReplayFail}))
            && Rose(q.rxDecodeFail, t.rxDecodeFail, HowMany(calls, {radio}, {Log.DecodeFail, Log.Oversize}))
  {
    if calls != [] {
      var rest := calls[..|calls| - 1];
      RefusalTallies(q, radio, rest);
      var t := TotalOn(q, radio, rest);
      hide Rose, Add32, HowMany, TotalOn;
      TotalOnMore(q, radio, calls);
      HowManyMore(calls, radio);
      RoseOnce(q.rxCryptoFail, t.rxCryptoFail, HowMany(rest, {radio}, {Log.CryptoFail}));
      RoseOnce(q.rxReplay, t.rxReplay, HowMany(rest, {radio}, {Log.ReplayFail}));
      RoseOnce(q.rxDecodeFail, t.rxDecodeFail, HowMany(rest, {radio}, {Log.DecodeFail, Log.Oversize}));
    }
  }

  /** A radio's transmit counter rises by the frames handed to that radio. */
  lemma {:induction false} SentTallies(radios: seq<RadioStats>, out: seq<Transmission>, r: nat)
    requires r < |radios|
    ensures var t := TxCounted(radios, out)[r];
            Rose(radios[r].tx, t.tx, CopiesTo(out, r)) && t == radios[r].(tx := t.tx)
  {
    if out != [] {
      var rest := out[..|out| - 1];
      SentTallies(radios, rest, r);
      var t := TxCounted(radios, rest)[r];
      hide Rose, Add32;
      RoseOnce(radios[r].tx, t.tx, CopiesTo(rest, r));
    }
  }

  /** Every frame handed to a radio has an entry of its own in the log: when, by whom, on which
      radio, how long, of which kind. */
  lemma {:induction false} EntriesTell(now: u32, uid: u32, kind: u8, out: seq<Transmission>, k: nat)
    requires k < |out| && |out[k].frame| < 0x1_0000 && out[k].radio < 0x100
    ensures var e := Entries(now, uid, kind, out)[k];
            && e.ms == now && e.uid == uid && e.len == |out[k].frame| && e.radio == out[k].radio
            && e.kind == kind && e.rssi == 0 && e.result == Log.Tx
  {
    var n := |out| - 1;
    if k < n {
      EntriesTell(now, uid, kind, out[..n], k);
    }
  }

  /** A call leaves its time and its signal strength on the radio it is counted on, and nothing
      on any other. */
  lemma TouchTells(radios: seq<RadioStats>, radio: nat, now: u32, rssi: i16, r: nat)
    requires |radios| == Peers.MAX_RADIOS && r < Peers.MAX_RADIOS
    ensures var t, counted := Touched(radios, radio, now, rssi), if radio < Peers.MAX_RADIOS then radio else 0;
            t[r] == if r == counted then radios[r].(lastRx := now, lastRssi := rssi) else radios[r]
  {}
}
