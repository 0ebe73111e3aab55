/** The transmit side of src/hal/RadioLoRa.cpp on one radio chip, with the one-frame slot
    of lib/ff_core/tx_slot.h. */
module RadioTx {
  import opened ByteStrings
  import opened MachineWords
  import opened Options

  const SLOT_CAPACITY: nat := 64
  const TX_TIMEOUT: u32 := 500

  /** A power setting: what the chip is told and what leaves the antenna. */
  datatype Power = Power(chipDbm: int, outputDbm: int)

  // ---- The protocol on values ------------------------------------------------------------

  /** A frame that went on the air, the power the chip was set to and the power wanted of
      it at that moment. */
  datatype Started = Started(data: Bytes, applied: Power, wanted: Power)

  /** A call of `Transmit`, and whether its frame was dropped. */
  datatype Call = Call(data: Bytes, dropped: bool)

  datatype Radio = Radio(
    onAir: bool, since: u32, held: Option<Bytes>, wanted: Power, applied: Power, powerPending: bool,
    started: seq<Started>, calls: seq<Call>)

  /** The watchdog and the transmit-done interrupt are what a service pass may find. */
  datatype Event = Sends(data: Bytes, now: u32) | SetsPower(power: Power) | Services(now: u32, irq: bool, txDone: bool)

  predicate Holds(held: Option<Bytes>, data: Bytes)
  {
    held == None && 0 < |data| <= SLOT_CAPACITY
  }

  function StartNow(r: Radio, data: Bytes, now: u32): (r': Radio)
  {
    r.(onAir := true, since := now, started := r.started + [Started(data, r.applied, r.wanted)])
  }

  /** The frame on the air is over, done or given up. */
  predicate Finishes(r: Radio, now: u32, irq: bool, txDone: bool)
  {
    r.onAir && (Sub32(now, r.since) > TX_TIMEOUT || (irq && txDone))
  }

  function Step(r: Radio, e: Event): (r': Radio)
  {
    match e
    case Sends(data, now) =>
      if !r.onAir then StartNow(r, data, now).(calls := r.calls + [Call(data, false)])
      else if Holds(r.held, data) then r.(held := Some(data), calls := r.calls + [Call(data, false)])
      else r.(calls := r.calls + [Call(data, true)])
    case SetsPower(power) =>
      if power == r.wanted then r
      else if r.onAir then r.(wanted := power, powerPending := true)
      else r.(wanted := power, applied := power)
    case Services(now, irq, txDone) =>
      if !Finishes(r, now, irq, txDone) then r
      else
        var idle := r.(onAir := false, applied := if r.powerPending then r.wanted else r.applied, powerPending := false);
        if r.held == None then idle else StartNow(idle, r.held.value, now).(held := None)
  }

  function Run(r: Radio, events: seq<Event>): (r': Radio)
  {
    if events == [] then r else Step(Run(r, events[..|events| - 1]), events[|events| - 1])
  }

  function Kept(calls: seq<Call>): (frames: seq<Bytes>)
  {
    if calls == [] then []
    else
      var rest, last := Kept(calls[..|calls| - 1]), calls[|calls| - 1];
      if last.dropped then rest else rest + [last.data]
  }

  function Dropped(calls: seq<Call>): (n: nat)
  {
    if calls == [] then 0
    else Dropped(calls[..|calls| - 1]) + (if calls[|calls| - 1].dropped then 1 else 0)
  }

  lemma KeptMore(calls: seq<Call>, c: Call)
    ensures Kept(calls + [c]) == if c.dropped then Kept(calls) else Kept(calls) + [c.data]
    ensures Dropped(calls + [c]) == Dropped(calls) + (if c.dropped then 1 else 0)
  {
    assert (calls + [c])[..|calls|] == calls;
  }

  lemma {:induction false} KeptOrDropped(calls: seq<Call>)
    ensures |Kept(calls)| + Dropped(calls) == |calls|
  {
    if calls != [] {
      KeptOrDropped(calls[..|calls| - 1]);
    }
  }

  function Data(started: seq<Started>): (frames: seq<Bytes>)
    ensures |frames| == |started|
  {
    seq(|started|, i requires 0 <= i < |started| => started[i].data)
  }

  function Waiting(held: Option<Bytes>): (frames: seq<Bytes>)
  {
    if held == None then [] else [held.value]
  }

  /** A frame waits only while another is on the air, a changed power waits only then, and
      otherwise the chip has the power wanted; the frames of all calls but the dropped
      ones are those started, in the order of the calls, and the one that waits. */
  ghost predicate Orderly(r: Radio)
  {
    && (r.held != None ==> r.onAir)
    && (r.powerPending ==> r.onAir)
    && (!r.powerPending ==> r.applied == r.wanted)
    && Data(r.started) + Waiting(r.held) == Kept(r.calls)
    && forall i :: 0 <= i < |r.started| ==> r.started[i].applied == r.started[i].wanted
  }

  function Quiet(power: Power): (r: Radio)
  {
    Radio(false, 0, None, power, power, false, [], [])
  }

  lemma StartKeepsData(r: Radio, data: Bytes, now: u32)
    ensures Data(StartNow(r, data, now).started) == Data(r.started) + [data]
  {}

  lemma StepKeepsOrder(r: Radio, e: Event)
    requires Orderly(r)
    ensures Orderly(Step(r, e))
  {
    hide Kept, Data;
    match e
    case Sends(data, now) =>
      KeptMore(r.calls, Call(data, r.onAir && !Holds(r.held, data)));
      StartKeepsData(r, data, now);
      assert r.held == None ==> Data(r.started) + Waiting(r.held) == Data(r.started);
      assert Data(r.started) + [data] + [] == Data(r.started) + [data];
    case SetsPower(_) =>
    case Services(now, irq, txDone) =>
      if Finishes(r, now, irq, txDone) && r.held != None {
        var idle := r.(onAir := false, applied := r.wanted, powerPending := false);
        StartKeepsData(idle, r.held.value, now);
        assert Data(r.started) + [r.held.value] + [] == Data(r.started) + [r.held.value];
      }
  }

  lemma {:induction false} AlwaysOrderly(power: Power, events: seq<Event>)
    ensures Orderly(Run(Quiet(power), events))
  {
    hide Orderly, Step;
    if events == [] {
      QuietIsOrderly(power);
    } else {
      var n := |events| - 1;
      AlwaysOrderly(power, events[..n]);
      StepKeepsOrder(Run(Quiet(power), events[..n]), events[n]);
    }
  }

  lemma QuietIsOrderly(power: Power)
    ensures Orderly(Quiet(power))
  {}

  /** Over any interleaving of sending, power changes and service passes: every call's
      frame is started, waits, or is counted as dropped; frames start in the order of the
      calls, each at the power wanted when it started; and a frame waits only behind one on
      the air. */
  lemma NothingLost(power: Power, events: seq<Event>)
    ensures var r := Run(Quiet(power), events);
            && |r.calls| == |r.started| + |Waiting(r.held)| + Dropped(r.calls)
            && Data(r.started) <= Kept(r.calls)
            && (r.held != None ==> r.onAir)
            && forall i :: 0 <= i < |r.started| ==> r.started[i].applied == r.started[i].wanted
  {
    var r := Run(Quiet(power), events);
    AlwaysOrderly(power, events);
    KeptOrDropped(r.calls);
    assert |Data(r.started)| == |r.started|;
  }

  /** The power last asked for. */
  function LastPower(power: Power, events: seq<Event>): (p: Power)
  {
    if events == [] then power
    else
      var last := events[|events| - 1];
      if last.SetsPower? then last.power else LastPower(power, events[..|events| - 1])
  }

  /** The frames of all calls, in their order. */
  function AllSent(events: seq<Event>): (frames: seq<Bytes>)
  {
    if events == [] then []
    else
      var rest, last := AllSent(events[..|events| - 1]), events[|events| - 1];
      if last.Sends? then rest + [last.data] else rest
  }

  function CallData(calls: seq<Call>): (frames: seq<Bytes>)
  {
    seq(|calls|, i requires 0 <= i < |calls| => calls[i].data)
  }

  /** What is wanted is what was last asked for, and the calls are those that were made. */
  lemma {:induction false} WantedIsAsked(power: Power, events: seq<Event>)
    ensures var r := Run(Quiet(power), events);
            r.wanted == LastPower(power, events) && CallData(r.calls) == AllSent(events)
  {
    if events != [] {
      var n := |events| - 1;
      WantedIsAsked(power, events[..n]);
    }
  }

  /** Every frame that was started went out at the power last asked for before it started:
      event `n` is the one that started it. */
  lemma {:induction false} StartedAsAsked(power: Power, events: seq<Event>, i: nat)
    requires i < |Run(Quiet(power), events).started|
    ensures exists n: nat :: n < |events| && StartsAt(power, events, i, n)
  {
    hide Orderly, Step, LastPower;
    var n := |events| - 1;
    var before := Run(Quiet(power), events[..n]);
    AlwaysOrderly(power, events[..n]);
    AlwaysOrderly(power, events);
    WantedIsAsked(power, events[..n]);
    OneStartAStep(before, events[n]);
    assert events[..n + 1] == events;
    if i < |before.started| {
      StartedAsAsked(power, events[..n], i);
      var k: nat :| k < n && StartsAt(power, events[..n], i, k);
      assert events[..n][..k] == events[..k] && events[..n][..k + 1] == events[..k + 1];
      assert StartsAt(power, events, i, k);
    } else {
      assert StartsAt(power, events, i, n);
    }
  }

  /** Event `n` starts frame `i`, at the power last asked for until then. */
  ghost predicate StartsAt(power: Power, events: seq<Event>, i: nat, n: nat)
    requires i < |Run(Quiet(power), events).started| && n < |events|
  {
    && |Run(Quiet(power), events[..n]).started| == i < |Run(Quiet(power), events[..n + 1]).started|
    && Run(Quiet(power), events).started[i].applied == LastPower(power, events[..n])
  }

  lemma OneStartAStep(r: Radio, e: Event)
    requires Orderly(r)
    ensures var s := Step(r, e).started;
            s == r.started || (|s| == |r.started| + 1 && s[..|r.started|] == r.started
                               && s[|r.started|].applied == s[|r.started|].wanted == r.wanted)
  {
    hide Kept, Data;
  }

  /** A frame is dropped only if another is on the air and the slot is taken or too small. */
  lemma DroppedOnlyBehindTwo(r: Radio, data: Bytes, now: u32)
    requires Orderly(r)
    ensures var c := Step(r, Sends(data, now)).calls[|r.calls|];
            c.dropped <==> r.onAir && (r.held != None || |data| == 0 || |data| > SLOT_CAPACITY)
  {}

  /** The held frame is the next on the air, as soon as the present one is over. */
  lemma HeldGoesNext(r: Radio, now: u32, irq: bool, txDone: bool)
    requires Orderly(r) && r.held != None && Finishes(r, now, irq, txDone)
    ensures var r' := Step(r, Services(now, irq, txDone));
            && r'.onAir && r'.held == None && r'.since == now
            && r'.started == r.started + [Started(r.held.value, r.wanted, r.wanted)]
  {}

  /** No event but the end of the frame itself takes it off the air: the chip says that it
      is done, or half a second has passed. */
  lemma OnlyItsEndEnds(r: Radio, e: Event)
    requires r.onAir
    ensures var r' := Step(r, e);
            if e.Services? && (Sub32(e.now, r.since) > 500 || (e.irq && e.txDone)) then
              && |r'.started| == |r.started| + |Waiting(r.held)|
              && (r.held == None ==> !r'.onAir)
            else r'.onAir && r'.since == r.since && r'.started == r.started && r'.applied == r.applied
  {}

  // ---- The slot ------------------------------------------------------------------------------

  class TxSlot {
    const buf: array<Byte>
    var len: nat
    var full: bool
    var deferred: u32

    ghost predicate Valid()
      reads this
    {
      buf.Length == SLOT_CAPACITY && (full ==> 0 < len <= SLOT_CAPACITY) && (!full ==> len == 0)
    }

    ghost function Held(): (held: Option<Bytes>)
      requires Valid()
      reads this, buf
    {
      if full then Some(buf[..len]) else None
    }

    constructor ()
      ensures Valid() && Held() == None && fresh(buf) && deferred == 0
    {
      buf := new Byte[SLOT_CAPACITY](i => ZERO);
      len, full, deferred := 0, false, 0;
    }

    /** A held frame is never overwritten: it is the older one. */
    method Push(data: Bytes) returns (ok: bool)
      requires Valid()
      modifies this, buf
      ensures Valid() && ok == Holds(old(Held()), data)
      ensures Held() == if ok then Some(data) else old(Held())
      ensures deferred == if ok then Add32(old(deferred), 1) else old(deferred)
    {
      if full || |data| == 0 || |data| > SLOT_CAPACITY {
        return false;
      }
      for i := 0 to |data|
        modifies buf
        invariant buf[..i] == data[..i]
      {
        buf[i] := data[i];
      }
      assert data[..|data|] == data;
      len, full := |data|, true;
      deferred := Add32(deferred, 1);
      return true;
    }

    method Clear()
      requires Valid()
      modifies this
      ensures Valid() && Held() == None && deferred == old(deferred)
    {
      full, len := false, 0;
    }
  }

  // ---- The chip ----------------------------------------------------------------------------------

  /** What the driver must not do to a chip with a frame on the air stands as requirements. */
  class Chip {
    var onAir: bool
    var listening: bool
    var applied: Power
    var sent: seq<Bytes>

    constructor (power: Power)
      ensures !onAir && listening && applied == power && sent == []
    {
      onAir, listening, applied, sent := false, true, power, [];
    }

    method StartTransmit(data: Bytes)
      requires !onAir
      modifies this
      ensures onAir && !listening && applied == old(applied) && sent == old(sent) + [data]
    {
      onAir, listening, sent := true, false, sent + [data];
    }

    method FinishTransmit()
      requires onAir
      modifies this
      ensures !onAir && !listening && applied == old(applied) && sent == old(sent)
    {
      onAir := false;
      listening := false;
    }

    method StartReceive()
      requires !onAir
      modifies this
      ensures !onAir && listening && applied == old(applied) && sent == old(sent)
    {
      listening := true;
    }

    /** A reception that is over, one way or the other. */
    method ReadReceived()
      requires !onAir
      modifies this
      ensures !onAir && !listening && applied == old(applied) && sent == old(sent)
    {
      listening := false;
    }

    method Standby()
      requires !onAir
      modifies this
      ensures !onAir && !listening && applied == old(applied) && sent == old(sent)
    {
      listening := false;
    }

    method SetOutputPower(power: Power)
      requires !onAir
      modifies this
      ensures !onAir && listening == old(listening) && applied == power && sent == old(sent)
    {
      applied := power;
    }
  }

  /** The switches in front of the chip. The two amplifiers are never on together: each
      may be switched on only while the other is off. */
  class FrontEnd {
    var rxen: bool
    var txen: bool

    constructor ()
      ensures rxen && !txen
    {
      rxen, txen := true, false;
    }

    method SetReceiveAmplifier(on: bool)
      requires on ==> !txen
      modifies this`rxen
      ensures rxen == on
    {
      rxen := on;
    }

    method SetPowerAmplifier(on: bool)
      requires on ==> !rxen
      modifies this`txen
      ensures txen == on
    {
      txen := on;
    }
  }

  // ---- The driver ---------------------------------------------------------------------------------

  class RadioLoRa {
    const chip: Chip
    const pending: TxSlot
    const pins: FrontEnd
    var transmitting: bool
    var txStart: u32
    var power: Power
    var powerPending: bool
    var txDropped: u32
    var txTimeouts: u32
    ghost var started: seq<Started>
    ghost var calls: seq<Call>

    ghost function Abstract(): (r: Radio)
      requires pending.Valid()
      reads this, chip, pending, pending.buf
    {
      Radio(transmitting, txStart, pending.Held(), power, chip.applied, powerPending, started, calls)
    }

    /** The flag agrees with the chip; a silent radio listens; and of the two amplifiers
        only the one that is needed is on. */
    ghost predicate Valid()
      reads this, chip, pending, pending.buf, pins
    {
      && pending.Valid() && Orderly(Abstract())
      && chip.onAir == transmitting && chip.listening == !transmitting
      && pins.rxen == !transmitting && pins.txen == transmitting
      && chip.sent == Data(started)
      && txDropped == Dropped(calls) % TWO32
    }

    constructor (power: Power)
      ensures Valid() && fresh(chip) && fresh(pending) && fresh(pending.buf) && fresh(pins)
      ensures Abstract() == Quiet(power)
    {
      chip := new Chip(power);
      pending := new TxSlot();
      pins := new FrontEnd();
      transmitting, txStart, powerPending := false, 0, false;
      this.power, txDropped, txTimeouts := power, 0, 0;
      started, calls := [], [];
    }

    method FrontEndRx()
      modifies pins
      ensures pins.rxen && !pins.txen
    {
      pins.SetPowerAmplifier(false);
      pins.SetReceiveAmplifier(true);
    }

    /** The receive amplifier goes off before the power amplifier comes on. */
    method FrontEndTx()
      modifies pins
      ensures !pins.rxen && pins.txen
    {
      pins.SetReceiveAmplifier(false);
      pins.SetPowerAmplifier(false);
      pins.SetPowerAmplifier(true);
    }

    method ReceiveAll()
      requires !chip.onAir
      modifies pins, chip
      ensures !chip.onAir && chip.listening && chip.applied == old(chip.applied) && chip.sent == old(chip.sent)
      ensures pins.rxen && !pins.txen
    {
      FrontEndRx();
      chip.StartReceive();
    }

    method StartTx(data: Bytes, now: u32)
      requires !chip.onAir && chip.sent == Data(started)
      modifies this`transmitting, this`txStart, this`started, pins, chip
      ensures transmitting && txStart == now && !pins.rxen && pins.txen
      ensures chip.onAir && !chip.listening && chip.applied == old(chip.applied)
      ensures started == old(started) + [Started(data, chip.applied, power)] && chip.sent == Data(started)
    {
      transmitting := true;
      txStart := now;
      FrontEndTx();
      chip.StartTransmit(data);
      started := started + [Started(data, chip.applied, power)];
    }

    /** One frame to send: now, after the present one, or not at all. */
    method Transmit(data: Bytes, now: u32)
      requires Valid()
      modifies this, chip, pins, pending, pending.buf
      ensures Valid() && Abstract() == Step(old(Abstract()), Sends(data, now))
    {
      hide Kept, Dropped, Data;
      StepKeepsOrder(Abstract(), Sends(data, now));
      KeptMore(calls, Call(data, transmitting && !Holds(pending.Held(), data)));
      if transmitting {
        var ok := pending.Push(data);
        if !ok {
          txDropped := Add32(txDropped, 1);
        }
        calls := calls + [Call(data, !ok)];
        return;
      }
      calls := calls + [Call(data, false)];
      StartTx(data, now);
    }

    method SetPower(next: Power)
      requires Valid()
      modifies this, chip, pins
      ensures Valid() && Abstract() == Step(old(Abstract()), SetsPower(next))
    {
      hide Kept, Dropped, Data;
      StepKeepsOrder(Abstract(), SetsPower(next));
      if next == power {
        return;
      }
      power := next;
      if transmitting {
        powerPending := true;
        return;
      }
      chip.Standby();
      chip.SetOutputPower(power);
      ReceiveAll();
    }

    method SendPending(now: u32) returns (sent: bool)
      requires pending.Valid() && !chip.onAir && chip.sent == Data(started)
      modifies this`transmitting, this`txStart, this`started, pins, chip, pending
      ensures pending.Valid() && sent == old(pending.full) && pending.Held() == None
      ensures chip.sent == Data(started) && chip.applied == old(chip.applied)
      ensures sent ==> transmitting && txStart == now && !pins.rxen && pins.txen && chip.onAir && !chip.listening
                       && started == old(started) + [Started(old(pending.buf[..pending.len]), chip.applied, power)]
      ensures !sent ==> !chip.onAir && started == old(started) && transmitting == old(transmitting)
                        && txStart == old(txStart) && pins.rxen == old(pins.rxen) && pins.txen == old(pins.txen)
    {
      if !pending.full {
        return false;
      }
      StartTx(pending.buf[..pending.len], now);
      pending.Clear();
      return true;
    }

    /** What follows a frame that is over: the power that waited, then the frame that
        waited, or listening. */
    method AfterFrame(now: u32)
      requires pending.Valid() && !transmitting && !chip.onAir && chip.sent == Data(started)
      modifies this`transmitting, this`txStart, this`started, pins, this`powerPending, chip, pending
      ensures pending.Valid() && !powerPending && pending.Held() == None && chip.sent == Data(started)
      ensures chip.applied == if old(powerPending) then power else old(chip.applied)
      ensures transmitting == old(pending.full) == chip.onAir == pins.txen && chip.listening == pins.rxen == !transmitting
      ensures transmitting ==>
                && txStart == now
                && started == old(started) + [Started(old(pending.buf[..pending.len]), chip.applied, power)]
      ensures !transmitting ==> started == old(started) && txStart == old(txStart)
    {
      if powerPending {
        chip.SetOutputPower(power);
        powerPending := false;
      }
      var sent := SendPending(now);
      if !sent {
        ReceiveAll();
      }
    }

    /** A service pass. The watchdog comes first; `irq` says that the chip raised its
        interrupt, `txDone` that it reports the end of a transmission. */
    method ServiceRx(now: u32, irq: bool, txDone: bool)
      requires Valid()
      modifies this, chip, pins, pending
      ensures Valid() && Abstract() == Step(old(Abstract()), Services(now, irq, txDone))
      ensures txTimeouts == if old(transmitting) && Sub32(now, old(txStart)) > TX_TIMEOUT then Add32(old(txTimeouts), 1)
                            else old(txTimeouts)
    {
      hide Kept, Dropped, Data;
      StepKeepsOrder(Abstract(), Services(now, irq, txDone));
      var finished, restart := false, false;
      if transmitting && Sub32(now, txStart) > TX_TIMEOUT {
        txTimeouts := Add32(txTimeouts, 1);
        transmitting := false;
        chip.FinishTransmit();
        finished := true;
      }
      if irq {
        if transmitting {
          if txDone {
            chip.FinishTransmit();
            transmitting := false;
            finished := true;
          }
        } else {
          restart := true;
          chip.ReadReceived();
        }
      }
      if transmitting {
        return;
      }
      if finished {
        AfterFrame(now);
        return;
      }
      if restart {
        chip.StartReceive();
      }
    }
  }
}
