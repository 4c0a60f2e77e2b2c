/** When the timers of the board's drivers are due, over every run: each its own delay after it was armed. */
module BoardTimes {
  import opened Common
  import opened Board
  import ST = SoftTimer
  import TC = TimerClients
  import I2c
  import Tx = IrTx
  import Rx = IrRx
  import Imu
  import Nec

  /** The client whose driver an event acts on. */
  function Actor(b: Board, event: Event): Option<nat>
    requires Sized(b)
  {
    match event
    case I2cStart(_, _, _, _) => Some(I2C)
    case I2cEnd(_) => Some(I2C)
    case ProbeBegin(_) => Some(I2C)
    case ProbeEnd => Some(I2C)
    case TxStart(_) => Some(TX)
    case RxEdge => Some(RX)
    case ImuInit(_) => Some(IMU)
    case ImuReceive => Some(IMU)
    case ImuStoreByte => Some(IMU)
    case ImuIssue(_, _) => Some(IMU)
    case ImuEnds(_, _, _) => Some(IMU)
    case Fires(slot, _) =>
      if slot < ST.SLOTS && b.t.w.entries[slot].active then b.t.w.entries[slot].cb else None
    case _ => None
  }

  /** The entry in slot `k` is pending for client `c`. */
  predicate Pending(t: TC.State, k: nat, c: nat)
    requires ST.Sized(t.w)
  {
    k < ST.SLOTS && t.w.entries[k].active && t.w.entries[k].cb == Some(c)
  }

  lemma DisarmSpares(t: TC.State, c: nat, k: nat, other: nat)
    requires TC.Owned(t) && c < |t.ids| && Pending(t, k, other) && other != c
    ensures TC.DoDisarm(t, c).w.entries[k] == t.w.entries[k]
  {
    TC.DisarmIsOwn(t, c);
  }

  lemma ArmSpares(t: TC.State, c: nat, delay: u32, k: nat, other: nat)
    requires TC.Owned(t) && c < |t.ids| == 4 && t.ids[c] < 0 && delay != 0 && Pending(t, k, other)
    ensures TC.DoArm(t, c, delay).w.entries[k] == t.w.entries[k]
  {
    TC.ArmSucceeds(t, c, delay);
  }

  lemma RearmSpares(t: TC.State, c: nat, delay: u32, k: nat, other: nat)
    requires TC.Owned(t) && c < |t.ids| == 4 && delay != 0 && Pending(t, k, other) && other != c
    ensures TC.DoRearm(t, c, delay).w.entries[k] == t.w.entries[k]
  {
    DisarmSpares(t, c, k, other);
    DisarmForgets(t, c);
    ArmSpares(TC.DoDisarm(t, c), c, delay, k, other);
  }

  lemma PlayOnSpares(b: Board, c: Tx.Channel, k: nat, other: nat)
    requires Sized(b) && TC.Owned(b.t) && b.t.ids[TX] < 0 && Pending(b.t, k, other) && other != TX
    ensures PlayOn(b, c).t.w.entries[k] == b.t.w.entries[k]
  {
    DisarmSpares(b.t, TX, k, other);
    if c.index < |c.segments| && c.segments[c.index].duration != 0 {
      ArmSpares(b.t, TX, c.segments[c.index].duration, k, other);
    }
  }

  lemma FiresSpares(b: Board, slot: nat, room: bool, k: nat, other: nat)
    requires Ok(b) && Pending(b.t, k, other) && Actor(b, Fires(slot, room)) != Some(other)
    ensures DoFires(b, slot, room).t.w.entries[k] == b.t.w.entries[k]
  {
    if slot < ST.SLOTS && b.t.w.entries[slot].active {
      var c, w := b.t.w.entries[slot].cb.value, ST.Fire(b.t.w, slot);
      FiredAndForgotten(b.t, slot, c);
      var t := Forget(b.t.(w := w), c);
      if c == TX {
        PlayOnSpares(b.(t := t), b.tx.(timer := false), k, other);
      } else if c == IMU {
        RearmSpares(t, IMU, SAMPLE_US, k, other);
      }
    }
  }

  lemma BusSpares(b: Board, event: Event, k: nat, other: nat)
    requires Ok(b) && (event.I2cStart? || event.I2cEnd? || event.ProbeBegin? || event.ProbeEnd?)
    requires Pending(b.t, k, other) && other != I2C
    ensures Apply(b, event).t.w.entries[k] == b.t.w.entries[k]
  {
    DisarmSpares(b.t, I2C, k, other);
    if event.I2cStart? && TakesLock(b.bus, event.valid, event.hasCallback) {
      UnlockedStoresNothing(b.bus);
      ForgetOwns(b.t, I2C);
      ArmSpares(Forget(b.t, I2C), I2C, I2c.TimeoutUs(event.timeoutMs), k, other);
    }
  }

  lemma ImuSpares(b: Board, event: Event, k: nat, other: nat)
    requires Ok(b) && (event.ImuInit? || event.ImuReceive? || event.ImuStoreByte? || event.ImuIssue? || event.ImuEnds?)
    requires Pending(b.t, k, other) && other != IMU
    ensures Apply(b, event).t.w.entries[k] == b.t.w.entries[k]
  {
    DisarmSpares(b.t, IMU, k, other);
    RearmSpares(b.t, IMU, SAMPLE_US, k, other);
  }

  lemma TxSpares(b: Board, request: seq<Nec.Wave>, k: nat, other: nat)
    requires Ok(b) && Pending(b.t, k, other) && other != TX
    ensures DoTxStart(b, request).t.w.entries[k] == b.t.w.entries[k]
  {
    if Tx.DoStart(b.tx, request, Free(b.t)).1 {
      PlayOnSpares(b, Loaded(b.tx, request), k, other);
    }
  }

  /** An event leaves the pending timers of the other drivers alone. */
  lemma EventSpares(b: Board, event: Event, k: nat, other: nat)
    requires Ok(b) && Pending(b.t, k, other) && Actor(b, event) != Some(other)
    ensures Apply(b, event).t.w.entries[k] == b.t.w.entries[k]
  {
    match event
    case TxStart(request) => TxSpares(b, request, k, other);
    case RxEdge => RearmSpares(b.t, RX, Rx.IDLE_TIMEOUT, k, other);
    case Fires(slot, room) => FiresSpares(b, slot, room, k, other);
    case PassBegins =>
    case PassEnds =>
    case Elapse(_) =>
    case _ =>
      if event.I2cStart? || event.I2cEnd? || event.ProbeBegin? || event.ProbeEnd? {
        BusSpares(b, event, k, other);
      } else {
        ImuSpares(b, event, k, other);
      }
  }

  /** The drivers an event does not act on keep their state and ids. */
  predicate LeavesOthers(b: Board, a: Board, actor: Option<nat>)
    requires Sized(b) && Sized(a)
  {
    && (actor != Some(I2C) ==> a.bus == b.bus && a.t.ids[I2C] == b.t.ids[I2C])
    && (actor != Some(TX) ==> a.tx == b.tx && a.t.ids[TX] == b.t.ids[TX])
    && (actor != Some(RX) ==> a.rx == b.rx && a.t.ids[RX] == b.t.ids[RX])
    && (actor != Some(IMU) ==> a.imu == b.imu && a.t.ids[IMU] == b.t.ids[IMU])
  }

  /** Registering, cancelling and forgetting change no other client's id. */
  lemma IdsAreOwn(t: TC.State, c: nat, delay: u32, k: nat)
    requires ST.Sized(t.w) && c < |t.ids| && k < |t.ids| && k != c
    ensures TC.DoArm(t, c, delay).ids[k] == t.ids[k] && TC.DoDisarm(t, c).ids[k] == t.ids[k]
    ensures TC.DoRearm(t, c, delay).ids[k] == t.ids[k]
  {
  }

  lemma PlayOnLeavesOthers(b: Board, c: Tx.Channel)
    requires Sized(b)
    ensures LeavesOthers(b, PlayOn(b, c), Some(TX))
  {
    var duration := if c.index < |c.segments| then c.segments[c.index].duration else 0;
    IdsAreOwn(b.t, TX, duration, I2C);
    IdsAreOwn(b.t, TX, duration, RX);
    IdsAreOwn(b.t, TX, duration, IMU);
  }

  lemma FiresLeavesOthers(b: Board, slot: nat, room: bool)
    requires Ok(b)
    ensures LeavesOthers(b, DoFires(b, slot, room), Actor(b, Fires(slot, room)))
  {
    if slot < ST.SLOTS && b.t.w.entries[slot].active {
      var f := b.(t := b.t.(w := ST.Fire(b.t.w, slot)));
      assert f.t.ids == b.t.ids;
      if b.t.w.entries[slot].cb == Some(TX) {
        PlayOnLeavesOthers(f.(t := Forget(f.t, TX)), f.tx.(timer := false));
      }
    }
  }

  lemma BusLeavesOthers(b: Board, event: Event)
    requires Ok(b) && (event.I2cStart? || event.I2cEnd? || event.ProbeBegin? || event.ProbeEnd?)
    ensures LeavesOthers(b, Apply(b, event), Some(I2C))
  {
  }

  lemma ImuLeavesOthers(b: Board, event: Event)
    requires Ok(b) && (event.ImuInit? || event.ImuReceive? || event.ImuStoreByte? || event.ImuIssue? || event.ImuEnds?)
    ensures LeavesOthers(b, Apply(b, event), Some(IMU))
  {
  }

  lemma DriversAreTheirOwn(b: Board, event: Event)
    requires Ok(b)
    ensures LeavesOthers(b, Apply(b, event), Actor(b, event))
  {
    match event
    case Fires(slot, room) => FiresLeavesOthers(b, slot, room);
    case TxStart(request) => PlayOnLeavesOthers(b, Loaded(b.tx, request));
    case PassBegins =>
    case PassEnds =>
    case Elapse(_) =>
    case RxEdge =>
    case _ =>
      if event.I2cStart? || event.I2cEnd? || event.ProbeBegin? || event.ProbeEnd? {
        BusLeavesOthers(b, event);
      } else {
        ImuLeavesOthers(b, event);
      }
  }

  /** Client `c` has a timer in the table, due at `at`. */
  predicate DueAt(b: Board, c: nat, at: nat)
    requires Sized(b) && c < 4
  {
    0 <= b.t.ids[c] < ST.SLOTS && b.t.w.entries[b.t.ids[c]].due == at
  }

  lemma DueStays(b: Board, event: Event, c: nat, at: nat)
    requires Ok(b) && c < 4 && Actor(b, event) != Some(c) && DueAt(b, c, at)
    ensures DueAt(Apply(b, event), c, at)
  {
    DriversAreTheirOwn(b, event);
    EventSpares(b, event, b.t.ids[c], c);
  }

  /** A registration is due its delay from now. */
  lemma ArmIsDue(t: TC.State, c: nat, delay: u32)
    requires TC.Owned(t) && c < |t.ids| == 4 && t.ids[c] < 0 && delay != 0
    ensures var a := TC.DoArm(t, c, delay);
            0 <= a.ids[c] < ST.SLOTS && a.w.entries[a.ids[c]].due == t.w.now + delay
  {
    TC.ArmFindsSlot(t, c);
    ArmGranted(t, c, delay);
    var slot := ST.FreeSlot(t.w.entries, 0);
    assert TC.DoArm(t, c, delay).w.entries == ST.Enter(t.w, slot, delay, Some(c)).entries;
  }

  lemma RearmIsDue(t: TC.State, c: nat, delay: u32)
    requires TC.Owned(t) && c < |t.ids| == 4 && delay != 0
    ensures var a := TC.DoRearm(t, c, delay);
            0 <= a.ids[c] < ST.SLOTS && a.w.entries[a.ids[c]].due == t.w.now + delay
  {
    DisarmForgets(t, c);
    ArmIsDue(TC.DoDisarm(t, c), c, delay);
  }

  // ---- The receiver's idle timer ----

  /** The time the receiver's model gives its idle timer is the true time of its entry. */
  predicate DueAgrees(b: Board)
    requires Sized(b)
  {
    b.rx.timer.Some? ==> DueAt(b, RX, b.rx.timer.value)
  }

  lemma EventKeepsDue(b: Board, event: Event)
    requires Ok(b) && DueAgrees(b)
    ensures DueAgrees(Apply(b, event))
  {
    if event.RxEdge? {
      RearmGranted(b.t, RX, Rx.IDLE_TIMEOUT);
      RearmIsDue(b.t, RX, Rx.IDLE_TIMEOUT);
    } else if Actor(b, event) == Some(RX) {
      assert Apply(b, event).rx.timer.None?;
    } else {
      DriversAreTheirOwn(b, event);
      if b.rx.timer.Some? {
        DueStays(b, event, RX, b.rx.timer.value);
      }
    }
  }

  /**
   * Over every run of the board: a pending idle timer stands in the table with the true deadline the
   * receiver's model gives it.
   */
  lemma {:induction false} IdleTimerIsInTheTable(b: Board, events: seq<Event>)
    requires Starts(b)
    ensures DueAgrees(Run(b, events))
  {
    if events != [] {
      var before := events[..|events| - 1];
      IdleTimerIsInTheTable(b, before);
      RunKeepsOk(b, before);
      EventKeepsDue(Run(b, before), events[|events| - 1]);
    }
  }

  // ---- Segments last as long as they should ----

  /** The event begins a segment: of a new request, or the next one. */
  predicate Begins(b: Board, a: Board) {
    a.tx.transmitting && (a.tx.accepted != b.tx.accepted || |a.tx.begun| != |b.tx.begun|)
  }

  /** When the segment on the air began. */
  function Began(b: Board, events: seq<Event>): nat
    requires Sized(b)
  {
    if events == [] then 0
    else
      var before := events[..|events| - 1];
      if Begins(Run(b, before), Run(b, events)) then Run(b, before).t.w.now else Began(b, before)
  }

  /** The segment on the air, begun at `at`, ends when its duration is over. */
  predicate EndsOnTime(b: Board, at: nat)
    requires Sized(b)
  {
    b.tx.transmitting ==> b.tx.begun != [] && DueAt(b, TX, at + b.tx.begun[|b.tx.begun| - 1].duration)
  }

  lemma PlayOnEndsOnTime(b: Board, c: Tx.Channel)
    requires Sized(b) && TC.Owned(b.t) && b.t.ids[TX] < 0 && c.transmitting
    requires forall i :: 0 <= i < |c.segments| ==> c.segments[i].duration != 0
    ensures EndsOnTime(PlayOn(b, c), b.t.w.now)
    ensures PlayOn(b, c).tx.transmitting ==> |PlayOn(b, c).tx.begun| == |c.begun| + 1
  {
    AlwaysFree(b.t);
    if c.index < |c.segments| {
      ArmIsDue(b.t, TX, c.segments[c.index].duration);
    }
  }

  lemma TxStartEndsOnTime(b: Board, request: seq<Nec.Wave>, at: nat)
    requires Ok(b) && EndsOnTime(b, at)
    ensures var a := DoTxStart(b, request); EndsOnTime(a, if Begins(b, a) then b.t.w.now else at)
  {
    AlwaysFree(b.t);
    if Tx.DoStart(b.tx, request, true).1 {
      Tx.FlatIsPositive(request);
      PlayOnEndsOnTime(b, Loaded(b.tx, request));
    }
  }

  lemma TxFiresEndsOnTime(b: Board, slot: nat, room: bool, at: nat)
    requires Ok(b) && Pending(b.t, slot, TX)
    ensures var a := DoFires(b, slot, room); EndsOnTime(a, if Begins(b, a) then b.t.w.now else at)
  {
    FiredAndForgotten(b.t, slot, TX);
    TxFires(b, slot, room);
    PlayOnEndsOnTime(b.(t := Forget(b.t.(w := ST.Fire(b.t.w, slot)), TX)), b.tx.(timer := false));
  }

  lemma OthersEndOnTime(b: Board, event: Event, at: nat)
    requires Ok(b) && EndsOnTime(b, at) && Actor(b, event) != Some(TX)
    ensures EndsOnTime(Apply(b, event), at) && Apply(b, event).tx == b.tx
  {
    DriversAreTheirOwn(b, event);
    if b.tx.transmitting {
      DueStays(b, event, TX, at + b.tx.begun[|b.tx.begun| - 1].duration);
    }
  }

  lemma EventEndsOnTime(b: Board, event: Event, at: nat)
    requires Ok(b) && EndsOnTime(b, at)
    ensures var a := Apply(b, event); EndsOnTime(a, if Begins(b, a) then b.t.w.now else at)
  {
    if event.TxStart? {
      TxStartEndsOnTime(b, event.request, at);
    } else if Actor(b, event) == Some(TX) {
      TxFiresEndsOnTime(b, event.slot, event.room, at);
    } else {
      OthersEndOnTime(b, event, at);
    }
  }

  /**
   * Over every run of the board: while a request is being sent, the segment timer in the table is due
   * exactly the current segment's duration after that segment began.
   */
  lemma {:induction false} SegmentsLastTheirDuration(b: Board, events: seq<Event>)
    requires Starts(b)
    ensures EndsOnTime(Run(b, events), Began(b, events))
  {
    if events != [] {
      var before := events[..|events| - 1];
      SegmentsLastTheirDuration(b, before);
      RunKeepsOk(b, before);
      EventEndsOnTime(Run(b, before), events[|events| - 1], Began(b, before));
    }
  }

  // ---- The transfer's timeout ----

  /**
   * The true time the running transfer times out: its start, plus its milliseconds in microseconds, in
   * 32 bits and never zero.
   */
  function TimesOut(b: Board, events: seq<Event>): nat
    requires Sized(b)
  {
    if events == [] then 0
    else
      var before, last := events[..|events| - 1], events[|events| - 1];
      var p, r := Run(b, before), Run(b, events);
      if last.I2cStart? && p.bus.transfer.None? && r.bus.transfer.Some?
      then
        var us := last.timeoutMs * 1000 % 0x1_0000_0000;
        p.t.w.now + if us == 0 then 1000 else us
      else TimesOut(b, before)
  }

  predicate TimeoutAt(b: Board, at: nat)
    requires Sized(b)
  {
    b.bus.timer ==> DueAt(b, I2C, at)
  }

  lemma I2cStartTimesOut(b: Board, valid: bool, hasCallback: bool, accepted: bool, ms: u32, at: nat)
    requires Ok(b) && TimeoutAt(b, at)
    ensures var a := DoI2cStart(b, valid, hasCallback, accepted, ms);
            TimeoutAt(a, if b.bus.transfer.None? && a.bus.transfer.Some? then b.t.w.now + I2c.TimeoutUs(ms) else at)
  {
    if TakesLock(b.bus, valid, hasCallback) {
      UnlockedStoresNothing(b.bus);
      ForgetOwns(b.t, I2C);
      AlwaysFree(Forget(b.t, I2C));
      ArmIsDue(Forget(b.t, I2C), I2C, I2c.TimeoutUs(ms));
    }
  }

  lemma I2cKeepsTimeout(b: Board, event: Event, at: nat)
    requires Ok(b) && TimeoutAt(b, at) && Actor(b, event) == Some(I2C) && !event.I2cStart?
    ensures TimeoutAt(Apply(b, event), at) && (Apply(b, event).bus.transfer.Some? ==> b.bus.transfer.Some?)
  {
    if event.Fires? {
      I2cFires(b, event.slot, event.room);
    }
    assert I2c.AtMostOnce(b.bus, 0);
  }

  /** Over every run of the board: while a timeout is pending it is due at the transfer's start plus its time. */
  lemma {:induction false} TransfersTimeOutOnTime(b: Board, events: seq<Event>)
    requires Starts(b)
    ensures TimeoutAt(Run(b, events), TimesOut(b, events))
  {
    if events != [] {
      var before, last := events[..|events| - 1], events[|events| - 1];
      var p, at := Run(b, before), TimesOut(b, before);
      TransfersTimeOutOnTime(b, before);
      RunKeepsOk(b, before);
      if last.I2cStart? {
        I2cStartTimesOut(p, last.valid, last.hasCallback, last.accepted, last.timeoutMs, at);
      } else if Actor(p, last) == Some(I2C) {
        I2cKeepsTimeout(p, last, at);
      } else {
        DriversAreTheirOwn(p, last);
        if p.bus.timer {
          DueStays(p, last, I2C, at);
        }
      }
    }
  }

  // ---- The sample timer ----

  /** When the pending sample timer was armed: on entering the running mode, or by the last tick. */
  function SampleArmed(b: Board, events: seq<Event>): nat
    requires Sized(b)
  {
    if events == [] then 0
    else
      var before, last := events[..|events| - 1], events[|events| - 1];
      var p, r := Run(b, before), Run(b, events);
      if r.imu.timer && (!p.imu.timer || (last.Fires? && Actor(p, last) == Some(IMU)))
      then p.t.w.now else SampleArmed(b, before)
  }

  predicate SampleAt(b: Board, at: nat)
    requires Sized(b)
  {
    b.imu.timer ==> DueAt(b, IMU, at + 100000)
  }

  lemma ImuKeepsSample(b: Board, event: Event, at: nat)
    requires Ok(b) && SampleAt(b, at) && Actor(b, event) == Some(IMU)
    ensures var a := Apply(b, event);
            SampleAt(a, if a.imu.timer && (!b.imu.timer || event.Fires?) then b.t.w.now else at)
  {
    match event
    case Fires(slot, room) =>
      FiredAndForgotten(b.t, slot, IMU);
      RearmIsDue(Forget(b.t.(w := ST.Fire(b.t.w, slot)), IMU), IMU, SAMPLE_US);
    case ImuReceive =>
      if Arms(b.imu) {
        RearmIsDue(b.t, IMU, SAMPLE_US);
        RearmGranted(b.t, IMU, SAMPLE_US);
        ImuArms(b.imu, true);
      } else {
        ImuTimer(b.imu, Imu.Receive(false));
      }
    case ImuStoreByte => ImuTimer(b.imu, Imu.StoreByte);
    case ImuIssue(outcome, room) => ImuTimer(b.imu, Imu.Issue(outcome, room));
    case ImuEnds(ok, data, room) => ImuTimer(b.imu, Imu.Ends(ok, data, room));
    case _ =>
  }

  /** Over every run of the board: a pending sample timer is due 100 ms after it was armed. */
  lemma {:induction false} SamplesComeOnTime(b: Board, events: seq<Event>)
    requires Starts(b)
    ensures SampleAt(Run(b, events), SampleArmed(b, events))
  {
    if events != [] {
      var before, last := events[..|events| - 1], events[|events| - 1];
      var p, at := Run(b, before), SampleArmed(b, before);
      SamplesComeOnTime(b, before);
      RunKeepsOk(b, before);
      if Actor(p, last) == Some(IMU) {
        ImuKeepsSample(p, last, at);
      } else {
        DriversAreTheirOwn(p, last);
        if p.imu.timer {
          DueStays(p, last, IMU, at + 100000);
        }
      }
    }
  }
}
