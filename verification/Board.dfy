/**
 * The four drivers of a board on one soft-timer table: the I2C bus, the IR transmitter, the IR
 * receiver and the motion sensor. Each stores its timer's id beside its own state and registers,
 * cancels and forgets it as its code does; whether a registration succeeds is what the table says.
 * An expiry pass is `PassBegins`, some `Fires`, each with what its callback does, and `PassEnds`.
 */
module Board {
  import opened Common
  import ST = SoftTimer
  import TC = TimerClients
  import I2c
  import Tx = IrTx
  import Rx = IrRx
  import Imu
  import Nec

  const I2C: nat := 0
  const TX: nat := 1
  const RX: nat := 2
  const IMU: nat := 3

  const SAMPLE_US: u32 := 100000

  datatype Board = Board(t: TC.State, bus: I2c.Bus, tx: Tx.Channel, rx: Rx.Driver, imu: Imu.Imu)

  datatype Event =
    | I2cStart(valid: bool, hasCallback: bool, accepted: bool, timeoutMs: u32)
    | I2cEnd(how: I2c.Terminal)
    | ProbeBegin(valid: bool)
    | ProbeEnd
    | TxStart(request: seq<Nec.Wave>)
    | RxEdge
    | ImuInit(ready: bool)
    | ImuReceive
    | ImuStoreByte
    | ImuIssue(outcome: Imu.Outcome, room: bool)
    | ImuEnds(ok: bool, data: byte, room: bool)
    | PassBegins
    | Fires(slot: nat, room: bool)
    | PassEnds
    | Elapse(us: nat)

  predicate Sized(b: Board) {
    ST.Sized(b.t.w) && |b.t.ids| == 4
  }

  /** Overwrites a stored id without cancelling its timer. */
  function Forget(t: TC.State, c: nat): TC.State
    requires c < |t.ids|
  {
    t.(ids := t.ids[c := ST.INVALID])
  }

  /** Whether a registration with a positive delay would find a slot. */
  predicate Free(t: TC.State)
    requires ST.Sized(t.w)
  {
    ST.FreeSlot(t.w.entries, 0) < ST.SLOTS
  }

  // ---- I2C ----

  predicate TakesLock(b: I2c.Bus, valid: bool, hasCallback: bool) {
    valid && hasCallback && !b.busy
  }

  /** Taking the lock overwrites the stored id; the timeout is armed once the peripheral has the transfer. */
  function DoI2cStart(b: Board, valid: bool, hasCallback: bool, accepted: bool, ms: u32): (b': Board)
    requires Sized(b)
    ensures Sized(b')
  {
    var locked := if TakesLock(b.bus, valid, hasCallback) then Forget(b.t, I2C) else b.t;
    var q := I2c.Request(valid, hasCallback, accepted, Free(locked));
    var arms := TakesLock(b.bus, valid, hasCallback) && accepted && b.bus.transfer.None?;
    b.(bus := I2c.DoStart(b.bus, q).0, t := if arms then TC.DoArm(locked, I2C, I2c.TimeoutUs(ms)) else locked)
  }

  /** Finishing and releasing cancel the timeout by its stored id. */
  function DoI2cEnd(b: Board, how: I2c.Terminal): (b': Board)
    requires Sized(b)
    ensures Sized(b')
  {
    b.(bus := I2c.DoEnd(b.bus, how),
       t := if b.bus.transfer.Some? && b.bus.busy then TC.DoDisarm(b.t, I2C) else b.t)
  }

  /** The timeout's callback returns at once, remembering its id, when the bus is not locked. */
  function I2cFired(b: Board): (b': Board)
    requires Sized(b)
    ensures Sized(b')
  {
    if !b.bus.busy then b
    else b.(t := Forget(b.t, I2C), bus := b.bus.(timer := false, aborting := true))
  }

  // ---- IR transmitter ----

  /** Playing on: a registration for the next segment, or the end of the run, which cancels what is stored. */
  function PlayOn(b: Board, c: Tx.Channel): (b': Board)
    requires Sized(b)
    ensures Sized(b')
  {
    var t := if c.index >= |c.segments| || c.segments[c.index].duration == 0 || !Free(b.t)
             then TC.DoDisarm(b.t, TX)
             else TC.DoArm(b.t, TX, c.segments[c.index].duration);
    b.(t := t, tx := Tx.PlayNext(c, Free(b.t)))
  }

  /** The channel with an accepted request loaded. */
  function Loaded(c: Tx.Channel, request: seq<Nec.Wave>): Tx.Channel {
    c.(segments := Tx.Fitted(request), index := 0, transmitting := true, waves := request,
       begun := [], refused := false, accepted := c.accepted + 1)
  }

  function DoTxStart(b: Board, request: seq<Nec.Wave>): (b': Board)
    requires Sized(b)
    ensures Sized(b')
  {
    var tx := Tx.DoStart(b.tx, request, Free(b.t));
    if !tx.1 then b.(tx := tx.0)
    else PlayOn(b, Loaded(b.tx, request))
  }

  /** The segment timer's callback returns at once, remembering its id, when nothing is being sent. */
  function TxFired(b: Board): (b': Board)
    requires Sized(b)
    ensures Sized(b')
  {
    if !b.tx.transmitting then b
    else PlayOn(b.(t := Forget(b.t, TX)), b.tx.(timer := false))
  }

  // ---- IR receiver ----

  /** Every edge re-arms the idle timer, an overflow's own cancelling included. */
  function DoRxEdge(b: Board): (b': Board)
    requires Sized(b)
    ensures Sized(b')
  {
    var t, heard := TC.DoRearm(b.t, RX, Rx.IDLE_TIMEOUT), Rx.OnEdge(b.rx, b.t.w.now);
    b.(t := t, rx := if t.ids[RX] >= 0 then heard else heard.(timer := None))
  }

  function RxFired(b: Board, room: bool): (b': Board)
    requires Sized(b)
    ensures Sized(b')
  {
    b.(t := Forget(b.t, RX), rx := Rx.OnIdle(b.rx, room).0)
  }

  // ---- Sensor ----

  /** The handled message is the one that ends the bring-up. */
  predicate Arms(s: Imu.Imu) {
    s.pc == Imu.Idle && s.inbox != [] && s.inbox[0] == Imu.Done(true) && s.mode == Imu.Accel
  }

  /** The event runs the failure path, which cancels the sample timer. */
  predicate GivesUp(s: Imu.Imu, event: Imu.Event) {
    match event
    case Receive(_) =>
      && s.pc == Imu.Idle && s.inbox != []
      && (s.inbox[0] == Imu.Done(false)
          || (s.inbox[0] == Imu.Done(true) && s.mode == Imu.WhoAmI && s.regBuf != Imu.WHO_AM_I_VALUE))
    case Issue(outcome, room) =>
      && s.pc.Send? && s.pc.op != Imu.SAMPLE_READ
      && !Imu.StartAccess(s.(pc := Imu.Idle), s.pc.op, outcome, room).1
    case _ => false
  }

  function DoImu(b: Board, event: Imu.Event): (b': Board)
    requires Sized(b)
    ensures Sized(b')
  {
    b.(imu := Imu.Apply(b.imu, event), t := if GivesUp(b.imu, event) then TC.DoDisarm(b.t, IMU) else b.t)
  }

  /** The sensor is initialised by its task before it handles anything. */
  function DoImuInit(b: Board, ready: bool): (b': Board)
    requires Sized(b)
    ensures Sized(b')
  {
    if b.imu.mode != Imu.Off || b.imu.pc != Imu.Idle then b
    else b.(imu := Imu.DoInit(b.imu, ready), t := Forget(b.t, IMU))
  }

  function DoImuReceive(b: Board): (b': Board)
    requires Sized(b)
    ensures Sized(b')
  {
    if Arms(b.imu)
    then
      var t := TC.DoRearm(b.t, IMU, SAMPLE_US);
      b.(t := t, imu := Imu.Apply(b.imu, Imu.Receive(t.ids[IMU] >= 0)))
    else DoImu(b, Imu.Receive(false))
  }

  function ImuFired(b: Board, room: bool): (b': Board)
    requires Sized(b)
    ensures Sized(b')
  {
    var t := TC.DoRearm(Forget(b.t, IMU), IMU, SAMPLE_US);
    b.(t := t, imu := Imu.ArmTimer(Imu.Post(b.imu.(timer := false), Imu.Sample, room), t.ids[IMU] >= 0))
  }

  // ---- The board ----

  /** The pass takes the entry out of the table and runs its callback. */
  function DoFires(b: Board, slot: nat, room: bool): (b': Board)
    requires Sized(b)
    ensures Sized(b')
  {
    if slot >= ST.SLOTS || !b.t.w.entries[slot].active then b
    else
      var cb, f := b.t.w.entries[slot].cb, b.(t := b.t.(w := ST.Fire(b.t.w, slot)));
      if cb == Some(I2C) then I2cFired(f)
      else if cb == Some(TX) then TxFired(f)
      else if cb == Some(RX) then RxFired(f, room)
      else if cb == Some(IMU) then ImuFired(f, room)
      else f
  }

  function Apply(b: Board, event: Event): (b': Board)
    requires Sized(b)
    ensures Sized(b')
  {
    match event
    case I2cStart(valid, hasCallback, accepted, ms) => DoI2cStart(b, valid, hasCallback, accepted, ms)
    case I2cEnd(how) => DoI2cEnd(b, how)
    case ProbeBegin(valid) =>
      b.(bus := I2c.Apply(b.bus, I2c.ProbeBegin(valid)), t := if valid && !b.bus.busy then Forget(b.t, I2C) else b.t)
    case ProbeEnd =>
      b.(bus := I2c.Apply(b.bus, I2c.ProbeEnd), t := if b.bus.probes > 0 then TC.DoDisarm(b.t, I2C) else b.t)
    case TxStart(request) => DoTxStart(b, request)
    case RxEdge => DoRxEdge(b)
    case ImuInit(ready) => DoImuInit(b, ready)
    case ImuReceive => DoImuReceive(b)
    case ImuStoreByte => DoImu(b, Imu.StoreByte)
    case ImuIssue(outcome, room) => DoImu(b, Imu.Issue(outcome, room))
    case ImuEnds(ok, data, room) => DoImu(b, Imu.Ends(ok, data, room))
    case PassBegins => b.(t := b.t.(w := b.t.w.(enabled := false, matched := false)))
    case Fires(slot, room) => DoFires(b, slot, room)
    case PassEnds => b.(t := b.t.(w := ST.Reschedule(b.t.w)))
    case Elapse(us) => b.(t := b.t.(w := ST.DoElapse(b.t.w, us)))
  }

  function Run(b: Board, events: seq<Event>): (b': Board)
    requires Sized(b)
    ensures Sized(b')
  {
    if events == [] then b else Apply(Run(b, events[..|events| - 1]), events[|events| - 1])
  }

  predicate Starts(b: Board) {
    && TC.Starts(b.t) && |b.t.ids| == 4
    && I2c.Initial(b.bus) && Tx.Initial(b.tx) && Imu.Initial(b.imu)
    && b.rx.timer.None?
  }

  // ---- What every run keeps ----

  /** The bus keeps its own invariants. */
  ghost predicate BusOk(b: I2c.Bus) {
    I2c.Owned(b) && I2c.Settled(b) && forall r :: I2c.AtMostOnce(b, r)
  }

  predicate TxOk(c: Tx.Channel) {
    Tx.Inv(c) && !c.refused
  }

  /** Each driver believes a timer pending exactly when it has an id stored. */
  predicate Agree(ids: seq<int>, bus: bool, tx: bool, rx: bool, imu: bool)
    requires |ids| == 4
  {
    && (bus <==> ids[I2C] >= 0) && (tx <==> ids[TX] >= 0)
    && (rx <==> ids[RX] >= 0) && (imu <==> ids[IMU] >= 0)
  }

  ghost predicate Ok(b: Board) {
    && Sized(b) && TC.Owned(b.t)
    && Agree(b.t.ids, b.bus.timer, b.tx.timer, b.rx.timer.Some?, b.imu.timer)
    && BusOk(b.bus) && TxOk(b.tx) && Imu.Inv(b.imu)
  }

  lemma AlwaysFree(t: TC.State)
    requires TC.Owned(t) && |t.ids| == 4
    ensures Free(t) && TC.ActiveCount(t.w.entries, ST.SLOTS) <= 4
  {
    TC.ActiveAreFew(t, 0);
    TC.FreeOrFull(t.w.entries, ST.SLOTS);
    var k :| 0 <= k < ST.SLOTS && !t.w.entries[k].active;
    TC.FreeSlotFinds(t.w.entries, 0, k);
  }

  lemma ForgetOwns(t: TC.State, c: nat)
    requires TC.Owned(t) && c < |t.ids| && t.ids[c] < 0
    ensures TC.Owned(Forget(t, c))
  {
  }

  /** A client with nothing stored arms: it is granted, and nobody else's id changes. */
  lemma ArmGranted(t: TC.State, c: nat, delay: u32)
    requires TC.Owned(t) && c < |t.ids| == 4 && t.ids[c] < 0 && delay != 0
    ensures TC.Owned(TC.DoArm(t, c, delay)) && TC.DoArm(t, c, delay).ids[c] >= 0
    ensures TC.DoArm(t, c, delay).ids == t.ids[c := TC.DoArm(t, c, delay).ids[c]]
  {
    TC.ArmOwns(t, c, delay);
    TC.ArmSucceeds(t, c, delay);
  }

  lemma DisarmForgets(t: TC.State, c: nat)
    requires TC.Owned(t) && c < |t.ids|
    ensures TC.Owned(TC.DoDisarm(t, c)) && TC.DoDisarm(t, c).ids[c] < 0
    ensures TC.DoDisarm(t, c).ids == t.ids[c := TC.DoDisarm(t, c).ids[c]]
  {
    TC.DisarmIsOwn(t, c);
  }

  lemma RearmGranted(t: TC.State, c: nat, delay: u32)
    requires TC.Owned(t) && c < |t.ids| == 4 && delay != 0
    ensures TC.Owned(TC.DoRearm(t, c, delay)) && TC.DoRearm(t, c, delay).ids[c] >= 0
    ensures TC.DoRearm(t, c, delay).ids == t.ids[c := TC.DoRearm(t, c, delay).ids[c]]
  {
    DisarmForgets(t, c);
    ArmGranted(TC.DoDisarm(t, c), c, delay);
  }

  lemma BusKept(b: I2c.Bus, event: I2c.Event)
    requires BusOk(b) && (event.Start? && event.request.accepted ==> event.request.granted)
    ensures BusOk(I2c.Apply(b, event))
  {
    I2c.StepKeepsOwned(b, event);
    I2c.StepSettles(b, event);
    forall r
      ensures I2c.AtMostOnce(I2c.Apply(b, event), r)
    {
      I2c.StepKeepsAtMostOnce(b, event, r);
    }
  }

  /** A bus that is not locked has no timeout stored. */
  lemma UnlockedStoresNothing(b: I2c.Bus)
    requires BusOk(b) && !b.busy
    ensures !b.timer
  {
    assert I2c.AtMostOnce(b, 0);
  }

  lemma I2cStartKeeps(b: Board, valid: bool, hasCallback: bool, accepted: bool, ms: u32)
    requires Ok(b)
    ensures Ok(DoI2cStart(b, valid, hasCallback, accepted, ms))
  {
    if TakesLock(b.bus, valid, hasCallback) {
      UnlockedStoresNothing(b.bus);
      ForgetOwns(b.t, I2C);
      var locked := Forget(b.t, I2C);
      AlwaysFree(locked);
      ArmGranted(locked, I2C, I2c.TimeoutUs(ms));
      BusKept(b.bus, I2c.Start(I2c.Request(valid, hasCallback, accepted, true)));
    } else {
      AlwaysFree(b.t);
      BusKept(b.bus, I2c.Start(I2c.Request(valid, hasCallback, accepted, true)));
    }
  }

  lemma I2cEndKeeps(b: Board, how: I2c.Terminal)
    requires Ok(b)
    ensures Ok(DoI2cEnd(b, how))
  {
    BusKept(b.bus, I2c.End(how));
    DisarmForgets(b.t, I2C);
  }

  lemma ProbeKeeps(b: Board, event: Event)
    requires Ok(b) && (event.ProbeBegin? || event.ProbeEnd?)
    ensures Ok(Apply(b, event))
  {
    match event
    case ProbeBegin(valid) =>
      BusKept(b.bus, I2c.ProbeBegin(valid));
      if !b.bus.busy {
        UnlockedStoresNothing(b.bus);
        ForgetOwns(b.t, I2C);
      }
    case ProbeEnd =>
      BusKept(b.bus, I2c.ProbeEnd);
      DisarmForgets(b.t, I2C);
  }

  /** Playing on is granted its timer, so it never stops short. */
  lemma PlayOnKeeps(b: Board, c: Tx.Channel)
    requires Sized(b) && TC.Owned(b.t) && b.t.ids[TX] < 0
    requires Agree(b.t.ids, b.bus.timer, false, b.rx.timer.Some?, b.imu.timer) && BusOk(b.bus) && Imu.Inv(b.imu)
    requires forall i :: 0 <= i < |c.segments| ==> c.segments[i].duration != 0
    requires c.segments == Tx.Fitted(c.waves) && c.index <= |c.segments| && c.begun == c.segments[..c.index]
    requires c.transmitting && !c.timer && !c.refused && c.accepted == c.completed + 1
    ensures Ok(PlayOn(b, c)) && PlayOn(b, c).tx == Tx.PlayNext(c, true)
  {
    AlwaysFree(b.t);
    Tx.PlayNextKeepsInv(c, true);
    DisarmForgets(b.t, TX);
    if c.index < |c.segments| {
      ArmGranted(b.t, TX, c.segments[c.index].duration);
    }
  }

  lemma TxStartKeeps(b: Board, request: seq<Nec.Wave>)
    requires Ok(b)
    ensures Ok(DoTxStart(b, request)) && DoTxStart(b, request).tx == Tx.DoStart(b.tx, request, true).0
  {
    AlwaysFree(b.t);
    if Tx.DoStart(b.tx, request, true).1 {
      Tx.FlatIsPositive(request);
      PlayOnKeeps(b, Loaded(b.tx, request));
    } else {
      Tx.EventKeepsInv(b.tx, Tx.Start(request, true));
    }
  }

  lemma RxEdgeKeeps(b: Board)
    requires Ok(b)
    ensures Ok(DoRxEdge(b)) && DoRxEdge(b).rx == Rx.OnEdge(b.rx, b.t.w.now)
  {
    RearmGranted(b.t, RX, Rx.IDLE_TIMEOUT);
  }

  /** What the sensor's events do to its timer flag. */
  lemma ImuTimer(s: Imu.Imu, event: Imu.Event)
    requires Imu.Inv(s) && (event.Receive? || event.StoreByte? || event.Issue? || event.Ends?)
    requires event.Receive? ==> !Arms(s)
    ensures Imu.Apply(s, event).timer == (s.timer && !GivesUp(s, event))
  {
  }

  lemma ImuKeeps(b: Board, event: Imu.Event)
    requires Ok(b) && (event.Receive? || event.StoreByte? || event.Issue? || event.Ends?)
    requires event.Receive? ==> !Arms(b.imu)
    ensures Ok(DoImu(b, event))
  {
    Imu.EventKeepsInv(b.imu, event);
    ImuTimer(b.imu, event);
    DisarmForgets(b.t, IMU);
  }

  lemma ImuArms(s: Imu.Imu, timerOk: bool)
    requires Imu.Inv(s) && Arms(s)
    ensures Imu.Apply(s, Imu.Receive(timerOk)).timer == timerOk
  {
  }

  lemma ImuInitKeeps(b: Board, ready: bool)
    requires Ok(b)
    ensures Ok(DoImuInit(b, ready))
  {
    if b.imu.mode == Imu.Off && b.imu.pc == Imu.Idle {
      Imu.InitKeepsInv(b.imu, ready);
      ForgetOwns(b.t, IMU);
    }
  }

  lemma ImuReceiveKeeps(b: Board)
    requires Ok(b)
    ensures Ok(DoImuReceive(b))
  {
    if Arms(b.imu) {
      RearmGranted(b.t, IMU, SAMPLE_US);
      Imu.EventKeepsInv(b.imu, Imu.Receive(true));
      ImuArms(b.imu, true);
    } else {
      ImuKeeps(b, Imu.Receive(false));
    }
  }

  // ---- The pass ----

  /** The table after an entry fired and its client forgot it. */
  lemma FiredAndForgotten(t: TC.State, slot: nat, c: nat)
    requires TC.Owned(t) && slot < ST.SLOTS && t.w.entries[slot].active && t.w.entries[slot].cb == Some(c)
    ensures c < |t.ids| && t.ids[c] == slot
    ensures TC.Owned(Forget(t.(w := ST.Fire(t.w, slot)), c))
  {
    TC.FiresOwns(t, slot);
  }

  lemma I2cFires(b: Board, slot: nat, room: bool)
    requires Ok(b) && slot < ST.SLOTS && b.t.w.entries[slot].active && b.t.w.entries[slot].cb == Some(I2C)
    ensures b.bus.busy && Ok(DoFires(b, slot, room))
  {
    FiredAndForgotten(b.t, slot, I2C);
    assert I2c.AtMostOnce(b.bus, 0);
    BusKept(b.bus, I2c.Timeout);
  }

  lemma TxFires(b: Board, slot: nat, room: bool)
    requires Ok(b) && slot < ST.SLOTS && b.t.w.entries[slot].active && b.t.w.entries[slot].cb == Some(TX)
    ensures b.tx.transmitting && Ok(DoFires(b, slot, room)) && DoFires(b, slot, room).tx == Tx.DoTimer(b.tx, true)
  {
    FiredAndForgotten(b.t, slot, TX);
    PlayOnKeeps(b.(t := Forget(b.t.(w := ST.Fire(b.t.w, slot)), TX)), b.tx.(timer := false));
  }

  lemma RxFires(b: Board, slot: nat, room: bool)
    requires Ok(b) && slot < ST.SLOTS && b.t.w.entries[slot].active && b.t.w.entries[slot].cb == Some(RX)
    ensures Ok(DoFires(b, slot, room))
  {
    FiredAndForgotten(b.t, slot, RX);
  }

  lemma ImuFires(b: Board, slot: nat, room: bool)
    requires Ok(b) && slot < ST.SLOTS && b.t.w.entries[slot].active && b.t.w.entries[slot].cb == Some(IMU)
    ensures Ok(DoFires(b, slot, room)) && DoFires(b, slot, room).imu == Imu.Apply(b.imu, Imu.Tick(true, room))
  {
    FiredAndForgotten(b.t, slot, IMU);
    RearmGranted(Forget(b.t.(w := ST.Fire(b.t.w, slot)), IMU), IMU, SAMPLE_US);
    Imu.EventKeepsInv(b.imu, Imu.Tick(true, room));
  }

  lemma FiresKeeps(b: Board, slot: nat, room: bool)
    requires Ok(b)
    ensures Ok(DoFires(b, slot, room))
  {
    if slot < ST.SLOTS && b.t.w.entries[slot].active {
      var cb := b.t.w.entries[slot].cb;
      if cb == Some(I2C) {
        I2cFires(b, slot, room);
      } else if cb == Some(TX) {
        TxFires(b, slot, room);
      } else if cb == Some(RX) {
        RxFires(b, slot, room);
      } else {
        assert cb == Some(IMU);
        ImuFires(b, slot, room);
      }
    }
  }

  lemma EventKeepsOk(b: Board, event: Event)
    requires Ok(b)
    ensures Ok(Apply(b, event))
  {
    match event
    case I2cStart(valid, hasCallback, accepted, ms) => I2cStartKeeps(b, valid, hasCallback, accepted, ms);
    case I2cEnd(how) => I2cEndKeeps(b, how);
    case ProbeBegin(_) => ProbeKeeps(b, event);
    case ProbeEnd => ProbeKeeps(b, event);
    case TxStart(request) => TxStartKeeps(b, request);
    case RxEdge => RxEdgeKeeps(b);
    case ImuInit(ready) => ImuInitKeeps(b, ready);
    case ImuReceive => ImuReceiveKeeps(b);
    case ImuStoreByte => ImuKeeps(b, Imu.StoreByte);
    case ImuIssue(outcome, room) => ImuKeeps(b, Imu.Issue(outcome, room));
    case ImuEnds(ok, data, room) => ImuKeeps(b, Imu.Ends(ok, data, room));
    case Fires(slot, room) => FiresKeeps(b, slot, room);
    case _ =>
  }

  lemma StartIsOk(b: Board)
    requires Starts(b)
    ensures Ok(b)
  {
    assert Tx.Fitted([]) == [];
  }

  lemma {:induction false} RunKeepsOk(b: Board, events: seq<Event>)
    requires Starts(b)
    ensures Ok(Run(b, events))
  {
    StartIsOk(b);
    if events != [] {
      RunKeepsOk(b, events[..|events| - 1]);
      EventKeepsOk(Run(b, events[..|events| - 1]), events[|events| - 1]);
    }
  }

  /**
   * Over every run of the board: every stored id is negative or names an active slot with its
   * driver's own callback, every active slot is stored by its driver, each driver believes a timer
   * pending exactly when it has one, at most four are active, and a registration always finds a slot.
   */
  lemma {:induction false} DriversOwnTheirTimers(b: Board, events: seq<Event>)
    requires Starts(b)
    ensures var r := Run(b, events);
            && TC.Owned(r.t)
            && Agree(r.t.ids, r.bus.timer, r.tx.timer, r.rx.timer.Some?, r.imu.timer)
            && TC.ActiveCount(r.t.w.entries, ST.SLOTS) <= 4
            && ST.FreeSlot(r.t.w.entries, 0) < ST.SLOTS
  {
    RunKeepsOk(b, events);
    AlwaysFree(Run(b, events).t);
  }

  /**
   * The two callbacks that would return without forgetting their id never do: when their timer fires,
   * the bus is locked, and a request is being sent.
   */
  lemma {:induction false} CallbacksAlwaysForget(b: Board, events: seq<Event>, slot: nat)
    requires Starts(b) && slot < ST.SLOTS && Run(b, events).t.w.entries[slot].active
    ensures var r := Run(b, events);
            && (r.t.w.entries[slot].cb == Some(I2C) ==> r.bus.busy)
            && (r.t.w.entries[slot].cb == Some(TX) ==> r.tx.transmitting)
  {
    RunKeepsOk(b, events);
    var r := Run(b, events);
    assert I2c.AtMostOnce(r.bus, 0);
  }

  /**
   * Over every run of the board: each I2C request that got the lock is waiting exactly while the
   * peripheral works for it, and has been called exactly once otherwise; the terminal interrupt that
   * ends its transfer runs its callback, then and there; one turned away is never called.
   */
  lemma {:induction false} RequestsCompleteOnce(b: Board, events: seq<Event>, request: nat, how: I2c.Terminal)
    requires Starts(b)
    ensures var s := Run(b, events).bus;
            && I2c.CallsOf(s.calls, request)
               == (if request in s.passed && s.transfer != Some(request) then 1 else 0)
            && (s.transfer == Some(request) ==>
                  var fine := how == I2c.Completed || (how == I2c.Aborted && !s.aborting);
                  Apply(Run(b, events), I2cEnd(how)).bus.calls
                  == s.calls + [I2c.Call(request, if fine then I2c.Ok else I2c.ErrIo)])
  {
    RunKeepsOk(b, events);
    var s := Run(b, events).bus;
    assert I2c.AtMostOnce(s, request);
    assert request in s.passed ==> s.cb == Some(request) || I2c.CallsOf(s.calls, request) == 1;
  }

  /** A start that gets the lock and an idle, willing peripheral always succeeds. */
  lemma {:induction false} WillingStartSucceeds(b: Board, events: seq<Event>, ms: u32)
    requires Starts(b) && !Run(b, events).bus.busy
    ensures var r := Run(b, events); var a := Apply(r, I2cStart(true, true, true, ms));
            a.bus.transfer == Some(r.bus.serial) && a.bus.timer && a.bus.calls == r.bus.calls
  {
    RunKeepsOk(b, events);
    var r := Run(b, events);
    UnlockedStoresNothing(r.bus);
    ForgetOwns(r.t, I2C);
    AlwaysFree(Forget(r.t, I2C));
  }

  /**
   * Over every run of the board: a request the transmitter accepted is being sent, its segment timer
   * in the table and the next segment sure to follow when it fires, or has been sent whole.
   */
  lemma {:induction false} RequestsPlayThrough(b: Board, events: seq<Event>, room: bool)
    requires Starts(b)
    ensures var r := Run(b, events);
            && r.tx.accepted == r.tx.completed + (if r.tx.transmitting then 1 else 0)
            && (!r.tx.transmitting ==> r.tx.begun == Tx.Fitted(r.tx.waves))
            && (r.tx.transmitting ==>
                  && 0 <= r.t.ids[TX] < ST.SLOTS && r.t.w.entries[r.t.ids[TX]].active
                  && r.t.w.entries[r.t.ids[TX]].cb == Some(TX)
                  && Apply(r, Fires(r.t.ids[TX], room)).tx == Tx.DoTimer(r.tx, true))
  {
    RunKeepsOk(b, events);
    SendingHoldsTimer(Run(b, events), room);
  }

  lemma SendingHoldsTimer(b: Board, room: bool)
    requires Ok(b)
    ensures b.tx.transmitting ==>
              && 0 <= b.t.ids[TX] < ST.SLOTS && b.t.w.entries[b.t.ids[TX]].active
              && b.t.w.entries[b.t.ids[TX]].cb == Some(TX)
              && Apply(b, Fires(b.t.ids[TX], room)).tx == Tx.DoTimer(b.tx, true)
  {
    if b.tx.transmitting {
      TxFires(b, b.t.ids[TX], room);
    }
  }

  /** The segment timer fires, if there is one. */
  function PlayOne(b: Board): (b': Board)
    requires Sized(b)
    ensures Sized(b')
  {
    if b.t.ids[TX] >= 0 then DoFires(b, b.t.ids[TX], false) else b
  }

  function Play(b: Board, n: nat): (b': Board)
    requires Sized(b)
    ensures Sized(b')
  {
    if n == 0 then b else PlayOne(Play(b, n - 1))
  }

  lemma PlayOneIsTimer(b: Board)
    requires Ok(b)
    ensures Ok(PlayOne(b)) && PlayOne(b).tx == Tx.DoTimer(b.tx, true)
  {
    if b.t.ids[TX] >= 0 {
      TxFires(b, b.t.ids[TX], false);
    }
  }

  lemma {:induction false} PlayIsFires(b: Board, n: nat)
    requires Ok(b)
    ensures Ok(Play(b, n)) && Play(b, n).tx == Tx.Fires(b.tx, n)
  {
    if n > 0 {
      PlayIsFires(b, n - 1);
      PlayOneIsTimer(Play(b, n - 1));
    }
  }

  /**
   * On any reachable board with an idle transmitter a request is accepted, and as many firings as it
   * has segments play it whole and complete it.
   */
  lemma AcceptedRequestPlaysWhole(b: Board, events: seq<Event>, request: seq<Nec.Wave>)
    requires Starts(b) && !Run(b, events).tx.transmitting && Tx.Fitted(request) != []
    ensures var r := Run(b, events);
            Tx.Played(Play(Apply(r, TxStart(request)), |Tx.Fitted(request)|).tx, request, r.tx.completed)
  {
    RunKeepsOk(b, events);
    var r := Run(b, events);
    TxStartKeeps(r, request);
    PlayIsFires(Apply(r, TxStart(request)), |Tx.Fitted(request)|);
    NonEmptyRequest(request);
    Tx.PlaysThrough(r.tx, request, |Tx.Fitted(request)|);
  }

  lemma NonEmptyRequest(request: seq<Nec.Wave>)
    requires Tx.Fitted(request) != []
    ensures request != []
  {
  }
}
