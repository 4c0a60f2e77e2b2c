/**
 * The MPU6050 driver and the sensor task's bring-up above it. The task chains register accesses
 * through its inbox: a completion interrupt posts a message, and handling that message starts the
 * next access. Interrupts may fall between the task's steps.
 */
module Imu {
  import opened Common

  const PWR_MGMT_1: byte := 0x6B
  const WHO_AM_I: byte := 0x75
  const SMPLRT_DIV: byte := 0x19
  const CONFIG: byte := 0x1A
  const GYRO_CONFIG: byte := 0x1B
  const ACCEL_CONFIG: byte := 0x1C
  const ACCEL_XOUT_H: byte := 0x3B
  const WHO_AM_I_VALUE: byte := 0x68
  const INBOX_DEPTH: nat := 8

  /** Full-scale selections, two bits each. */
  datatype Scales = Scales(gyro: nat, accel: nat)

  type Selection = x: Scales | x.gyro < 4 && x.accel < 4 witness Scales(0, 0)

  datatype Op = Write(reg: byte, value: byte) | Read(reg: byte, len: nat)

  /** An access that completed well: the byte that was on the wire, or the first byte read. */
  datatype Access = Wrote(reg: byte, value: byte) | ReadBack(reg: byte, first: byte)

  datatype Mode = Off | Wake | WhoAmI | SampleRate | Filter | Gyro | Accel | Running | Error

  datatype Msg = Done(ok: bool) | Sample

  /** Where the task is: between messages, about to store the byte to write, about to start an access. */
  datatype Pc = Idle | Store(reg: byte, value: byte) | Send(op: Op)

  /** What the bus answers to a start: taken; failed, with the completion already called back; turned away. */
  datatype Outcome = Taken | FailedAtOnce | TurnedAway

  /**
   * `txByte` and `regBuf` are the shared buffers (`regBuf` its first byte); `flight` is the access the
   * bus works on; `trace` is history.
   */
  datatype Imu = Imu(
    scales: Selection, mode: Mode, pc: Pc, txByte: byte, regBuf: byte, busy: bool, flight: Option<Op>,
    inbox: seq<Msg>, timer: bool, trace: seq<Access>)

  datatype Event =
    | Init(ready: bool)
    | Receive(timerOk: bool)
    | StoreByte
    | Issue(outcome: Outcome, room: bool)
    | Ends(ok: bool, data: byte, room: bool)
    | Tick(timerOk: bool, room: bool)

  /** A message from an interrupt is refused when the inbox is full. */
  function Post(s: Imu, msg: Msg, room: bool): Imu {
    if room then s.(inbox := s.inbox + [msg]) else s
  }

  function Fail(s: Imu): Imu {
    s.(mode := Error, timer := false)
  }

  function Begin(s: Imu, mode: Mode, op: Op): Imu {
    s.(mode := mode, pc := if op.Write? then Store(op.reg, op.value) else Send(op))
  }

  const SAMPLE_READ: Op := Read(ACCEL_XOUT_H, 14)

  function StartSample(s: Imu): Imu {
    if s.mode == Running then s.(pc := Send(SAMPLE_READ)) else s
  }

  function ArmTimer(s: Imu, timerOk: bool): Imu {
    if timerOk then s.(timer := true) else Fail(s)
  }

  function OnDone(s: Imu, ok: bool, timerOk: bool): Imu {
    if !ok then Fail(s)
    else
      match s.mode
      case Wake => Begin(s, WhoAmI, Read(WHO_AM_I, 1))
      case WhoAmI => if s.regBuf != WHO_AM_I_VALUE then Fail(s) else Begin(s, SampleRate, Write(SMPLRT_DIV, 7))
      case SampleRate => Begin(s, Filter, Write(CONFIG, 3))
      case Filter => Begin(s, Gyro, Write(GYRO_CONFIG, s.scales.gyro * 8))
      case Gyro => Begin(s, Accel, Write(ACCEL_CONFIG, s.scales.accel * 8))
      case Accel => StartSample(ArmTimer(s.(mode := Running), timerOk))
      case _ => s
  }

  function OnMsg(s: Imu, msg: Msg, timerOk: bool): Imu {
    match msg
    case Done(ok) => OnDone(s, ok, timerOk)
    case Sample => StartSample(s)
  }

  /** A start that did not succeed: bring-up gives up, a sample is skipped. */
  function NotStarted(s: Imu, op: Op): Imu {
    if op == SAMPLE_READ then s else Fail(s)
  }

  /** The driver's start: refused while an access is on the bus; whether it was started. */
  function StartAccess(s: Imu, op: Op, outcome: Outcome, room: bool): (Imu, bool) {
    if s.busy then (s, false)
    else if s.flight.Some? then (s.(busy := false), false)
    else
      match outcome
      case Taken => (s.(busy := true, flight := Some(op)), true)
      case FailedAtOnce => (Post(s.(busy := false), Done(false), room), false)
      case TurnedAway => (s.(busy := false), false)
  }

  function DoIssue(s: Imu, op: Op, outcome: Outcome, room: bool): Imu {
    var (started, ok) := StartAccess(s.(pc := Idle), op, outcome, room);
    if ok then started else NotStarted(started, op)
  }

  function Accessed(s: Imu, op: Op, data: byte): Access {
    if op.Write? then Wrote(op.reg, s.txByte) else ReadBack(op.reg, data)
  }

  /** The completion interrupt of the access in flight. */
  function DoEnds(s: Imu, ok: bool, data: byte, room: bool): Imu {
    if s.flight.None? then s
    else
      var op := s.flight.value;
      var s1 := s.(flight := None, busy := false,
                   regBuf := if op.Read? then data else s.regBuf,
                   trace := if ok then s.trace + [Accessed(s, op, data)] else s.trace);
      Post(s1, Done(ok), room)
  }

  /** Initialisation forgets the sample timer without cancelling it, and starts over from any mode. */
  function DoInit(s: Imu, ready: bool): Imu {
    var off := s.(mode := Off, timer := false);
    if ready then Begin(off, Wake, Write(PWR_MGMT_1, 0)) else Fail(off)
  }

  function Apply(s: Imu, event: Event): Imu {
    match event
    case Init(ready) => if s.pc != Idle then s else DoInit(s, ready)
    case Receive(timerOk) =>
      if s.pc != Idle || s.inbox == [] then s else OnMsg(s.(inbox := s.inbox[1..]), s.inbox[0], timerOk)
    case StoreByte =>
      if s.pc.Store? then s.(txByte := s.pc.value, pc := Send(Write(s.pc.reg, s.pc.value))) else s
    case Issue(outcome, room) => if s.pc.Send? then DoIssue(s, s.pc.op, outcome, room) else s
    case Ends(ok, data, room) => DoEnds(s, ok, data, room)
    case Tick(timerOk, room) =>
      if !s.timer then s else ArmTimer(Post(s.(timer := false), Sample, room), timerOk)
  }

  function Run(s: Imu, events: seq<Event>): Imu {
    if events == [] then s else Apply(Run(s, events[..|events| - 1]), events[|events| - 1])
  }

  predicate Initial(s: Imu) {
    s.mode == Off && s.pc == Idle && !s.busy && s.flight.None? && s.inbox == [] && !s.timer && s.trace == []
  }

  // ---- The bring-up script ----

  predicate BringingUp(mode: Mode) {
    mode.Wake? || mode.WhoAmI? || mode.SampleRate? || mode.Filter? || mode.Gyro? || mode.Accel?
  }

  function Stage(mode: Mode): nat
    requires BringingUp(mode)
  {
    match mode
    case Wake => 0
    case WhoAmI => 1
    case SampleRate => 2
    case Filter => 3
    case Gyro => 4
    case Accel => 5
  }

  /** The accesses a bring-up makes, in order, with what they must have put on the wire or read. */
  function Script(scales: Selection): seq<Access> {
    [Wrote(0x6B, 0), ReadBack(0x75, 0x68), Wrote(0x19, 7), Wrote(0x1A, 3),
     Wrote(0x1B, scales.gyro * 8), Wrote(0x1C, scales.accel * 8)]
  }

  /** The access a mode is waiting for. */
  function Expected(s: Imu): Op
    requires BringingUp(s.mode)
  {
    match s.mode
    case Wake => Write(PWR_MGMT_1, 0)
    case WhoAmI => Read(WHO_AM_I, 1)
    case SampleRate => Write(SMPLRT_DIV, 7)
    case Filter => Write(CONFIG, 3)
    case Gyro => Write(GYRO_CONFIG, s.scales.gyro * 8)
    case Accel => Write(ACCEL_CONFIG, s.scales.accel * 8)
  }

  /** The trace before the current access. */
  predicate Before(s: Imu)
    requires BringingUp(s.mode)
  {
    s.trace == Script(s.scales)[..Stage(s.mode)]
  }

  /** The trace with the current access. */
  predicate After(s: Imu)
    requires BringingUp(s.mode)
  {
    s.trace == Script(s.scales)[..Stage(s.mode)] + [Accessed(s, Expected(s), s.regBuf)]
  }

  predicate ByteStored(s: Imu, op: Op) {
    op.Write? ==> s.txByte == op.value
  }

  /** The access is being prepared, on the bus, reported, or its report was refused. */
  predicate Preparing(s: Imu)
    requires BringingUp(s.mode)
  {
    && s.flight.None? && s.inbox == [] && Before(s)
    && ((s.pc == Send(Expected(s)) && ByteStored(s, Expected(s)))
        || (Expected(s).Write? && s.pc == Store(Expected(s).reg, Expected(s).value)))
  }

  predicate OnBus(s: Imu)
    requires BringingUp(s.mode)
  {
    s.pc == Idle && s.flight == Some(Expected(s)) && s.inbox == [] && Before(s) && ByteStored(s, Expected(s))
  }

  predicate Reported(s: Imu)
    requires BringingUp(s.mode)
  {
    && s.pc == Idle && s.flight.None? && ByteStored(s, Expected(s))
    && ((s.inbox == [Done(true)] && After(s)) || (s.inbox == [Done(false)] && Before(s))
        || (s.inbox == [] && (Before(s) || After(s))))
  }

  predicate Inv(s: Imu) {
    && s.busy == s.flight.Some?
    && (s.timer ==> s.mode == Running)
    && (s.mode == Off ==> s.pc == Idle && s.flight.None? && s.inbox == [] && s.trace == [])
    && (BringingUp(s.mode) ==> Preparing(s) || OnBus(s) || Reported(s))
    && (s.mode == Running || s.mode == Error ==>
          (s.pc == Idle || s.pc == Send(SAMPLE_READ)) && (s.flight.Some? ==> s.flight.value == SAMPLE_READ))
    && (s.mode == Running ==> Script(s.scales) <= s.trace)
  }

  /** Accesses started, on the bus, or reported and not yet handled. */
  function Outstanding(s: Imu): nat {
    (if s.pc == Idle then 0 else 1) + (if s.flight.None? then 0 else 1) + |s.inbox|
  }

  /** The sensor is initialised once: `sensor_init` is called before anything else. */
  predicate InitOnce(s: Imu, events: seq<Event>) {
    events == []
    || var n := |events| - 1; InitOnce(s, events[..n]) && (events[n].Init? ==> Run(s, events[..n]).mode == Off)
  }

  lemma InitKeepsInv(s: Imu, ready: bool)
    requires Inv(s) && s.mode == Off
    ensures Inv(Apply(s, Init(ready)))
  {
  }

  /** The message of a completed access moves the bring-up on exactly when the access is the script's. */
  lemma NextStage(s: Imu, timerOk: bool)
    requires Inv(s) && BringingUp(s.mode) && Reported(s) && s.inbox != []
    ensures Inv(Apply(s, Receive(timerOk)))
    ensures Apply(s, Receive(timerOk)).mode == Running ==> s.mode == Accel && s.trace == Script(s.scales)
  {
    var a := OnMsg(s.(inbox := []), s.inbox[0], timerOk);
    assert Apply(s, Receive(timerOk)) == a;
    var k, script := Stage(s.mode), Script(s.scales);
    if s.inbox[0] == Done(true) && Accessed(s, Expected(s), s.regBuf) == script[k] {
      assert script[..k] + [script[k]] == script[..k + 1];
    }
  }

  lemma ReceiveKeepsInv(s: Imu, timerOk: bool)
    requires Inv(s)
    ensures Inv(Apply(s, Receive(timerOk)))
    ensures Apply(s, Receive(timerOk)).mode == Running && s.mode != Running ==> s.trace == Script(s.scales)
  {
    if BringingUp(s.mode) && s.pc == Idle && s.inbox != [] {
      NextStage(s, timerOk);
    }
  }

  lemma StartKeepsInv(s: Imu, event: Event)
    requires Inv(s) && (event.StoreByte? || event.Issue?)
    ensures Inv(Apply(s, event))
  {
  }

  lemma EndsKeepsInv(s: Imu, event: Event)
    requires Inv(s) && (event.Ends? || event.Tick?)
    ensures Inv(Apply(s, event))
  {
  }

  lemma EventKeepsInv(s: Imu, event: Event)
    requires Inv(s) && (event.Init? ==> s.mode == Off)
    ensures Inv(Apply(s, event))
    ensures s.mode != Running && Apply(s, event).mode == Running ==> s.trace == Script(s.scales)
  {
    match event
    case Init(ready) => InitKeepsInv(s, ready);
    case Receive(timerOk) => ReceiveKeepsInv(s, timerOk);
    case Ends(_, _, _) => EndsKeepsInv(s, event);
    case Tick(_, _) => EndsKeepsInv(s, event);
    case _ => StartKeepsInv(s, event);
  }

  /**
   * Over every run that initialises once: the sensor is running only after the whole script completed well and in order,
   * WHO_AM_I having read 0x68; during bring-up at most one access is outstanding; and the byte an
   * access writes is the shared byte for as long as the access is on the bus.
   */
  lemma {:induction false} BringUpFollowsScript(s: Imu, events: seq<Event>)
    requires Initial(s) && InitOnce(s, events)
    ensures var r := Run(s, events);
            && (r.mode == Running ==> Script(r.scales) <= r.trace)
            && (BringingUp(r.mode) ==> Outstanding(r) <= 1)
            && (r.flight.Some? && r.flight.value.Write? ==> r.txByte == r.flight.value.value)
            && r.busy == r.flight.Some?
    ensures Inv(Run(s, events))
  {
    if events != [] {
      BringUpFollowsScript(s, events[..|events| - 1]);
      EventKeepsInv(Run(s, events[..|events| - 1]), events[|events| - 1]);
    }
  }

  /** The step that enters the running mode is taken with exactly the script behind it. */
  lemma RunningIsEnteredAfterScript(s: Imu, events: seq<Event>, event: Event)
    requires Initial(s) && InitOnce(s, events)
    ensures var r := Run(s, events);
            r.mode != Running && Apply(r, event).mode == Running ==> r.mode == Accel && r.trace == Script(r.scales)
  {
    BringUpFollowsScript(s, events);
    if !event.Init? {
      EventKeepsInv(Run(s, events), event);
    }
  }

  /** The error mode is left by initialisation only. */
  lemma {:induction false} ErrorIsFinal(s: Imu, events: seq<Event>)
    requires s.mode == Error && forall k :: 0 <= k < |events| ==> !events[k].Init?
    ensures Run(s, events).mode == Error
  {
    if events != [] {
      ErrorIsFinal(s, events[..|events| - 1]);
      ErrorStays(Run(s, events[..|events| - 1]), events[|events| - 1]);
    }
  }

  lemma ErrorStays(s: Imu, event: Event)
    requires s.mode == Error
    ensures Apply(s, event).mode == Error <==> !(event.Init? && event.ready && s.pc == Idle)
  {
  }

  /**
   * What can go wrong: a probe or an access that fails, the wrong identity, a bring-up access that is
   * not started, a sample timer that is not granted.
   */
  predicate GoesWrong(s: Imu, event: Event) {
    match event
    case Init(ready) => s.pc == Idle && !ready
    case Receive(timerOk) =>
      && s.pc == Idle && s.inbox != []
      && (s.inbox[0] == Done(false)
          || (s.inbox[0] == Done(true) && ((s.mode == WhoAmI && s.regBuf != 0x68) || (s.mode == Accel && !timerOk))))
    case Issue(outcome, _) =>
      s.pc.Send? && s.pc.op != Read(0x3B, 14) && (s.busy || s.flight.Some? || outcome != Taken)
    case Tick(timerOk, _) => s.timer && !timerOk
    case _ => false
  }

  lemma EventFailsIff(s: Imu, event: Event)
    ensures Apply(s, event).mode == Error <==>
            GoesWrong(s, event) || (s.mode == Error && !(event.Init? && s.pc == Idle))
  {
  }

  /** Something has gone wrong on the way. */
  predicate WentWrong(s: Imu, events: seq<Event>) {
    events != []
    && var n := |events| - 1; WentWrong(s, events[..n]) || GoesWrong(Run(s, events[..n]), events[n])
  }

  /** Over every run that initialises once, the sensor is in error if and only if something has gone wrong. */
  lemma {:induction false} ErrorIffWentWrong(s: Imu, events: seq<Event>)
    requires Initial(s) && InitOnce(s, events)
    ensures Run(s, events).mode == Error <==> WentWrong(s, events)
  {
    if events != [] {
      var n := |events| - 1;
      ErrorIffWentWrong(s, events[..n]);
      EventFailsIff(Run(s, events[..n]), events[n]);
    }
  }

  /** Initialising again while a write is on the bus keeps its byte if and only if that byte is the wake byte. */
  lemma ReinitKeepsByteIff(s: Imu, reg: byte, value: byte)
    requires s.pc == Idle && s.flight == Some(Write(reg, value)) && s.txByte == value
    ensures var r := Apply(Apply(s, Init(true)), StoreByte);
            r.flight == s.flight && (r.txByte == value <==> value == 0)
  {
  }

  // ---- Sampling ----

  /**
   * A sample message in the running mode has the task start the fourteen-byte read of the measurements;
   * elsewhere it does nothing.
   */
  lemma SampleStartsRead(s: Imu, timerOk: bool, room: bool)
    requires s.pc == Idle && s.inbox != [] && s.inbox[0] == Sample
    ensures var r := Apply(s, Receive(timerOk)); var started := Apply(r, Issue(Taken, room));
            && r == s.(inbox := s.inbox[1..], pc := r.pc)
            && (if s.mode == Running then r.pc == Send(Read(0x3B, 14)) else r.pc == Idle)
            && (s.mode == Running ==>
                  if s.busy || s.flight.Some? then started.flight == s.flight && started.mode == Running
                  else started == s.(inbox := s.inbox[1..], busy := true, flight := Some(Read(0x3B, 14))))
  {
  }

  /** A tick posts one sample message if there is room, and re-arms itself or gives the sensor up. */
  lemma TickPostsSample(s: Imu, timerOk: bool, room: bool)
    requires s.timer
    ensures Apply(s, Tick(timerOk, room)) == s.(inbox := if room then s.inbox + [Sample] else s.inbox,
                                                timer := timerOk, mode := if timerOk then s.mode else Error)
  {
  }

  /** The end of an access posts its result if there is room, opens the gate, and leaves what was read in the buffer. */
  lemma EndPostsResult(s: Imu, ok: bool, data: byte, room: bool)
    requires s.flight.Some?
    ensures var r := Apply(s, Ends(ok, data, room));
            && r.inbox == (if room then s.inbox + [Done(ok)] else s.inbox)
            && !r.busy && r.flight.None? && r.mode == s.mode && r.pc == s.pc && r.timer == s.timer && r.txByte == s.txByte
            && r.regBuf == match s.flight.value case Read(_, _) => data case Write(_, _) => s.regBuf
  {
  }

  /** A good result in the running mode changes nothing here; a bad one ends the running mode and its timer. */
  lemma RunningResult(s: Imu, timerOk: bool)
    requires s.mode == Running && s.pc == Idle && s.inbox != [] && s.inbox[0].Done?
    ensures var left := s.(inbox := s.inbox[1..]);
            Apply(s, Receive(timerOk)) == if s.inbox[0].ok then left else left.(mode := Error, timer := false)
  {
  }

  /** On every reachable running sensor at rest, a tick leads to a read of the fourteen bytes on the bus. */
  lemma TickLeadsToRead(s: Imu, events: seq<Event>)
    requires Initial(s) && InitOnce(s, events)
    ensures var r := Run(s, events);
            r.mode == Running && r.timer && r.pc == Idle && r.inbox == [] && r.flight.None? ==>
              var read := Apply(Apply(Apply(r, Tick(true, true)), Receive(true)), Issue(Taken, true));
              read == r.(busy := true, flight := Some(Read(0x3B, 14)))
  {
    BringUpFollowsScript(s, events);
    var r := Run(s, events);
    if r.mode == Running && r.timer && r.pc == Idle && r.inbox == [] && r.flight.None? {
      TickPostsSample(r, true, true);
      SampleStartsRead(Apply(r, Tick(true, true)), true, true);
    }
  }

  // ---- Bring-up succeeds when every access does ----

  /** One access from its preparation to its report. */
  function ToReport(s: Imu, data: byte): Imu {
    Apply(Apply(Apply(s, StoreByte), Issue(Taken, true)), Ends(true, data, true))
  }

  /** And on to the handling of the report. */
  function Round(s: Imu, data: byte, timerOk: bool): Imu {
    Apply(ToReport(s, data), Receive(timerOk))
  }

  lemma AccessReports(s: Imu, data: byte)
    requires Inv(s) && BringingUp(s.mode) && Preparing(s)
    ensures var r := ToReport(s, data);
            && Inv(r) && r.inbox == [Done(true)] && r.mode == s.mode && r.scales == s.scales
            && r.pc == Idle && r.flight.None? && (s.mode == WhoAmI ==> r.regBuf == data)
  {
    var stored := Apply(s, StoreByte);
    var sent := Apply(stored, Issue(Taken, true));
    StartKeepsInv(s, StoreByte);
    assert stored.pc == Send(Expected(s)) && stored.mode == s.mode && stored.scales == s.scales && stored.inbox == [];
    StartKeepsInv(stored, Issue(Taken, true));
    assert sent.flight == Some(Expected(s)) && sent.mode == s.mode && sent.scales == s.scales && sent.inbox == [];
    EndsKeepsInv(sent, Ends(true, data, true));
  }

  lemma RoundAdvances(s: Imu, data: byte, timerOk: bool)
    requires Inv(s) && BringingUp(s.mode) && Preparing(s)
    ensures var r := Round(s, data, timerOk);
            && r.scales == s.scales
            && match s.mode
               case Wake => Inv(r) && r.mode == WhoAmI && Preparing(r)
               case WhoAmI =>
                 if data == WHO_AM_I_VALUE then Inv(r) && r.mode == SampleRate && Preparing(r) else r.mode == Error
               case SampleRate => Inv(r) && r.mode == Filter && Preparing(r)
               case Filter => Inv(r) && r.mode == Gyro && Preparing(r)
               case Gyro => Inv(r) && r.mode == Accel && Preparing(r)
               case Accel => r.mode == if timerOk then Running else Error
  {
    AccessReports(s, data);
    ReceiveKeepsInv(ToReport(s, data), timerOk);
  }

  /**
   * Six good rounds after a good probe bring the sensor up, if and only if WHO_AM_I reads 0x68 and the
   * sample timer is granted.
   */
  lemma {:induction false} GoodRoundsBringUpIff(s: Imu, data: byte, timerOk: bool)
    requires Initial(s)
    ensures var two := Round(Round(Apply(s, Init(true)), data, timerOk), data, timerOk);
            var four := Round(Round(two, data, timerOk), data, timerOk);
            var six := Round(Round(four, data, timerOk), data, timerOk);
            six.mode == Running <==> data == WHO_AM_I_VALUE && timerOk
  {
    InitKeepsInv(s, true);
    var zero := Apply(s, Init(true));
    assert Preparing(zero);
    RoundAdvances(zero, data, timerOk);
    var one := Round(zero, data, timerOk);
    RoundAdvances(one, data, timerOk);
    var two := Round(one, data, timerOk);
    if data == WHO_AM_I_VALUE {
      GoodTail(two, data, timerOk);
    } else {
      RoundsKeepError(two, data, timerOk);
      RoundsKeepError(Round(two, data, timerOk), data, timerOk);
      RoundsKeepError(Round(Round(two, data, timerOk), data, timerOk), data, timerOk);
      RoundsKeepError(Round(Round(Round(two, data, timerOk), data, timerOk), data, timerOk), data, timerOk);
    }
  }

  lemma GoodTail(two: Imu, data: byte, timerOk: bool)
    requires Inv(two) && two.mode == SampleRate && Preparing(two)
    ensures var four := Round(Round(two, data, timerOk), data, timerOk);
            Round(Round(four, data, timerOk), data, timerOk).mode == if timerOk then Running else Error
  {
    RoundAdvances(two, data, timerOk);
    var three := Round(two, data, timerOk);
    RoundAdvances(three, data, timerOk);
    var four := Round(three, data, timerOk);
    RoundAdvances(four, data, timerOk);
    RoundAdvances(Round(four, data, timerOk), data, timerOk);
  }

  lemma RoundsKeepError(s: Imu, data: byte, timerOk: bool)
    requires s.mode == Error
    ensures Round(s, data, timerOk).mode == Error
  {
    var stored := Apply(s, StoreByte);
    ErrorStays(s, StoreByte);
    var sent := Apply(stored, Issue(Taken, true));
    ErrorStays(stored, Issue(Taken, true));
    ErrorStays(sent, Ends(true, data, true));
    ErrorStays(Apply(sent, Ends(true, data, true)), Receive(timerOk));
  }

  // ---- The code of the driver and of the sensor task ----

  /** What an undisturbed task does after `Begin` or `StartSample`: store the byte, start the access. */
  function Settle(s: Imu, outcome: Outcome, room: bool): Imu {
    Apply(Apply(s, StoreByte), Issue(outcome, room))
  }

  class Sensor {
    const scales: Selection
    var mode: Mode
    var txByte: byte
    var regBuf: byte
    var busy: bool
    var hwReady: bool
    var timerId: int
    var inbox: seq<Msg>

    /** Task, driver, bus and history as a value. */
    ghost var imu: Imu

    ghost predicate Valid()
      reads this
    {
      && imu.scales == scales && imu.mode == mode && imu.txByte == txByte && imu.regBuf == regBuf
      && imu.busy == busy && imu.timer == (timerId >= 0) && imu.inbox == inbox
    }

    /** At the task's own points of rest, past the hardware probe. */
    ghost predicate AtRest()
      reads this
    {
      Valid() && imu.pc == Idle
    }

    constructor (scales: Selection)
      ensures AtRest() && Initial(imu) && imu.scales == scales
    {
      this.scales := scales;
      mode, txByte, regBuf, busy, hwReady, timerId, inbox := Off, 0, 0, false, false, -1, [];
      imu := Imu(scales, Off, Idle, 0, 0, false, None, [], false, []);
    }

    method PostFromIsr(msg: Msg)
      requires Valid()
      modifies this`inbox, this`imu
      ensures Valid() && imu == Post(old(imu), msg, |old(inbox)| < 8)
    {
      if |inbox| < INBOX_DEPTH {
        inbox := inbox + [msg];
        imu := imu.(inbox := inbox);
      }
    }

    method SensorFail()
      requires Valid()
      modifies this`mode, this`timerId, this`imu
      ensures Valid() && imu == Fail(old(imu))
    {
      mode := Error;
      if timerId >= 0 {
        timerId := -1;
      }
      imu := Fail(imu);
    }

    /**
     * The completion interrupt: the gate opens before the event is posted. `read` is what a read left in
     * the buffer.
     */
    method I2cDone(ok: bool, read: Option<byte>)
      requires Valid() && imu.flight.Some? && (read.Some? <==> imu.flight.value.Read?)
      modifies this`busy, this`regBuf, this`inbox, this`imu
      ensures Valid()
      ensures imu == DoEnds(old(imu), ok, if read.Some? then read.value else 0, |old(inbox)| < INBOX_DEPTH)
    {
      ghost var op, data := imu.flight.value, if read.Some? then read.value else 0;
      ghost var trace := if ok then imu.trace + [Accessed(imu, op, data)] else imu.trace;
      busy := false;
      if read.Some? {
        regBuf := read.value;
      }
      imu := imu.(flight := None, busy := false, regBuf := regBuf, trace := trace);
      PostFromIsr(Done(ok));
    }

    /** Starting an access; `outcome` is the bus's answer, yes only when it is idle. */
    method StartMem(op: Op, outcome: Outcome) returns (ok: bool)
      requires Valid() && imu.pc == Send(op) && Answers(outcome)
      modifies this`busy, this`inbox, this`imu
      ensures AtRest()
      ensures var r := StartAccess(old(imu).(pc := Idle), op, outcome, |old(inbox)| < INBOX_DEPTH);
              imu == r.0 && ok == r.1
    {
      imu := imu.(pc := Idle);
      if busy {
        return false;
      }
      busy := true;
      if outcome == Taken {
        imu := imu.(busy := true, flight := Some(op));
        return true;
      }
      busy := false;
      imu := imu.(busy := false);
      if outcome == FailedAtOnce {
        PostFromIsr(Done(false));
      }
      ok := false;
    }

    /** The shared byte is overwritten before the gate is tested. */
    method WriteReg(reg: byte, value: byte, outcome: Outcome) returns (ok: bool)
      requires Valid() && imu.pc == Store(reg, value) && Answers(outcome)
      modifies this`txByte, this`busy, this`inbox, this`imu
      ensures AtRest()
      ensures var r := StartAccess(old(imu).(txByte := value, pc := Idle), Write(reg, value), outcome,
                                   |old(inbox)| < INBOX_DEPTH);
              imu == r.0 && ok == r.1
    {
      txByte := value;
      imu := imu.(txByte := value, pc := Send(Write(reg, value)));
      ok := StartMem(Write(reg, value), outcome);
    }

    /** What the bus can answer. */
    ghost predicate Answers(outcome: Outcome)
      reads this
    {
      imu.flight.Some? && !busy ==> outcome == TurnedAway
    }

    /** Enters a bring-up mode and starts its access. */
    method Advance(next: Mode, op: Op, outcome: Outcome)
      requires AtRest() && Answers(outcome) && op != SAMPLE_READ
      modifies this
      ensures AtRest() && imu == Settle(Begin(old(imu), next, op), outcome, |old(inbox)| < INBOX_DEPTH)
    {
      mode := next;
      imu := Begin(imu, next, op);
      var ok: bool;
      match op {
        case Write(reg, value) => ok := WriteReg(reg, value, outcome);
        case Read(_, _) => ok := StartMem(op, outcome);
      }
      if !ok {
        SensorFail();
      }
    }

    method ArmSampleTimer(timer: int)
      requires Valid() && timer >= -1
      modifies this`timerId, this`mode, this`imu
      ensures Valid() && imu == ArmTimer(old(imu), timer >= 0)
    {
      timerId := timer;
      imu := imu.(timer := timer >= 0);
      if timerId < 0 {
        SensorFail();
      }
    }

    method StartSampling(outcome: Outcome)
      requires AtRest() && Answers(outcome)
      modifies this`busy, this`inbox, this`imu
      ensures AtRest() && imu == Settle(StartSample(old(imu)), outcome, |old(inbox)| < INBOX_DEPTH)
    {
      if mode != Running {
        return;
      }
      imu := imu.(pc := Send(SAMPLE_READ));
      var _ := StartMem(SAMPLE_READ, outcome);
    }

    /** `timer` is what registering the sample timer would return. */
    method OnI2cDone(ok: bool, timer: int, outcome: Outcome)
      requires AtRest() && Answers(outcome) && timer >= -1
      modifies this
      ensures AtRest()
      ensures imu == Settle(OnDone(old(imu), ok, timer >= 0), outcome, |old(inbox)| < INBOX_DEPTH)
    {
      if !ok {
        SensorFail();
        return;
      }
      match mode {
        case Wake => Advance(WhoAmI, Read(WHO_AM_I, 1), outcome);
        case WhoAmI =>
          if regBuf != WHO_AM_I_VALUE {
            SensorFail();
          } else {
            Advance(SampleRate, Write(SMPLRT_DIV, 7), outcome);
          }
        case SampleRate => Advance(Filter, Write(CONFIG, 3), outcome);
        case Filter => Advance(Gyro, Write(GYRO_CONFIG, scales.gyro * 8), outcome);
        case Gyro => Advance(Accel, Write(ACCEL_CONFIG, scales.accel * 8), outcome);
        case Accel =>
          mode := Running;
          imu := imu.(mode := Running);
          ArmSampleTimer(timer);
          StartSampling(outcome);
        case _ =>
      }
    }

    /** One turn of the task's loop: take a message and handle it. */
    method HandleNext(timer: int, outcome: Outcome)
      requires AtRest() && Answers(outcome) && timer >= -1 && inbox != []
      modifies this
      ensures AtRest()
      ensures imu == Settle(Apply(old(imu), Receive(timer >= 0)), outcome, |old(inbox)| - 1 < INBOX_DEPTH)
    {
      var msg := inbox[0];
      inbox := inbox[1..];
      imu := imu.(inbox := inbox);
      match msg {
        case Done(ok) => OnI2cDone(ok, timer, outcome);
        case Sample => StartSampling(outcome);
      }
    }

    method SampleTimerCallback(timer: int)
      requires Valid() && timerId >= 0 && timer >= -1
      modifies this
      ensures Valid() && imu == Apply(old(imu), Tick(timer >= 0, |old(inbox)| < INBOX_DEPTH))
    {
      timerId := -1;
      imu := imu.(timer := false);
      PostFromIsr(Sample);
      ArmSampleTimer(timer);
    }

    /** `probed` is what the device probe answers. */
    method SensorInit(probed: bool, outcome: Outcome)
      requires AtRest() && Answers(outcome)
      modifies this
      ensures AtRest()
      ensures imu == Settle(Apply(old(imu), Init(probed || old(hwReady))), outcome, |old(inbox)| < INBOX_DEPTH)
    {
      mode, timerId := Off, -1;
      imu := imu.(mode := Off, timer := false);
      if !hwReady && !probed {
        SensorFail();
        return;
      }
      hwReady := true;
      Advance(Wake, Write(PWR_MGMT_1, 0), outcome);
    }
  }
}
