/**
 * One asynchronous I2C bus: a lock, a timeout, abort and completion callbacks over a peripheral that
 * accepts a transfer only when idle and ends each accepted transfer with one terminal interrupt.
 * Starting a transfer and arming its timeout is one step; a completion callback is the last thing its
 * caller does, so whatever it starts is the next event.
 */
module I2c {
  import opened Common

  datatype Status = Ok | ErrParam | ErrIo | ErrBusy

  /** A completion callback made for a request. */
  datatype Call = Call(request: nat, status: Status)

  /**
   * `cb` is the request whose callback is stored, `timer` a stored timeout. `transfer` is the
   * request the peripheral is working for. `probes` counts device probes between taking and
   * releasing the lock. `serial` numbers the requests; `passed` are those that got the lock.
   */
  datatype Bus = Bus(
    busy: bool, aborting: bool, cb: Option<nat>, timer: bool,
    transfer: Option<nat>, probes: nat,
    serial: nat, passed: set<nat>, calls: seq<Call>)

  /** `accepted`: the peripheral takes the transfer if idle; `granted`: a software timer is free. */
  datatype Request = Request(valid: bool, hasCallback: bool, accepted: bool, granted: bool)

  datatype Terminal = Completed | Failed | Aborted

  datatype Event = Start(request: Request) | End(how: Terminal) | Timeout | ProbeBegin(valid: bool) | ProbeEnd

  function Release(b: Bus): Bus {
    b.(timer := false, aborting := false, busy := false, cb := None)
  }

  function Acquire(b: Bus): Bus {
    b.(busy := true, aborting := false, cb := None, timer := false)
  }

  function Finish(b: Bus, status: Status): Bus {
    if !b.busy then b
    else if b.cb.None? then Release(b)
    else Release(b).(calls := b.calls + [Call(b.cb.value, status)])
  }

  /** Start-up failure: the lock goes first, then the caller's callback runs. */
  function Fail(b: Bus, request: nat): Bus {
    Release(b).(calls := b.calls + [Call(request, ErrIo)])
  }

  function DoStart(b: Bus, q: Request): (Bus, Status) {
    var r := b.serial;
    var b0 := b.(serial := r + 1);
    if !q.valid || !q.hasCallback then (b0, ErrParam)
    else if b.busy then (b0, ErrBusy)
    else
      var b1 := Acquire(b0).(cb := Some(r), passed := b.passed + {r});
      if !q.accepted || b.transfer.Some? then (Fail(b1, r), ErrIo)
      else if q.granted then (b1.(transfer := Some(r), timer := true), Ok)
      else (Fail(b1.(transfer := Some(r)), r), ErrIo)
  }

  function DoEnd(b: Bus, how: Terminal): Bus {
    if b.transfer.None? then b
    else
      var idle := b.(transfer := None);
      match how
      case Completed => Finish(idle, Ok)
      case Failed => Finish(idle, ErrIo)
      case Aborted => if !b.busy then idle else Finish(idle, if b.aborting then ErrIo else Ok)
  }

  function DoTimeout(b: Bus): Bus {
    if !b.timer || !b.busy then b else b.(timer := false, aborting := true)
  }

  function Apply(b: Bus, event: Event): Bus {
    match event
    case Start(q) => DoStart(b, q).0
    case End(how) => DoEnd(b, how)
    case Timeout => DoTimeout(b)
    case ProbeBegin(valid) => if !valid || b.busy then b else Acquire(b).(probes := b.probes + 1)
    case ProbeEnd => if b.probes == 0 then b else Release(b).(probes := b.probes - 1)
  }

  function Run(b: Bus, events: seq<Event>): Bus {
    if events == [] then b else Apply(Run(b, events[..|events| - 1]), events[|events| - 1])
  }

  predicate Initial(b: Bus) {
    && !b.busy && b.cb.None? && !b.timer && b.transfer.None? && b.probes == 0
    && b.passed == {} && b.calls == []
  }

  /** How many times the callback of `r` has run. */
  function CallsOf(calls: seq<Call>, r: nat): nat {
    if calls == [] then 0
    else CallsOf(calls[..|calls| - 1], r) + if calls[|calls| - 1].request == r then 1 else 0
  }

  lemma {:induction false} CallsOfSnoc(calls: seq<Call>, call: Call, r: nat)
    ensures CallsOf(calls + [call], r) == CallsOf(calls, r) + if call.request == r then 1 else 0
  {
    assert (calls + [call])[..|calls|] == calls;
  }

  /** A start that gets the lock but no running transfer. */
  predicate FailsAtOnce(b: Bus, q: Request) {
    q.valid && q.hasCallback && !b.busy && !(q.accepted && b.transfer.None? && q.granted)
  }

  /** The request whose callback an event runs. */
  function Called(b: Bus, event: Event): Option<nat> {
    match event
    case Start(q) => if FailsAtOnce(b, q) then Some(b.serial) else None
    case End(_) => if b.transfer.Some? && b.busy then b.cb else None
    case _ => None
  }

  lemma {:induction false} StartCounts(b: Bus, q: Request, r: nat)
    ensures CallsOf(Apply(b, Start(q)).calls, r) == CallsOf(b.calls, r) + if Called(b, Start(q)) == Some(r) then 1 else 0
  {
    CallsOfSnoc(b.calls, Call(b.serial, ErrIo), r);
  }

  lemma {:induction false} FinishCounts(b: Bus, status: Status, r: nat)
    ensures CallsOf(Finish(b, status).calls, r) == CallsOf(b.calls, r) + if b.busy && b.cb == Some(r) then 1 else 0
  {
    if b.cb.Some? {
      CallsOfSnoc(b.calls, Call(b.cb.value, status), r);
    }
  }

  lemma {:induction false} EndCounts(b: Bus, how: Terminal, r: nat)
    ensures CallsOf(DoEnd(b, how).calls, r) == CallsOf(b.calls, r) + if Called(b, End(how)) == Some(r) then 1 else 0
  {
    FinishCounts(b.(transfer := None), Ok, r);
    FinishCounts(b.(transfer := None), ErrIo, r);
  }

  lemma {:induction false} EventCounts(b: Bus, event: Event, r: nat)
    ensures CallsOf(Apply(b, event).calls, r) == CallsOf(b.calls, r) + if Called(b, event) == Some(r) then 1 else 0
  {
    match event
    case Start(q) => StartCounts(b, q, r);
    case End(how) => EndCounts(b, how, r);
    case _ =>
  }

  // ---- At most once, and never for a request that was turned away ----

  predicate AtMostOnce(b: Bus, r: nat) {
    && (r in b.passed ==> r < b.serial)
    && (b.cb == Some(r) ==> r in b.passed && b.busy && CallsOf(b.calls, r) == 0)
    && CallsOf(b.calls, r) <= (if r in b.passed then 1 else 0)
    && (b.timer ==> b.busy && b.cb.Some?)
  }

  lemma {:induction false} StepKeepsAtMostOnce(b: Bus, event: Event, r: nat)
    requires AtMostOnce(b, r)
    ensures AtMostOnce(Apply(b, event), r)
  {
    EventCounts(b, event, r);
  }

  /** Over every run: a request that got the lock has its callback run at most once, one turned away never. */
  lemma {:induction false} CallbackRunsAtMostOnce(b: Bus, events: seq<Event>, r: nat)
    requires Initial(b)
    ensures AtMostOnce(Run(b, events), r)
  {
    if events != [] {
      CallbackRunsAtMostOnce(b, events[..|events| - 1], r);
      StepKeepsAtMostOnce(Run(b, events[..|events| - 1]), events[|events| - 1], r);
    }
  }

  /** Over every run an unlocked bus has no callback and no timeout stored, so taking the lock overwrites neither. */
  lemma {:induction false} IdleBusStoresNothing(b: Bus, events: seq<Event>)
    requires Initial(b)
    ensures !Run(b, events).busy ==> Run(b, events).cb.None? && !Run(b, events).timer
  {
    var s := Run(b, events);
    CallbackRunsAtMostOnce(b, events, if s.cb.Some? then s.cb.value else 0);
  }

  /** A start turned away with a parameter or busy error leaves the bus as it was and its callback is never run. */
  lemma {:induction false} TurnedAwayIsNeverCalled(b: Bus, events: seq<Event>, q: Request)
    requires Initial(b)
    ensures var s := Run(b, events); var (s', status) := DoStart(s, q);
            && (status == ErrParam <==> !q.valid || !q.hasCallback)
            && (status == ErrBusy <==> q.valid && q.hasCallback && s.busy)
            && (status == ErrParam || status == ErrBusy ==>
                  s' == s.(serial := s.serial + 1) && s.serial !in s'.passed && CallsOf(s'.calls, s.serial) == 0)
  {
    CallbackRunsAtMostOnce(b, events, Run(b, events).serial);
  }

  /**
   * When a callback runs, the lock is free, its timeout is cancelled and nothing of the request is
   * stored: a start from inside it is safe.
   */
  lemma {:induction false} CallbackRunsUnlocked(b: Bus, event: Event)
    ensures Apply(b, event).calls != b.calls ==>
              var a := Apply(b, event);
              && |a.calls| == |b.calls| + 1 && a.calls[..|b.calls|] == b.calls
              && !a.busy && a.cb.None? && !a.timer && !a.aborting
  {
  }

  // ---- Exactly once ----

  /** Every request that got the lock is waiting on it or has been called. */
  ghost predicate Settled(b: Bus) {
    forall r :: r in b.passed ==> b.cb == Some(r) || CallsOf(b.calls, r) == 1
  }

  /** A probe releases the lock while a request holds it. */
  predicate Steals(b: Bus, event: Event) {
    event == ProbeEnd && b.probes > 0 && b.cb.Some?
  }

  /** No event of the run does. */
  predicate Clean(b: Bus, events: seq<Event>) {
    events == []
    || var n := |events| - 1; Clean(b, events[..n]) && !Steals(Run(b, events[..n]), events[n])
  }

  lemma {:induction false} StepSettles(b: Bus, event: Event)
    requires forall r :: AtMostOnce(b, r)
    requires Settled(b) && !Steals(b, event)
    ensures Settled(Apply(b, event))
  {
    var a := Apply(b, event);
    forall r | r in a.passed
      ensures a.cb == Some(r) || CallsOf(a.calls, r) == 1
    {
      assert AtMostOnce(b, r);
      PassedSettles(b, event, r);
    }
  }

  lemma {:induction false} PassedSettles(b: Bus, event: Event, r: nat)
    requires AtMostOnce(b, r) && r in Apply(b, event).passed && !Steals(b, event)
    requires r in b.passed ==> b.cb == Some(r) || CallsOf(b.calls, r) == 1
    ensures Apply(b, event).cb == Some(r) || CallsOf(Apply(b, event).calls, r) == 1
  {
    EventCounts(b, event, r);
    StepKeepsAtMostOnce(b, event, r);
  }

  /** A request is lost: it got the lock, is no longer waiting on it, and was never called. */
  predicate Lost(b: Bus, r: nat) {
    r in b.passed && r < b.serial && b.cb != Some(r) && CallsOf(b.calls, r) == 0
  }

  lemma {:induction false} LostStaysLost(b: Bus, event: Event, r: nat)
    requires Lost(b, r)
    ensures Lost(Apply(b, event), r)
  {
    EventCounts(b, event, r);
  }

  /** What a run with or without a theft leaves behind. */
  lemma {:induction false} RunSettlesOrLoses(b: Bus, events: seq<Event>)
    requires Initial(b)
    ensures if Clean(b, events) then Settled(Run(b, events)) else exists r :: Lost(Run(b, events), r)
  {
    if events != [] {
      var n := |events| - 1;
      RunSettlesOrLoses(b, events[..n]);
      forall r
        ensures AtMostOnce(Run(b, events[..n]), r)
      {
        CallbackRunsAtMostOnce(b, events[..n], r);
      }
      var before := Run(b, events[..n]);
      assert Run(b, events) == Apply(before, events[n]);
      assert Clean(b, events) == (Clean(b, events[..n]) && !Steals(before, events[n]));
      StepSettlesOrLoses(before, events[n], Clean(b, events[..n]));
    }
  }

  lemma {:induction false} StepSettlesOrLoses(b: Bus, event: Event, clean: bool)
    requires forall r :: AtMostOnce(b, r)
    requires if clean then Settled(b) else exists r :: Lost(b, r)
    ensures if clean && !Steals(b, event) then Settled(Apply(b, event)) else exists r :: Lost(Apply(b, event), r)
  {
    if !clean {
      var r :| Lost(b, r);
      LostStaysLost(b, event, r);
    } else if Steals(b, event) {
      assert AtMostOnce(b, b.cb.value);
      assert Lost(Apply(b, event), b.cb.value);
    } else {
      StepSettles(b, event);
    }
  }

  /**
   * Over every run, every request that got the lock is waiting on it or has been called exactly once
   * if and only if no probe released the lock while a request held it.
   */
  lemma {:induction false} ExactlyOnceIff(b: Bus, events: seq<Event>)
    requires Initial(b)
    ensures Settled(Run(b, events)) <==> Clean(b, events)
  {
    RunSettlesOrLoses(b, events);
    if !Clean(b, events) {
      var r :| Lost(Run(b, events), r);
      assert r in Run(b, events).passed;
    }
  }

  // ---- With a timer for every accepted transfer, nothing is stolen ----

  predicate Granted(events: seq<Event>) {
    forall n :: 0 <= n < |events| && events[n].Start? && events[n].request.accepted ==> events[n].request.granted
  }

  /** The peripheral works for the request holding the lock, or nobody; a probe holds the lock alone. */
  predicate Owned(b: Bus) {
    && (b.transfer.Some? ==> b.busy && b.cb == b.transfer)
    && (b.cb.Some? ==> b.busy && b.transfer == b.cb)
    && (b.probes > 0 ==> b.probes == 1 && b.busy && b.cb.None?)
    && (b.busy ==> b.cb.Some? || b.probes > 0)
    && (b.timer ==> b.cb.Some?)
  }

  lemma {:induction false} GrantedKeepsOwned(b: Bus, events: seq<Event>)
    requires Initial(b) && Granted(events)
    ensures Owned(Run(b, events)) && Clean(b, events)
  {
    if events != [] {
      var n := |events| - 1;
      GrantedKeepsOwned(b, events[..n]);
      assert events[n].Start? && events[n].request.accepted ==> events[n].request.granted;
      StepKeepsOwned(Run(b, events[..n]), events[n]);
    }
  }

  lemma {:induction false} StepKeepsOwned(b: Bus, event: Event)
    requires Owned(b) && (event.Start? && event.request.accepted ==> event.request.granted)
    ensures Owned(Apply(b, event)) && !Steals(b, event)
  {
  }

  /**
   * When no accepted transfer is refused a timer: every request that got the lock is waiting or was
   * called exactly once; it is waiting exactly while the peripheral works for it; and the terminal
   * interrupt that ends its transfer runs its callback, then and there.
   */
  lemma {:induction false} EveryRequestCompletesOnce(b: Bus, events: seq<Event>, r: nat, how: Terminal)
    requires Initial(b) && Granted(events)
    ensures var s := Run(b, events);
            && (r in s.passed ==> CallsOf(s.calls, r) == if s.transfer == Some(r) then 0 else 1)
            && (r !in s.passed ==> CallsOf(s.calls, r) == 0)
            && (s.transfer == Some(r) ==>
                  var fine := how == Completed || (how == Aborted && !s.aborting);
                  DoEnd(s, how).calls == s.calls + [Call(r, if fine then Ok else ErrIo)])
  {
    var s := Run(b, events);
    GrantedKeepsOwned(b, events);
    ExactlyOnceIff(b, events);
    CallbackRunsAtMostOnce(b, events, r);
  }

  /**
   * Without that: a refused timer leaves its transfer running, whose end frees the lock under a probe,
   * and the next request is lost for good.
   */
  lemma {:induction false} RefusedTimerLosesRequest(b: Bus, later: seq<Event>)
    requires Initial(b)
    ensures var orphan := Apply(b, Start(Request(true, true, true, false)));
            var free := Apply(Apply(orphan, ProbeBegin(true)), End(Completed));
            var (started, status) := DoStart(free, Request(true, true, true, true));
            && status == Ok
            && Lost(Run(Apply(started, ProbeEnd), later), free.serial)
  {
    var orphan := Apply(b, Start(Request(true, true, true, false)));
    var free := Apply(Apply(orphan, ProbeBegin(true)), End(Completed));
    var started := DoStart(free, Request(true, true, true, true)).0;
    CallsOfSnoc([], Call(b.serial, ErrIo), free.serial);
    assert b.calls + [Call(b.serial, ErrIo)] == [] + [Call(b.serial, ErrIo)];
    assert free.calls == [] + [Call(b.serial, ErrIo)];
    LostForever(Apply(started, ProbeEnd), later, free.serial);
  }

  lemma {:induction false} LostForever(b: Bus, events: seq<Event>, r: nat)
    requires Lost(b, r)
    ensures Lost(Run(b, events), r)
  {
    if events != [] {
      LostForever(b, events[..|events| - 1], r);
      LostStaysLost(Run(b, events[..|events| - 1]), events[|events| - 1], r);
    }
  }

  // ---- What a callback is told ----

  /**
   * A start that gets the lock but no running transfer reports an I/O error, to its caller and once to
   * its callback; one that runs calls nobody yet.
   */
  lemma {:induction false} StartReports(b: Bus, q: Request)
    ensures var (a, status) := DoStart(b, q);
            && (status == ErrIo <==> FailsAtOnce(b, q))
            && (status == ErrIo ==> a.calls == b.calls + [Call(b.serial, ErrIo)])
            && (status != ErrIo ==> a.calls == b.calls)
            && (status == Ok <==> q.valid && q.hasCallback && !b.busy && q.accepted && b.transfer.None? && q.granted)
            && (status == Ok ==> a.busy && a.timer && a.cb == Some(b.serial) == a.transfer)
  {
  }

  /** The callback stored is that of the transfer running. */
  predicate Paired(b: Bus) {
    b.cb.Some? ==> b.busy && b.transfer == b.cb
  }

  lemma {:induction false} RunIsPaired(b: Bus, events: seq<Event>)
    requires Initial(b)
    ensures Paired(Run(b, events))
  {
    if events != [] {
      RunIsPaired(b, events[..|events| - 1]);
      StepKeepsPaired(Run(b, events[..|events| - 1]), events[|events| - 1]);
    }
  }

  lemma {:induction false} StepKeepsPaired(b: Bus, event: Event)
    requires Paired(b)
    ensures Paired(Apply(b, event))
  {
  }

  /** The end of a transfer that the driver takes for success: completed, or aborted without a timeout. */
  predicate Succeeds(b: Bus, event: Event) {
    event.End? && (event.how == Completed || (event.how == Aborted && !b.aborting))
  }

  /**
   * Over every run, whatever timers were refused and probes made: a callback is told of success by
   * the successful end of that very request's transfer and by nothing else, and every other callback
   * is told of an I/O error.
   */
  lemma {:induction false} OkMeansTransferred(b: Bus, events: seq<Event>, event: Event)
    requires Initial(b)
    ensures var s := Run(b, events); var a := Apply(s, event);
            a.calls != s.calls ==>
              var call := a.calls[|a.calls| - 1];
              && a.calls == s.calls + [call]
              && (call.status == Ok <==> Succeeds(s, event))
              && (call.status == Ok ==> s.transfer == Some(call.request))
              && (call.status != Ok ==> call.status == ErrIo)
  {
    RunIsPaired(b, events);
  }

  /** A request whose timeout fired is reported as failed when its abort completes. */
  lemma {:induction false} TimedOutAbortFails(b: Bus)
    requires b.busy && b.timer && b.cb.Some? && b.transfer == b.cb
    ensures Apply(Apply(b, Timeout), End(Aborted)).calls == b.calls + [Call(b.cb.value, ErrIo)]
  {
  }

  /** The timeout in microseconds, in 32 bits. */
  function TimeoutUs(ms: u32): (us: u32)
    ensures us != 0
    ensures us == ms * 1000 <==> 0 < ms < 4294968
    ensures ms == 0 ==> us == 1000
  {
    var us := ms * 1000 % 0x1_0000_0000;
    if us == 0 then 1000 else us
  }

  // ---- The driver's own code ----

  class Driver {
    var busy: bool
    var aborting: bool
    var cb: Option<nat>
    var timerId: int
    /** The callbacks made, in order. */
    var calls: seq<Call>

    /** The bus as a value, peripheral and history included. */
    ghost var bus: Bus

    ghost predicate Valid()
      reads this
    {
      && bus.busy == busy && bus.aborting == aborting && bus.cb == cb && bus.timer == (timerId >= 0)
      && bus.calls == calls
    }

    constructor ()
      ensures Valid() && Initial(bus)
    {
      busy, aborting, cb, timerId, calls := false, false, None, -1, [];
      bus := Bus(false, false, None, false, None, 0, 0, {}, []);
    }

    method TimerStop()
      requires Valid()
      modifies this`timerId, this`bus
      ensures Valid() && bus == old(bus).(timer := false)
    {
      if timerId >= 0 {
        timerId := -1;
      }
      bus := bus.(timer := false);
    }

    method FinishWith(status: Status)
      requires Valid()
      modifies this
      ensures Valid() && bus == Finish(old(bus), status)
    {
      if !busy {
        return;
      }
      TimerStop();
      aborting, busy := false, false;
      var callback := cb;
      cb := None;
      bus := bus.(aborting := false, busy := false, cb := None);
      if callback.Some? {
        calls := calls + [Call(callback.value, status)];
        bus := bus.(calls := calls);
      }
    }

    method BusRelease()
      requires Valid()
      modifies this
      ensures Valid() && bus == Release(old(bus))
    {
      TimerStop();
      aborting, busy, cb := false, false, None;
      bus := Release(bus);
    }

    method BusAcquire() returns (status: Status)
      requires Valid()
      modifies this
      ensures Valid() && status == if old(bus).busy then ErrBusy else Ok
      ensures bus == if old(bus).busy then old(bus) else Acquire(old(bus))
    {
      if busy {
        return ErrBusy;
      }
      busy, aborting, cb, timerId := true, false, None, -1;
      bus := Acquire(bus);
      status := Ok;
    }

    method AsyncFail(request: nat) returns (status: Status)
      requires Valid()
      modifies this
      ensures Valid() && status == ErrIo && bus == Fail(old(bus), request)
    {
      BusRelease();
      calls := calls + [Call(request, ErrIo)];
      bus := bus.(calls := calls);
      status := ErrIo;
    }

    /** `timer` is what the registration of the timeout would return: a timer id, or negative. */
    method AsyncStart(request: nat, halOk: bool, timer: int) returns (status: Status)
      requires Valid() && timer >= -1
      modifies this
      ensures Valid()
      ensures status == if halOk && timer >= 0 then Ok else ErrIo
      ensures bus == if status == Ok then old(bus).(timer := true) else Fail(old(bus), request)
    {
      if !halOk {
        status := AsyncFail(request);
        return;
      }
      timerId := timer;
      if timerId < 0 {
        bus := bus.(timer := false);
        status := AsyncFail(request);
        return;
      }
      bus := bus.(timer := true);
      status := Ok;
    }

    /**
     * Any of the four asynchronous transfers. `request` stands for the callback and its context;
     * `halOk` is the peripheral's answer, which is yes only when it is idle.
     */
    method StartTransfer(request: nat, valid: bool, hasCallback: bool, halOk: bool, timer: int) returns (status: Status)
      requires Valid() && request == bus.serial && timer >= -1
      requires halOk ==> bus.transfer.None?
      modifies this
      ensures Valid()
      ensures var r := DoStart(old(bus), Request(valid, hasCallback, halOk, timer >= 0)); bus == r.0 && status == r.1
    {
      bus := bus.(serial := request + 1);
      if !valid || !hasCallback {
        return ErrParam;
      }
      status := BusAcquire();
      if status != Ok {
        return;
      }
      cb := Some(request);
      bus := bus.(cb := cb, passed := bus.passed + {request}, transfer := if halOk then Some(request) else bus.transfer);
      status := AsyncStart(request, halOk, timer);
    }

    method TimeoutCallback()
      requires Valid() && timerId >= 0
      modifies this
      ensures Valid() && bus == DoTimeout(old(bus))
    {
      if !busy {
        return;
      }
      timerId, aborting := -1, true;
      bus := bus.(timer := false, aborting := true);
    }

    /** The peripheral's completion, error and abort callbacks. */
    method TransferEnded(how: Terminal)
      requires Valid() && bus.transfer.Some?
      modifies this
      ensures Valid() && bus == DoEnd(old(bus), how)
    {
      bus := bus.(transfer := None);
      match how
      case Completed => FinishWith(Ok);
      case Failed => FinishWith(ErrIo);
      case Aborted =>
        if !busy {
          return;
        }
        FinishWith(if aborting then ErrIo else Ok);
    }
  }
}
