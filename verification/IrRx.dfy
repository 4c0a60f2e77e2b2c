/**
 * The infrared receiver: gaps between edges are measured on the wrapping microsecond counter and
 * buffered; an idle timer closes a burst and hands it to a three-slot queue. `now` is an unbounded
 * clock of which the counter is the low 32 bits.
 */
module IrRx {
  import opened Common
  import RB = RingBuf
  import ST = SoftTimer
  import SQ = SlotQueue

  const CAP: nat := 128
  const IDLE_TIMEOUT: nat := 20000
  const DEPTH: nat := 3
  /** A driver that is neither read nor flushed drops 128 gaps, the gap that overflows, and the gap after. */
  function Residue(n: nat): (r: nat)
    ensures r < 130 && r <= n
  {
    if n == 0 then 0
    else
      var r := Residue(n - 1);
      if r == 129 then 0 else r + 1
  }

  /** The driver's fields; `timer` is the true time the pending idle timer is due. */
  datatype Driver = Driver(pulses: seq<u16>, last: u32, newFrame: bool, timer: Option<nat>)

  function Flush(d: Driver): Driver {
    d.(pulses := [], newFrame := true, timer := None)
  }

  /** A full buffer is flushed by the overflow handler; the new width is not stored. */
  function PushWidth(d: Driver, width: u16): Driver {
    if |d.pulses| >= CAP then Flush(d) else d.(pulses := d.pulses + [width])
  }

  function OnEdge(d: Driver, now: nat): Driver {
    var tick := ST.Wrap(now);
    var due := Some(now + IDLE_TIMEOUT);
    if d.newFrame then d.(newFrame := false, last := tick, timer := due)
    else
      var delta := ST.Wrap(tick - d.last);
      var d1 := d.(last := tick);
      (if 0 < delta <= 0xFFFF then PushWidth(d1, delta) else d1).(timer := due)
  }

  /** The idle timer has fired: the burst to queue, if any; without room it is flushed. */
  function OnIdle(d: Driver, room: bool): (Driver, Option<seq<u16>>) {
    var d1 := d.(timer := None);
    if d.pulses == [] then (d1, None)
    else if !room then (Flush(d1), None)
    else (d1.(pulses := [], newFrame := true), Some(d.pulses))
  }

  /**
   * What is on the air: quiet, possibly after a run of edges that left the driver expecting a
   * continuation, or inside a train with the gaps so far.
   */
  datatype Air = Quiet(stale: bool) | Train(gaps: seq<u16>)

  /** Where the task stands inside a pop: outside, past the publication of the tail, or with the count read. */
  datatype Popper = Resting | Freed | Loaded(seen: nat)

  datatype Cells = Cells(slots: seq<seq<u16>>, head: nat, tail: nat, count: nat, popper: Popper)

  /** The burst queue, with the task's decrement of the count as a load and a store. */
  type Queue = c: Cells | |c.slots| == DEPTH && c.head < DEPTH && c.tail < DEPTH && c.count <= DEPTH
    witness Cells([[], [], []], 0, 0, 0, Resting)

  predicate QueueFull(q: Queue) {
    q.count >= DEPTH
  }

  /** The interrupt fills the acquired slot and releases it; a full queue gives none. */
  function Push(q: Queue, burst: seq<u16>): Queue {
    if QueueFull(q) then q
    else q.(slots := q.slots[q.head := burst], head := RB.Next(q.head, DEPTH), count := q.count + 1)
  }

  function Pop(q: Queue): Queue {
    if q.count == 0 || q.popper != Resting then q else q.(tail := RB.Next(q.tail, DEPTH), popper := Freed)
  }

  function LoadCount(q: Queue): Queue {
    if q.popper == Freed then q.(popper := Loaded(q.count)) else q
  }

  function StoreCount(q: Queue): Queue {
    if q.popper.Loaded? && 0 < q.popper.seen <= DEPTH then q.(count := q.popper.seen - 1, popper := Resting) else q
  }

  /**
   * The queue and history: `trains` are the trains that ended, `full` whether the queue was full when
   * each did, `released` the bursts queued so far and `taken` those the task has taken.
   */
  datatype Ledger = Ledger(
    queue: Queue, trains: seq<seq<u16>>, full: seq<bool>, released: seq<seq<u16>>, taken: seq<seq<u16>>)

  /** `edgeAt` is the time of the last edge. */
  datatype State = State(d: Driver, now: nat, air: Air, edgeAt: nat, ledger: Ledger)

  datatype Event = Elapse(us: nat) | Edge | Idle | Take | Load | Store

  /** The gap an edge adds after a stale quiet: it is measured from the stale edge when that fits sixteen bits. */
  function StaleGap(elapsed: nat): seq<u16> {
    var delta := ST.Wrap(elapsed);
    if 0 < delta <= 0xFFFF then [delta] else []
  }

  function AfterEdge(s: State): Air {
    match s.air
    case Quiet(stale) => Train(if stale && s.now >= s.edgeAt then StaleGap(s.now - s.edgeAt) else [])
    case Train(gaps) =>
      if s.edgeAt <= s.now <= s.edgeAt + 0xFFFF then Train(gaps + [s.now - s.edgeAt]) else s.air
  }

  function Enqueue(l: Ledger, burst: Option<seq<u16>>): Ledger {
    if burst.None? then l
    else l.(queue := Push(l.queue, burst.value), released := l.released + [burst.value])
  }

  function DoIdle(s: State): State {
    var full := QueueFull(s.ledger.queue);
    var (d, burst) := OnIdle(s.d, !full);
    var ended := s.(d := d, ledger := Enqueue(s.ledger, burst));
    if s.air.Quiet? then ended
    else
      ended.(air := Quiet(Residue(|s.air.gaps|) == 0),
             ledger := ended.ledger.(trains := s.ledger.trains + [s.air.gaps], full := s.ledger.full + [full]))
  }

  function DoTake(l: Ledger): Ledger {
    if l.queue.count == 0 || l.queue.popper != Resting then l
    else l.(queue := Pop(l.queue), taken := l.taken + [l.queue.slots[l.queue.tail]])
  }

  function Apply(s: State, event: Event): State {
    match event
    case Elapse(us) => s.(now := s.now + us)
    case Edge => s.(d := OnEdge(s.d, s.now), air := AfterEdge(s), edgeAt := s.now)
    case Idle => DoIdle(s)
    case Take => s.(ledger := DoTake(s.ledger))
    case Load => s.(ledger := s.ledger.(queue := LoadCount(s.ledger.queue)))
    case Store => s.(ledger := s.ledger.(queue := StoreCount(s.ledger.queue)))
  }

  /**
   * What the air and the timers may do: inside a train gaps are at least 1 us and below the idle
   * timeout, an edge after the timeout waits for the timer to be served, and the timer is not early.
   */
  predicate Legal(s: State, event: Event) {
    match event
    case Edge => s.air.Train? ==> 1 <= s.now - s.edgeAt < 20000
    case Idle => s.d.timer.Some? && s.now >= s.d.timer.value
    case _ => true
  }

  function Run(s: State, events: seq<Event>): State {
    if events == [] then s else Apply(Run(s, events[..|events| - 1]), events[|events| - 1])
  }

  predicate LegalRun(s: State, events: seq<Event>) {
    forall n :: 0 <= n < |events| ==> Legal(Run(s, events[..n]), events[n])
  }

  /** A burst is released while the task is between the load and the store of the count. */
  predicate Collides(s: State, event: Event) {
    event == Idle && s.ledger.queue.popper.Loaded? && !QueueFull(s.ledger.queue) && s.d.pulses != []
  }

  predicate Undisturbed(s: State, events: seq<Event>) {
    forall n :: 0 <= n < |events| ==> !Collides(Run(s, events[..n]), events[n])
  }

  predicate Initial(s: State) {
    && s.d.pulses == [] && s.d.newFrame && s.d.timer.None? && s.edgeAt <= s.now
    && s.air == Quiet(false) && s.ledger == Ledger(s.ledger.queue, [], [], [], [])
    && s.ledger.queue.head == s.ledger.queue.tail && s.ledger.queue.count == 0 && s.ledger.queue.popper == Resting
  }

  /** The last `r` gaps, where 129 stands for the gap an overflow swallows. */
  function Tail(gaps: seq<u16>, r: nat): seq<u16>
    requires r <= |gaps|
  {
    if r == 129 then [] else gaps[|gaps| - r..]
  }

  /** What the driver holds after these gaps: all of them up to 128, and the tail since the last overflow beyond. */
  function Buffered(gaps: seq<u16>): seq<u16> {
    Tail(gaps, Residue(|gaps|))
  }

  /** The bursts of the trains that found room. */
  function Delivered(trains: seq<seq<u16>>, full: seq<bool>): seq<seq<u16>>
    requires |trains| == |full|
  {
    if trains == [] then []
    else
      var n := |trains| - 1;
      var burst := Buffered(trains[n]);
      Delivered(trains[..n], full[..n]) + if full[n] || burst == [] then [] else [burst]
  }

  /** What the driver's fields are, given what is on the air. */
  predicate Heard(d: Driver, air: Air, edgeAt: nat) {
    && (!d.newFrame ==> d.last == ST.Wrap(edgeAt))
    && match air
       case Quiet(stale) => d.pulses == [] && d.timer.None? && d.newFrame == !stale
       case Train(gaps) =>
         && d.pulses == Buffered(gaps) && d.newFrame == (Residue(|gaps|) == 129)
         && d.timer == Some(edgeAt + 20000)
  }

  /** Slots freed by the task but still counted. */
  function Lag(q: Queue): nat {
    if q.popper == Resting then 0 else 1
  }

  predicate Sound(q: Queue) {
    && Lag(q) <= q.count && q.head == SQ.At(q.tail, q.count - Lag(q), DEPTH)
    && (q.popper.Loaded? ==> q.popper.seen == q.count)
  }

  /** The bursts waiting in the queue. */
  function Queued(q: Queue): seq<seq<u16>>
    requires Sound(q)
  {
    SQ.Live(q.slots, q.tail, q.count - Lag(q))
  }

  predicate Balanced(l: Ledger) {
    && |l.trains| == |l.full|
    && l.released == Delivered(l.trains, l.full)
    && Sound(l.queue)
    && l.released == l.taken + Queued(l.queue)
  }

  predicate Inv(s: State) {
    s.edgeAt <= s.now && Heard(s.d, s.air, s.edgeAt) && Balanced(s.ledger)
  }

  /** The counter's difference is the true one, however often the counter wrapped in between the reset and the edges. */
  lemma TicksApart(now: nat, before: nat)
    ensures ST.Wrap(ST.Wrap(now) - ST.Wrap(before)) == ST.Wrap(now - before)
  {
    var tick: int, minus: int := ST.Wrap(now), -1 * before;
    ST.WrapInside(tick, before);
    ST.WrapInside(minus, now);
  }

  lemma SuffixSnoc(gaps: seq<u16>, gap: u16, from: nat)
    requires from <= |gaps|
    ensures (gaps + [gap])[from..] == gaps[from..] + [gap]
  {
  }

  lemma TailSnoc(gaps: seq<u16>, gap: u16, r: nat)
    requires r <= |gaps| && r < 130
    ensures Tail(gaps + [gap], if r == 129 then 0 else r + 1) == if r < CAP then Tail(gaps, r) + [gap] else []
  {
    if r < CAP {
      SuffixSnoc(gaps, gap, |gaps| - r);
    }
  }

  lemma BufferedSnoc(gaps: seq<u16>, gap: u16)
    ensures Buffered(gaps + [gap]) == if Residue(|gaps|) < CAP then Buffered(gaps) + [gap] else []
  {
    TailSnoc(gaps, gap, Residue(|gaps|));
    assert |gaps + [gap]| == |gaps| + 1;
  }

  lemma {:induction false} ShortResidue(n: nat)
    requires n < 130
    ensures Residue(n) == n
  {
    if n > 0 {
      ShortResidue(n - 1);
    }
  }

  lemma {:induction false} ResidueIsModulo(n: nat)
    ensures Residue(n) == n % 130
  {
    if n > 0 {
      ResidueIsModulo(n - 1);
    }
  }

  lemma BufferedLength(gaps: seq<u16>)
    ensures |Buffered(gaps)| == if Residue(|gaps|) == 129 then 0 else Residue(|gaps|)
  {
  }

  /** What an edge does to a driver that is measuring. */
  lemma EdgeMeasures(d: Driver, edgeAt: nat, now: nat)
    requires !d.newFrame && d.last == ST.Wrap(edgeAt) && edgeAt <= now
    ensures var delta, d' := ST.Wrap(now - edgeAt), OnEdge(d, now);
            && d'.last == ST.Wrap(now) && d'.timer == Some(now + IDLE_TIMEOUT)
            && (0 < delta <= 0xFFFF ==>
                  if |d.pulses| >= CAP then d'.pulses == [] && d'.newFrame
                  else d'.pulses == d.pulses + [delta] && !d'.newFrame)
            && (!(0 < delta <= 0xFFFF) ==> d'.pulses == d.pulses && !d'.newFrame)
  {
    TicksApart(now, edgeAt);
  }

  lemma StaleEdge(d: Driver, edgeAt: nat, now: nat)
    requires !d.newFrame && d.last == ST.Wrap(edgeAt) && edgeAt <= now && d.pulses == []
    ensures OnEdge(d, now) == Driver(StaleGap(now - edgeAt), ST.Wrap(now), false, Some(now + IDLE_TIMEOUT))
  {
    EdgeMeasures(d, edgeAt, now);
  }

  lemma TrainStarts(gaps: seq<u16>, now: nat)
    requires |gaps| <= 1
    ensures Heard(Driver(gaps, ST.Wrap(now), false, Some(now + IDLE_TIMEOUT)), Train(gaps), now)
  {
    ShortIsBuffered(gaps);
  }

  lemma {:induction false} HeardFirst(d: Driver, stale: bool, edgeAt: nat, now: nat)
    requires Heard(d, Quiet(stale), edgeAt) && edgeAt <= now
    ensures stale ==> Heard(OnEdge(d, now), Train(StaleGap(now - edgeAt)), now)
    ensures !stale ==> Heard(OnEdge(d, now), Train([]), now)
  {
    if stale {
      StaleEdge(d, edgeAt, now);
      TrainStarts(StaleGap(now - edgeAt), now);
    } else {
      TrainStarts([], now);
    }
  }

  lemma FirstAir(s: State)
    requires s.edgeAt <= s.now && s.air.Quiet?
    ensures s.air == Quiet(s.air.stale)
    ensures s.air.stale ==> AfterEdge(s) == Train(StaleGap(s.now - s.edgeAt))
    ensures !s.air.stale ==> AfterEdge(s) == Train([])
  {
  }

  lemma {:induction false} HeardAfterFirst(s: State, stale: bool, after: Air)
    requires s.edgeAt <= s.now && s.air == Quiet(stale) && Heard(s.d, Quiet(stale), s.edgeAt) && after == AfterEdge(s)
    ensures Heard(OnEdge(s.d, s.now), after, s.now)
  {
    FirstAir(s);
    HeardFirst(s.d, stale, s.edgeAt, s.now);
    if stale {
      assert after == Train(StaleGap(s.now - s.edgeAt));
    } else {
      assert after == Train([]);
    }
  }

  lemma {:induction false} FirstEdge(s: State)
    requires Inv(s) && s.air.Quiet?
    ensures Inv(Apply(s, Edge)) && Apply(s, Edge).edgeAt == s.now
    ensures Apply(s, Edge).air == Train(if s.air.stale then StaleGap(s.now - s.edgeAt) else [])
  {
    EdgeOnly(s);
    FirstAir(s);
    HeardAfterFirst(s, s.air.stale, AfterEdge(s));
  }

  /** An edge touches nothing but the driver and the air. */
  lemma EdgeOnly(s: State)
    ensures Apply(s, Edge) == State(OnEdge(s.d, s.now), s.now, AfterEdge(s), s.now, s.ledger)
    ensures Balanced(s.ledger) && Heard(OnEdge(s.d, s.now), AfterEdge(s), s.now) ==> Inv(Apply(s, Edge))
  {
  }

  lemma ShortIsBuffered(gaps: seq<u16>)
    requires |gaps| <= CAP
    ensures Buffered(gaps) == gaps && Residue(|gaps|) == |gaps|
  {
    ShortResidue(|gaps|);
    assert gaps[0..] == gaps;
  }

  lemma {:induction false} NextEdge(s: State)
    requires Inv(s) && s.air.Train? && Legal(s, Edge)
    ensures Inv(Apply(s, Edge)) && Apply(s, Edge).air == Train(s.air.gaps + [s.now - s.edgeAt])
  {
    EdgeOnly(s);
    HeardNext(s.d, s.air.gaps, s.edgeAt, s.now);
    assert Heard(OnEdge(s.d, s.now), AfterEdge(s), s.now);
  }

  lemma {:induction false} HeardNext(d: Driver, gaps: seq<u16>, edgeAt: nat, now: nat)
    requires Heard(d, Train(gaps), edgeAt) && 1 <= now - edgeAt < IDLE_TIMEOUT
    ensures Heard(OnEdge(d, now), Train(gaps + [now - edgeAt]), now)
  {
    BufferedSnoc(gaps, now - edgeAt);
    BufferedLength(gaps);
    if !d.newFrame {
      EdgeMeasures(d, edgeAt, now);
      SmallWrap(now - edgeAt);
    }
  }

  lemma SmallWrap(t: nat)
    requires t < 0x1_0000
    ensures ST.Wrap(t) == t
  {
  }

  lemma PushQueues(q: Queue, burst: seq<u16>)
    requires Sound(q) && !QueueFull(q) && !q.popper.Loaded?
    ensures Sound(Push(q, burst)) && Queued(Push(q, burst)) == Queued(q) + [burst]
  {
    SQ.LivePush(q.slots, q.tail, q.count - Lag(q), burst);
  }

  /** A train is entered with its burst when it left one and the queue has room. */
  lemma EntryBalances(l: Ledger, gaps: seq<u16>)
    requires Balanced(l) && (l.queue.popper.Loaded? ==> QueueFull(l.queue) || Buffered(gaps) == [])
    ensures var full := QueueFull(l.queue);
            var burst := if full || Buffered(gaps) == [] then None else Some(Buffered(gaps));
            Balanced(Enqueue(l, burst).(trains := l.trains + [gaps], full := l.full + [full]))
  {
    var full, n := QueueFull(l.queue), |l.trains|;
    assert (l.trains + [gaps])[..n] == l.trains && (l.full + [full])[..n] == l.full;
    if !full && Buffered(gaps) != [] {
      PushQueues(l.queue, Buffered(gaps));
      assert l.taken + Queued(l.queue) + [Buffered(gaps)] == l.taken + (Queued(l.queue) + [Buffered(gaps)]);
    }
  }

  lemma TrainEnds(s: State)
    requires Inv(s) && s.air.Train? && !Collides(s, Idle)
    ensures Inv(Apply(s, Idle)) && Apply(s, Idle).air == Quiet(Residue(|s.air.gaps|) == 0)
    ensures Apply(s, Idle).edgeAt == s.edgeAt && Apply(s, Idle).now == s.now
  {
    BufferedLength(s.air.gaps);
    EntryBalances(s.ledger, s.air.gaps);
  }

  lemma TakeBalances(l: Ledger)
    requires Balanced(l)
    ensures Balanced(DoTake(l))
  {
    var q := l.queue;
    if q.count > 0 && q.popper == Resting {
      SQ.LivePop(q.slots, q.tail, q.count);
      assert l.taken + ([q.slots[q.tail]] + Queued(Pop(q))) == l.taken + [q.slots[q.tail]] + Queued(Pop(q));
    }
  }

  lemma CountBalances(l: Ledger)
    requires Balanced(l)
    ensures Balanced(l.(queue := LoadCount(l.queue))) && Balanced(l.(queue := StoreCount(l.queue)))
  {
  }

  /** What the task does leaves the driver and the air alone. */
  lemma TaskKeepsInv(s: State, event: Event)
    requires Inv(s) && (event == Take || event == Load || event == Store)
    ensures Inv(Apply(s, event))
  {
    var a := Apply(s, event);
    TakeBalances(s.ledger);
    CountBalances(s.ledger);
    assert a == s.(ledger := a.ledger) && Balanced(a.ledger);
  }

  lemma {:induction false} StepKeepsInv(s: State, event: Event)
    requires Inv(s) && Legal(s, event) && !Collides(s, event)
    ensures Inv(Apply(s, event))
  {
    match event
    case Elapse(us) => Waits(s, us);
    case Edge =>
      if s.air.Quiet? {
        FirstEdge(s);
      } else {
        NextEdge(s);
      }
    case Idle => TrainEnds(s);
    case _ => TaskKeepsInv(s, event);
  }

  /**
   * Over every legal run in which no release falls between the load and the store of the queue's
   * count, across any number of counter wraps, the bursts queued are exactly those of the trains that
   * ended with room in the queue, in order, and the task takes a prefix of them.
   */
  lemma {:induction false} CaptureFollowsTrains(s: State, events: seq<Event>)
    requires Initial(s) && LegalRun(s, events) && Undisturbed(s, events)
    ensures var r := Run(s, events).ledger;
            |r.trains| == |r.full| && r.released == Delivered(r.trains, r.full) && r.taken <= r.released
    ensures Inv(Run(s, events))
  {
    if events != [] {
      var n := |events| - 1;
      LegalPrefix(s, events);
      CaptureFollowsTrains(s, events[..n]);
      assert Legal(Run(s, events[..n]), events[n]) && !Collides(Run(s, events[..n]), events[n]);
      StepKeepsInv(Run(s, events[..n]), events[n]);
    }
  }

  lemma LegalPrefix(s: State, events: seq<Event>)
    requires events != [] && LegalRun(s, events)
    ensures LegalRun(s, events[..|events| - 1])
    ensures Undisturbed(s, events) ==> Undisturbed(s, events[..|events| - 1])
    ensures Tame(s, events) ==> Tame(s, events[..|events| - 1])
  {
    var front := events[..|events| - 1];
    assert forall n :: 0 <= n < |front| ==> front[..n] == events[..n] && front[n] == events[n];
  }

  // ---- Trains of 2 to 129 edges ----

  /** A train that fits the buffer and has at least one gap. */
  predicate Ordinary(gaps: seq<u16>) {
    1 <= |gaps| <= 128
  }

  /** Every train that ends is ordinary. */
  predicate Tame(s: State, events: seq<Event>) {
    forall n :: 0 <= n < |events| && events[n] == Idle && Run(s, events[..n]).air.Train? ==>
      Ordinary(Run(s, events[..n]).air.gaps)
  }

  /** The trains whose end found room, whole. */
  function Kept(trains: seq<seq<u16>>, full: seq<bool>): seq<seq<u16>>
    requires |trains| == |full|
  {
    if trains == [] then []
    else
      var n := |trains| - 1;
      Kept(trains[..n], full[..n]) + if full[n] then [] else [trains[n]]
  }

  lemma {:induction false} OrdinaryIsWhole(trains: seq<seq<u16>>, full: seq<bool>)
    requires |trains| == |full| && forall i :: 0 <= i < |trains| ==> Ordinary(trains[i])
    ensures Delivered(trains, full) == Kept(trains, full)
  {
    if trains != [] {
      var n := |trains| - 1;
      OrdinaryIsWhole(trains[..n], full[..n]);
      ShortIsBuffered(trains[n]);
    }
  }

  /**
   * With trains of 2 to 129 edges, and no release between the load and the store of the queue's
   * count, each delivered burst is the full list of its train's gaps, trains are dropped only when the
   * queue is full as they end, and no train is ever taken for the continuation of an earlier edge.
   */
  lemma {:induction false} CaptureIsExact(s: State, events: seq<Event>)
    requires Initial(s) && LegalRun(s, events) && Undisturbed(s, events) && Tame(s, events)
    ensures var r := Run(s, events);
            && |r.ledger.trains| == |r.ledger.full| && r.ledger.released == Kept(r.ledger.trains, r.ledger.full)
            && (forall i :: 0 <= i < |r.ledger.trains| ==> Ordinary(r.ledger.trains[i]))
            && r.air != Quiet(true)
  {
    CaptureFollowsTrains(s, events);
    if events != [] {
      LegalPrefix(s, events);
      CaptureIsExact(s, events[..|events| - 1]);
      LastIsOrdinary(s, events);
    }
    OrdinaryIsWhole(Run(s, events).ledger.trains, Run(s, events).ledger.full);
  }

  lemma LastIsOrdinary(s: State, events: seq<Event>)
    requires events != [] && Tame(s, events)
    requires var p := Run(s, events[..|events| - 1]);
             (forall i :: 0 <= i < |p.ledger.trains| ==> Ordinary(p.ledger.trains[i])) && p.air != Quiet(true)
    ensures var r := Run(s, events);
            (forall i :: 0 <= i < |r.ledger.trains| ==> Ordinary(r.ledger.trains[i])) && r.air != Quiet(true)
  {
    var n := |events| - 1;
    var p := Run(s, events[..n]);
    if events[n] == Idle && p.air.Train? {
      assert Ordinary(p.air.gaps);
      ShortResidue(|p.air.gaps|);
    }
  }

  // ---- The history, told from the events ----

  /** The trains heard to their end. */
  function Ended(s: State, events: seq<Event>): seq<seq<u16>> {
    if events == [] then []
    else
      var n := |events| - 1;
      var p := Run(s, events[..n]);
      Ended(s, events[..n]) + if events[n] == Idle && p.air.Train? then [p.air.gaps] else []
  }

  /** Whether three bursts were counted in the queue as each ended. */
  function FoundFull(s: State, events: seq<Event>): seq<bool> {
    if events == [] then []
    else
      var n := |events| - 1;
      var p := Run(s, events[..n]);
      FoundFull(s, events[..n]) + if events[n] == Idle && p.air.Train? then [p.ledger.queue.count == 3] else []
  }

  lemma {:induction false} HistoryIsTold(s: State, events: seq<Event>)
    requires Initial(s)
    ensures Run(s, events).ledger.trains == Ended(s, events) && Run(s, events).ledger.full == FoundFull(s, events)
  {
    if events != [] {
      var n := |events| - 1;
      HistoryIsTold(s, events[..n]);
      EventTold(Run(s, events[..n]), events[n]);
    }
  }

  lemma EventTold(s: State, event: Event)
    ensures var l, ended := Apply(s, event).ledger, event == Idle && s.air.Train?;
            && l.trains == s.ledger.trains + (if ended then [s.air.gaps] else [])
            && l.full == s.ledger.full + if ended then [s.ledger.queue.count == 3] else []
  {
    assert s.ledger.trains + [] == s.ledger.trains && s.ledger.full + [] == s.ledger.full;
  }

  /**
   * Over every such run: the bursts queued are the trains that ended, in order and whole, but for
   * those that found three bursts counted in the queue; and the count is of the bursts waiting, plus
   * one while the task is between freeing a slot and counting it off.
   */
  lemma {:induction false} OnlyAFullQueueDrops(s: State, events: seq<Event>)
    requires Initial(s) && LegalRun(s, events) && Undisturbed(s, events) && Tame(s, events)
    ensures var r := Run(s, events).ledger;
            && |Ended(s, events)| == |FoundFull(s, events)|
            && r.released == Kept(Ended(s, events), FoundFull(s, events))
            && Sound(r.queue) && r.released == r.taken + Queued(r.queue)
            && r.queue.count == |Queued(r.queue)| + if r.queue.popper == Resting then 0 else 1
  {
    CaptureFollowsTrains(s, events);
    CaptureIsExact(s, events);
    HistoryIsTold(s, events);
  }

  /** The steps of one take in a row hand the oldest burst to the task, if there is one, and count it off. */
  lemma UndisturbedTake(s: State)
    requires Balanced(s.ledger) && s.ledger.queue.popper == Resting
    ensures var r := Apply(Apply(Apply(s, Take), Load), Store).ledger;
            && Balanced(r) && r.released == s.ledger.released
            && (Queued(s.ledger.queue) == [] ==> r == s.ledger)
            && (Queued(s.ledger.queue) != [] ==>
                  && r.taken == s.ledger.taken + [Queued(s.ledger.queue)[0]]
                  && Queued(s.ledger.queue) == [Queued(s.ledger.queue)[0]] + Queued(r.queue)
                  && r.queue.count == s.ledger.queue.count - 1)
  {
    TakeBalances(s.ledger);
    var q := s.ledger.queue;
    if q.count > 0 {
      SQ.LivePop(q.slots, q.tail, q.count);
    }
  }

  // ---- A lone stray edge ----

  /** The edge and the end of a train of one edge. */
  function Stray(s: State, quiet: nat): State {
    Apply(Apply(Apply(s, Edge), Elapse(IDLE_TIMEOUT)), Idle).(now := s.now + IDLE_TIMEOUT + quiet)
  }

  /** Edges at the given gaps. */
  function Edges(s: State, gaps: seq<u16>): State {
    if gaps == [] then s
    else Apply(Apply(Edges(s, gaps[..|gaps| - 1]), Elapse(gaps[|gaps| - 1])), Edge)
  }

  lemma {:induction false} EdgesExtend(s: State, gaps: seq<u16>)
    requires Inv(s) && s.air.Train? && s.now == s.edgeAt
    requires forall i :: 0 <= i < |gaps| ==> 1 <= gaps[i] < IDLE_TIMEOUT
    ensures var r := Edges(s, gaps);
            Inv(r) && r.now == r.edgeAt && r.air == Train(s.air.gaps + gaps)
  {
    if gaps == [] {
      assert s.air.gaps + [] == s.air.gaps;
    } else {
      var n := |gaps| - 1;
      EdgesExtend(s, gaps[..n]);
      EdgeAfter(Edges(s, gaps[..n]), gaps[n]);
      LastGap(s.air.gaps, gaps);
    }
  }

  lemma LastGap(before: seq<u16>, gaps: seq<u16>)
    requires gaps != []
    ensures before + gaps == before + gaps[..|gaps| - 1] + [gaps[|gaps| - 1]]
  {
  }

  lemma {:induction false} EdgeAfter(s: State, gap: u16)
    requires Inv(s) && s.air.Train? && s.now == s.edgeAt && 1 <= gap < IDLE_TIMEOUT
    ensures var r := Apply(Apply(s, Elapse(gap)), Edge);
            Inv(r) && r.now == r.edgeAt && r.air == Train(s.air.gaps + [gap])
  {
    Waits(s, gap);
    EdgeNow(s.(now := s.now + gap), gap);
  }

  lemma EdgeNow(s: State, gap: u16)
    requires Inv(s) && s.air.Train? && s.now == s.edgeAt + gap && 1 <= gap < IDLE_TIMEOUT
    ensures var r := Apply(s, Edge); Inv(r) && r.now == r.edgeAt && r.air == Train(s.air.gaps + [gap])
  {
    NextEdge(s);
    EdgeOnly(s);
  }

  lemma Waits(s: State, us: nat)
    requires Inv(s)
    ensures Inv(Apply(s, Elapse(us))) && Apply(s, Elapse(us)) == s.(now := s.now + us)
  {
    var t := Apply(s, Elapse(us));
    assert t.d == s.d && t.air == s.air && t.edgeAt == s.edgeAt && t.ledger == s.ledger;
    assert Heard(t.d, t.air, t.edgeAt) && Balanced(t.ledger);
  }

  lemma LoneEdgeGoesStale(s: State)
    requires Inv(s) && s.air == Train([])
    ensures Inv(Apply(s, Idle)) && Apply(s, Idle).air == Quiet(true) && Apply(s, Idle).edgeAt == s.edgeAt
  {
    TrainEnds(s);
  }

  /** A lone edge followed by quiet leaves the driver stale. */
  lemma StrayLeavesStale(s: State, quiet: nat)
    requires Inv(s) && s.air == Quiet(false)
    ensures var r := Stray(s, quiet);
            Inv(r) && r.air == Quiet(true) && r.now == r.edgeAt + IDLE_TIMEOUT + quiet
  {
    FirstEdge(s);
    LoneEdgeGoesStale(Apply(Apply(s, Edge), Elapse(IDLE_TIMEOUT)));
  }

  lemma PrefixedIsSameIff(prefix: seq<u16>, gaps: seq<u16>)
    requires |prefix| <= 1 && |gaps| <= CAP
    ensures Buffered(prefix + gaps) == gaps <==> prefix == []
  {
    ShortResidue(|prefix + gaps|);
    if prefix == [] {
      ShortIsBuffered(gaps);
      assert prefix + gaps == gaps;
    } else {
      BufferedLength(prefix + gaps);
      assert |prefix + gaps| == |gaps| + 1;
    }
  }

  lemma {:induction false} TrainAfterStale(s: State, gaps: seq<u16>)
    requires Inv(s) && s.air == Quiet(true) && forall i :: 0 <= i < |gaps| ==> 1 <= gaps[i] < IDLE_TIMEOUT
    ensures Edges(Apply(s, Edge), gaps).d.pulses == Buffered(StaleGap(s.now - s.edgeAt) + gaps)
  {
    FirstEdge(s);
    EdgesExtend(Apply(s, Edge), gaps);
  }

  /**
   * After a lone edge the driver keeps waiting for its successor, so the train that follows is
   * captured as its own gaps if and only if the counter's distance from the stray edge to its first
   * edge is zero or does not fit sixteen bits.
   */
  lemma {:induction false} StrayIsHarmlessIff(s: State, gaps: seq<u16>)
    requires Inv(s) && s.air == Quiet(true)
    requires |gaps| <= CAP && forall i :: 0 <= i < |gaps| ==> 1 <= gaps[i] < IDLE_TIMEOUT
    ensures var apart := ST.Wrap(s.now - s.edgeAt);
            Edges(Apply(s, Edge), gaps).d.pulses == gaps <==> apart == 0 || apart > 0xFFFF
  {
    TrainAfterStale(s, gaps);
    PrefixedIsSameIff(StaleGap(s.now - s.edgeAt), gaps);
  }

  // ---- The driver's own code ----

  class Receiver {
    const pulseBuf: array<u16>
    var pulseCount: nat
    var lastEdgeTick: u32
    var isNewFrame: bool
    var idleTimer: Option<nat>
    const bursts: SQ.SlotQueue<seq<u16>>

    ghost predicate Valid()
      reads this, pulseBuf, bursts, bursts.slots
    {
      pulseBuf.Length == CAP && pulseCount <= CAP && bursts.Valid() && bursts.slots.Length == DEPTH
    }

    /** The driver as a value. */
    ghost function Fields(): Driver
      reads this, pulseBuf
      requires pulseBuf.Length == CAP && pulseCount <= CAP
    {
      Driver(pulseBuf[..pulseCount], lastEdgeTick, isNewFrame, idleTimer)
    }

    constructor (tick: u32)
      ensures Valid() && Fields() == Driver([], tick, true, None) && bursts.contents == []
    {
      pulseBuf := new u16[CAP](_ => 0);
      pulseCount, lastEdgeTick, isNewFrame, idleTimer := 0, tick, true, None;
      var slots := new seq<u16>[DEPTH](_ => []);
      bursts := new SQ.SlotQueue(slots);
    }

    method FlushBuffer()
      requires Valid()
      modifies this`pulseCount, this`isNewFrame, this`idleTimer
      ensures Valid() && Fields() == Flush(old(Fields()))
    {
      pulseCount, isNewFrame, idleTimer := 0, true, None;
      assert pulseBuf[..0] == [];
    }

    method PushPulseWidth(width: u16)
      requires Valid()
      modifies this`pulseCount, this`isNewFrame, this`idleTimer, pulseBuf
      ensures Valid() && Fields() == PushWidth(old(Fields()), width)
    {
      if pulseCount >= CAP {
        idleTimer := None;
        FlushBuffer();
        return;
      }
      ghost var before := pulseBuf[..pulseCount];
      pulseBuf[pulseCount] := width;
      pulseCount := pulseCount + 1;
      assert pulseBuf[..pulseCount] == before + [width];
    }

    method OnGpioEdge(now: nat)
      requires Valid()
      modifies this`pulseCount, this`isNewFrame, this`idleTimer, this`lastEdgeTick, pulseBuf
      ensures Valid() && Fields() == OnEdge(old(Fields()), now)
    {
      var tick := ST.Wrap(now);
      if isNewFrame {
        isNewFrame, lastEdgeTick, idleTimer := false, tick, Some(now + IDLE_TIMEOUT);
        return;
      }
      var delta := ST.Wrap(tick - lastEdgeTick);
      lastEdgeTick := tick;
      if 0 < delta <= 0xFFFF {
        PushPulseWidth(delta);
      }
      idleTimer := Some(now + IDLE_TIMEOUT);
    }

    /** At most `maxCount` widths are handed out; whatever is left over is dropped with them. */
    method ReadBufferedPulses(maxCount: nat) returns (out: seq<u16>)
      requires Valid()
      modifies this`pulseCount, this`isNewFrame
      ensures Valid() && out == old(Fields()).pulses[..Min(|old(Fields()).pulses|, maxCount)]
      ensures Fields() == if out == [] then old(Fields()) else old(Fields()).(pulses := [], newFrame := true)
    {
      var readCount := if pulseCount < maxCount then pulseCount else maxCount;
      out := pulseBuf[..readCount];
      if readCount == 0 {
        return;
      }
      pulseCount, isNewFrame := 0, true;
      assert pulseBuf[..0] == [];
    }

    /** The burst goes into an acquired slot in place; without a slot it is flushed, and an empty one is not released. */
    method PushBurst() returns (ok: bool)
      requires Valid()
      modifies this`pulseCount, this`isNewFrame, this`idleTimer
      modifies bursts`head, bursts`count, bursts`contents, bursts.slots
      ensures Valid() && ok == (|old(bursts.contents)| < DEPTH && old(Fields()).pulses != [])
      ensures bursts.contents == if ok then old(bursts.contents) + [old(Fields()).pulses] else old(bursts.contents)
      ensures Fields() == if |old(bursts.contents)| >= DEPTH then Flush(old(Fields()))
                          else if ok then old(Fields()).(pulses := [], newFrame := true) else old(Fields())
    {
      var slot := bursts.Acquire();
      if slot.None? {
        FlushBuffer();
        return false;
      }
      var pulses := ReadBufferedPulses(CAP);
      assert pulses == old(Fields()).pulses;
      if |pulses| == 0 {
        return false;
      }
      bursts.Fill(slot.value, pulses);
      bursts.Release();
      ok := true;
    }

    method IdleTimerFired()
      requires Valid()
      modifies this`pulseCount, this`isNewFrame, this`idleTimer
      modifies bursts`head, bursts`count, bursts`contents, bursts.slots
      ensures Valid()
      ensures var r := OnIdle(old(Fields()), |old(bursts.contents)| < DEPTH);
              && Fields() == r.0
              && bursts.contents == old(bursts.contents) + if r.1.Some? then [r.1.value] else []
    {
      idleTimer := None;
      if pulseCount == 0 {
        return;
      }
      isNewFrame := true;
      assert Fields().pulses == old(Fields()).pulses;
      var _ := PushBurst();
    }
  }
}
