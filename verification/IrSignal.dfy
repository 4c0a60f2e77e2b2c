/**
 * The signal on the air. A request's waves say when the carrier is on; what the board sends is that
 * signal, microsecond for microsecond, as long as each segment timer fires when it is due.
 */
module IrSignal {
  import opened Common
  import opened Nec
  import opened Board
  import opened BoardTimes
  import ST = SoftTimer
  import TC = TimerClients
  import I2c
  import Tx = IrTx
  import Rx = IrRx

  function Length(waves: seq<Wave>): nat {
    if waves == [] then 0
    else
      var last := waves[|waves| - 1];
      Length(waves[..|waves| - 1]) + last.mark + last.space
  }

  /** Whether the waves have the carrier on at microsecond `t`: each wave is its mark, then its space. */
  predicate WaveAt(waves: seq<Wave>, t: nat) {
    waves != []
    && var front, last := waves[..|waves| - 1], waves[|waves| - 1];
       if t < Length(front) then WaveAt(front, t) else t - Length(front) < last.mark
  }

  function Total(segments: seq<Segment>): nat {
    if segments == [] then 0 else Total(segments[..|segments| - 1]) + segments[|segments| - 1].duration
  }

  /** Whether the segments, one after the other, have the carrier on at microsecond `t`. */
  predicate LevelAt(segments: seq<Segment>, t: nat) {
    segments != []
    && var front, last := segments[..|segments| - 1], segments[|segments| - 1];
       if t < Total(front) then LevelAt(front, t) else last.carrier
  }

  lemma SegmentAppended(a: seq<Segment>, s: Segment, t: nat)
    ensures Total(a + [s]) == Total(a) + s.duration
    ensures LevelAt(a + [s], t) == if t < Total(a) then LevelAt(a, t) else s.carrier
  {
    assert (a + [s])[..|a|] == a;
  }

  lemma PieceAppended(a: seq<Segment>, w: Wave, t: nat)
    ensures Total(a + Piece(w)) == Total(a) + w.mark + w.space
    ensures t < Total(a + Piece(w)) ==>
              LevelAt(a + Piece(w), t) == if t < Total(a) then LevelAt(a, t) else t - Total(a) < w.mark
  {
    var marked := a + if w.mark != 0 then [Segment(w.mark, true)] else [];
    var spaced := marked + if w.space != 0 then [Segment(w.space, false)] else [];
    assert a + Piece(w) == spaced;
    if w.mark != 0 {
      SegmentAppended(a, Segment(w.mark, true), t);
    } else {
      assert marked == a;
    }
    if w.space != 0 {
      SegmentAppended(marked, Segment(w.space, false), t);
    } else {
      assert spaced == marked;
    }
  }

  /** Flattening keeps the signal. */
  lemma {:induction false} FlatKeepsSignal(waves: seq<Wave>, t: nat)
    ensures Total(Flat(waves)) == Length(waves)
    ensures t < Length(waves) ==> LevelAt(Flat(waves), t) == WaveAt(waves, t)
  {
    if waves != [] {
      var front, w := waves[..|waves| - 1], waves[|waves| - 1];
      FlatKeepsSignal(front, t);
      PieceAppended(Flat(front), w, t);
    }
  }

  lemma {:induction false} PrefixLevel(a: seq<Segment>, all: seq<Segment>, t: nat)
    requires a <= all && t < Total(a)
    ensures Total(a) <= Total(all) && LevelAt(all, t) == LevelAt(a, t)
    decreases |all|
  {
    if |a| == |all| {
      assert a == all;
    } else {
      PrefixLevel(a, all[..|all| - 1], t);
    }
  }

  // ---- On the board ----

  /** When the request being sent was accepted. */
  function Accepted(b: Board, events: seq<Event>): nat
    requires Sized(b)
  {
    if events == [] then 0
    else
      var before := events[..|events| - 1];
      if Run(b, events).tx.accepted != Run(b, before).tx.accepted then Run(b, before).t.w.now else Accepted(b, before)
  }

  /** The segment timer fires at the very microsecond it is due. */
  predicate Sharply(b: Board, event: Event)
    requires Sized(b)
  {
    event.Fires? && Actor(b, event) == Some(TX) ==> b.t.w.now == b.t.w.entries[event.slot].due
  }

  predicate SharpRun(b: Board, events: seq<Event>)
    requires Sized(b)
  {
    events == []
    || var n := |events| - 1; SharpRun(b, events[..n]) && Sharply(Run(b, events[..n]), events[n])
  }

  /** The segment on the air began when those before it were over. */
  predicate AddsUp(c: Tx.Channel, accepted: nat, began: nat) {
    c.transmitting ==> c.begun != [] && began == accepted + Total(c.begun[..|c.begun| - 1])
  }

  lemma StartAddsUp(b: Board, request: seq<Wave>, accepted: nat, began: nat)
    requires Ok(b) && AddsUp(b.tx, accepted, began)
    ensures var a := DoTxStart(b, request);
            AddsUp(a.tx, if a.tx.accepted != b.tx.accepted then b.t.w.now else accepted,
                   if Begins(b, a) then b.t.w.now else began)
  {
    TxStartKeeps(b, request);
    if Tx.DoStart(b.tx, request, true).1 {
      var c, a := Loaded(b.tx, request), DoTxStart(b, request);
      assert a.tx == Tx.PlayNext(c, true);
      Tx.FlatIsPositive(request);
      assert a.tx.begun == [] + [c.segments[0]];
      assert a.tx.begun[..0] == [];
    }
  }

  lemma FiringAddsUp(b: Board, slot: nat, room: bool, accepted: nat, began: nat)
    requires Ok(b) && AddsUp(b.tx, accepted, began) && EndsOnTime(b, began)
    requires Pending(b.t, slot, TX) && Sharply(b, Fires(slot, room))
    ensures var a := DoFires(b, slot, room);
            && a.tx.accepted == b.tx.accepted
            && AddsUp(a.tx, accepted, if Begins(b, a) then b.t.w.now else began)
  {
    FiredAndForgotten(b.t, slot, TX);
    TxFires(b, slot, room);
    var a, n := DoFires(b, slot, room), |b.tx.begun|;
    assert b.t.w.now == began + b.tx.begun[n - 1].duration;
    assert Total(b.tx.begun) == Total(b.tx.begun[..n - 1]) + b.tx.begun[n - 1].duration;
    if a.tx.transmitting {
      assert a.tx.begun[..n] == b.tx.begun;
    }
  }

  lemma EventAddsUp(b: Board, event: Event, accepted: nat, began: nat)
    requires Ok(b) && AddsUp(b.tx, accepted, began) && EndsOnTime(b, began) && Sharply(b, event)
    ensures var a := Apply(b, event);
            AddsUp(a.tx, if a.tx.accepted != b.tx.accepted then b.t.w.now else accepted,
                   if Begins(b, a) then b.t.w.now else began)
  {
    if event.TxStart? {
      StartAddsUp(b, event.request, accepted, began);
    } else if Actor(b, event) == Some(TX) {
      FiringAddsUp(b, event.slot, event.room, accepted, began);
    } else {
      OthersEndOnTime(b, event, began);
    }
  }

  lemma {:induction false} RunAddsUp(b: Board, events: seq<Event>)
    requires Starts(b) && SharpRun(b, events)
    ensures AddsUp(Run(b, events).tx, Accepted(b, events), Began(b, events))
  {
    if events != [] {
      var before := events[..|events| - 1];
      RunAddsUp(b, before);
      RunKeepsOk(b, before);
      SegmentsLastTheirDuration(b, before);
      EventAddsUp(Run(b, before), events[|events| - 1], Accepted(b, before), Began(b, before));
    }
  }

  lemma LevelIsCarrier(c: Tx.Channel, t: nat)
    requires Tx.Inv(c) && c.transmitting && c.begun != []
    requires Total(c.begun[..|c.begun| - 1]) <= t < Total(c.begun)
    ensures t < Length(c.waves) && c.carrier == WaveAt(c.waves, t)
  {
    var flat := Flat(c.waves);
    assert c.begun <= flat;
    PrefixLevel(c.begun, flat, t);
    FlatKeepsSignal(c.waves, t);
    assert LevelAt(c.begun, t) == c.begun[|c.begun| - 1].carrier;
  }

  /** Registering and cancelling take no time. */
  lemma TimersTakeNoTime(t: TC.State, c: nat, delay: u32)
    requires ST.Sized(t.w) && c < |t.ids|
    ensures TC.DoDisarm(t, c).w.now == TC.DoArm(t, c, delay).w.now == TC.DoRearm(t, c, delay).w.now == t.w.now
  {
    if t.ids[c] >= 0 {
      ST.UnregisterFrees(t.w, t.ids[c]);
    }
    ST.RegisterEntersIff(t.w, delay, Some(c));
    ST.RegisterEntersIff(TC.DoDisarm(t, c).w, delay, Some(c));
  }

  lemma FiringTakesNoTime(b: Board, slot: nat, room: bool)
    requires Sized(b)
    ensures DoFires(b, slot, room).t.w.now == b.t.w.now
  {
    if slot < ST.SLOTS && b.t.w.entries[slot].active {
      var w := ST.Fire(b.t.w, slot);
      var t := Forget(b.t.(w := w), TX);
      var next := if b.tx.index < |b.tx.segments| then b.tx.segments[b.tx.index].duration else 0;
      TimersTakeNoTime(t, TX, next);
      TimersTakeNoTime(Forget(b.t.(w := w), IMU), IMU, SAMPLE_US);
    }
  }

  lemma StartTakesNoTime(b: Board, request: seq<Wave>)
    requires Sized(b)
    ensures DoTxStart(b, request).t.w.now == b.t.w.now
  {
    var c := Loaded(b.tx, request);
    TimersTakeNoTime(b.t, TX, if c.segments != [] then c.segments[0].duration else 0);
  }

  lemma BusTakesNoTime(b: Board, event: Event)
    requires Sized(b) && (event.I2cStart? || event.I2cEnd? || event.ProbeBegin? || event.ProbeEnd?)
    ensures Apply(b, event).t.w.now == b.t.w.now
  {
    TimersTakeNoTime(b.t, I2C, 0);
    if event.I2cStart? {
      TimersTakeNoTime(b.t, I2C, I2c.TimeoutUs(event.timeoutMs));
      TimersTakeNoTime(Forget(b.t, I2C), I2C, I2c.TimeoutUs(event.timeoutMs));
    }
  }

  lemma ClockGoesOn(b: Board, event: Event)
    requires Sized(b)
    ensures b.t.w.now <= Apply(b, event).t.w.now
  {
    match event
    case Fires(slot, room) => FiringTakesNoTime(b, slot, room);
    case TxStart(request) => StartTakesNoTime(b, request);
    case RxEdge => TimersTakeNoTime(b.t, RX, Rx.IDLE_TIMEOUT);
    case PassBegins =>
    case PassEnds =>
    case Elapse(_) =>
    case _ =>
      if event.I2cStart? || event.I2cEnd? || event.ProbeBegin? || event.ProbeEnd? {
        BusTakesNoTime(b, event);
      } else {
        TimersTakeNoTime(b.t, IMU, SAMPLE_US);
      }
  }

  lemma {:induction false} BeganIsPast(b: Board, events: seq<Event>)
    requires Sized(b)
    ensures Began(b, events) <= Run(b, events).t.w.now
  {
    if events != [] {
      BeganIsPast(b, events[..|events| - 1]);
      ClockGoesOn(Run(b, events[..|events| - 1]), events[|events| - 1]);
    }
  }

  /** `t` microseconds into a request being sent, its segment timer not yet due, the carrier is as its waves say. */
  predicate OnSignal(b: Board, accepted: nat)
    requires Sized(b)
  {
    b.tx.transmitting ==>
      && 0 <= b.t.ids[TX] < ST.SLOTS
      && accepted <= b.t.w.now
      && (b.t.w.now < b.t.w.entries[b.t.ids[TX]].due ==>
            var t := b.t.w.now - accepted; t < Length(b.tx.waves) && b.tx.carrier == WaveAt(b.tx.waves, t))
  }

  lemma OnTheAir(b: Board, accepted: nat, began: nat)
    requires Sized(b) && Tx.Inv(b.tx) && EndsOnTime(b, began) && AddsUp(b.tx, accepted, began) && began <= b.t.w.now
    ensures OnSignal(b, accepted)
  {
    if b.tx.transmitting && b.t.w.now < b.t.w.entries[b.t.ids[TX]].due {
      var n := |b.tx.begun|;
      assert Total(b.tx.begun) == Total(b.tx.begun[..n - 1]) + b.tx.begun[n - 1].duration;
      LevelIsCarrier(b.tx, b.t.w.now - accepted);
    }
  }

  /**
   * Over every run of the board in which the segment timer fires when it is due: from the moment a
   * request is accepted until its last segment is over, the carrier is on exactly when the request's
   * waves say so, to the microsecond.
   */
  lemma {:induction false} SignalIsTheWaves(b: Board, events: seq<Event>)
    requires Starts(b) && SharpRun(b, events)
    ensures OnSignal(Run(b, events), Accepted(b, events))
  {
    RunAddsUp(b, events);
    SegmentsLastTheirDuration(b, events);
    RunKeepsOk(b, events);
    BeganIsPast(b, events);
    OnTheAir(Run(b, events), Accepted(b, events), Began(b, events));
  }
}
