/** The infrared transmitter: waves flattened to segments, played one at a time by a software timer. */
module IrTx {
  import opened Common
  import opened Nec

  /**
   * One channel. `timer` says a segment timer is pending. `waves`, `begun`, `refused`, `accepted`
   * and `completed` are history: the last accepted request, the segments begun for it, whether a
   * timer was refused to it, and how many requests were accepted and completed in all.
   */
  datatype Channel = Channel(
    segments: seq<Segment>, index: nat, transmitting: bool, timer: bool, carrier: bool,
    waves: seq<Wave>, begun: seq<Segment>, refused: bool, accepted: nat, completed: nat)

  /** `granted` says whether the soft-timer table had a free slot at that moment. */
  datatype Event = Start(request: seq<Wave>, granted: bool) | TimerFires(granted: bool)

  /** What fits the segment buffer. */
  function Fitted(waves: seq<Wave>): seq<Segment> {
    Flat(waves)[..Min(|Flat(waves)|, MAX_SEGMENTS)]
  }

  function Finish(c: Channel): Channel {
    c.(timer := false, carrier := false, transmitting := false, completed := c.completed + 1)
  }

  /** A soft timer is granted for a positive delay when a slot is free. */
  predicate Registers(duration: u16, granted: bool) {
    duration != 0 && granted
  }

  function PlayNext(c: Channel, granted: bool): Channel {
    if c.index >= |c.segments| then Finish(c)
    else
      var seg := c.segments[c.index];
      var on := c.(carrier := seg.carrier, index := c.index + 1, begun := c.begun + [seg]);
      if Registers(seg.duration, granted) then on.(timer := true) else Finish(on.(refused := true))
  }

  /** Whether a request is accepted, and the channel after it. */
  function DoStart(c: Channel, request: seq<Wave>, granted: bool): (Channel, bool) {
    if request == [] || c.transmitting then (c, false)
    else
      var loaded := c.(segments := Fitted(request));
      if loaded.segments == [] then (loaded, false)
      else
        (PlayNext(loaded.(index := 0, transmitting := true, waves := request, begun := [], refused := false,
                          accepted := c.accepted + 1), granted), true)
  }

  /** The segment timer's callback; the timer module has already dropped the entry. */
  function DoTimer(c: Channel, granted: bool): Channel {
    if !c.timer || !c.transmitting then c else PlayNext(c.(timer := false), granted)
  }

  function Apply(c: Channel, event: Event): Channel {
    match event
    case Start(request, granted) => DoStart(c, request, granted).0
    case TimerFires(granted) => DoTimer(c, granted)
  }

  function Run(c: Channel, events: seq<Event>): Channel {
    if events == [] then c else Apply(Run(c, events[..|events| - 1]), events[|events| - 1])
  }

  predicate Initial(c: Channel) {
    && !c.transmitting && !c.timer && !c.carrier && c.segments == [] && c.begun == [] && c.waves == []
    && c.index == 0 && !c.refused && c.accepted == 0 && c.completed == 0
  }

  /**
   * Between events: a run in progress has a segment on the air and its timer pending; otherwise the
   * channel is dark.
   */
  predicate Inv(c: Channel) {
    && (forall i :: 0 <= i < |c.segments| ==> c.segments[i].duration != 0)
    && c.begun <= Fitted(c.waves)
    && (c.transmitting ==>
          && c.segments == Fitted(c.waves) && c.timer && !c.refused
          && 0 < c.index <= |c.segments| && c.begun == c.segments[..c.index]
          && c.carrier == c.segments[c.index - 1].carrier)
    && (!c.transmitting ==> !c.timer && !c.carrier && (c.refused || c.begun == Fitted(c.waves)))
    && c.accepted == c.completed + if c.transmitting then 1 else 0
  }

  lemma {:induction false} FlatIsPositive(waves: seq<Wave>)
    ensures forall i :: 0 <= i < |Flat(waves)| ==> Flat(waves)[i].duration != 0
  {
    if waves != [] {
      FlatIsPositive(waves[..|waves| - 1]);
    }
  }

  lemma PlayNextKeepsInv(c: Channel, granted: bool)
    requires forall i :: 0 <= i < |c.segments| ==> c.segments[i].duration != 0
    requires c.segments == Fitted(c.waves) && c.index <= |c.segments| && c.begun == c.segments[..c.index]
    requires c.transmitting && !c.timer && !c.refused && c.accepted == c.completed + 1
    ensures Inv(PlayNext(c, granted))
  {
    if c.index < |c.segments| {
      assert c.segments[..c.index] + [c.segments[c.index]] == c.segments[..c.index + 1];
    } else {
      assert c.begun == c.segments;
    }
  }

  lemma EventKeepsInv(c: Channel, event: Event)
    requires Inv(c)
    ensures Inv(Apply(c, event))
  {
    match event
    case Start(request, granted) =>
      FlatIsPositive(request);
      if request != [] && !c.transmitting && Fitted(request) != [] {
        PlayNextKeepsInv(c.(segments := Fitted(request), index := 0, transmitting := true, waves := request,
                            begun := [], refused := false, accepted := c.accepted + 1), granted);
      }
    case TimerFires(granted) =>
      if c.timer {
        PlayNextKeepsInv(c.(timer := false), granted);
      }
  }

  /**
   * Over every run: the segments begun for a request are, in order and one at a time, a prefix of its
   * flattened waves; a request is accepted only when none is running; every accepted request is
   * running or has completed, once; a channel that is not running is dark with no timer left; and a
   * run stops short of its segments only when a timer was refused.
   */
  lemma {:induction false} PlaybackIsOrderly(c: Channel, events: seq<Event>, request: seq<Wave>, granted: bool)
    requires Initial(c)
    ensures var r := Run(c, events);
            && r.begun <= Flat(r.waves)
            && (r.transmitting ==> !DoStart(r, request, granted).1 && Apply(r, Start(request, granted)) == r)
            && r.accepted == r.completed + (if r.transmitting then 1 else 0)
            && (!r.transmitting ==> !r.timer && !r.carrier)
            && (!r.transmitting && !r.refused ==> r.begun == Fitted(r.waves))
    ensures Inv(Run(c, events))
  {
    if events == [] {
      assert Fitted([]) == [];
    } else {
      PlaybackIsOrderly(c, events[..|events| - 1], request, granted);
      EventKeepsInv(Run(c, events[..|events| - 1]), events[|events| - 1]);
    }
    var r := Run(c, events);
    assert Fitted(r.waves) <= Flat(r.waves);
  }

  /** `n` firings of the segment timer, each granted the next one. */
  function Fires(c: Channel, n: nat): Channel {
    if n == 0 then c else DoTimer(Fires(c, n - 1), true)
  }

  /** Segment `n` of the request is on the air. */
  predicate Playing(c: Channel, request: seq<Wave>, n: nat, completed: nat) {
    && Inv(c) && c.transmitting && c.waves == request && c.index == n + 1 && c.completed == completed
  }

  /** The request is over, completed once more than `completed`, with everything played. */
  predicate Played(c: Channel, request: seq<Wave>, completed: nat) {
    && !c.transmitting && !c.timer && !c.carrier
    && c.begun == Fitted(request) && c.completed == completed + 1
  }

  lemma FiringAdvances(c: Channel, request: seq<Wave>, n: nat, completed: nat)
    requires Playing(c, request, n, completed)
    ensures n < |Fitted(request)|
    ensures if n + 1 < |Fitted(request)| then Playing(DoTimer(c, true), request, n + 1, completed)
            else Played(DoTimer(c, true), request, completed)
  {
    EventKeepsInv(c, TimerFires(true));
    if n + 1 == |Fitted(request)| {
      assert c.begun == Fitted(request);
    }
  }

  lemma StartPlays(c: Channel, request: seq<Wave>)
    requires Inv(c) && DoStart(c, request, true).1
    ensures Fitted(request) != [] && Playing(DoStart(c, request, true).0, request, 0, c.completed)
  {
    FlatIsPositive(request);
    EventKeepsInv(c, Start(request, true));
  }

  /**
   * An accepted request whose timers are granted plays every segment in turn and completes after the
   * last one's timer.
   */
  lemma {:induction false} PlaysThrough(c: Channel, request: seq<Wave>, n: nat)
    requires Inv(c) && DoStart(c, request, true).1 && n <= |Fitted(request)|
    ensures var r := Fires(DoStart(c, request, true).0, n);
            if n < |Fitted(request)| then Playing(r, request, n, c.completed) && r.begun == Fitted(request)[..n + 1]
            else Played(r, request, c.completed)
  {
    var started := DoStart(c, request, true).0;
    StartPlays(c, request);
    if n > 0 {
      PlaysThrough(c, request, n - 1);
      FiringAdvances(Fires(started, n - 1), request, n - 1, c.completed);
    }
  }

  // ---- Flattening conserves time ----

  /** The total time of the segments with the carrier on, or off. */
  function AirTime(segments: seq<Segment>, carrier: bool): nat {
    if segments == [] then 0
    else
      var last := segments[|segments| - 1];
      AirTime(segments[..|segments| - 1], carrier) + if last.carrier == carrier then last.duration else 0
  }

  function MarkTime(waves: seq<Wave>): nat {
    if waves == [] then 0 else MarkTime(waves[..|waves| - 1]) + waves[|waves| - 1].mark
  }

  function SpaceTime(waves: seq<Wave>): nat {
    if waves == [] then 0 else SpaceTime(waves[..|waves| - 1]) + waves[|waves| - 1].space
  }

  lemma AirTimeSnoc(a: seq<Segment>, s: Segment, carrier: bool)
    ensures AirTime(a + [s], carrier) == AirTime(a, carrier) + if s.carrier == carrier then s.duration else 0
  {
    assert (a + [s])[..|a|] == a;
  }

  lemma PieceAirTime(a: seq<Segment>, w: Wave, carrier: bool)
    ensures AirTime(a + Piece(w), carrier) == AirTime(a, carrier) + if carrier then w.mark else w.space
  {
    var marked := a + if w.mark != 0 then [Segment(w.mark, true)] else [];
    var spaced := marked + if w.space != 0 then [Segment(w.space, false)] else [];
    assert a + Piece(w) == spaced;
    if w.mark != 0 {
      AirTimeSnoc(a, Segment(w.mark, true), carrier);
    } else {
      assert marked == a;
    }
    if w.space != 0 {
      AirTimeSnoc(marked, Segment(w.space, false), carrier);
    } else {
      assert spaced == marked;
    }
  }

  /** Total mark time and total space time survive flattening; in the buffer they survive when everything fits. */
  lemma {:induction false} FlatteningConservesTime(waves: seq<Wave>)
    ensures AirTime(Flat(waves), true) == MarkTime(waves) && AirTime(Flat(waves), false) == SpaceTime(waves)
    ensures |Flat(waves)| <= MAX_SEGMENTS ==> Fitted(waves) == Flat(waves)
  {
    if waves != [] {
      var front, w := waves[..|waves| - 1], waves[|waves| - 1];
      FlatteningConservesTime(front);
      PieceAirTime(Flat(front), w, true);
      PieceAirTime(Flat(front), w, false);
    }
  }

  /** What is played of a request is its first eighty segments, all of them if there are no more. */
  lemma FirstEightyAreFitted(waves: seq<Wave>)
    ensures Fitted(waves) == if |Flat(waves)| <= 80 then Flat(waves) else Flat(waves)[..80]
  {
  }

  lemma {:induction false} FlatPrefix(waves: seq<Wave>, n: nat)
    requires n <= |waves|
    ensures Flat(waves[..n]) <= Flat(waves)
  {
    if n == |waves| {
      assert waves[..n] == waves;
    } else {
      FlatPrefix(waves[..|waves| - 1], n);
      assert waves[..|waves| - 1][..n] == waves[..n];
    }
  }

  // ---- The driver's own code ----

  class Driver {
    const segmentBuf: array<Segment>
    var segmentTotal: nat
    var segmentIndex: nat
    var isTransmitting: bool
    var segmentTimer: bool
    var carrierOn: bool

    /** The channel as a value, history included. */
    ghost var channel: Channel

    ghost predicate Valid()
      reads this, segmentBuf
    {
      && segmentBuf.Length == MAX_SEGMENTS && segmentTotal <= MAX_SEGMENTS
      && channel.segments == segmentBuf[..segmentTotal] && channel.index == segmentIndex
      && channel.transmitting == isTransmitting && channel.timer == segmentTimer && channel.carrier == carrierOn
    }

    constructor ()
      ensures Valid() && Initial(channel)
    {
      segmentBuf := new Segment[MAX_SEGMENTS](_ => Segment(0, false));
      segmentTotal, segmentIndex, isTransmitting, segmentTimer, carrierOn := 0, 0, false, false, false;
      channel := Channel([], 0, false, false, false, [], [], false, 0, 0);
    }

    method FlattenWaves(waves: seq<Wave>) returns (count: nat)
      requires segmentBuf.Length == MAX_SEGMENTS
      modifies segmentBuf
      ensures count <= MAX_SEGMENTS && segmentBuf[..count] == Fitted(waves)
    {
      count := 0;
      var idx := 0;
      while idx < |waves| && count < MAX_SEGMENTS
        invariant idx <= |waves| && count <= MAX_SEGMENTS
        invariant segmentBuf[..count] == Fitted(waves[..idx])
      {
        ghost var before := segmentBuf[..count];
        assert waves[..idx + 1][..idx] == waves[..idx];
        if waves[idx].mark != 0 {
          segmentBuf[count] := Segment(waves[idx].mark, true);
          count := count + 1;
          assert segmentBuf[..count] == before + [Segment(waves[idx].mark, true)];
        }
        ghost var marked := segmentBuf[..count];
        if waves[idx].space != 0 && count < MAX_SEGMENTS {
          segmentBuf[count] := Segment(waves[idx].space, false);
          count := count + 1;
          assert segmentBuf[..count] == marked + [Segment(waves[idx].space, false)];
        }
        idx := idx + 1;
      }
      FlatPrefix(waves, idx);
      assert waves[..|waves|] == waves;
    }

    method FinishRun()
      requires Valid()
      modifies this`segmentTimer, this`carrierOn, this`isTransmitting, this`channel
      ensures Valid() && channel == Finish(old(channel))
    {
      segmentTimer, carrierOn, isTransmitting := false, false, false;
      channel := Finish(channel);
    }

    method PlayNextSegment(granted: bool)
      requires Valid()
      modifies this`segmentIndex, this`segmentTimer, this`carrierOn, this`isTransmitting, this`channel
      ensures Valid() && channel == PlayNext(old(channel), granted)
    {
      if segmentIndex >= segmentTotal {
        FinishRun();
        return;
      }
      var seg := segmentBuf[segmentIndex];
      carrierOn := seg.carrier;
      segmentIndex := segmentIndex + 1;
      channel := channel.(carrier := seg.carrier, index := channel.index + 1, begun := channel.begun + [seg]);
      if !(seg.duration != 0 && granted) {
        channel := channel.(refused := true);
        FinishRun();
        return;
      }
      segmentTimer, channel := true, channel.(timer := true);
    }

    method SegmentTimerCallback(granted: bool)
      requires Valid() && segmentTimer
      modifies this`segmentIndex, this`segmentTimer, this`carrierOn, this`isTransmitting, this`channel
      ensures Valid() && channel == DoTimer(old(channel), granted)
    {
      if !isTransmitting {
        return;
      }
      segmentTimer, channel := false, channel.(timer := false);
      PlayNextSegment(granted);
    }

    method StartWaves(waves: seq<Wave>, granted: bool) returns (rc: int)
      requires Valid()
      modifies this, segmentBuf
      ensures Valid() && channel == DoStart(old(channel), waves, granted).0
      ensures rc == if DoStart(old(channel), waves, granted).1 then 0 else -1
    {
      if |waves| == 0 || isTransmitting {
        return -1;
      }
      segmentTotal := FlattenWaves(waves);
      channel := channel.(segments := Fitted(waves));
      if segmentTotal == 0 {
        return -1;
      }
      segmentIndex, isTransmitting := 0, true;
      channel := channel.(index := 0, transmitting := true, waves := waves, begun := [], refused := false,
                          accepted := channel.accepted + 1);
      PlayNextSegment(granted);
      rc := 0;
    }
  }
}
