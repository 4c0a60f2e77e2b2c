/** The infrared link end to end: a frame is encoded, played, heard by the receiver and decoded. */
module IrLink {
  import opened Common
  import opened Nec
  import Tx = IrTx
  import Rx = IrRx
  import SQ = SlotQueue

  /** A stretch of constant carrier level. */
  datatype Level = Level(time: nat, on: bool)

  /** What is heard of played segments: neighbours with the same carrier merge, and only level changes are edges. */
  function Levels(segments: seq<Segment>): seq<Level> {
    if segments == [] then []
    else
      var before, last := Levels(segments[..|segments| - 1]), segments[|segments| - 1];
      if before != [] && before[|before| - 1].on == last.carrier
      then before[..|before| - 1] + [Level(before[|before| - 1].time + last.duration, last.carrier)]
      else before + [Level(last.duration, last.carrier)]
  }

  /** Neighbours differ, and the first has the carrier on. */
  predicate Alternating(segments: seq<Segment>) {
    && (segments != [] ==> segments[0].carrier)
    && forall i :: 0 < i < |segments| ==> segments[i].carrier != segments[i - 1].carrier
  }

  /** Alternating segments are heard one for one. */
  lemma {:induction false} AlternatingLevels(segments: seq<Segment>)
    requires Alternating(segments)
    ensures |Levels(segments)| == |segments|
    ensures forall i :: 0 <= i < |segments| ==> Levels(segments)[i] == Level(segments[i].duration, segments[i].carrier)
  {
    if segments != [] {
      var n := |segments| - 1;
      AlternatingLevels(segments[..n]);
      assert n > 0 ==> segments[n].carrier != segments[n - 1].carrier;
    }
  }

  lemma AlternateAppend(a: seq<Segment>, b: seq<Segment>)
    requires Alternating(a) && Alternating(b) && (a != [] ==> !a[|a| - 1].carrier)
    ensures Alternating(a + b)
  {
    forall i | 0 < i < |a + b|
      ensures (a + b)[i].carrier != (a + b)[i - 1].carrier
    {
      if i > |a| {
        assert b[i - |a|].carrier != b[i - |a| - 1].carrier;
      }
    }
  }

  lemma LastBit(bits: seq<bool>)
    requires bits != []
    ensures Flat(BitWaves(bits)) == Flat(BitWaves(bits[..|bits| - 1])) + Piece(BitWave(bits[|bits| - 1]))
  {
    assert BitWaves(bits)[..|bits| - 1] == BitWaves(bits[..|bits| - 1]);
  }

  predicate EndsDark(segments: seq<Segment>) {
    Alternating(segments) && (segments != [] ==> !segments[|segments| - 1].carrier)
  }

  lemma BitEndsDark(bit: bool)
    ensures |Piece(BitWave(bit))| == 2 && EndsDark(Piece(BitWave(bit)))
  {
  }

  lemma {:induction false} BitsAlternate(bits: seq<bool>)
    ensures |Flat(BitWaves(bits))| == 2 * |bits| && EndsDark(Flat(BitWaves(bits)))
  {
    if bits != [] {
      var front, bit := bits[..|bits| - 1], bits[|bits| - 1];
      BitsAlternate(front);
      BitEndsDark(bit);
      LastBit(bits);
      AlternateAppend(Flat(BitWaves(front)), Piece(BitWave(bit)));
    }
  }

  /** A frame is 67 segments that start and end with the carrier on, so that each of its 68 boundaries is an edge. */
  lemma FrameAlternates(address: byte, command: byte)
    ensures var f := Flat(FrameWaves(address, command)); |f| == 67 && Alternating(f) && f[66].carrier
  {
    var bits := Bits(WordOf(address, command), 32);
    var head, data, tail := [Wave(LEADER_MARK, LEADER_SPACE)], BitWaves(bits), [Wave(BIT_MARK, 0)];
    FlatAppend(head + data, tail);
    FlatAppend(head, data);
    BitsAlternate(bits);
    FlatOne(head[0]);
    FlatOne(tail[0]);
    AlternateAppend(Piece(head[0]), Flat(data));
    AlternateAppend(Piece(head[0]) + Flat(data), Piece(tail[0]));
  }

  /** The gaps a receiver measures of a frame stay within tolerance, with the leader space clear of the repeat's. */
  predicate Hears(measured: seq<u16>, address: byte, command: byte) {
    |measured| == 67 && InBands(measured, Nominal(address, command), 67) && measured[1] > 3375
  }

  lemma NominalRange(address: byte, command: byte, i: nat)
    requires i < 67
    ensures 560 <= Nominal(address, command)[i] <= 9000
  {
    FlatFrame(address, command);
    var k := (i - 2) / 2;
    assert i < 2 || i == 66 || (0 <= k < 32 && (i == 2 + 2 * k || i == 3 + 2 * k));
  }

  lemma MatchRange(value: u16, target: u16)
    requires Matches(value, target) && 560 <= target <= 9000
    ensures 280 <= value <= 13500
  {
  }

  lemma HeardGapsAreShort(measured: seq<u16>, address: byte, command: byte, i: nat)
    requires Hears(measured, address, command) && i < 67
    ensures 1 <= measured[i] < Rx.IDLE_TIMEOUT
  {
    NominalRange(address, command, i);
    assert Matches(measured[i], Nominal(address, command)[i]);
    MatchRange(measured[i], Nominal(address, command)[i]);
  }

  /**
   * An idle transmitter whose timers are granted plays exactly the frame's segments, completes, and is
   * heard as 67 alternating levels.
   */
  lemma FrameIsPlayed(tx: Tx.Channel, address: byte, command: byte)
    requires Tx.Inv(tx) && !tx.transmitting
    ensures var waves := FrameWaves(address, command);
            var r := Tx.Fires(Tx.DoStart(tx, waves, true).0, 67);
            && Tx.Played(r, waves, tx.completed) && r.begun == Flat(waves)
            && |Levels(r.begun)| == 67 == |r.begun| && Alternating(r.begun) && r.begun[66].carrier
            && forall i :: 0 <= i < 67 ==> Levels(r.begun)[i] == Level(Nominal(address, command)[i], r.begun[i].carrier)
  {
    var waves := FrameWaves(address, command);
    FrameAlternates(address, command);
    Tx.FlatteningConservesTime(waves);
    Tx.PlaysThrough(tx, waves, 67);
    AlternatingLevels(Flat(waves));
  }

  /** A quiet receiver with room in its queue delivers the train of gaps as one burst. */
  lemma TrainIsDelivered(rx: Rx.State, gaps: seq<u16>)
    requires Rx.Inv(rx) && rx.air == Rx.Quiet(false) && !Rx.QueueFull(rx.ledger.queue)
    requires 1 <= |gaps| <= Rx.CAP && forall i :: 0 <= i < |gaps| ==> 1 <= gaps[i] < Rx.IDLE_TIMEOUT
    ensures var heard := Rx.Edges(Rx.Apply(rx, Rx.Edge), gaps);
            Rx.Apply(heard, Rx.Idle).ledger.released == rx.ledger.released + [gaps]
  {
    Rx.FirstEdge(rx);
    var first := Rx.Apply(rx, Rx.Edge);
    Rx.EdgesExtend(first, gaps);
    LedgerUntouched(first, gaps);
    assert [] + gaps == gaps;
    Rx.ShortIsBuffered(gaps);
    BurstIsQueued(Rx.Edges(first, gaps), gaps);
  }

  lemma BurstIsQueued(rx: Rx.State, gaps: seq<u16>)
    requires rx.d.pulses == gaps != [] && !Rx.QueueFull(rx.ledger.queue)
    ensures Rx.Apply(rx, Rx.Idle).ledger.released == rx.ledger.released + [gaps]
  {
  }

  lemma {:induction false} LedgerUntouched(rx: Rx.State, gaps: seq<u16>)
    ensures Rx.Edges(rx, gaps).ledger == rx.ledger
  {
    if gaps != [] {
      LedgerUntouched(rx, gaps[..|gaps| - 1]);
    }
  }

  /**
   * Across the link: what an idle transmitter plays for (address, command), heard within tolerance by
   * a quiet receiver with room in its queue, is queued as one burst, and that burst decodes to
   * (address, command).
   */
  lemma FrameCrossesLink(rx: Rx.State, address: byte, command: byte, measured: seq<u16>)
    requires Rx.Inv(rx) && rx.air == Rx.Quiet(false) && !Rx.QueueFull(rx.ledger.queue)
    requires Hears(measured, address, command)
    ensures var heard := Rx.Edges(Rx.Apply(rx, Rx.Edge), measured);
            Rx.Apply(heard, Rx.Idle).ledger.released == rx.ledger.released + [measured]
    ensures Decode(measured) == Some(FrameOf(address, command))
  {
    forall i: nat | i < 67
      ensures 1 <= measured[i] < Rx.IDLE_TIMEOUT
    {
      HeardGapsAreShort(measured, address, command, i);
    }
    TrainIsDelivered(rx, measured);
    DecodeInvertsEncodeIff(measured, address, command);
  }

  const ERR_EMPTY: int := -1
  const ERR_DECODE: int := -3

  /** The task's read: the oldest burst is taken whether or not it decodes. */
  method TryReadNec(bursts: SQ.SlotQueue<seq<u16>>) returns (rc: int, frame: Frame)
    requires bursts.Valid()
    modifies bursts`tail, bursts`count, bursts`contents
    ensures bursts.Valid()
    ensures rc == ERR_EMPTY <==> old(bursts.contents) == []
    ensures rc != ERR_EMPTY ==> bursts.contents == old(bursts.contents)[1..]
    ensures rc == ERR_EMPTY ==> bursts.contents == []
    ensures rc != ERR_EMPTY ==> rc == if Decode(old(bursts.contents)[0]).Some? then 0 else ERR_DECODE
    ensures rc == 0 ==> Decode(old(bursts.contents)[0]) == Some(frame)
  {
    frame := Frame(0, 0, 0, 0, false);
    var popped, burst := bursts.TryPop();
    if popped != SQ.OK {
      return ERR_EMPTY, frame;
    }
    var decoded: int;
    decoded, frame := DecodeFrame(burst.value);
    rc := if decoded != 0 then ERR_DECODE else 0;
  }
}
