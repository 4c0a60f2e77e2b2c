/** The UART driver: interrupt-driven transmission out of a byte ring, and reception into one. */
module Uart {
  import opened Common
  import opened RingBuf

  const TX_RING_SIZE: nat := 256
  const RX_RING_SIZE: nat := 256
  const TX_CHUNK: nat := 64
  const RX_CHUNK: nat := 64

  /** The transmitter behind the HAL: idle, or sending `count` staged bytes of which `sent` are out. */
  datatype Transmitter = Idle | Busy(count: nat, sent: nat)

  /** The transmit side of one port, with the bytes that have left on the wire. */
  datatype Tx = Tx(ring: seq<byte>, staging: seq<byte>, active: bool, hw: Transmitter, wire: seq<byte>)

  datatype Event = RxAvailable | TxEmpty

  /** What a kick leaves, and whether it reported the ring drained. */
  datatype Kicked = Kicked(tx: Tx, drained: bool)

  /** What a write leaves, how much it accepted, and whether it reported the ring drained. */
  datatype Written = Written(tx: Tx, pushed: nat, drained: bool)

  /** Stage the next chunk and hand it to the transmitter, or report the ring drained. */
  function KickTx(t: Tx): Kicked
    requires |t.staging| == TX_CHUNK
  {
    var n := Min(TX_CHUNK, |t.ring|);
    var loaded := t.(ring := t.ring[n..], staging := t.ring[..n] + t.staging[n..]);
    if n == 0 then Kicked(loaded.(active := false), true)
    else if t.hw.Idle? then Kicked(loaded.(hw := Busy(n, 0)), false)
    else Kicked(loaded.(active := false), false)
  }

  /** Queue what fits, then start the transmitter unless it is already draining the ring. */
  function WriteTx(t: Tx, buf: seq<byte>): Written
    requires |t.staging| == TX_CHUNK && |t.ring| < TX_RING_SIZE
  {
    var pushed := Min(|buf|, TX_RING_SIZE - 1 - |t.ring|);
    var queued := t.(ring := t.ring + buf[..pushed]);
    if pushed == 0 then Written(t, 0, false)
    else if t.active then Written(queued, pushed, false)
    else
      var k := KickTx(queued.(active := true));
      Written(k.tx, pushed, k.drained)
  }

  /** The transmit-complete interrupt: the HAL goes idle first, then the driver kicks. */
  function CompleteTx(t: Tx): Kicked
    requires |t.staging| == TX_CHUNK
  {
    KickTx(t.(hw := Idle))
  }

  /** The staged bytes that have not left yet. */
  function InFlight(t: Tx): seq<byte> {
    if t.hw.Busy? && t.hw.sent <= t.hw.count <= |t.staging| then t.staging[t.hw.sent..t.hw.count] else []
  }

  /** Everything the port has accepted, in order: on the wire, in flight, queued. */
  function Accepted(t: Tx): seq<byte> {
    t.wire + InFlight(t) + t.ring
  }

  /**
   * While the task side is outside a write: draining and transmitting are the same thing, and an idle
   * port holds nothing.
   */
  predicate Settled(t: Tx) {
    && |t.staging| == TX_CHUNK
    && |t.ring| < TX_RING_SIZE
    && (t.active <==> t.hw.Busy?)
    && (t.hw.Busy? ==> t.hw.sent <= t.hw.count <= TX_CHUNK)
    && (!t.active ==> t.ring == [])
  }

  /** A write takes as many bytes as leave at most 255 queued, and a kick at most 64 of those queued. */
  lemma SizesTaken(t: Tx, buf: seq<byte>)
    requires |t.staging| == TX_CHUNK && |t.ring| < TX_RING_SIZE
    ensures WriteTx(t, buf).pushed == Min(|buf|, 255 - |t.ring|)
    ensures t.hw.Idle? && t.ring != [] ==> KickTx(t).tx.hw == Busy(Min(64, |t.ring|), 0)
  {
  }

  /**
   * An undisturbed write accepts a prefix of its buffer, loses nothing already accepted, and never finds
   * the HAL busy.
   */
  lemma WriteConserves(t: Tx, buf: seq<byte>)
    requires Settled(t)
    ensures var w := WriteTx(t, buf);
            && Settled(w.tx) && !w.drained
            && w.pushed <= |buf| && Accepted(w.tx) == Accepted(t) + buf[..w.pushed]
            && (w.pushed < |buf| ==> w.tx.active)
  {
    var w := WriteTx(t, buf);
    var q := t.ring + buf[..w.pushed];
    if w.pushed > 0 && !t.active {
      KickMoves(t.(ring := q, active := true));
      assert t.wire + (InFlight(w.tx) + w.tx.ring) == (t.wire + InFlight(w.tx)) + w.tx.ring;
    }
  }

  /** A kick of an idle transmitter moves the front of the ring, whole and in order, into flight. */
  lemma KickMoves(t: Tx)
    requires |t.staging| == TX_CHUNK && t.hw.Idle?
    ensures var k := KickTx(t);
            && k.tx.wire == t.wire && InFlight(k.tx) + k.tx.ring == t.ring
            && (k.drained <==> t.ring == []) && (k.drained <==> k.tx.hw.Idle?)
  {
    var k := KickTx(t);
    var n := Min(TX_CHUNK, |t.ring|);
    if n > 0 {
      assert InFlight(k.tx) == k.tx.staging[0..n] == t.ring[..n];
    }
    assert t.ring[..n] + t.ring[n..] == t.ring;
  }

  /**
   * The interrupt moves bytes from the ring to the transmitter in order; it reports the ring drained
   * exactly when it was.
   */
  lemma CompleteConserves(t: Tx)
    requires Settled(t) && t.hw.Busy? && t.hw.sent == t.hw.count
    ensures var k := CompleteTx(t);
            && Settled(k.tx) && Accepted(k.tx) == Accepted(t)
            && (k.drained <==> t.ring == []) && (k.drained <==> !k.tx.active)
  {
    KickMoves(t.(hw := Idle));
    assert InFlight(t) == [];
    var k := CompleteTx(t);
    assert t.wire + (InFlight(k.tx) + k.tx.ring) == (t.wire + InFlight(k.tx)) + k.tx.ring;
  }

  class Port {
    var txRing: RingBuffer
    var rxRing: RingBuffer
    var txTmp: array<byte>
    var rxTmp: array<byte>
    var txActive: bool
    var hw: Transmitter
    var wire: seq<byte>
    var events: seq<Event>

    /** The transmit side as a value. */
    ghost var tx: Tx

    ghost predicate Valid()
      reads this, txRing, txRing.storage, rxRing, rxRing.storage, txTmp
    {
      && txRing.Valid() && txRing.capacity == TX_RING_SIZE
      && rxRing.Valid() && rxRing.capacity == RX_RING_SIZE
      && txRing != rxRing
      && txTmp.Length == TX_CHUNK && rxTmp.Length == RX_CHUNK
      && txRing.storage != rxRing.storage
      && txTmp != txRing.storage && txTmp != rxRing.storage && txTmp != rxTmp
      && rxTmp != txRing.storage && rxTmp != rxRing.storage
      && |txRing.contents| < TX_RING_SIZE
      && tx == Tx(txRing.contents, txTmp[..], txActive, hw, wire)
    }

    constructor ()
      ensures Valid() && fresh(txRing) && fresh(rxRing) && fresh(txRing.storage) && fresh(rxRing.storage)
      ensures fresh(txTmp) && fresh(rxTmp)
      ensures Settled(tx) && Accepted(tx) == [] && rxRing.contents == [] && events == []
    {
      var txStorage := new byte[TX_RING_SIZE];
      var rxStorage := new byte[RX_RING_SIZE];
      txRing := new RingBuffer(txStorage);
      rxRing := new RingBuffer(rxStorage);
      txTmp := new byte[TX_CHUNK];
      rxTmp := new byte[RX_CHUNK];
      txActive, hw, wire, events := false, Idle, [], [];
      new;
      tx := Tx([], txTmp[..], false, Idle, []);
    }

    /** The HAL accepts a chunk only while it is idle. */
    method TransmitIt(n: nat) returns (ok: bool)
      modifies this`hw
      ensures ok <==> old(hw).Idle?
      ensures hw == if ok then Busy(n, 0) else old(hw)
    {
      ok := hw.Idle?;
      if ok {
        hw := Busy(n, 0);
      }
    }

    /** Pops the next chunk into the staging buffer. */
    method StageChunk() returns (n: nat)
      requires Valid()
      modifies this`tx, txRing`tail, txRing`contents, txTmp
      ensures Valid() && |old(tx).staging| == TX_CHUNK && n == Min(TX_CHUNK, |old(tx).ring|)
      ensures tx == old(tx).(ring := old(tx).ring[n..], staging := old(tx).ring[..n] + old(tx).staging[n..])
    {
      n := txRing.Pop(txTmp, TX_CHUNK);
      tx := tx.(ring := txRing.contents, staging := txTmp[..]);
    }

    /** Hands the staged bytes to the HAL, or goes quiet. */
    method Launch(n: nat)
      requires Valid()
      modifies this`txActive, this`hw, this`events, this`tx
      ensures Valid()
      ensures tx == if n > 0 && old(tx).hw.Idle? then old(tx).(hw := Busy(n, 0)) else old(tx).(active := false)
      ensures events == old(events) + if n == 0 then [TxEmpty] else []
    {
      if n == 0 {
        txActive := false;
        events := events + [TxEmpty];
      } else {
        var ok := TransmitIt(n);
        if !ok {
          txActive := false;
        }
      }
      tx := tx.(active := txActive, hw := hw);
    }

    method TxKick()
      requires Valid()
      modifies this`txActive, this`hw, this`events, this`tx, txRing`tail, txRing`contents, txTmp
      ensures Valid() && |old(tx).staging| == TX_CHUNK && tx == KickTx(old(tx)).tx
      ensures events == old(events) + if KickTx(old(tx)).drained then [TxEmpty] else []
    {
      var n := StageChunk();
      Launch(n);
    }

    method Write(buf: seq<byte>) returns (pushed: nat)
      requires Valid()
      modifies this`txActive, this`hw, this`events, this`tx
      modifies txRing`head, txRing`tail, txRing`contents, txRing.storage, txTmp
      ensures Valid() && |old(tx).staging| == TX_CHUNK && |old(tx).ring| < TX_RING_SIZE
      ensures var w := WriteTx(old(tx), buf);
              && pushed == w.pushed && tx == w.tx
              && events == old(events) + if w.drained then [TxEmpty] else []
    {
      if |buf| == 0 {
        return 0;
      }
      pushed := txRing.Push(buf);
      if pushed == 0 {
        return;
      }
      tx := tx.(ring := txRing.contents);
      if !txActive {
        txActive, tx := true, tx.(active := true);
        TxKick();
      }
    }

    method TxCpltCallback()
      requires Valid()
      modifies this`txActive, this`hw, this`events, this`tx, txRing`tail, txRing`contents, txTmp
      ensures Valid() && |old(tx).staging| == TX_CHUNK && tx == CompleteTx(old(tx)).tx
      ensures events == old(events) + if CompleteTx(old(tx)).drained then [TxEmpty] else []
    {
      hw, tx := Idle, tx.(hw := Idle);
      TxKick();
    }

    /** The receive interrupt: queue what fits of the received chunk, report it if anything fitted. */
    method RxEventCallback(size: nat)
      requires Valid() && size <= RX_CHUNK
      modifies this`events, rxRing`head, rxRing`contents, rxRing.storage
      ensures Valid()
      ensures var n := Min(size, RX_RING_SIZE - 1 - |old(rxRing.contents)|);
              && rxRing.contents == old(rxRing.contents) + rxTmp[..n]
              && events == old(events) + if n > 0 then [RxAvailable] else []
    {
      if size == 0 {
        return;
      }
      var pushed := rxRing.Push(rxTmp[..size]);
      assert rxTmp[..size][..pushed] == rxTmp[..pushed];
      if pushed > 0 {
        events := events + [RxAvailable];
      }
    }

    method Read(out: array<byte>, maxLen: nat) returns (n: nat)
      requires Valid() && maxLen <= out.Length && out != rxRing.storage && out != txRing.storage && out != txTmp
      modifies rxRing`tail, rxRing`contents, out
      ensures Valid() && n == Min(maxLen, |old(rxRing.contents)|)
      ensures out[..n] == old(rxRing.contents)[..n] && rxRing.contents == old(rxRing.contents)[n..]
    {
      if maxLen == 0 {
        return 0;
      }
      n := rxRing.Pop(out, maxLen);
      assert out[..n] == out[..][..n];
    }
  }
}
