/** The log task's own code: writing a line, retrying a remainder, and servicing one wake-up. */
module LogTask {
  import opened Common
  import opened Uart
  import opened Console

  /** What a write of `data` keeps for later when `pushed` bytes were taken. */
  function Kept(data: seq<byte>, pushed: nat): seq<byte>
    requires pushed <= |data|
  {
    data[pushed..][..Min(|data| - pushed, PENDING_SIZE)]
  }

  /**
   * A line loses nothing exactly when what the ring did not take fits the pending buffer; otherwise it
   * loses its end.
   */
  lemma KeptIsWholeIff(data: seq<byte>, pushed: nat)
    requires pushed <= |data|
    ensures data[..pushed] + Kept(data, pushed) == data <==> |data| - pushed <= 130
    ensures data[..pushed] + Kept(data, pushed) <= data && |Kept(data, pushed)| == Min(|data| - pushed, 130)
  {
    assert |data[..pushed] + Kept(data, pushed)| == pushed + Min(|data| - pushed, PENDING_SIZE);
  }

  /** The port took over the front of `data` and the task kept the rest, behind a running transmitter. */
  predicate Carried(before: Tx, after: Tx, data: seq<byte>, kept: seq<byte>) {
    && Settled(after)
    && Accepted(after) + kept == Accepted(before) + data
    && (kept != [] ==> after.active)
  }

  lemma CarriedBy(t: Tx, data: seq<byte>)
    requires Settled(t)
    ensures var w := WriteTx(t, data);
            w.pushed <= |data| && Carried(t, w.tx, data, data[w.pushed..])
  {
    WriteConserves(t, data);
    var w := WriteTx(t, data);
    assert data == data[..w.pushed] + data[w.pushed..];
  }

  /** Carrying one message over keeps the whole. */
  lemma CarryOn(total: seq<byte>, data: seq<byte>, rest: seq<byte>, now: seq<byte>, kept: seq<byte>)
    requires now + kept == total + data
    ensures now + kept + rest == total + (data + rest)
    ensures kept == [] ==> now + rest == total + (data + rest)
  {
    assert (total + data) + rest == total + (data + rest);
  }

  class Logger {
    var port: Port
    var pending: array<byte>
    var pendingLen: nat

    /** The bytes the ring has not taken yet. */
    ghost var remainder: seq<byte>

    ghost predicate Valid()
      reads this, port, port.txRing, port.txRing.storage, port.rxRing, port.rxRing.storage, port.txTmp, pending
    {
      && port.Valid()
      && pending.Length == PENDING_SIZE && pendingLen <= PENDING_SIZE
      && pending != port.txTmp && pending != port.rxTmp
      && pending != port.txRing.storage && pending != port.rxRing.storage
      && remainder == pending[..pendingLen]
    }

    constructor (port: Port)
      requires port.Valid()
      ensures Valid() && this.port == port && remainder == []
    {
      this.port := port;
      this.pending := new byte[PENDING_SIZE];
      this.pendingLen := 0;
      this.remainder := [];
    }

    /** Copy bytes to the front of the pending buffer. */
    method Keep(bytes: seq<byte>)
      requires Valid() && |bytes| <= PENDING_SIZE
      modifies this`pendingLen, this`remainder, pending
      ensures Valid() && remainder == bytes
    {
      forall i | 0 <= i < |bytes| {
        pending[i] := bytes[i];
      }
      pendingLen, remainder := |bytes|, bytes;
    }

    /** Write a line; keep what the ring does not take. */
    method LogWrite(data: seq<byte>) returns (remain: nat)
      requires Valid()
      modifies this`pendingLen, this`remainder, pending
      modifies port`txActive, port`hw, port`events, port`tx
      modifies port.txRing`head, port.txRing`tail, port.txRing`contents, port.txRing.storage, port.txTmp
      ensures Valid()
      ensures |old(port.tx).staging| == TX_CHUNK && |old(port.tx).ring| < TX_RING_SIZE
      ensures var w := WriteTx(old(port.tx), data);
              port.tx == w.tx && remainder == Kept(data, w.pushed) && remain == |remainder|
      ensures Settled(old(port.tx)) && |data| <= PENDING_SIZE ==> Carried(old(port.tx), port.tx, data, remainder)
    {
      ghost var before := port.tx;
      var written := port.Write(data);
      remain := |data| - written;
      if remain > PENDING_SIZE {
        remain := PENDING_SIZE;
      }
      Keep(data[written..][..remain]);
      if Settled(before) && |data| <= PENDING_SIZE {
        WriteConserves(before, data);
        assert remainder == data[written..];
        CarriedBy(before, data);
      }
    }

    /** Push the remainder again; move what is still left to the front. */
    method LogWritePending() returns (remain: nat)
      requires Valid()
      modifies this`pendingLen, this`remainder, pending
      modifies port`txActive, port`hw, port`events, port`tx
      modifies port.txRing`head, port.txRing`tail, port.txRing`contents, port.txRing.storage, port.txTmp
      ensures Valid()
      ensures |old(port.tx).staging| == TX_CHUNK && |old(port.tx).ring| < TX_RING_SIZE
      ensures var w := WriteTx(old(port.tx), old(remainder));
              port.tx == w.tx && remainder == old(remainder)[w.pushed..] && remain == |remainder|
      ensures Settled(old(port.tx)) ==> Carried(old(port.tx), port.tx, old(remainder), remainder)
    {
      ghost var before, data := port.tx, remainder;
      var bytes := pending[..pendingLen];
      var written := port.Write(bytes);
      remain := pendingLen - written;
      Keep(bytes[written..]);
      if Settled(before) {
        CarriedBy(before, data);
      }
    }

    /** One round of the drain loop; a message without bytes to write is skipped. */
    method Handle(msg: Message) returns (remain: nat)
      requires Valid() && Settled(port.tx) && remainder == [] && Fits(msg)
      modifies this`pendingLen, this`remainder, pending
      modifies port`txActive, port`hw, port`events, port`tx
      modifies port.txRing`head, port.txRing`tail, port.txRing`contents, port.txRing.storage, port.txTmp
      ensures Valid() && Carried(old(port.tx), port.tx, Bytes(msg), remainder) && remain == |remainder|
    {
      if msg.Other? || |msg.data| == 0 {
        return 0;
      }
      remain := LogWrite(msg.data);
    }

    /** Drain the inbox until it is empty or a line leaves a remainder. */
    method DrainInbox(inbox: seq<Message>) returns (left: seq<Message>)
      requires Valid() && Settled(port.tx) && remainder == []
      requires forall m :: m in inbox ==> Fits(m)
      modifies this`pendingLen, this`remainder, pending
      modifies port`txActive, port`hw, port`events, port`tx
      modifies port.txRing`head, port.txRing`tail, port.txRing`contents, port.txRing.storage, port.txTmp
      ensures Valid() && Settled(port.tx)
      ensures Accepted(port.tx) + remainder + InboxBytes(left) == old(Accepted(port.tx)) + InboxBytes(inbox)
      ensures left != [] || remainder != [] ==> remainder != [] && port.tx.active
    {
      left := inbox;
      ghost var all, total := Accepted(port.tx) + InboxBytes(inbox), Accepted(port.tx);
      while left != []
        invariant Valid() && Settled(port.tx) && remainder == []
        invariant forall m :: m in left ==> Fits(m)
        invariant total == Accepted(port.tx) && total + InboxBytes(left) == all
      {
        ghost var data, rest := Bytes(left[0]), InboxBytes(left[1..]);
        assert left[0] in left;
        var remain := Handle(left[0]);
        left := left[1..];
        ghost var now := Accepted(port.tx);
        CarryOn(total, data, rest, now, remainder);
        total := now;
        if remain > 0 {
          break;
        }
      }
    }

    /**
     * One wake-up: finish the remainder, then drain the inbox until the ring pushes back. No byte is
     * lost or reordered on the way, and work is left over only behind a running transmitter.
     */
    method ServiceWake(inbox: seq<Message>) returns (left: seq<Message>)
      requires Valid() && Settled(port.tx)
      requires forall m :: m in inbox ==> Fits(m)
      modifies this`pendingLen, this`remainder, pending
      modifies port`txActive, port`hw, port`events, port`tx
      modifies port.txRing`head, port.txRing`tail, port.txRing`contents, port.txRing.storage, port.txTmp
      ensures Valid() && Settled(port.tx)
      ensures Accepted(port.tx) + remainder + InboxBytes(left)
           == old(Accepted(port.tx)) + old(remainder) + InboxBytes(inbox)
      ensures left != [] || remainder != [] ==> remainder != [] && port.tx.active
    {
      left := inbox;
      if pendingLen != 0 {
        var remain := LogWritePending();
        if remain > 0 {
          return;
        }
      }
      assert Accepted(port.tx) + [] == Accepted(port.tx);
      left := DrainInbox(inbox);
    }
  }
}
