/**
 * Waking the command-line task: the receive interrupt queues bytes and posts one message for them,
 * unless the inbox is full; the task sleeps on notifications, empties its inbox, and reads the ring
 * dry for each message. The interrupt may fall between any two of the task's steps.
 */
module CliWake {
  import opened Common
  import U = Uart
  import CL = Cli

  const INBOX_DEPTH: nat := 8

  /** A receive message, or one the task ignores. */
  datatype Message = Rx | Foreign

  /** At the wait; taking messages; inside the handler, with the bytes of the current read. */
  datatype Pc = Wait | Receive | Drain(got: nat)

  /** `owed` counts senders between enqueue and notification; `accepted` and `consumed` are histories of bytes. */
  datatype State = State(
    ring: seq<byte>, inbox: seq<Message>, notif: nat, owed: nat, pc: Pc,
    accepted: seq<byte>, consumed: seq<byte>)

  datatype Step = Reception(bytes: seq<byte>) | Send | Notify | Task

  /** What fits of a received chunk is queued, and reported when anything fitted. */
  function DoReception(s: State, bytes: seq<byte>): State {
    var room := if |s.ring| < U.RX_RING_SIZE then U.RX_RING_SIZE - 1 - |s.ring| else 0;
    var fitted := bytes[..Min(|bytes|, room)];
    var queued := s.(ring := s.ring + fitted, accepted := s.accepted + fitted);
    if fitted == [] then s
    else if |s.inbox| < INBOX_DEPTH then queued.(inbox := s.inbox + [Rx], notif := s.notif + 1)
    else queued
  }

  function TaskStep(s: State): State {
    match s.pc
    case Wait => if s.notif == 0 then s else s.(notif := 0, pc := Receive)
    case Receive =>
      if s.inbox == [] then s.(pc := Wait)
      else s.(inbox := s.inbox[1..], pc := if s.inbox[0] == Rx then Drain(0) else Receive)
    case Drain(got) =>
      if got < CL.RX_CHUNK && s.ring != []
      then s.(ring := s.ring[1..], consumed := s.consumed + [s.ring[0]], pc := Drain(got + 1))
      else s.(pc := if got == 0 then Receive else Drain(0))
  }

  /** `Send` is another task posting a message the command line does not know. */
  function Apply(s: State, step: Step): State {
    match step
    case Reception(bytes) => DoReception(s, bytes)
    case Send => if |s.inbox| < INBOX_DEPTH then s.(inbox := s.inbox + [Foreign], owed := s.owed + 1) else s
    case Notify => if s.owed > 0 then s.(owed := s.owed - 1, notif := s.notif + 1) else s
    case Task => TaskStep(s)
  }

  function Run(s: State, steps: seq<Step>): State {
    if steps == [] then s else Apply(Run(s, steps[..|steps| - 1]), steps[|steps| - 1])
  }

  /** The handler is registered with the ring empty. */
  predicate Initial(s: State) {
    s.ring == [] && s.inbox == [] && s.notif == 0 && s.owed == 0 && s.accepted == [] && s.consumed == []
    && (s.pc == Wait || s.pc == Receive)
  }

  /** Somebody will see to the bytes in the ring. */
  predicate Attended(s: State) {
    s.ring == [] || s.pc.Drain? || Rx in s.inbox
  }

  /** A waiting task has been, or is about to be, notified of what is in its inbox. */
  predicate Notified(s: State) {
    s.pc == Wait && s.inbox != [] ==> s.notif + s.owed > 0
  }

  predicate Inv(s: State) {
    && Notified(s) && s.accepted == s.consumed + s.ring
    && |s.inbox| <= INBOX_DEPTH && |s.ring| < U.RX_RING_SIZE
  }

  /**
   * A reception does to the ring what `Uart.Port.RxEventCallback` does: the longest prefix that fits is
   * queued. If it is not empty, one message is sent for it, unless eight are waiting.
   */
  lemma ReceptionIsThePorts(s: State, bytes: seq<byte>)
    requires |s.ring| <= 255
    ensures var a, n := DoReception(s, bytes), Min(|bytes|, 255 - |s.ring|);
            && a.ring == s.ring + bytes[..n] && a.accepted == s.accepted + bytes[..n]
            && a.pc == s.pc && a.consumed == s.consumed && a.owed == s.owed
            && (if n > 0 && |s.inbox| < 8 then a.inbox == s.inbox + [Rx] && a.notif == s.notif + 1
                else a.inbox == s.inbox && a.notif == s.notif)
  {
    assert bytes[..0] == [] && s.ring + [] == s.ring && s.accepted + [] == s.accepted;
  }

  lemma ReceptionKeepsInv(s: State, bytes: seq<byte>)
    requires Inv(s)
    ensures Inv(DoReception(s, bytes))
  {
    var room := if |s.ring| < U.RX_RING_SIZE then U.RX_RING_SIZE - 1 - |s.ring| else 0;
    var fitted := bytes[..Min(|bytes|, room)];
    assert s.consumed + s.ring + fitted == s.consumed + (s.ring + fitted);
  }

  lemma TaskKeepsInv(s: State)
    requires Inv(s)
    ensures Inv(TaskStep(s)) && (Attended(s) ==> Attended(TaskStep(s)))
  {
    if s.pc.Drain? && s.ring != [] {
      assert s.consumed + s.ring == s.consumed + [s.ring[0]] + s.ring[1..];
    }
    if s.inbox != [] {
      assert s.inbox == [s.inbox[0]] + s.inbox[1..];
    }
  }

  /**
   * Bytes that arrive are attended to if and only if their message is accepted, or a receive message or
   * a reader is already there.
   */
  lemma ReceptionIsAttendedIff(s: State, bytes: seq<byte>)
    requires DoReception(s, bytes) != s
    ensures Attended(DoReception(s, bytes)) <==> |s.inbox| < INBOX_DEPTH || Rx in s.inbox || s.pc.Drain?
  {
    var room := if |s.ring| < U.RX_RING_SIZE then U.RX_RING_SIZE - 1 - |s.ring| else 0;
    var fitted := bytes[..Min(|bytes|, room)];
    assert fitted != [];
    assert (s.inbox + [Rx])[|s.inbox|] == Rx;
  }

  /** Only receive messages are sent to the command line. */
  predicate Undisturbed(steps: seq<Step>) {
    forall n :: 0 <= n < |steps| ==> !steps[n].Send?
  }

  predicate OnlyRx(s: State) {
    && s.owed == 0 && forall i :: 0 <= i < |s.inbox| ==> s.inbox[i] == Rx
  }

  lemma StepKeepsAll(s: State, step: Step)
    requires Inv(s) && Attended(s) && OnlyRx(s) && !step.Send?
    ensures Inv(Apply(s, step)) && Attended(Apply(s, step)) && OnlyRx(Apply(s, step))
  {
    match step
    case Reception(bytes) =>
      ReceptionKeepsInv(s, bytes);
      if DoReception(s, bytes) != s {
        ReceptionIsAttendedIff(s, bytes);
        assert |s.inbox| > 0 ==> s.inbox[0] == Rx;
      }
    case Task => TaskKeepsInv(s);
    case _ =>
  }

  /**
   * Over every run in which only receive messages reach the inbox, even when sends were refused:
   * whenever the task is at its wait with bytes in the ring, its inbox holds a message and its
   * notification count is positive. So when it sleeps, everything accepted has been consumed, in order.
   */
  lemma {:induction false} NoInputIsStranded(s: State, steps: seq<Step>)
    requires Initial(s) && Undisturbed(steps)
    ensures var r := Run(s, steps);
            && (r.pc == Wait && r.ring != [] ==> r.inbox != [] && r.notif > 0)
            && r.accepted == r.consumed + r.ring
            && (r.pc == Wait && r.notif == 0 ==> r.consumed == r.accepted)
    ensures Inv(Run(s, steps)) && Attended(Run(s, steps)) && OnlyRx(Run(s, steps))
  {
    if steps != [] {
      NoInputIsStranded(s, steps[..|steps| - 1]);
      StepKeepsAll(Run(s, steps[..|steps| - 1]), steps[|steps| - 1]);
    }
  }

  /** The bytes received while the ring held fewer than 255, told from the steps. */
  function Arrived(s: State, steps: seq<Step>): seq<byte> {
    if steps == [] then []
    else
      var before, last := steps[..|steps| - 1], steps[|steps| - 1];
      var used := |Run(s, before).ring|;
      Arrived(s, before)
      + if last.Reception? && used < 255 then last.bytes[..Min(|last.bytes|, 255 - used)] else []
  }

  /** Over every such run the task has consumed, and the ring holds, exactly what was received while there was room. */
  lemma {:induction false} EveryByteIsConsumed(s: State, steps: seq<Step>)
    requires Initial(s) && Undisturbed(steps)
    ensures var r := Run(s, steps);
            && Arrived(s, steps) == r.consumed + r.ring
            && (r.pc == Wait && r.notif == 0 ==> r.consumed == Arrived(s, steps))
  {
    NoInputIsStranded(s, steps);
    AcceptedIsArrived(s, steps);
  }

  lemma {:induction false} AcceptedIsArrived(s: State, steps: seq<Step>)
    requires Initial(s) && Undisturbed(steps)
    ensures Run(s, steps).accepted == Arrived(s, steps)
  {
    if steps != [] {
      var before, last := steps[..|steps| - 1], steps[|steps| - 1];
      AcceptedIsArrived(s, before);
      NoInputIsStranded(s, before);
      if last.Reception? {
        ReceptionIsThePorts(Run(s, before), last.bytes);
      }
    }
  }

  // ---- A woken task reads everything ----

  /** Task steps alone. */
  function Works(s: State, n: nat): State
    decreases n
  {
    if n == 0 then s else Works(TaskStep(s), n - 1)
  }

  /** However many notifications have piled up, with nothing to do they cost the task one turn. */
  lemma OneWakeUpAnswersAll(s: State)
    requires s.pc == Wait && s.notif > 0 && s.inbox == []
    ensures Works(s, 2) == s.(notif := 0)
  {
    assert Works(s, 2) == Works(TaskStep(s), 1) == Works(TaskStep(TaskStep(s)), 0);
  }

  /** Steps the task has left before it can sleep: per message a turn, per byte a read, per chunk an extra turn. */
  function Left(s: State): nat {
    4 * |s.inbox| + 3 * |s.ring|
    + match s.pc
      case Wait => 2
      case Receive => 1
      case Drain(got) => if got == 0 then 2 else 3
  }

  /** Left alone, a task that has been woken reaches its wait with the inbox and the ring empty. */
  lemma {:induction false} TaskReadsEverything(s: State)
    requires Inv(s) && Attended(s) && s.pc != Wait
    ensures exists n: nat :: Works(s, n).pc == Wait && Works(s, n).ring == [] && Works(s, n).inbox == []
                        && Works(s, n).consumed == s.accepted
    decreases Left(s)
  {
    var t := TaskStep(s);
    TaskKeepsInv(s);
    assert t.accepted == s.accepted;
    if t.pc == Wait {
      assert Works(s, 1) == Works(t, 0) == t;
    } else {
      TaskReadsEverything(t);
      var n: nat :| Works(t, n).pc == Wait && Works(t, n).ring == [] && Works(t, n).inbox == []
               && Works(t, n).consumed == t.accepted;
      assert Works(s, n + 1) == Works(t, n);
    }
  }

  // ---- What other messages would do ----

  /** Bytes wait in the ring, and nothing in the inbox or the task's position will have them read. */
  predicate Stranded(s: State) {
    s.ring != [] && !s.pc.Drain? && Rx !in s.inbox
  }

  /** A stranded ring stays so until more bytes are received. */
  lemma {:induction false} StrandedStays(s: State, steps: seq<Step>)
    requires Stranded(s) && forall n :: 0 <= n < |steps| ==> !steps[n].Reception?
    ensures Stranded(Run(s, steps)) && Run(s, steps).ring == s.ring
  {
    if steps != [] {
      StrandedStays(s, steps[..|steps| - 1]);
      var r := Run(s, steps[..|steps| - 1]);
      assert !steps[|steps| - 1].Reception?;
      assert r.inbox != [] ==> r.inbox == [r.inbox[0]] + r.inbox[1..];
    }
  }

  /** An inbox full of messages the task ignores strands the next byte. */
  lemma ForeignMessagesStrand(s: State, b: byte)
    requires s.ring == [] && !s.pc.Drain? && |s.inbox| == INBOX_DEPTH && Rx !in s.inbox
    ensures Stranded(Apply(s, Reception([b])))
  {
    assert [b][..1] == [b];
  }
}
