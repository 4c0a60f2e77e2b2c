/**
 * The console output pipeline: any number of tasks post lines to the log task's inbox and notify it;
 * the log task moves lines through the UART driver, one interruptible access at a time; the transmit
 * interrupt drains the ring and notifies the log task when the ring runs dry.
 */
module Console {
  import opened Common
  import opened Uart

  const INBOX_DEPTH: nat := 8
  const PENDING_SIZE: nat := 130

  /** An inbox message: a log line, or anything the log task skips. */
  datatype Message = Line(data: seq<byte>) | Other

  /** One `serial_write` under way: `done` bytes of `src` are in the ring. `retry` marks the pending remainder. */
  datatype Job = Job(src: seq<byte>, done: nat, retry: bool)

  /** Where the log task stands. */
  datatype Pc =
    | Wait
    | CheckPending
    | Receive
    | FullTest(job: Job)
    | Store(job: Job)
    | Gate(job: Job)
    | Load(job: Job, k: nat)
    | Start(job: Job, k: nat)
    | Report(job: Job)
    | Finish(job: Job)

  /**
   * `owed` counts senders between their enqueue and their notification; `posted` is the history of
   * all line bytes the inbox has accepted.
   */
  datatype State = State(
    inbox: seq<Message>, notif: nat, owed: nat,
    pc: Pc, pending: seq<byte>, tx: Tx, posted: seq<byte>)

  datatype Step = Post(m: Message) | Notify | ByteOut | TxInterrupt | Task

  /** Log lines fit the pending buffer; `Format.LogPrintf` posts nothing longer. */
  predicate Fits(m: Message) {
    m.Line? ==> |m.data| <= PENDING_SIZE
  }

  function Bytes(m: Message): seq<byte> {
    if m.Line? then m.data else []
  }

  function InboxBytes(inbox: seq<Message>): seq<byte> {
    if inbox == [] then [] else Bytes(inbox[0]) + InboxBytes(inbox[1..])
  }

  predicate Initial(s: State) {
    && s.inbox == [] && s.notif == 0 && s.owed == 0 && s.pc == Wait && s.pending == []
    && s.tx.ring == [] && |s.tx.staging| == TX_CHUNK && !s.tx.active && s.tx.hw == Idle && s.tx.wire == []
    && s.posted == []
  }

  /** The push loop is over: nothing pushed skips the critical section. */
  function LeavePush(s: State, j: Job): State {
    s.(pc := if j.done == 0 then Finish(j) else Gate(j))
  }

  predicate HasJob(pc: Pc) {
    !pc.Wait? && !pc.CheckPending? && !pc.Receive?
  }

  predicate Kicking(pc: Pc) {
    pc.Load? || pc.Start?
  }

  /** The indices a step uses are in range. */
  predicate Sized(s: State) {
    && |s.tx.staging| == TX_CHUNK
    && (HasJob(s.pc) ==> s.pc.job.done <= |s.pc.job.src|)
    && (s.pc.Store? ==> s.pc.job.done < |s.pc.job.src|)
  }

  /** The log task's next access. */
  function TaskStep(s: State): (s': State)
    requires Sized(s)
    ensures Sized(s')
  {
    match s.pc
    case Wait => if s.notif == 0 then s else s.(notif := 0, pc := CheckPending)
    case CheckPending => s.(pc := if s.pending != [] then FullTest(Job(s.pending, 0, true)) else Receive)
    case Receive =>
      if s.inbox == [] then s.(pc := Wait)
      else
        var rest := s.(inbox := s.inbox[1..]);
        if Bytes(s.inbox[0]) == [] then rest else rest.(pc := FullTest(Job(s.inbox[0].data, 0, false)))
    case FullTest(j) =>
      if j.done == |j.src| || |s.tx.ring| == TX_RING_SIZE - 1 then LeavePush(s, j) else s.(pc := Store(j))
    case Store(j) =>
      s.(tx := s.tx.(ring := s.tx.ring + [j.src[j.done]]), pc := FullTest(j.(done := j.done + 1)))
    case Gate(j) =>
      if s.tx.active then s.(pc := Finish(j)) else s.(tx := s.tx.(active := true), pc := Load(j, 0))
    case Load(j, k) =>
      if k < TX_CHUNK && s.tx.ring != []
      then s.(tx := s.tx.(ring := s.tx.ring[1..], staging := s.tx.staging[k := s.tx.ring[0]]), pc := Load(j, k + 1))
      else s.(pc := Start(j, k))
    case Start(j, k) =>
      if k == 0 then s.(tx := s.tx.(active := false), pc := Report(j))
      else if s.tx.hw.Idle? then s.(tx := s.tx.(hw := Busy(k, 0)), pc := Finish(j))
      else s.(tx := s.tx.(active := false), pc := Finish(j))
    case Report(j) => s.(notif := s.notif + 1, pc := Finish(j))
    case Finish(j) =>
      var remain := j.src[j.done..];
      var kept := if j.retry then remain else remain[..Min(|remain|, PENDING_SIZE)];
      s.(pending := kept, pc := if kept != [] then Wait else Receive)
  }

  function Apply(s: State, step: Step): (s': State)
    requires Sized(s)
    ensures Sized(s')
  {
    match step
    case Post(m) =>
      if |s.inbox| < INBOX_DEPTH && Fits(m)
      then s.(inbox := s.inbox + [m], owed := s.owed + 1, posted := s.posted + Bytes(m))
      else s
    case Notify => if s.owed > 0 then s.(owed := s.owed - 1, notif := s.notif + 1) else s
    case ByteOut =>
      if s.tx.hw.Busy? && s.tx.hw.sent < s.tx.hw.count <= TX_CHUNK
      then s.(tx := s.tx.(wire := s.tx.wire + [s.tx.staging[s.tx.hw.sent]], hw := Busy(s.tx.hw.count, s.tx.hw.sent + 1)))
      else s
    case TxInterrupt =>
      if s.tx.hw.Busy? && s.tx.hw.sent == s.tx.hw.count
      then
        var k := CompleteTx(s.tx);
        s.(tx := k.tx, notif := if k.drained then s.notif + 1 else s.notif)
      else s
    case Task => TaskStep(s)
  }

  /** Sizes, and what the log task holds while it is inside a write. */
  predicate Shape(s: State) {
    && Sized(s) && |s.tx.ring| < TX_RING_SIZE
    && (s.tx.hw.Busy? ==> s.tx.hw.sent <= s.tx.hw.count <= TX_CHUNK)
    && |s.pending| <= PENDING_SIZE
    && (forall m :: m in s.inbox ==> Fits(m))
    && (s.pc.Receive? ==> s.pending == [])
    && (HasJob(s.pc) ==>
          var j := s.pc.job;
          && 0 < |j.src| <= PENDING_SIZE
          && s.pending == (if j.retry then j.src else [])
          && (s.pc.Store? ==> |s.tx.ring| < TX_RING_SIZE - 1)
          && (s.pc.Gate? || Kicking(s.pc) || s.pc.Report? ==> j.done > 0))
    && (Kicking(s.pc) ==> s.pc.k <= TX_CHUNK)
  }

  /** Who drives the transmitter, and that bytes never sit in an idle port except behind a write that will start it. */
  predicate Driven(s: State) {
    && (if Kicking(s.pc) then s.tx.active && s.tx.hw.Idle? else s.tx.active <==> s.tx.hw.Busy?)
    && (s.pc.Start? && s.pc.k == 0 ==> s.tx.ring == [])
    && (!s.tx.active && s.tx.ring != [] ==>
          (s.pc.FullTest? || s.pc.Store? || s.pc.Gate?) && s.pc.job.done > 0)
  }

  /** A wake-up is on its way whenever the log task has work to come back to. */
  predicate Wakeable(s: State) {
    && (s.pc.Finish? && s.pc.job.done < |s.pc.job.src| ==> s.tx.active || s.notif > 0)
    && (s.pc.Wait? && s.pending != [] ==> s.tx.active || s.notif > 0)
    && (s.pc.Wait? && s.pending == [] && s.inbox != [] ==> s.notif > 0 || s.owed > 0)
  }

  predicate Inv(s: State) {
    Shape(s) && Driven(s) && Wakeable(s)
  }

  lemma PostKeepsInv(s: State, m: Message)
    requires Inv(s)
    ensures Inv(Apply(s, Post(m)))
  {
  }

  lemma InterruptKeepsInv(s: State)
    requires Inv(s)
    ensures Inv(Apply(s, TxInterrupt))
  {
    if s.tx.hw.Busy? && s.tx.hw.sent == s.tx.hw.count {
      var k := CompleteTx(s.tx);
      assert k.drained <==> s.tx.ring == [];
    }
  }

  lemma IdleKeepsInv(s: State)
    requires Inv(s) && !HasJob(s.pc)
    ensures Inv(TaskStep(s))
  {
    if s.pc.Receive? && s.inbox != [] {
      assert s.inbox[0] in s.inbox;
    }
  }

  lemma PushKeepsInv(s: State)
    requires Inv(s) && (s.pc.FullTest? || s.pc.Store?)
    ensures Inv(TaskStep(s))
  {
  }

  lemma KickKeepsInv(s: State)
    requires Inv(s) && (s.pc.Gate? || Kicking(s.pc) || s.pc.Report?)
    ensures Inv(TaskStep(s))
  {
  }

  lemma FinishKeepsInv(s: State)
    requires Inv(s) && s.pc.Finish?
    ensures Inv(TaskStep(s))
  {
  }

  lemma StepKeepsInv(s: State, step: Step)
    requires Inv(s)
    ensures Inv(Apply(s, step))
  {
    match step
    case Post(m) => PostKeepsInv(s, m);
    case TxInterrupt => InterruptKeepsInv(s);
    case Task =>
      if !HasJob(s.pc) {
        IdleKeepsInv(s);
      } else if s.pc.Finish? {
        FinishKeepsInv(s);
      } else if s.pc.FullTest? || s.pc.Store? {
        PushKeepsInv(s);
      } else {
        KickKeepsInv(s);
      }
    case _ =>
  }

  function Run(s: State, steps: seq<Step>): (s': State)
    requires Sized(s)
    ensures Sized(s')
  {
    if steps == [] then s else Apply(Run(s, steps[..|steps| - 1]), steps[|steps| - 1])
  }

  /** The staged bytes that are neither in the ring any more nor on the wire yet. */
  function Staged(s: State): seq<byte>
    requires Shape(s)
  {
    if Kicking(s.pc) then s.tx.staging[..s.pc.k] else InFlight(s.tx)
  }

  /** What the log task still has to push: the rest of the current write, or the pending buffer. */
  function Rest(s: State): seq<byte>
    requires Shape(s)
  {
    if HasJob(s.pc) then s.pc.job.src[s.pc.job.done..] else s.pending
  }

  /** Every posted byte is in exactly one place, in order. */
  predicate Conserved(s: State)
    requires Shape(s)
  {
    s.posted == s.tx.wire + (Staged(s) + (s.tx.ring + (Rest(s) + InboxBytes(s.inbox))))
  }

  lemma {:induction false} InboxBytesSnoc(inbox: seq<Message>, m: Message)
    ensures InboxBytes(inbox + [m]) == InboxBytes(inbox) + Bytes(m)
  {
    if inbox == [] {
      assert InboxBytes([m]) == Bytes(m) + InboxBytes([m][1..]);
    } else {
      assert (inbox + [m])[1..] == inbox[1..] + [m];
      InboxBytesSnoc(inbox[1..], m);
    }
  }

  /** Bytes that cross from one place to the place before it do not change what the two hold together. */
  lemma Cross(front: seq<byte>, moved: seq<byte>, back: seq<byte>, behind: seq<byte>)
    ensures (front + moved) + (back + behind) == front + ((moved + back) + behind)
  {
  }

  lemma IdleConserves(s: State)
    requires Inv(s) && Conserved(s) && Shape(TaskStep(s)) && !HasJob(s.pc)
    ensures Conserved(TaskStep(s))
  {
    var s' := TaskStep(s);
    if s.pc.Receive? && s.inbox != [] {
      var first := Bytes(s.inbox[0]);
      assert InboxBytes(s.inbox) == first + InboxBytes(s'.inbox);
      assert Rest(s) + InboxBytes(s.inbox) == first + InboxBytes(s'.inbox);
      assert Rest(s') == first;
    } else {
      assert Rest(s') == Rest(s);
    }
  }

  lemma HeadOfRest(src: seq<byte>, done: nat)
    requires done < |src|
    ensures src[done..] == [src[done]] + src[done + 1..]
  {
  }

  /** Storing a byte moves it from the front of the rest to the end of the ring. */
  lemma StoreMoves(s: State)
    requires Shape(s) && Shape(TaskStep(s)) && s.pc.Store?
    ensures var s', b := TaskStep(s), s.pc.job.src[s.pc.job.done];
            && s'.tx.wire == s.tx.wire && Staged(s') == Staged(s) && s'.inbox == s.inbox && s'.posted == s.posted
            && s'.tx.ring == s.tx.ring + [b] && Rest(s) == [b] + Rest(s')
  {
    HeadOfRest(s.pc.job.src, s.pc.job.done);
  }

  lemma PushConserves(s: State)
    requires Inv(s) && Conserved(s) && Shape(TaskStep(s)) && (s.pc.FullTest? || s.pc.Store?)
    ensures Conserved(TaskStep(s))
  {
    if s.pc.Store? {
      StoreMoves(s);
      Cross(s.tx.ring, [s.pc.job.src[s.pc.job.done]], Rest(TaskStep(s)), InboxBytes(s.inbox));
    }
  }

  lemma KickConserves(s: State)
    requires Inv(s) && Conserved(s) && Shape(TaskStep(s)) && (s.pc.Gate? || Kicking(s.pc) || s.pc.Report?)
    ensures Conserved(TaskStep(s))
  {
    var s' := TaskStep(s);
    if s.pc.Load? && s'.pc.Load? {
      var b := s.tx.ring[0];
      assert Staged(s') == Staged(s) + [b];
      assert s.tx.ring == [b] + s'.tx.ring;
      Cross(Staged(s), [b], s'.tx.ring, Rest(s) + InboxBytes(s.inbox));
    } else {
      assert Staged(s') == Staged(s);
    }
  }

  lemma FinishConserves(s: State)
    requires Inv(s) && Conserved(s) && Shape(TaskStep(s)) && s.pc.Finish?
    ensures Conserved(TaskStep(s))
  {
    assert Rest(TaskStep(s)) == Rest(s);
  }

  lemma InterruptConserves(s: State)
    requires Inv(s) && Conserved(s) && Shape(Apply(s, TxInterrupt))
    ensures Conserved(Apply(s, TxInterrupt))
  {
    var s' := Apply(s, TxInterrupt);
    if s' != s {
      KickMoves(s.tx.(hw := Idle));
      var x := Rest(s) + InboxBytes(s.inbox);
      assert Staged(s) == [] && Rest(s') + InboxBytes(s'.inbox) == x;
      assert Staged(s') + (s'.tx.ring + x) == (Staged(s') + s'.tx.ring) + x == s.tx.ring + x;
    }
  }

  /** Bytes appended behind every place are bytes appended to the last one. */
  lemma AppendLast(w: seq<byte>, g: seq<byte>, r: seq<byte>, t: seq<byte>, i: seq<byte>, x: seq<byte>)
    ensures (w + (g + (r + (t + i)))) + x == w + (g + (r + (t + (i + x))))
  {
    assert (t + i) + x == t + (i + x);
    assert (r + (t + i)) + x == r + ((t + i) + x);
    assert (g + (r + (t + i))) + x == g + ((r + (t + i)) + x);
  }

  lemma PostConserves(s: State, m: Message)
    requires Inv(s) && Conserved(s) && Shape(Apply(s, Post(m)))
    ensures Conserved(Apply(s, Post(m)))
  {
    InboxBytesSnoc(s.inbox, m);
    AppendLast(s.tx.wire, Staged(s), s.tx.ring, Rest(s), InboxBytes(s.inbox), Bytes(m));
  }

  lemma ByteOutConserves(s: State)
    requires Inv(s) && Conserved(s) && Shape(Apply(s, ByteOut))
    ensures Conserved(Apply(s, ByteOut))
  {
    var s' := Apply(s, ByteOut);
    if s' != s {
      var b := s.tx.staging[s.tx.hw.sent];
      assert Staged(s) == [b] + Staged(s');
      Cross(s.tx.wire, [b], Staged(s'), s.tx.ring + (Rest(s) + InboxBytes(s.inbox)));
    }
  }

  lemma StepConserves(s: State, step: Step)
    requires Inv(s) && Conserved(s)
    ensures Inv(Apply(s, step)) && Conserved(Apply(s, step))
  {
    StepKeepsInv(s, step);
    match step
    case Post(m) => PostConserves(s, m);
    case ByteOut => ByteOutConserves(s);
    case TxInterrupt => InterruptConserves(s);
    case Task =>
      if !HasJob(s.pc) {
        IdleConserves(s);
      } else if s.pc.Finish? {
        FinishConserves(s);
      } else if s.pc.FullTest? || s.pc.Store? {
        PushConserves(s);
      } else {
        KickConserves(s);
      }
    case Notify =>
  }

  lemma {:induction false} RunConserves(s: State, steps: seq<Step>)
    requires Inv(s) && Conserved(s)
    ensures Inv(Run(s, steps)) && Conserved(Run(s, steps))
  {
    if steps != [] {
      var before := steps[..|steps| - 1];
      RunConserves(s, before);
      StepConserves(Run(s, before), steps[|steps| - 1]);
    }
  }

  lemma InitialInv(s: State)
    requires Initial(s)
    ensures Inv(s) && Conserved(s)
  {
  }

  /**
   * Nothing is lost, duplicated or reordered: in every reachable state the posted bytes are the wire,
   * the chunk in flight, the ring, the rest of the current write or the pending buffer, and the inbox.
   * A line is taken from the inbox only when the pending buffer is empty.
   */
  lemma {:induction false} NothingLostOrReordered(s: State, steps: seq<Step>)
    requires Initial(s)
    ensures Inv(Run(s, steps))
    ensures var r := Run(s, steps);
            && r.posted == r.tx.wire + (Staged(r) + (r.tx.ring + (Rest(r) + InboxBytes(r.inbox))))
            && (r.pc.Receive? || (HasJob(r.pc) && !r.pc.job.retry) ==> r.pending == [])
  {
    InitialInv(s);
    RunConserves(s, steps);
  }

  lemma StepKeepsStaging(s: State, step: Step)
    requires Inv(s) && s.tx.hw.Busy? && s.tx.hw.sent < s.tx.hw.count
    ensures var s' := Apply(s, step);
            s'.tx.staging == s.tx.staging && s'.tx.hw.Busy? && s'.tx.hw.count == s.tx.hw.count
  {
    match step
    case Task =>
      assert !Kicking(s.pc);
    case _ =>
  }

  /**
   * A chunk handed to the HAL keeps its bytes until the transfer is over, and the HAL is idle whenever
   * the driver hands it one, so it never refuses.
   */
  lemma StagingIsStable(s: State, steps: seq<Step>, step: Step)
    requires Initial(s)
    ensures var r := Run(s, steps);
            && (r.tx.hw.Busy? && r.tx.hw.sent < r.tx.hw.count ==>
                  Apply(r, step).tx.staging == r.tx.staging && Apply(r, step).tx.hw.Busy?
                  && Apply(r, step).tx.hw.count == r.tx.hw.count)
            && (r.pc.Start? ==> r.tx.hw.Idle?)
  {
    InitialInv(s);
    RunConserves(s, steps);
    var r := Run(s, steps);
    if r.tx.hw.Busy? && r.tx.hw.sent < r.tx.hw.count {
      StepKeepsStaging(r, step);
    }
  }

  /**
   * No lost wake-up: while the log task is at its wait with a line or a remainder to come back to,
   * a notification is there, or a sender still owes one, or the transmitter is running and will
   * report the ring drained.
   */
  lemma NoLostWakeUp(s: State, steps: seq<Step>)
    requires Initial(s)
    ensures var r := Run(s, steps);
            r.pc.Wait? && (r.inbox != [] || r.pending != []) ==>
              r.notif > 0 || r.owed > 0 || (r.pending != [] && r.tx.active && r.tx.hw.Busy?)
  {
    InitialInv(s);
    RunConserves(s, steps);
  }

  /** No sender, interrupt or log-task step is left to take. */
  predicate Quiet(s: State)
    requires Sized(s)
  {
    && Apply(s, Notify) == s && Apply(s, ByteOut) == s
    && Apply(s, TxInterrupt) == s && Apply(s, Task) == s
  }

  lemma QuietIsWaiting(s: State)
    requires Inv(s)
    ensures Quiet(s) ==> s.pc.Wait? && s.notif == 0 && s.owed == 0 && s.tx.hw.Idle?
  {
    if s.tx.hw.Busy? && s.tx.hw.sent == s.tx.hw.count {
      KickMoves(s.tx.(hw := Idle));
      assert Apply(s, TxInterrupt).tx != s.tx;
    } else if s.pc.Receive? && s.inbox != [] {
      assert |TaskStep(s).inbox| < |s.inbox|;
    }
  }

  /** Whenever nothing can move any more, every posted byte is on the wire. */
  lemma QuietMeansDelivered(s: State, steps: seq<Step>)
    requires Initial(s)
    ensures var r := Run(s, steps);
            Quiet(r) ==> r.tx.wire == r.posted && r.inbox == [] && r.pending == [] && r.tx.ring == []
  {
    InitialInv(s);
    var r := Run(s, steps);
    RunConserves(s, steps);
    QuietIsWaiting(r);
    if Quiet(r) {
      assert r.pending == [] && r.inbox == [] && r.tx.ring == [] && Staged(r) == [];
    }
  }

  /** How far the log task is from its wait; a write that has pushed something may still start the transmitter. */
  function Rank(pc: Pc): nat {
    match pc
    case Wait => 0
    case Receive => 1
    case Finish(_) => 2
    case Report(_) => 13
    case Start(_, _) => 4
    case Load(_, _) => 5
    case Gate(_) => 18
    case Store(j) => if j.done > 0 then 19 else 7
    case FullTest(j) => if j.done > 0 then 20 else 8
    case CheckPending => 9
  }

  /** A bound on the work left: bytes weigh more the further they are from the wire, and so do messages and wake-ups. */
  function Work(s: State): nat
    requires Shape(s)
  {
    16 * (|Rest(s)| + |InboxBytes(s.inbox)|) + 10 * |s.inbox|
    + 2 * |s.tx.ring| + |Staged(s)| + (if s.tx.active then 12 else 0)
    + 10 * s.notif + 11 * s.owed + Rank(s.pc)
  }

  lemma InterruptWorks(s: State)
    requires Inv(s) && Inv(Apply(s, TxInterrupt)) && Apply(s, TxInterrupt) != s
    ensures Work(Apply(s, TxInterrupt)) < Work(s)
  {
    KickMoves(s.tx.(hw := Idle));
    var s' := Apply(s, TxInterrupt);
    assert |Staged(s')| + |s'.tx.ring| == |s.tx.ring|;
    assert Rest(s') == Rest(s) && s'.inbox == s.inbox && s'.pc == s.pc;
  }

  lemma IdleWorks(s: State)
    requires Inv(s) && Inv(TaskStep(s)) && TaskStep(s) != s && !HasJob(s.pc)
    ensures Work(TaskStep(s)) < Work(s)
  {
  }

  lemma PushWorks(s: State)
    requires Inv(s) && Inv(TaskStep(s)) && (s.pc.FullTest? || s.pc.Store?)
    ensures Work(TaskStep(s)) < Work(s)
  {
  }

  lemma LoadWorks(s: State)
    requires Inv(s) && Inv(TaskStep(s)) && s.pc.Load?
    ensures Work(TaskStep(s)) < Work(s)
  {
    var s' := TaskStep(s);
    assert Rest(s') == Rest(s) && s'.inbox == s.inbox;
  }

  lemma KickWorks(s: State)
    requires Inv(s) && Inv(TaskStep(s)) && (s.pc.Gate? || s.pc.Start? || s.pc.Report?)
    ensures Work(TaskStep(s)) < Work(s)
  {
    var s' := TaskStep(s);
    assert Rest(s') == Rest(s) && s'.inbox == s.inbox && |Staged(s')| == |Staged(s)|;
  }

  lemma FinishWorks(s: State)
    requires Inv(s) && Inv(TaskStep(s)) && s.pc.Finish?
    ensures Work(TaskStep(s)) < Work(s)
  {
    var s' := TaskStep(s);
    assert Rest(s') == Rest(s) && s'.inbox == s.inbox && s'.tx == s.tx && s'.notif == s.notif;
  }

  /** Every step other than a new post uses up some of the work left. */
  lemma {:induction false} StepWorks(s: State, step: Step)
    requires Inv(s) && !step.Post? && Apply(s, step) != s
    ensures Inv(Apply(s, step)) && Work(Apply(s, step)) < Work(s)
  {
    StepKeepsInv(s, step);
    match step
    case TxInterrupt => InterruptWorks(s);
    case Task =>
      if !HasJob(s.pc) {
        IdleWorks(s);
      } else if s.pc.FullTest? || s.pc.Store? {
        PushWorks(s);
      } else if s.pc.Load? {
        LoadWorks(s);
      } else if s.pc.Finish? {
        FinishWorks(s);
      } else {
        KickWorks(s);
      }
    case _ =>
  }

  /** Every step of `steps` posts nothing and changes the state it is taken in. */
  predicate Effective(s: State, steps: seq<Step>)
    requires Sized(s)
  {
    steps != [] ==>
      var before := steps[..|steps| - 1];
      && Effective(s, before)
      && !steps[|steps| - 1].Post?
      && Apply(Run(s, before), steps[|steps| - 1]) != Run(s, before)
  }

  lemma {:induction false} EffectiveRunsAreShort(s: State, steps: seq<Step>)
    requires Inv(s) && Effective(s, steps)
    ensures Inv(Run(s, steps)) && |steps| + Work(Run(s, steps)) <= Work(s)
  {
    if steps != [] {
      var before := steps[..|steps| - 1];
      EffectiveRunsAreShort(s, before);
      StepWorks(Run(s, before), steps[|steps| - 1]);
    }
  }

  lemma {:induction false} RunAppend(s: State, steps: seq<Step>, more: seq<Step>)
    requires Sized(s)
    ensures Run(s, steps + more) == Run(Run(s, steps), more)
  {
    if more == [] {
      assert steps + more == steps;
    } else {
      assert (steps + more)[..|steps + more| - 1] == steps + more[..|more| - 1];
      RunAppend(s, steps, more[..|more| - 1]);
    }
  }

  /**
   * Delivery: from any reachable state, without new posts, the steps the system can still take are
   * bounded by the work left, in whatever order they come; and once none is left, the wire carries
   * exactly what was posted.
   */
  lemma EverythingIsDelivered(s: State, steps: seq<Step>, more: seq<Step>)
    requires Initial(s)
    ensures Inv(Run(s, steps))
    ensures Effective(Run(s, steps), more) ==>
              && |more| <= Work(Run(s, steps))
              && (Quiet(Run(s, steps + more)) ==> Run(s, steps + more).tx.wire == Run(s, steps + more).posted)
  {
    InitialInv(s);
    RunConserves(s, steps);
    if Effective(Run(s, steps), more) {
      EffectiveRunsAreShort(Run(s, steps), more);
      QuietMeansDelivered(s, steps + more);
    }
  }

  /** However many notifications have piled up, with nothing to do they cost the log task one turn. */
  lemma OneWakeUpAnswersAll(s: State)
    requires Sized(s) && s.pc.Wait? && s.notif > 0 && s.pending == [] && s.inbox == []
    ensures Undisturbed(s, 3) == s.(notif := 0)
  {
    var s1 := TaskStep(s);
    var s2 := TaskStep(s1);
    assert Undisturbed(s, 3) == Undisturbed(s1, 2) == Undisturbed(s2, 1) == Undisturbed(TaskStep(s2), 0);
  }

  /** The log task taking `n` accesses in a row, undisturbed. */
  function Undisturbed(s: State, n: nat): (s': State)
    requires Sized(s)
    ensures Sized(s')
    decreases n
  {
    if n == 0 then s else Undisturbed(TaskStep(s), n - 1)
  }

  /** `m` more bytes of the job pushed. */
  function Pushed(s: State, j: Job, m: nat): State
    requires j.done + m <= |j.src|
  {
    LeavePush(s.(tx := s.tx.(ring := s.tx.ring + j.src[j.done..j.done + m])), j.(done := j.done + m))
  }

  /** Everything the ring takes of the job pushed. */
  function PushedAll(s: State): State
    requires Sized(s) && s.pc.FullTest? && |s.tx.ring| < TX_RING_SIZE
  {
    Pushed(s, s.pc.job, Min(|s.pc.job.src| - s.pc.job.done, TX_RING_SIZE - 1 - |s.tx.ring|))
  }

  lemma PushRound(s: State)
    requires Sized(s) && s.pc.FullTest? && s.pc.job.done < |s.pc.job.src| && |s.tx.ring| < TX_RING_SIZE - 1
    ensures var s2 := TaskStep(TaskStep(s));
            && s2.pc == FullTest(s.pc.job.(done := s.pc.job.done + 1)) && |s2.tx.ring| == |s.tx.ring| + 1
            && PushedAll(s2) == PushedAll(s)
  {
    var j := s.pc.job;
    var m := Min(|j.src| - j.done, TX_RING_SIZE - 1 - |s.tx.ring|);
    assert (s.tx.ring + [j.src[j.done]]) + j.src[j.done + 1..j.done + m] == s.tx.ring + j.src[j.done..j.done + m];
  }

  lemma PushStop(s: State)
    requires Sized(s) && s.pc.FullTest? && |s.tx.ring| < TX_RING_SIZE
    requires s.pc.job.done == |s.pc.job.src| || |s.tx.ring| == TX_RING_SIZE - 1
    ensures Undisturbed(s, 1) == PushedAll(s)
  {
    var j := s.pc.job;
    assert Undisturbed(TaskStep(s), 0) == LeavePush(s, j);
    assert s.tx.ring + j.src[j.done..j.done] == s.tx.ring;
  }

  lemma {:induction false} UndisturbedPush(s: State) returns (n: nat)
    requires Sized(s) && s.pc.FullTest? && |s.tx.ring| < TX_RING_SIZE
    ensures Undisturbed(s, n) == PushedAll(s)
    decreases |s.pc.job.src| - s.pc.job.done
  {
    if s.pc.job.done == |s.pc.job.src| || |s.tx.ring| == TX_RING_SIZE - 1 {
      n := 1;
      PushStop(s);
    } else {
      PushRound(s);
      var rest := UndisturbedPush(TaskStep(TaskStep(s)));
      TwoThenMore(s, rest);
      n := rest + 2;
    }
  }

  lemma TwoThenMore(s: State, n: nat)
    requires Sized(s)
    ensures Undisturbed(s, n + 2) == Undisturbed(TaskStep(TaskStep(s)), n)
  {
    assert Undisturbed(s, n + 2) == Undisturbed(TaskStep(s), n + 1);
  }

  /** `m` more bytes staged, and the pop loop left. */
  function Loaded(s: State, j: Job, k: nat, m: nat): State
    requires |s.tx.staging| == TX_CHUNK && k + m <= TX_CHUNK && m <= |s.tx.ring|
  {
    s.(tx := s.tx.(ring := s.tx.ring[m..], staging := s.tx.staging[..k] + s.tx.ring[..m] + s.tx.staging[k + m..]),
       pc := Start(j, k + m))
  }

  lemma LoadRound(s: State, m: nat)
    requires Sized(s) && s.pc.Load? && 0 < m && s.pc.k + m <= TX_CHUNK && m <= |s.tx.ring|
    ensures var s1 := TaskStep(s);
            && s1.pc == Load(s.pc.job, s.pc.k + 1) && |s1.tx.ring| == |s.tx.ring| - 1
            && Loaded(s1, s.pc.job, s.pc.k + 1, m - 1) == Loaded(s, s.pc.job, s.pc.k, m)
  {
    var s1, k := TaskStep(s), s.pc.k;
    assert s1.tx.ring[m - 1..] == s.tx.ring[m..];
    assert s1.tx.staging[..k + 1] + s1.tx.ring[..m - 1] + s1.tx.staging[k + m..]
        == s.tx.staging[..k] + s.tx.ring[..m] + s.tx.staging[k + m..];
  }

  lemma {:induction false} UndisturbedLoad(s: State) returns (n: nat)
    requires Sized(s) && s.pc.Load? && s.pc.k <= TX_CHUNK
    ensures Undisturbed(s, n) == Loaded(s, s.pc.job, s.pc.k, Min(TX_CHUNK - s.pc.k, |s.tx.ring|))
    decreases |s.tx.ring|
  {
    var k := s.pc.k;
    var m := Min(TX_CHUNK - k, |s.tx.ring|);
    if m == 0 {
      n := 1;
      assert Undisturbed(TaskStep(s), 0) == s.(pc := Start(s.pc.job, k));
      assert s.tx.staging[..k] + s.tx.ring[..0] + s.tx.staging[k..] == s.tx.staging;
    } else {
      LoadRound(s, m);
      var rest := UndisturbedLoad(TaskStep(s));
      n := rest + 1;
    }
  }

  lemma {:induction false} UndisturbedAppend(s: State, n: nat, m: nat)
    requires Sized(s)
    ensures Undisturbed(s, n + m) == Undisturbed(Undisturbed(s, n), m)
    decreases n
  {
    if n > 0 {
      UndisturbedAppend(TaskStep(s), n - 1, m);
      assert Undisturbed(s, n + m) == Undisturbed(TaskStep(s), n - 1 + m);
    }
  }

  /** From the critical section, an undisturbed kick of an idle port is `KickTx`. */
  lemma UndisturbedGate(s: State) returns (n: nat)
    requires Sized(s) && s.pc.Gate? && Settled(s.tx.(ring := [])) && s.tx.ring != []
    ensures Undisturbed(s, n)
            == s.(tx := if s.tx.active then s.tx else KickTx(s.tx.(active := true)).tx, pc := Finish(s.pc.job))
  {
    var s1 := TaskStep(s);
    assert Undisturbed(s, 1) == Undisturbed(s1, 0) == s1;
    if s.tx.active {
      n := 1;
    } else {
      var rest := UndisturbedLoad(s1);
      UndisturbedAppend(s, 1, rest);
      UndisturbedAppend(s, 1 + rest, 1);
      n := 1 + rest + 1;
      var loaded := Undisturbed(s1, rest);
      assert Undisturbed(loaded, 1) == Undisturbed(TaskStep(loaded), 0) == TaskStep(loaded);
      var m := Min(TX_CHUNK, |s.tx.ring|);
      assert s.tx.staging[..0] + s.tx.ring[..m] + s.tx.staging[0 + m..] == s.tx.ring[..m] + s.tx.staging[m..];
    }
  }

  /** Left undisturbed, the accesses of one write add up to `WriteTx`, the contract of `Uart.Port.Write`. */
  lemma UndisturbedWriteIsWriteTx(s: State) returns (n: nat)
    requires Sized(s) && s.pc.FullTest? && s.pc.job.done == 0 && Settled(s.tx)
    ensures var w := WriteTx(s.tx, s.pc.job.src);
            Undisturbed(s, n) == s.(tx := w.tx, pc := Finish(s.pc.job.(done := w.pushed)))
  {
    var j := s.pc.job;
    n := UndisturbedPush(s);
    var w := WriteTx(s.tx, j.src);
    assert j.src[0..w.pushed] == j.src[..w.pushed];
    if w.pushed == 0 {
      assert s.tx.ring + j.src[..0] == s.tx.ring;
    } else {
      var left := Undisturbed(s, n);
      var rest := UndisturbedGate(left);
      UndisturbedAppend(s, n, rest);
      n := n + rest;
    }
  }
}
