/**
 * Inside one counter period, with every interrupt served before the next tick, the soft timers are
 * exact: the numeric minimum is the true earliest deadline, and every callback runs at its deadline.
 */
module SoftTimerPeriod {
  import opened Common
  import opened SoftTimer
  import opened SoftTimerRuns

  /** The counter and all active deadlines lie in the period that begins at `base`, below all-ones. */
  ghost predicate InPeriod(w: World, base: nat)
    requires Sized(w)
  {
    && base % TWO32 == 0
    && base <= w.now < base + NONE
    && forall i :: 0 <= i < SLOTS && w.entries[i].active ==>
         && base <= w.entries[i].due < base + NONE && w.entries[i].deadline == w.entries[i].due - base
         && w.entries[i].due <= w.now + TWO31
  }

  /** No timer is overdue, and the armed compare is the true earliest deadline. */
  ghost predicate Punctual(w: World, base: nat)
    requires Sized(w)
  {
    && InPeriod(w, base) && Armed(w)
    && (w.enabled ==> w.compare == w.next)
    && (w.enabled && w.matched ==> w.now == base + w.next)
    && forall i :: 0 <= i < SLOTS && w.entries[i].active ==>
         w.now <= w.entries[i].due && (w.now == w.entries[i].due ==> w.enabled && w.matched)
  }

  /** Every callback logged ran exactly at its true deadline. */
  predicate OnTime(log: seq<End>) {
    forall k :: 0 <= k < |log| && log[k].Fired? ==> log[k].at == log[k].due
  }

  lemma WrapInPeriod(base: nat, t: nat)
    requires base % TWO32 == 0 && base <= t < base + TWO32
    ensures Wrap(t) == t - base
  {
    assert base == base / TWO32 * TWO32;
  }

  /** An operation that stays in the period, taken while no interrupt is waiting and not passing over a match. */
  predicate PromptOp(w: World, op: Op, base: nat) {
    && !(w.enabled && w.matched)
    && (op.Register? ==> op.delay <= TWO31 && w.now + op.delay < base + NONE)
    && (op.Elapse? ==> w.now + op.us < base + NONE && (w.enabled ==> op.us <= UntilMatch(w)))
  }

  /** A callback that takes no time and stays in the period. */
  predicate PromptCallback(ops: seq<Op>, now: nat, base: nat) {
    forall k :: 0 <= k < |ops| ==>
      !ops[k].Elapse? && (ops[k].Register? ==> ops[k].delay <= TWO31 && now + ops[k].delay < base + NONE)
  }

  lemma RescheduleIsExact(w: World, base: nat)
    requires Sized(w) && InPeriod(w, base)
    requires forall i :: 0 <= i < SLOTS && w.entries[i].active ==> w.now < w.entries[i].due
    ensures Punctual(Reschedule(w), base)
  {
    RescheduleArms(w);
    var w' := Reschedule(w);
    if w'.next != NONE {
      var i :| 0 <= i < SLOTS && w.entries[i].active && w.entries[i].deadline == w'.next;
      WrapInPeriod(base, w.now);
      NotYetDue(Wrap(w.now), w'.next);
    }
  }

  lemma NotYetDue(tick: u32, deadline: u32)
    requires tick < deadline < NONE
    ensures Due(deadline, tick) <==> deadline - tick > TWO31
  {
    var d := deadline - tick;
    assert Wrap(tick - deadline) == TWO32 - d;
  }

  lemma EnterInPeriod(w: World, slot: nat, delay: u32, cb: Option<nat>, base: nat)
    requires Sized(w) && InPeriod(w, base) && slot < SLOTS && 0 < delay <= TWO31 && w.now + delay < base + NONE
    ensures InPeriod(Enter(w, slot, delay, cb), base)
  {
    WrapInPeriod(base, w.now + delay);
  }

  lemma ElapseIsPunctual(w: World, us: nat, base: nat)
    requires Sized(w) && Punctual(w, base) && !(w.enabled && w.matched)
    requires w.now + us < base + NONE && (w.enabled ==> us <= UntilMatch(w))
    ensures Punctual(DoElapse(w, us), base)
  {
    var w' := DoElapse(w, us);
    if w.enabled {
      var k :| 0 <= k < SLOTS && w.entries[k].active && w.entries[k].deadline == w.next;
      var due := w.entries[k].due;
      WrapInPeriod(base, due);
      MatchOfFuture(w, due);
      assert forall i :: 0 <= i < SLOTS && w.entries[i].active ==> due <= w.entries[i].due;
    } else {
      assert forall i :: 0 <= i < SLOTS ==> !w.entries[i].active;
    }
  }

  lemma RegisterIsPunctual(w: World, delay: u32, cb: Option<nat>, base: nat)
    requires Sized(w) && Punctual(w, base) && PromptOp(w, Register(delay, cb), base)
    ensures Punctual(DoRegister(w, delay, cb).0, base) && DoRegister(w, delay, cb).0.log == w.log
  {
    OpKeepsArmed(w, Register(delay, cb));
    var slot := FreeSlot(w.entries, 0);
    if cb.Some? && delay != 0 && slot < SLOTS {
      EnterInPeriod(w, slot, delay, cb, base);
      RescheduleIsExact(Enter(w, slot, delay, cb), base);
    }
  }

  lemma UnregisterIsPunctual(w: World, id: int, base: nat)
    requires Sized(w) && Punctual(w, base) && !(w.enabled && w.matched)
    ensures Punctual(DoUnregister(w, id), base)
    ensures OnTime(w.log) ==> OnTime(DoUnregister(w, id).log)
  {
    if 0 <= id < SLOTS {
      var e := w.entries[id];
      RescheduleIsExact(w.(entries := w.entries[id := e.(active := false, cb := None)],
                           log := if e.active then w.log + [Cancelled(e.uid)] else w.log), base);
    }
  }

  lemma OpIsPunctual(w: World, op: Op, base: nat)
    requires Sized(w) && Punctual(w, base) && PromptOp(w, op, base)
    ensures Punctual(DoOp(w, op), base)
    ensures OnTime(w.log) ==> OnTime(DoOp(w, op).log)
  {
    match op
    case Register(delay, cb) => RegisterIsPunctual(w, delay, cb, base);
    case Unregister(id) => UnregisterIsPunctual(w, id, base);
    case Elapse(us) => ElapseIsPunctual(w, us, base);
  }

  /** Inside a pass that has scanned the slots below `i`, with the clock standing still. */
  ghost predicate Scanned(w: World, base: nat, i: nat)
    requires Sized(w)
  {
    && InPeriod(w, base) && OnTime(w.log)
    && forall k :: 0 <= k < SLOTS && w.entries[k].active ==>
         w.now <= w.entries[k].due && (w.now == w.entries[k].due ==> i <= k)
  }

  lemma CallbackOpStaysScanned(w: World, op: Op, base: nat, i: nat)
    requires Sized(w) && Scanned(w, base, i) && PromptCallback([op], w.now, base)
    ensures Scanned(DoOp(w, op), base, i) && DoOp(w, op).now == w.now
  {
    assert !op.Elapse? by { assert [op][0] == op; }
    match op
    case Register(delay, cb) =>
      assert [op][0].delay == delay;
      var slot := FreeSlot(w.entries, 0);
      if cb.Some? && delay != 0 && slot < SLOTS {
        EnterInPeriod(w, slot, delay, cb, base);
      }
    case Unregister(id) =>
  }

  lemma {:induction false} CallbackStaysScanned(w: World, ops: seq<Op>, base: nat, i: nat)
    requires Sized(w) && Scanned(w, base, i) && PromptCallback(ops, w.now, base)
    ensures Scanned(DoOps(w, ops), base, i) && DoOps(w, ops).now == w.now
    decreases |ops|
  {
    if ops != [] {
      CallbackOpStaysScanned(w, ops[0], base, i);
      CallbackStaysScanned(DoOp(w, ops[0]), ops[1..], base, i);
    }
  }

  lemma {:induction false} PassIsExact(w: World, i: nat, fired: bool, script: seq<seq<Op>>, base: nat)
    requires Sized(w) && i <= SLOTS && Scanned(w, base, i)
    requires forall k :: 0 <= k < |script| ==> PromptCallback(script[k], w.now, base)
    ensures var w' := Expire(w, i, Wrap(w.now), fired, script);
            && OnTime(w'.log)
            && (fired || AnyDue(w, i, Wrap(w.now)) ==> Punctual(w', base))
    decreases SLOTS - i
  {
    if i == SLOTS {
      RescheduleIsExact(w, base);
    } else {
      var e := w.entries[i];
      if e.active {
        WrapInPeriod(base, e.due);
        DueIsPast(e.due, w.now);
      }
      if !e.active || !Due(e.deadline, Wrap(w.now)) {
        PassIsExact(w, i + 1, fired, script, base);
      } else {
        assert e.due == w.now && Scanned(Fire(w, i), base, i + 1);
        CallbackStaysScanned(Fire(w, i), ScriptAt(script, i), base, i + 1);
        var ran := if e.cb.Some? then DoOps(Fire(w, i), ScriptAt(script, i)) else Fire(w, i);
        PassIsExact(ran, i + 1, true, script, base);
      }
    }
  }

  lemma InterruptIsPunctual(w: World, script: seq<seq<Op>>, base: nat)
    requires Sized(w) && Punctual(w, base) && OnTime(w.log)
    requires forall k :: 0 <= k < |script| ==> PromptCallback(script[k], w.now, base)
    ensures Punctual(DoInterrupt(w, script), base) && OnTime(DoInterrupt(w, script).log)
  {
    if w.enabled && w.matched {
      var w1 := w.(enabled := false, matched := false);
      var k :| 0 <= k < SLOTS && w.entries[k].active && w.entries[k].deadline == w.next;
      WrapInPeriod(base, w.entries[k].due);
      DueIsPast(w.entries[k].due, w.now);
      assert AnyDue(w1, 0, Wrap(w1.now));
      PassIsExact(w1, 0, false, script, base);
    }
  }

  /** Every event stays in the period at `base`, and nothing happens between a match and its interrupt. */
  ghost predicate Prompt(w: World, events: seq<Event>, base: nat)
    requires Sized(w)
  {
    events != [] ==>
      var before, last := events[..|events| - 1], events[|events| - 1];
      var b := Run(w, before);
      && Prompt(w, before, base)
      && (match last
          case Do(op) => PromptOp(b, op, base)
          case Interrupt(script) => forall k :: 0 <= k < |script| ==> PromptCallback(script[k], b.now, base))
  }

  /**
   * Along every prompt run inside one counter period, no active timer is ever left overdue, the armed
   * compare is the earliest true deadline, and every callback runs exactly at its true deadline.
   */
  lemma {:induction false} TimersAreOnTime(w: World, events: seq<Event>, base: nat)
    requires Initial(w) && base % TWO32 == 0 && base <= w.now < base + NONE && Prompt(w, events, base)
    ensures Punctual(Run(w, events), base) && OnTime(Run(w, events).log)
  {
    if events != [] {
      var before, last := events[..|events| - 1], events[|events| - 1];
      TimersAreOnTime(w, before, base);
      match last
      case Do(op) => OpIsPunctual(Run(w, before), op, base);
      case Interrupt(script) => InterruptIsPunctual(Run(w, before), script, base);
    }
  }
}
