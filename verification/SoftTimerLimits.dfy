/** Concrete runs that show where the soft timers' guarantees end. */
module SoftTimerLimits {
  import opened Common
  import opened SoftTimer
  import opened SoftTimerRuns

  lemma RunSnoc(w: World, events: seq<Event>, last: Event)
    requires Sized(w)
    ensures Run(w, events + [last]) == Apply(Run(w, events), last)
  {
    assert (events + [last])[..|events|] == events;
  }

  lemma EarliestIs(w: World, i: nat)
    requires Sized(w) && i < SLOTS && w.entries[i].active && w.entries[i].deadline != NONE
    requires forall k :: 0 <= k < SLOTS && w.entries[k].active ==> w.entries[i].deadline <= w.entries[k].deadline
    ensures EarliestOf(w.entries, SLOTS) == w.entries[i].deadline
  {
    EarliestIsMin(w.entries, SLOTS);
    assert w.entries[..SLOTS] == w.entries;
  }

  predicate IdleFrom(w: World, i: nat)
    requires Sized(w)
  {
    forall k :: i <= k < SLOTS ==> !w.entries[k].active
  }

  // ---- A slow callback's registration fires early ----

  predicate OneTimerDue(w: World) {
    && Sized(w) && IdleFrom(w, 1) && w.now == 1 && w.enabled && w.matched && w.log == [] && w.serial == 1
    && w.entries[0] == Entry(true, 1, Some(0), 1, 0)
  }

  lemma OneTimerComesDue(w: World)
    requires Initial(w) && w.now == 0
    ensures OneTimerDue(DoElapse(DoRegister(w, 1, Some(0)).0, 1))
  {
    EarliestIs(Enter(w, 0, 1, Some(0)), 0);
  }

  /** Register a timer, let one microsecond pass, register another half a period ahead. */
  predicate IsSlowCallback(ops: seq<Op>) {
    |ops| == 3 && ops[0] == Register(1, Some(1)) && ops[1] == Elapse(1) && ops[2] == Register(TWO31, Some(2))
  }

  lemma SlowCallbackRuns(w: World, ops: seq<Op>)
    requires Sized(w) && IdleFrom(w, 0) && w.now == 1 && w.serial == 1 && IsSlowCallback(ops)
    ensures var r := DoOps(w, ops);
            && r.now == 2 && r.log == w.log
            && r.entries[1] == Entry(true, Wrap(2 + TWO31), Some(2), 2 + TWO31, 2)
  {
    var r1 := DoOp(w, ops[0]);
    var r2 := DoOp(r1, ops[1]);
    var last := ops[1..][1..];
    assert last[0] == ops[2] && last[1..] == [];
    assert DoOps(w, ops) == DoOps(r2, last) == DoOp(r2, ops[2]);
    assert r2.entries[0].active && IdleFrom(r2, 1);
    assert FreeSlot(r2.entries, 0) == FreeSlot(r2.entries, 1) == 1;
  }

  lemma ExpireFires(w: World, i: nat, tick: u32, fired: bool, script: seq<seq<Op>>)
    requires Sized(w) && i < SLOTS && w.entries[i].active && Due(w.entries[i].deadline, tick) && w.entries[i].cb.Some?
    ensures var ran := DoOps(Fire(w, i), ScriptAt(script, i));
            Expire(w, i, tick, fired, script) == Expire(ran, i + 1, tick, true, script)
  {
  }

  /** A pass that finds an entry due before its true time logs an early callback. */
  lemma EarlyEntryFires(w: World, i: nat, tick: u32, fired: bool, script: seq<seq<Op>>)
    requires Sized(w) && i < SLOTS && w.entries[i].active && Due(w.entries[i].deadline, tick) && w.entries[i].cb.Some?
    requires w.now < w.entries[i].due
    ensures !NeverEarly(Expire(w, i, tick, fired, script).log)
  {
    var f := Fire(w, i);
    var ran := DoOps(f, ScriptAt(script, i));
    ExpireFires(w, i, tick, fired, script);
    OpsOnlyAppend(f, ScriptAt(script, i));
    ExpireOnlyAppends(ran, i + 1, tick, true, script);
    var log := Expire(w, i, tick, fired, script).log;
    assert log[|w.log|] == f.log[|w.log|];
  }

  lemma SlowCallbackPass(w: World, script: seq<seq<Op>>)
    requires OneTimerDue(w) && |script| == 1 && IsSlowCallback(script[0])
    ensures !NeverEarly(DoInterrupt(w, script).log)
  {
    var start := w.(enabled := false, matched := false);
    ExpireFires(start, 0, Wrap(w.now), false, script);
    SlowCallbackRuns(Fire(start, 0), script[0]);
    SlowTimerLooksDue();
    EarlyEntryFires(DoOps(Fire(start, 0), script[0]), 1, 1, true, script);
  }

  lemma SlowTimerLooksDue()
    ensures Due(Wrap(2 + TWO31), 1) && Wrap(1) == 1
  {
  }

  /**
   * A callback that lets one microsecond pass and then registers a timer half a period ahead sees
   * that timer run in the same pass, half a period early.
   */
  lemma SlowCallbackFiresEarly(w: World, script: seq<seq<Op>>)
    requires Initial(w) && w.now == 0 && |script| == 1 && IsSlowCallback(script[0])
    ensures var events := [Do(Register(1, Some(0)))] + [Do(Elapse(1))] + [Interrupt(script)];
            !NeverEarly(Run(w, events).log)
  {
    var e1, e2, e3 := Do(Register(1, Some(0))), Do(Elapse(1)), Interrupt(script);
    RunSnoc(w, [], e1);
    RunSnoc(w, [] + [e1], e2);
    RunSnoc(w, [] + [e1] + [e2], e3);
    assert [e1] + [e2] + [e3] == [] + [e1] + [e2] + [e3];
    OneTimerComesDue(w);
    SlowCallbackPass(Apply(Apply(w, e1), e2), script);
  }

  lemma {:induction false} ExpirePasses(w: World, i: nat, j: nat, tick: u32, fired: bool, script: seq<seq<Op>>)
    requires Sized(w) && i <= j <= SLOTS
    requires forall k :: i <= k < j && w.entries[k].active ==> !Due(w.entries[k].deadline, tick)
    ensures Expire(w, i, tick, fired, script) == Expire(w, j, tick, fired, script)
    decreases j - i
  {
    if i < j {
      ExpirePasses(w, i + 1, j, tick, fired, script);
    }
  }

  lemma DoOpsSnoc(w: World, pre: seq<Op>, op: Op)
    requires Sized(w)
    ensures DoOps(w, pre + [op]) == DoOp(DoOps(w, pre), op)
    decreases |pre|
  {
    if pre == [] {
      assert pre + [op] == [op] && [op][1..] == [];
      assert DoOps(w, [op]) == DoOps(DoOp(w, op), []);
    } else {
      assert (pre + [op])[0] == pre[0] && (pre + [op])[1..] == pre[1..] + [op];
      DoOpsSnoc(DoOp(w, pre[0]), pre[1..], op);
    }
  }

  /** The pass at slot `i` runs a callback that ends by registering a timer in a slot still to be scanned. */
  ghost predicate LastRegisters(w: World, i: nat, start: nat, script: seq<seq<Op>>, pre: seq<Op>, delay: u32, cb: nat)
    requires Sized(w)
  {
    var before := DoOps(Fire(w, if i < SLOTS then i else 0), pre);
    && i < SLOTS && w.entries[i].active && w.entries[i].cb.Some? && Due(w.entries[i].deadline, Wrap(start))
    && ScriptAt(script, i) == pre + [Register(delay, Some(cb))] && delay != 0
    && start <= before.now && before.now - start + delay <= TWO32
    && i < FreeSlot(before.entries, 0) < SLOTS
    && forall k :: i < k < FreeSlot(before.entries, 0) && before.entries[k].active ==>
         !Due(before.entries[k].deadline, Wrap(start))
  }

  lemma RegistrationIsReached(
      w: World, i: nat, start: nat, fired: bool, script: seq<seq<Op>>, pre: seq<Op>, delay: u32, cb: nat)
    requires Sized(w) && LastRegisters(w, i, start, script, pre, delay, cb)
    ensures var before := DoOps(Fire(w, i), pre);
            var ran, slot := DoRegister(before, delay, Some(cb)).0, FreeSlot(before.entries, 0);
            && ran.entries == before.entries[slot := Entry(true, Wrap(before.now + delay), Some(cb),
                                                           before.now + delay, before.serial)]
            && ran.now == before.now
            && Expire(w, i, Wrap(start), fired, script) == Expire(ran, slot, Wrap(start), true, script)
  {
    var before := DoOps(Fire(w, i), pre);
    var ran, slot := DoRegister(before, delay, Some(cb)).0, FreeSlot(before.entries, 0);
    DoOpsSnoc(Fire(w, i), pre, Register(delay, Some(cb)));
    ExpirePasses(ran, i + 1, slot, Wrap(start), true, script);
  }

  /**
   * When the pass reaches a registration that one of its callbacks made, it runs it, early, if and
   * only if its delay plus the callback time elapsed when it was made exceeds half the period;
   * otherwise it passes it over.
   */
  lemma LateRegistrationRunsIff(
      w: World, i: nat, start: nat, fired: bool, script: seq<seq<Op>>, pre: seq<Op>, delay: u32, cb: nat)
    requires Sized(w) && LastRegisters(w, i, start, script, pre, delay, cb)
    ensures var before := DoOps(Fire(w, i), pre);
            var ran, slot := DoRegister(before, delay, Some(cb)).0, FreeSlot(before.entries, 0);
            var after := Expire(w, i, Wrap(start), fired, script);
            if before.now - start + delay > TWO31
            then after == Expire(DoOps(Fire(ran, slot), ScriptAt(script, slot)), slot + 1, Wrap(start), true, script)
                 && !NeverEarly(after.log)
            else after == Expire(ran, slot + 1, Wrap(start), true, script)
  {
    RegistrationIsReached(w, i, start, fired, script, pre, delay, cb);
    var before := DoOps(Fire(w, i), pre);
    var ran, slot := DoRegister(before, delay, Some(cb)).0, FreeSlot(before.entries, 0);
    RegistrationLooksDueIff(start, before.now, delay);
    if before.now - start + delay > TWO31 {
      ExpireFires(ran, slot, Wrap(start), true, script);
      EarlyEntryFires(ran, slot, Wrap(start), true, script);
    } else {
      ExpirePasses(ran, slot, slot + 1, Wrap(start), true, script);
    }
  }

  // ---- A stale timer is not found ----

  predicate Stale(w: World, next: u32, compare: u32, now: nat) {
    && Sized(w) && IdleFrom(w, 2) && w.now == now && w.enabled && !w.matched && w.next == next && w.compare == compare
    && w.entries[0] == Entry(true, 0xFFFF_FFF0, Some(0), 0xFFFF_FFF0, 0)
  }

  lemma RegisterBeforeWrap(w: World)
    requires Sized(w) && IdleFrom(w, 0) && w.next == NONE && w.now == 0xFFFF_FFEF && w.serial == 0
    ensures Stale(DoRegister(w, 1, Some(0)).0, 0xFFFF_FFF0, 0xFFFF_FFF0, 0xFFFF_FFEF)
    ensures IdleFrom(DoRegister(w, 1, Some(0)).0, 1)
  {
    EarliestIs(Enter(w, 0, 1, Some(0)), 0);
  }

  lemma RegisterPastWrap(w: World)
    requires Stale(w, 0xFFFF_FFF0, 0xFFFF_FFF0, 0xFFFF_FFEF) && IdleFrom(w, 1)
    ensures Stale(DoRegister(w, 0x7FFF_FFFF, Some(1)).0, 0x7FFF_FFEE, 0x7FFF_FFEE, 0xFFFF_FFEF)
  {
    assert FreeSlot(w.entries, 0) == FreeSlot(w.entries, 1) == 1;
    EarliestIs(Enter(w, 1, 0x7FFF_FFFF, Some(1)), 1);
  }

  lemma CancelJustBefore(w: World)
    requires Stale(w, 0x7FFF_FFEE, 0x7FFF_FFEE, 0xFFFF_FFEF)
    ensures Stale(DoElapse(w, 0x7FFF_FFFE), 0x7FFF_FFEE, 0x7FFF_FFEE, 0x1_7FFF_FFED)
    ensures var w' := DoUnregister(DoElapse(w, 0x7FFF_FFFE), 1);
            Stale(w', 0xFFFF_FFF0, 0x7FFF_FFEE, 0x1_7FFF_FFED) && IdleFrom(w', 1)
  {
    var w4 := DoElapse(w, 0x7FFF_FFFE);
    var e := w4.entries[1];
    EarliestIs(w4.(entries := w4.entries[1 := e.(active := false, cb := None)],
                   log := if e.active then w4.log + [Cancelled(e.uid)] else w4.log), 0);
  }

  lemma ServeLate(w: World)
    requires Stale(w, 0xFFFF_FFF0, 0x7FFF_FFEE, 0x1_7FFF_FFED) && IdleFrom(w, 1)
    ensures var r := DoInterrupt(DoElapse(w, 10), []);
            r.entries[0].active && r.entries[0].due < r.now && !r.enabled && !Armed(r)
  {
    var w6 := DoElapse(w, 10);
    assert w6.enabled && w6.matched && !Due(0xFFFF_FFF0, Wrap(w6.now));
    assert !AnyDue(w6.(enabled := false, matched := false), 0, Wrap(w6.now));
    ExpireOutcome(w6.(enabled := false, matched := false), 0, Wrap(w6.now), false, []);
  }

  /**
   * A timer overdue by half a period is not found due any more: in this run one interrupt is served
   * ten microseconds late, finds nothing, and leaves the interrupt disabled with the timer waiting.
   */
  lemma StaleTimerLeavesMultiplexerDead(w: World) returns (r: World)
    requires Initial(w) && w.now == 0xFFFF_FFEF
    ensures r == Apply(Apply(Apply(Apply(Apply(Apply(w, Do(Register(1, Some(0)))), Do(Register(0x7FFF_FFFF, Some(1)))),
                                         Do(Elapse(0x7FFF_FFFE))), Do(Unregister(1))), Do(Elapse(10))), Interrupt([]))
    ensures r.entries[0].active && r.entries[0].due < r.now && !r.enabled && !Armed(r)
  {
    RegisterBeforeWrap(w);
    var w2 := DoRegister(w, 1, Some(0)).0;
    RegisterPastWrap(w2);
    var w3 := DoRegister(w2, 0x7FFF_FFFF, Some(1)).0;
    CancelJustBefore(w3);
    var w5 := DoUnregister(DoElapse(w3, 0x7FFF_FFFE), 1);
    ServeLate(w5);
    r := DoInterrupt(DoElapse(w5, 10), []);
  }

  // ---- A deadline of all ones ----

  /**
   * A timer registered with none waiting is watched by the compare interrupt if and only if its
   * deadline is not all ones on the counter; such a timer waits until some other operation re-arms.
   */
  lemma LoneTimerIsWatchedIff(w: World, delay: u32, cb: nat)
    requires Sized(w) && Armed(w) && IdleFrom(w, 0) && delay != 0
    ensures var (r, id) := DoRegister(w, delay, Some(cb));
            && id == 0 && r.entries[0].active
            && (r.enabled <==> Wrap(w.now + delay) != 0xFFFF_FFFF)
  {
    var r := DoRegister(w, delay, Some(cb)).0;
    OpKeepsArmed(w, Register(delay, Some(cb)));
    EnabledIff(r);
    assert forall k :: 1 <= k < SLOTS ==> !r.entries[k].active;
  }
}
