/**
 * When the armed compare matches: exactly at the watched timer's true time, or on the next tick when
 * that time has come. Neither earlier nor later, along every run that leaves no timer stale.
 */
module SoftTimerMatch {
  import opened Common
  import opened SoftTimer
  import opened SoftTimerRuns

  /** The true time the counter next meets the compare register. */
  function NextMatch(w: World): nat {
    w.now + UntilMatch(w)
  }

  function Later(a: nat, b: nat): nat {
    if a < b then b else a
  }

  /** Arming the next tick matches on the next tick. */
  lemma NextTickMatches(w: World)
    ensures NextMatch(Schedule(w, Wrap(w.now + 1))) == w.now + 1
  {
    MatchOfFuture(Schedule(w, Wrap(w.now + 1)), w.now + 1);
  }

  /** Arming a deadline that lies on the counter where a past time lay matches a whole number of periods later. */
  lemma PastDeadlineMatches(w: World, due: nat)
    requires due <= w.now
    ensures var late := Wrap(w.now - due);
            NextMatch(Schedule(w, Wrap(due))) == w.now + TWO32 - late
  {
    var late: nat := Wrap(w.now - due);
    var q := (w.now - due) / 0x1_0000_0000;
    assert w.now - due == q * 0x1_0000_0000 + late;
    var ahead: nat := w.now + TWO32 - late;
    WrapShift(due, q + 1);
    assert ahead == due + (q + 1) * 0x1_0000_0000;
    MatchOfFuture(Schedule(w, Wrap(due)), ahead);
  }

  /**
   * Rescheduling arms the watched timer to match at its true time, or on the next tick when that has
   * come, if and only if the timer is not overdue by half a period or more on the counter (but for
   * the one tick at which its deadline comes round again next).
   */
  lemma RescheduleMatchesIff(w: World, i: nat)
    requires Sized(w) && Clocked(w) && i < SLOTS && w.entries[i].active
    requires w.entries[i].deadline == EarliestOf(w.entries, SLOTS) != NONE
    ensures var due := w.entries[i].due;
            && (NextMatch(Reschedule(w)) == Later(due, w.now + 1) <==>
                  due > w.now || Wrap(w.now - due) < TWO31 || Wrap(w.now - due) == TWO32 - 1)
            && (w.now < due + TWO31 ==> NextMatch(Reschedule(w)) == Later(due, w.now + 1))
  {
    var due, w1 := w.entries[i].due, w.(next := w.entries[i].deadline);
    WrapSub(w.now, due);
    DueIsPast(due, w.now);
    NextTickMatches(w1);
    if due <= w.now {
      PastDeadlineMatches(w1, due);
    } else {
      MatchOfFuture(Schedule(w1, Wrap(due)), due);
    }
  }

  /** The compare stands for entry `i`, to the tick. */
  ghost predicate SharpBy(w: World, i: nat)
    requires Sized(w)
  {
    && i < SLOTS && w.entries[i].active && w.entries[i].deadline == w.next
    && NextMatch(w) == Later(w.entries[i].due, w.now + 1)
  }

  /** An enabled compare that has not matched yet will do so at the watched timer's time, or on the next tick. */
  ghost predicate Sharp(w: World)
    requires Sized(w)
  {
    w.enabled && !w.matched ==> exists i :: SharpBy(w, i)
  }

  lemma RescheduleIsSharp(w: World)
    requires Sized(w) && Clocked(w) && NoneStale(w)
    ensures Sharp(Reschedule(w))
  {
    EarliestIsMin(w.entries, SLOTS);
    assert w.entries[..SLOTS] == w.entries;
    var w', m := Reschedule(w), EarliestOf(w.entries, SLOTS);
    if m != NONE {
      var i :| 0 <= i < SLOTS && w.entries[i].active && w.entries[i].deadline == m;
      RescheduleMatchesIff(w, i);
      assert SharpBy(w', i);
    }
  }

  lemma ElapseStaysSharp(w: World, us: nat)
    requires Sized(w) && Sharp(w)
    ensures Sharp(DoElapse(w, us))
  {
    var w' := DoElapse(w, us);
    if w'.enabled && !w'.matched {
      var i: nat :| SharpBy(w, i);
      ElapseTowardsMatch(w, us);
      assert SharpBy(w', i);
    }
  }

  lemma RegisterStaysSharp(w: World, delay: u32, cb: Option<nat>)
    requires Sized(w) && Sharp(w) && Clocked(w) && delay <= TWO31
    requires NoneStale(DoRegister(w, delay, cb).0)
    ensures Sharp(DoRegister(w, delay, cb).0)
  {
    var slot := FreeSlot(w.entries, 0);
    if cb.Some? && delay != 0 && slot < SLOTS {
      var w1 := Enter(w, slot, delay, cb);
      if w.next == NONE || w1.entries[slot].deadline < w.next {
        RescheduleIsSharp(w1);
      } else if w.enabled && !w.matched {
        var i: nat :| SharpBy(w, i);
        assert SharpBy(w1, i);
      }
    }
  }

  lemma OpStaysSharp(w: World, op: Op)
    requires Sized(w) && Sharp(w) && Clocked(w) && ShortOp(op) && NoneStale(DoOp(w, op))
    ensures Sharp(DoOp(w, op))
  {
    match op
    case Register(delay, cb) => RegisterStaysSharp(w, delay, cb);
    case Unregister(id) =>
      if 0 <= id < SLOTS {
        var e := w.entries[id];
        RescheduleIsSharp(w.(entries := w.entries[id := e.(active := false, cb := None)],
                             log := if e.active then w.log + [Cancelled(e.uid)] else w.log));
      }
    case Elapse(us) => ElapseStaysSharp(w, us);
  }

  lemma {:induction false} PassIsSharp(w: World, i: nat, tick: u32, fired: bool, script: seq<seq<Op>>)
    requires Sized(w) && i <= SLOTS && Clocked(w) && ShortScript(script) && (fired || AnyDue(w, i, tick))
    requires NoneStale(Expire(w, i, tick, fired, script))
    ensures Sharp(Expire(w, i, tick, fired, script))
    decreases SLOTS - i
  {
    if i == SLOTS {
      RescheduleIsSharp(w);
    } else if !w.entries[i].active || !Due(w.entries[i].deadline, tick) {
      PassIsSharp(w, i + 1, tick, fired, script);
    } else {
      var ops := ScriptAt(script, i);
      assert forall k :: 0 <= k < |ops| ==> ShortOp(ops[k]);
      OpsKeepClocked(Fire(w, i), ops);
      var ran := if w.entries[i].cb.Some? then DoOps(Fire(w, i), ops) else Fire(w, i);
      PassIsSharp(ran, i + 1, tick, true, script);
    }
  }

  /** Delays are at most half a period, and no event leaves a timer overdue by that much. */
  ghost predicate Fresh(w: World, events: seq<Event>)
    requires Sized(w)
  {
    events == []
    || var n := |events| - 1; Fresh(w, events[..n]) && ShortEvent(events[n]) && NoneStale(Run(w, events))
  }

  lemma {:induction false} FreshIsTimely(w: World, events: seq<Event>)
    requires Initial(w) && Fresh(w, events)
    ensures Timely(w, events) && NoneStale(Run(w, events))
  {
    if events != [] {
      FreshIsTimely(w, events[..|events| - 1]);
    }
  }

  lemma EventStaysSharp(w: World, event: Event)
    requires Sized(w) && Live(w) && Sharp(w) && NoneStale(w) && ShortEvent(event) && NoneStale(Apply(w, event))
    ensures Sharp(Apply(w, event))
  {
    match event
    case Do(op) => OpStaysSharp(w, op);
    case Interrupt(script) =>
      if w.enabled && w.matched {
        LiveInterruptFindsDue(w);
        var w1 := w.(enabled := false, matched := false);
        assert AnyDue(w1, 0, Wrap(w.now));
        PassIsSharp(w1, 0, Wrap(w.now), false, script);
      }
  }

  /**
   * Along every fresh run, an enabled compare that has not matched yet will match exactly at the true
   * time of an active timer with the smallest deadline, or on the very next tick if that has come. So
   * a timer already due when the compare was armed waits one tick, not a counter period.
   */
  lemma {:induction false} MatchIsOnTime(w: World, events: seq<Event>)
    requires Initial(w) && Fresh(w, events)
    ensures Sharp(Run(w, events)) && Armed(Run(w, events))
  {
    FreshIsTimely(w, events);
    NeverDead(w, events);
    if events != [] {
      var before := events[..|events| - 1];
      MatchIsOnTime(w, before);
      FreshIsTimely(w, before);
      NeverDead(w, before);
      EventStaysSharp(Run(w, before), events[|events| - 1]);
    }
  }
}
