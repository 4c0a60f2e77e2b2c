/** What the soft timers keep over whole runs: liveness, one ending per registration, and punctuality. */
module SoftTimerRuns {
  import opened Common
  import opened SoftTimer

  // ---- The wrapping clock ----

  lemma WrapSub(a: int, b: int)
    ensures Wrap(Wrap(a) - Wrap(b)) == Wrap(a - b)
  {
    WrapInside(Wrap(a), b);
    WrapInside(-b, a);
  }

  /** Within half a period either way, due means the true time has come. */
  lemma DueIsPast(due: int, now: int)
    requires due <= now + TWO31
    ensures Due(Wrap(due), Wrap(now)) ==> due <= now
    ensures due <= now < due + TWO31 ==> Due(Wrap(due), Wrap(now))
  {
    WrapSub(now, due);
    if now < due {
      assert Wrap(now - due) == now - due + TWO32;
    }
  }

  /** A registration outside any expiry pass is taken for due at once exactly when its delay exceeds half the period. */
  lemma LongDelaysLookDueIff(now: nat, delay: u32)
    requires delay > 0
    ensures Due(Wrap(now + delay), Wrap(now)) <==> delay > TWO31
  {
    WrapSub(now, now + delay);
    var d: int := delay;
    assert Wrap(-d) == TWO32 - d;
  }

  /** The counter's next match with a true time ahead by less than a period is that time. */
  lemma MatchOfFuture(w: World, due: nat)
    requires w.compare == Wrap(due) && w.now < due <= w.now + TWO32
    ensures w.now + UntilMatch(w) == due
  {
    WrapInside(-1 - w.now, due);
  }

  lemma ElapseTowardsMatch(w: World, us: nat)
    ensures us < UntilMatch(w) ==> w.now + us + UntilMatch(DoElapse(w, us)) == w.now + UntilMatch(w)
  {
    var d: int, u: int := Wrap(w.compare - 1 - w.now), us;
    if u < d + 1 {
      WrapInside(-u, w.compare - 1 - w.now);
    }
  }

  // ---- Liveness ----

  /** Every deadline is the low half of a true time at most half a period ahead. */
  ghost predicate Clocked(w: World)
    requires Sized(w)
  {
    forall i :: 0 <= i < SLOTS && w.entries[i].active ==>
      w.entries[i].deadline == Wrap(w.entries[i].due) && w.entries[i].due <= w.now + TWO31
  }

  /** The compare interrupt stands for entry `i`: a match, past or coming, is not before its true time. */
  ghost predicate WatchedBy(w: World, i: nat)
    requires Sized(w)
  {
    && i < SLOTS && w.entries[i].active && w.entries[i].deadline == w.next
    && w.entries[i].due <= w.now + UntilMatch(w)
    && (w.matched ==> w.entries[i].due <= w.now)
  }

  ghost predicate Watched(w: World)
    requires Sized(w)
  {
    w.enabled ==> exists i :: WatchedBy(w, i)
  }

  predicate ShortOp(op: Op) {
    op.Register? ==> op.delay <= TWO31
  }

  predicate ShortScript(script: seq<seq<Op>>) {
    forall i, k :: 0 <= i < |script| && 0 <= k < |script[i]| ==> ShortOp(script[i][k])
  }

  lemma RescheduleWatches(w: World)
    requires Sized(w) && Clocked(w)
    ensures Clocked(Reschedule(w)) && Watched(Reschedule(w))
  {
    EarliestIsMin(w.entries, SLOTS);
    assert w.entries[..SLOTS] == w.entries;
    var w', m := Reschedule(w), EarliestOf(w.entries, SLOTS);
    if m != NONE {
      var i :| 0 <= i < SLOTS && w.entries[i].active && w.entries[i].deadline == m;
      var due := w.entries[i].due;
      DueIsPast(due, w.now);
      if due > w.now {
        MatchOfFuture(w', due);
      }
      assert WatchedBy(w', i);
    }
  }

  lemma OpKeepsWatched(w: World, op: Op)
    requires Sized(w) && ShortOp(op) && Clocked(w)
    ensures Clocked(DoOp(w, op))
    ensures Watched(w) ==> Watched(DoOp(w, op))
  {
    match op
    case Register(delay, cb) =>
      var slot := FreeSlot(w.entries, 0);
      if cb.Some? && delay != 0 && slot < SLOTS {
        var w1 := Enter(w, slot, delay, cb);
        RescheduleWatches(w1);
        if w.enabled && Watched(w) {
          var i: nat :| WatchedBy(w, i);
          assert WatchedBy(w1, i);
        }
      }
    case Unregister(id) =>
      if 0 <= id < SLOTS {
        var e := w.entries[id];
        RescheduleWatches(w.(entries := w.entries[id := e.(active := false, cb := None)],
                             log := if e.active then w.log + [Cancelled(e.uid)] else w.log));
      }
    case Elapse(us) =>
      if w.enabled && Watched(w) {
        var i: nat :| WatchedBy(w, i);
        ElapseTowardsMatch(w, us);
        assert WatchedBy(DoElapse(w, us), i);
      }
  }

  lemma {:induction false} OpsKeepClocked(w: World, ops: seq<Op>)
    requires Sized(w) && Clocked(w) && forall k :: 0 <= k < |ops| ==> ShortOp(ops[k])
    ensures Clocked(DoOps(w, ops))
    decreases |ops|
  {
    if ops != [] {
      OpKeepsWatched(w, ops[0]);
      OpsKeepClocked(DoOp(w, ops[0]), ops[1..]);
    }
  }

  lemma {:induction false} ExpireKeepsWatched(w: World, i: nat, tick: u32, fired: bool, script: seq<seq<Op>>)
    requires Sized(w) && i <= SLOTS && Clocked(w) && ShortScript(script)
    ensures Clocked(Expire(w, i, tick, fired, script))
    ensures fired || AnyDue(w, i, tick) ==> Watched(Expire(w, i, tick, fired, script))
    decreases SLOTS - i
  {
    if i == SLOTS {
      RescheduleWatches(w);
    } else if !w.entries[i].active || !Due(w.entries[i].deadline, tick) {
      ExpireKeepsWatched(w, i + 1, tick, fired, script);
    } else {
      var ops := ScriptAt(script, i);
      assert forall k :: 0 <= k < |ops| ==> ShortOp(ops[k]);
      OpsKeepClocked(Fire(w, i), ops);
      var ran := if w.entries[i].cb.Some? then DoOps(Fire(w, i), ops) else Fire(w, i);
      ExpireKeepsWatched(ran, i + 1, tick, true, script);
    }
  }

  predicate ShortEvent(event: Event) {
    match event
    case Do(op) => ShortOp(op)
    case Interrupt(script) => ShortScript(script)
  }

  /** No active timer is overdue by half a period or more. */
  ghost predicate NoneStale(w: World)
    requires Sized(w)
  {
    forall i :: 0 <= i < SLOTS && w.entries[i].active ==> w.now < w.entries[i].due + TWO31
  }

  ghost predicate Live(w: World)
    requires Sized(w)
  {
    Armed(w) && Clocked(w) && Watched(w)
  }

  lemma LiveInterruptFindsDue(w: World)
    requires Sized(w) && Live(w) && NoneStale(w) && w.enabled && w.matched
    ensures AnyDue(w, 0, Wrap(w.now))
  {
    var i: nat :| WatchedBy(w, i);
    DueIsPast(w.entries[i].due, w.now);
  }

  lemma EventKeepsLive(w: World, event: Event)
    requires Sized(w) && Live(w) && ShortEvent(event) && (event.Interrupt? ==> NoneStale(w))
    ensures Live(Apply(w, event))
  {
    match event
    case Do(op) =>
      OpKeepsArmed(w, op);
      OpKeepsWatched(w, op);
    case Interrupt(script) =>
      if w.enabled && w.matched {
        LiveInterruptFindsDue(w);
        var w1 := w.(enabled := false, matched := false);
        assert AnyDue(w1, 0, Wrap(w.now));
        ExpireOutcome(w1, 0, Wrap(w.now), false, script);
        ExpireKeepsWatched(w1, 0, Wrap(w.now), false, script);
      }
  }

  /** Delays are at most half a period, and no timer is that much overdue when an interrupt is served. */
  ghost predicate Timely(w: World, events: seq<Event>)
    requires Sized(w)
  {
    events != [] ==>
      var before, last := events[..|events| - 1], events[|events| - 1];
      && Timely(w, before)
      && ShortEvent(last)
      && (last.Interrupt? ==> NoneStale(Run(w, before)))
  }

  /**
   * The multiplexer never goes dead: along every timely run the believed deadline is the minimum of
   * the active ones, the compare interrupt is enabled exactly when there is one, and every compare
   * interrupt finds an entry due, whatever the callbacks do.
   */
  lemma {:induction false} NeverDead(w: World, events: seq<Event>)
    requires Initial(w) && Timely(w, events)
    ensures Live(Run(w, events))
    ensures NoneStale(Run(w, events)) && Run(w, events).enabled && Run(w, events).matched ==>
              AnyDue(Run(w, events), 0, Wrap(Run(w, events).now))
  {
    if events == [] {
    } else {
      var before := events[..|events| - 1];
      NeverDead(w, before);
      EventKeepsLive(Run(w, before), events[|events| - 1]);
    }
    var r := Run(w, events);
    if NoneStale(r) && r.enabled && r.matched {
      LiveInterruptFindsDue(r);
    }
  }

  // ---- Every registration ends exactly once ----

  /** How many entries of the log end registration `uid`. */
  function Endings(log: seq<End>, uid: nat): nat {
    if log == [] then 0
    else Endings(log[..|log| - 1], uid) + if log[|log| - 1].uid == uid then 1 else 0
  }

  /** How many of the first `n` entries are active for registration `uid`. */
  function Waiting(entries: seq<Entry>, n: nat, uid: nat): nat
    requires n <= |entries|
  {
    if n == 0 then 0
    else Waiting(entries, n - 1, uid) + if entries[n - 1].active && entries[n - 1].uid == uid then 1 else 0
  }

  lemma {:induction false} WaitingUpdate(entries: seq<Entry>, n: nat, i: nat, e: Entry, uid: nat)
    requires n <= |entries| && i < |entries|
    ensures Waiting(entries[i := e], n, uid) + (if i < n && entries[i].active && entries[i].uid == uid then 1 else 0)
         == Waiting(entries, n, uid) + (if i < n && e.active && e.uid == uid then 1 else 0)
  {
    if n > 0 {
      WaitingUpdate(entries, n - 1, i, e, uid);
    }
  }

  lemma EndingsSnoc(log: seq<End>, e: End, uid: nat)
    ensures Endings(log + [e], uid) == Endings(log, uid) + if e.uid == uid then 1 else 0
  {
    assert (log + [e])[..|log|] == log;
  }

  /** Registration `uid`, once made, is either waiting in one slot or has ended once; before, neither. */
  predicate Accounted(w: World, uid: nat)
    requires Sized(w)
  {
    Waiting(w.entries, SLOTS, uid) + Endings(w.log, uid) == if uid < w.serial then 1 else 0
  }

  lemma RegisterAccounts(w: World, delay: u32, cb: Option<nat>, uid: nat)
    requires Sized(w) && Accounted(w, uid)
    ensures Accounted(DoRegister(w, delay, cb).0, uid)
  {
    var slot := FreeSlot(w.entries, 0);
    if slot < SLOTS {
      WaitingUpdate(w.entries, SLOTS, slot, Enter(w, slot, delay, cb).entries[slot], uid);
    }
  }

  lemma EndAccounts(w: World, i: nat, e': Entry, end: End, uid: nat)
    requires Sized(w) && i < SLOTS && w.entries[i].active && !e'.active && end.uid == w.entries[i].uid
    requires Accounted(w, uid)
    ensures Accounted(w.(entries := w.entries[i := e'], log := w.log + [end]), uid)
  {
    WaitingUpdate(w.entries, SLOTS, i, e', uid);
    EndingsSnoc(w.log, end, uid);
  }

  lemma OpAccounts(w: World, op: Op, uid: nat)
    requires Sized(w) && Accounted(w, uid)
    ensures Accounted(DoOp(w, op), uid)
  {
    match op
    case Register(delay, cb) => RegisterAccounts(w, delay, cb, uid);
    case Unregister(id) =>
      if 0 <= id < SLOTS {
        var e := w.entries[id];
        var e' := e.(active := false, cb := None);
        if e.active {
          EndAccounts(w, id, e', Cancelled(e.uid), uid);
        } else {
          WaitingUpdate(w.entries, SLOTS, id, e', uid);
        }
      }
    case Elapse(_) =>
  }

  lemma {:induction false} OpsAccount(w: World, ops: seq<Op>, uid: nat)
    requires Sized(w) && Accounted(w, uid)
    ensures Accounted(DoOps(w, ops), uid)
    decreases |ops|
  {
    if ops != [] {
      OpAccounts(w, ops[0], uid);
      OpsAccount(DoOp(w, ops[0]), ops[1..], uid);
    }
  }

  lemma {:induction false} ExpireAccounts(w: World, i: nat, tick: u32, fired: bool, script: seq<seq<Op>>, uid: nat)
    requires Sized(w) && i <= SLOTS && Accounted(w, uid)
    ensures Accounted(Expire(w, i, tick, fired, script), uid)
    decreases SLOTS - i
  {
    if i < SLOTS {
      if !w.entries[i].active || !Due(w.entries[i].deadline, tick) {
        ExpireAccounts(w, i + 1, tick, fired, script, uid);
      } else {
        var e := w.entries[i];
        EndAccounts(w, i, e.(active := false), Fired(e.uid, w.now, e.due), uid);
        OpsAccount(Fire(w, i), ScriptAt(script, i), uid);
        var ran := if e.cb.Some? then DoOps(Fire(w, i), ScriptAt(script, i)) else Fire(w, i);
        ExpireAccounts(ran, i + 1, tick, true, script, uid);
      }
    }
  }

  lemma {:induction false} NoneWaiting(entries: seq<Entry>, n: nat, uid: nat)
    requires n <= |entries| && forall i :: 0 <= i < n ==> !entries[i].active
    ensures Waiting(entries, n, uid) == 0
  {
    if n > 0 {
      NoneWaiting(entries, n - 1, uid);
    }
  }

  /**
   * Over every run, with any delays and any callbacks: each registration is waiting in exactly one
   * slot or has ended exactly once, by one callback or by one unregistration, never both.
   */
  lemma {:induction false} EachRegistrationEndsOnce(w: World, events: seq<Event>, uid: nat)
    requires Initial(w)
    ensures var r := Run(w, events);
            Waiting(r.entries, SLOTS, uid) + Endings(r.log, uid) == if uid < r.serial then 1 else 0
  {
    if events == [] {
      NoneWaiting(w.entries, SLOTS, uid);
    } else {
      var before, last := events[..|events| - 1], events[|events| - 1];
      EachRegistrationEndsOnce(w, before, uid);
      var b := Run(w, before);
      match last
      case Do(op) => OpAccounts(b, op, uid);
      case Interrupt(script) =>
        ExpireAccounts(b.(enabled := false, matched := false), 0, Wrap(b.now), false, script, uid);
    }
  }

  // ---- No timer is early ----

  /**
   * A registration made inside a pass is judged by the tick the pass began with: it is taken for due
   * in that pass if and only if its delay plus the callback time elapsed so far, on the counter, is
   * zero or exceeds half the period.
   */
  lemma RegistrationLooksDueIff(start: nat, now: nat, delay: u32)
    requires start <= now && delay > 0
    ensures var ahead := Wrap(now - start + delay);
            Due(Wrap(now + delay), Wrap(start)) <==> ahead == 0 || ahead > TWO31
    ensures now - start + delay <= TWO32 ==>
              (Due(Wrap(now + delay), Wrap(start)) <==> now - start + delay > TWO31)
  {
    WrapSub(start, now + delay);
    NegatedHalf(now - start + delay);
  }

  lemma NegatedHalf(d: nat)
    ensures Wrap(-1 * d) < TWO31 <==> Wrap(d) == 0 || Wrap(d) > TWO31
  {
    var q := d / 0x1_0000_0000;
    var r: int := Wrap(d);
    assert d == q * 0x1_0000_0000 + r;
    WrapShift(-1 * r, -1 * q);
  }

  /**
   * A registration that enters the table is at most half a period ahead: of the start of the pass if
   * its slot is still to be scanned, from `next` on, and of the present otherwise.
   */
  predicate InTime(w: World, op: Op, next: nat, start: nat)
    requires Sized(w)
  {
    var slot := FreeSlot(w.entries, 0);
    op.Register? && op.cb.Some? && op.delay != 0 && slot < SLOTS ==>
      w.now + op.delay <= (if slot >= next then start else w.now) + TWO31
  }

  /** Each registration a callback makes is in time when it makes it. */
  predicate OpsInTime(w: World, ops: seq<Op>, next: nat, start: nat)
    requires Sized(w)
    decreases |ops|
  {
    ops == [] || (InTime(w, ops[0], next, start) && OpsInTime(DoOp(w, ops[0]), ops[1..], next, start))
  }

  /** So is each registration of the callbacks that the pass runs from slot `i` on. */
  predicate PassInTime(w: World, i: nat, start: nat, script: seq<seq<Op>>)
    requires Sized(w) && i <= SLOTS
    decreases SLOTS - i
  {
    if i == SLOTS then true
    else if !w.entries[i].active || !Due(w.entries[i].deadline, Wrap(start)) then PassInTime(w, i + 1, start, script)
    else if w.entries[i].cb.None? then PassInTime(Fire(w, i), i + 1, start, script)
    else
      var ops := ScriptAt(script, i);
      OpsInTime(Fire(w, i), ops, i + 1, start) && PassInTime(DoOps(Fire(w, i), ops), i + 1, start, script)
  }

  /** Outside a pass no slot is still to be scanned. */
  predicate EventInTime(w: World, event: Event)
    requires Sized(w)
  {
    match event
    case Do(op) => InTime(w, op, SLOTS, w.now)
    case Interrupt(script) =>
      w.enabled && w.matched ==> PassInTime(w.(enabled := false, matched := false), 0, w.now, script)
  }

  /** A registration waited in the table with this number and true time. */
  predicate Waited(w: World, uid: nat, due: nat)
    requires Sized(w)
  {
    exists j :: 0 <= j < SLOTS && w.entries[j].active && w.entries[j].uid == uid && w.entries[j].due == due
  }

  /**
   * The callbacks logged since `w0` are of registrations that waited then, and ran after it, by `now`,
   * no earlier than those were due.
   */
  predicate LateEnough(log: seq<End>, w0: World, now: nat)
    requires Sized(w0)
  {
    forall k :: |w0.log| <= k < |log| && log[k].Fired? ==>
      && log[k].due <= log[k].at && log[k].uid < w0.serial
      && w0.now <= log[k].at <= now && Waited(w0, log[k].uid, log[k].due)
  }

  /** An entry is not due beyond `limit`; an old one stands as it stood in `w0`, and a new one was not due then. */
  predicate Ahead(e: Entry, k: nat, limit: nat, w0: World)
    requires Sized(w0) && k < SLOTS
  {
    e.active ==>
      && e.deadline == Wrap(e.due) && e.due <= limit
      && if e.uid < w0.serial then e == w0.entries[k] else e.due > w0.now
  }

  /** A pass begun in `w0` that scans slot `next` next is going well. */
  ghost predicate InPass(w: World, next: nat, w0: World)
    requires Sized(w) && Sized(w0)
  {
    && w0.now <= w.now && w0.serial <= w.serial && |w0.log| <= |w.log|
    && (forall k: nat :: k < SLOTS ==>
          Ahead(w.entries[k], k, (if k >= next then w0.now else w.now) + TWO31, w0))
    && LateEnough(w.log, w0, w.now)
  }

  lemma RescheduleStaysInPass(w: World, next: nat, w0: World)
    requires Sized(w) && Sized(w0) && InPass(w, next, w0)
    ensures InPass(Reschedule(w), next, w0)
  {
  }

  lemma OpStaysInPass(w: World, op: Op, next: nat, w0: World)
    requires Sized(w) && Sized(w0) && InPass(w, next, w0) && InTime(w, op, next, w0.now)
    ensures InPass(DoOp(w, op), next, w0)
  {
    match op
    case Register(delay, cb) =>
      var slot := FreeSlot(w.entries, 0);
      if cb.Some? && delay != 0 && slot < SLOTS {
        RescheduleStaysInPass(Enter(w, slot, delay, cb), next, w0);
      }
    case Unregister(id) =>
      if 0 <= id < SLOTS {
        var e := w.entries[id];
        RescheduleStaysInPass(w.(entries := w.entries[id := e.(active := false, cb := None)],
                                 log := if e.active then w.log + [Cancelled(e.uid)] else w.log), next, w0);
      }
    case Elapse(_) =>
  }

  lemma {:induction false} OpsStayInPass(w: World, ops: seq<Op>, next: nat, w0: World)
    requires Sized(w) && Sized(w0) && InPass(w, next, w0) && OpsInTime(w, ops, next, w0.now)
    ensures InPass(DoOps(w, ops), next, w0)
    decreases |ops|
  {
    if ops != [] {
      OpStaysInPass(w, ops[0], next, w0);
      OpsStayInPass(DoOp(w, ops[0]), ops[1..], next, w0);
    }
  }

  lemma FireStaysInPass(w: World, i: nat, w0: World)
    requires i < SLOTS && Sized(w) && Sized(w0) && InPass(w, i, w0)
    requires w.entries[i].active && Due(w.entries[i].deadline, Wrap(w0.now))
    ensures InPass(Fire(w, i), i + 1, w0)
  {
    assert Ahead(w.entries[i], i, w0.now + TWO31, w0);
    DueIsPast(w.entries[i].due, w0.now);
    assert Waited(w0, w.entries[i].uid, w.entries[i].due);
  }

  lemma {:induction false} ExpireStaysInPass(w: World, i: nat, fired: bool, script: seq<seq<Op>>, w0: World)
    requires Sized(w) && Sized(w0) && i <= SLOTS && InPass(w, i, w0) && PassInTime(w, i, w0.now, script)
    ensures InPass(Expire(w, i, Wrap(w0.now), fired, script), SLOTS, w0)
    decreases SLOTS - i
  {
    if i == SLOTS {
      RescheduleStaysInPass(w, SLOTS, w0);
    } else if !w.entries[i].active || !Due(w.entries[i].deadline, Wrap(w0.now)) {
      ExpireStaysInPass(w, i + 1, fired, script, w0);
    } else {
      FireStaysInPass(w, i, w0);
      if w.entries[i].cb.None? {
        ExpireStaysInPass(Fire(w, i), i + 1, true, script, w0);
      } else {
        var ops := ScriptAt(script, i);
        OpsStayInPass(Fire(w, i), ops, i + 1, w0);
        ExpireStaysInPass(DoOps(Fire(w, i), ops), i + 1, true, script, w0);
      }
    }
  }

  lemma {:induction false} OpsOnlyAppend(w: World, ops: seq<Op>)
    requires Sized(w)
    ensures w.log <= DoOps(w, ops).log && w.serial <= DoOps(w, ops).serial && w.now <= DoOps(w, ops).now
    decreases |ops|
  {
    if ops != [] {
      OpsOnlyAppend(DoOp(w, ops[0]), ops[1..]);
    }
  }

  lemma {:induction false} ExpireOnlyAppends(w: World, i: nat, tick: u32, fired: bool, script: seq<seq<Op>>)
    requires Sized(w) && i <= SLOTS
    ensures w.log <= Expire(w, i, tick, fired, script).log
    decreases SLOTS - i
  {
    if i < SLOTS {
      if !w.entries[i].active || !Due(w.entries[i].deadline, tick) {
        ExpireOnlyAppends(w, i + 1, tick, fired, script);
      } else {
        OpsOnlyAppend(Fire(w, i), ScriptAt(script, i));
        var ran := if w.entries[i].cb.Some? then DoOps(Fire(w, i), ScriptAt(script, i)) else Fire(w, i);
        ExpireOnlyAppends(ran, i + 1, tick, true, script);
      }
    }
  }

  /** Active entries belong to registrations already made. */
  predicate Numbered(w: World)
    requires Sized(w)
  {
    forall i :: 0 <= i < SLOTS && w.entries[i].active ==> w.entries[i].uid < w.serial
  }

  /** No callback in the log ran before its registration's true deadline. */
  predicate NeverEarly(log: seq<End>) {
    forall k :: 0 <= k < |log| && log[k].Fired? ==> log[k].due <= log[k].at
  }

  /**
   * One interrupt: every callback it runs is of a registration that was waiting before it, at or after
   * that registration's true deadline, while the pass lasts; what a callback registers waits for a
   * later one. Each registration is held to the callback time elapsed when it is made, and to no more.
   */
  lemma PassFiresOnlyOldAndDue(w: World, script: seq<seq<Op>>)
    requires Sized(w) && Clocked(w) && Numbered(w) && EventInTime(w, Interrupt(script))
    ensures var w' := DoInterrupt(w, script);
            && w.log <= w'.log && Clocked(w')
            && forall k :: |w.log| <= k < |w'.log| && w'.log[k].Fired? ==>
                 && w'.log[k].due <= w'.log[k].at && w'.log[k].uid < w.serial
                 && w.now <= w'.log[k].at <= w'.now && Waited(w, w'.log[k].uid, w'.log[k].due)
  {
    if w.enabled && w.matched {
      var w1, w' := w.(enabled := false, matched := false), DoInterrupt(w, script);
      assert InPass(w1, 0, w1);
      ExpireOnlyAppends(w1, 0, Wrap(w.now), false, script);
      ExpireStaysInPass(w1, 0, false, script, w1);
      assert forall i: nat :: i < SLOTS ==> Ahead(w'.entries[i], i, w'.now + TWO31, w1);
      assert forall uid, due :: Waited(w1, uid, due) == Waited(w, uid, due);
    }
  }

  lemma {:induction false} ActiveIsWaiting(entries: seq<Entry>, n: nat, i: nat)
    requires i < n <= |entries| && entries[i].active
    ensures Waiting(entries, n, entries[i].uid) >= 1
  {
    if i < n - 1 {
      ActiveIsWaiting(entries, n - 1, i);
    }
  }

  lemma RunIsNumbered(w: World, events: seq<Event>)
    requires Initial(w)
    ensures Numbered(Run(w, events))
  {
    var r := Run(w, events);
    forall i | 0 <= i < SLOTS && r.entries[i].active
      ensures r.entries[i].uid < r.serial
    {
      EachRegistrationEndsOnce(w, events, r.entries[i].uid);
      ActiveIsWaiting(r.entries, SLOTS, i);
    }
  }

  lemma OpKeepsClocked(w: World, op: Op)
    requires Sized(w) && Clocked(w) && Numbered(w) && InTime(w, op, SLOTS, w.now)
    ensures Clocked(DoOp(w, op))
  {
    assert InPass(w, SLOTS, w);
    OpStaysInPass(w, op, SLOTS, w);
    var w' := DoOp(w, op);
    assert forall i: nat :: i < SLOTS ==> Ahead(w'.entries[i], i, w'.now + TWO31, w);
  }

  /** Every registration of the run is in time when it is made. */
  predicate RunInTime(w: World, events: seq<Event>)
    requires Sized(w)
  {
    events == []
    || var n := |events| - 1; RunInTime(w, events[..n]) && EventInTime(Run(w, events[..n]), events[n])
  }

  /**
   * On the unbounded clock, across any number of counter wraps: while every registration is at most
   * half a period ahead (of the start of the pass, for one a callback makes in a slot the pass has
   * yet to scan), no timer's callback ever runs before its true deadline.
   */
  lemma {:induction false} TimersAreNeverEarly(w: World, events: seq<Event>)
    requires Initial(w) && RunInTime(w, events)
    ensures NeverEarly(Run(w, events).log) && Clocked(Run(w, events))
  {
    if events != [] {
      var before, last := events[..|events| - 1], events[|events| - 1];
      TimersAreNeverEarly(w, before);
      RunIsNumbered(w, before);
      var b, r := Run(w, before), Run(w, events);
      match last
      case Do(op) =>
        OpKeepsClocked(b, op);
        OpsOnlyAppend(b, [op]);
        assert r.log == b.log || (|r.log| == |b.log| + 1 && r.log[..|b.log|] == b.log && r.log[|b.log|].Cancelled?);
      case Interrupt(script) =>
        PassFiresOnlyOldAndDue(b, script);
        assert forall k :: 0 <= k < |b.log| ==> r.log[k] == b.log[k];
    }
  }
}
