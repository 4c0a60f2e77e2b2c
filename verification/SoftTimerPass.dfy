/** A pass leaves no due timer behind: every registration it finds due has ended when it is over. */
module SoftTimerPass {
  import opened Common
  import opened SoftTimer
  import opened SoftTimerRuns
  import L = SoftTimerLimits

  /** Registration `uid` waits nowhere but in slot `k`, from slot `i` on, and with this deadline. */
  predicate OnlyIn(w: World, uid: nat, k: nat, i: nat, deadline: u32)
    requires Sized(w)
  {
    && uid < w.serial
    && forall j :: 0 <= j < SLOTS && w.entries[j].active && w.entries[j].uid == uid ==>
         j == k && i <= j && w.entries[j].deadline == deadline
  }

  lemma OpKeepsOnly(w: World, op: Op, uid: nat, k: nat, i: nat, deadline: u32)
    requires Sized(w) && OnlyIn(w, uid, k, i, deadline)
    ensures OnlyIn(DoOp(w, op), uid, k, i, deadline)
  {
    match op
    case Register(delay, cb) => RegisterEntersIff(w, delay, cb);
    case Unregister(id) => UnregisterFrees(w, id);
    case Elapse(_) =>
  }

  lemma {:induction false} OpsKeepOnly(w: World, ops: seq<Op>, uid: nat, k: nat, i: nat, deadline: u32)
    requires Sized(w) && OnlyIn(w, uid, k, i, deadline)
    ensures OnlyIn(DoOps(w, ops), uid, k, i, deadline)
    decreases |ops|
  {
    if ops != [] {
      OpKeepsOnly(w, ops[0], uid, k, i, deadline);
      OpsKeepOnly(DoOp(w, ops[0]), ops[1..], uid, k, i, deadline);
    }
  }

  lemma {:induction false} PassEndsIt(
      w: World, i: nat, tick: u32, fired: bool, script: seq<seq<Op>>, uid: nat, k: nat, deadline: u32)
    requires Sized(w) && i <= SLOTS && OnlyIn(w, uid, k, i, deadline) && Due(deadline, tick)
    ensures OnlyIn(Expire(w, i, tick, fired, script), uid, k, SLOTS, deadline)
    decreases SLOTS - i
  {
    if i < SLOTS {
      if !w.entries[i].active || !Due(w.entries[i].deadline, tick) {
        PassEndsIt(w, i + 1, tick, fired, script, uid, k, deadline);
      } else {
        OpsKeepOnly(Fire(w, i), ScriptAt(script, i), uid, k, i + 1, deadline);
        var ran := if w.entries[i].cb.Some? then DoOps(Fire(w, i), ScriptAt(script, i)) else Fire(w, i);
        PassEndsIt(ran, i + 1, tick, true, script, uid, k, deadline);
      }
    }
  }

  lemma {:induction false} WaitsOnce(entries: seq<Entry>, n: nat, k: nat, j: nat)
    requires k < n <= |entries| && j < n && j != k
    requires entries[k].active && entries[j].active && entries[j].uid == entries[k].uid
    ensures Waiting(entries, n, entries[k].uid) >= 2
  {
    if k == n - 1 {
      ActiveIsWaiting(entries, n - 1, j);
    } else if j == n - 1 {
      ActiveIsWaiting(entries, n - 1, k);
    } else {
      WaitsOnce(entries, n - 1, k, j);
    }
  }

  lemma {:induction false} WaitsNowhere(entries: seq<Entry>, n: nat, uid: nat)
    requires n <= |entries| && forall j :: 0 <= j < n ==> !(entries[j].active && entries[j].uid == uid)
    ensures Waiting(entries, n, uid) == 0
  {
    if n > 0 {
      WaitsNowhere(entries, n - 1, uid);
    }
  }

  lemma WaitsOnlyIn(w: World, events: seq<Event>, k: nat)
    requires Initial(w) && k < SLOTS && Run(w, events).entries[k].active
    ensures var r := Run(w, events); OnlyIn(r, r.entries[k].uid, k, 0, r.entries[k].deadline)
  {
    var r := Run(w, events);
    var uid := r.entries[k].uid;
    RunIsNumbered(w, events);
    EachRegistrationEndsOnce(w, events, uid);
    forall j: nat | j < SLOTS && r.entries[j].active && r.entries[j].uid == uid
      ensures j == k
    {
      if j != k {
        WaitsOnce(r.entries, SLOTS, k, j);
      }
    }
  }

  /**
   * Over every run, whatever the callbacks do: a registration that a compare interrupt finds due has
   * ended when the interrupt returns. Its callback has run, once, or an earlier callback of the pass
   * cancelled it.
   */
  lemma {:induction false} PassEndsEveryDue(w: World, events: seq<Event>, script: seq<seq<Op>>, k: nat)
    requires Initial(w) && k < SLOTS
    requires var r := Run(w, events);
             r.enabled && r.matched && r.entries[k].active && Due(r.entries[k].deadline, Wrap(r.now))
    ensures var uid, r' := Run(w, events).entries[k].uid, DoInterrupt(Run(w, events), script);
            && Endings(r'.log, uid) == 1
            && forall j :: 0 <= j < SLOTS && r'.entries[j].active ==> r'.entries[j].uid != uid
  {
    var r := Run(w, events);
    var uid, deadline, r1 := r.entries[k].uid, r.entries[k].deadline, r.(enabled := false, matched := false);
    WaitsOnlyIn(w, events, k);
    EachRegistrationEndsOnce(w, events, uid);
    assert OnlyIn(r1, uid, k, 0, deadline);
    PassEndsIt(r1, 0, Wrap(r.now), false, script, uid, k, deadline);
    assert Accounted(r1, uid);
    ExpireAccounts(r1, 0, Wrap(r.now), false, script, uid);
    WaitsNowhere(DoInterrupt(r, script).entries, SLOTS, uid);
  }

  // ---- Which callback runs ----

  /** From slot `i` on nothing is due. */
  predicate NoneDue(w: World, i: nat, tick: u32)
    requires Sized(w)
  {
    forall j :: i <= j < SLOTS && w.entries[j].active ==> !Due(w.entries[j].deadline, tick)
  }

  lemma OpKeepsNoneDue(w: World, op: Op, i: nat, tick: u32)
    requires Sized(w) && NoneDue(w, i, tick) && !op.Register?
    ensures NoneDue(DoOp(w, op), i, tick)
  {
    if op.Unregister? {
      UnregisterFrees(w, op.id);
    }
  }

  lemma {:induction false} OpsKeepNoneDue(w: World, ops: seq<Op>, i: nat, tick: u32)
    requires Sized(w) && NoneDue(w, i, tick) && forall n :: 0 <= n < |ops| ==> !ops[n].Register?
    ensures NoneDue(DoOps(w, ops), i, tick)
    decreases |ops|
  {
    if ops != [] {
      OpKeepsNoneDue(w, ops[0], i, tick);
      OpsKeepNoneDue(DoOp(w, ops[0]), ops[1..], i, tick);
    }
  }

  /**
   * An interrupt that finds one entry due, in slot `k`, takes it out of the table, runs what its own
   * callback does, and re-arms; here the callback registers nothing, so nothing else can come due.
   */
  lemma OneDueRunsItsCallback(w: World, script: seq<seq<Op>>, k: nat)
    requires Sized(w) && w.enabled && w.matched && k < SLOTS && k < |script|
    requires w.entries[k].active && w.entries[k].cb.Some? && Due(w.entries[k].deadline, Wrap(w.now))
    requires forall j :: 0 <= j < SLOTS && j != k && w.entries[j].active ==> !Due(w.entries[j].deadline, Wrap(w.now))
    requires forall n :: 0 <= n < |script[k]| ==> !script[k][n].Register?
    ensures var e := w.entries[k];
            DoInterrupt(w, script)
            == Reschedule(DoOps(w.(enabled := false, matched := false,
                                   entries := w.entries[k := e.(active := false)],
                                   log := w.log + [Fired(e.uid, w.now, e.due)]), script[k]))
  {
    var tick, w1 := Wrap(w.now), w.(enabled := false, matched := false);
    L.ExpirePasses(w1, 0, k, tick, false, script);
    L.ExpireFires(w1, k, tick, false, script);
    var f := Fire(w1, k);
    assert NoneDue(f, k + 1, tick);
    OpsKeepNoneDue(f, script[k], k + 1, tick);
    L.ExpirePasses(DoOps(f, script[k]), k + 1, SLOTS, tick, true, script);
  }
}
