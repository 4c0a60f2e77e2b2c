/**
 * Sixteen software timers on one compare register of a free-running 32-bit microsecond counter.
 * The machine carries an unbounded clock `now`, of which the counter is the low 32 bits, and, beside
 * each entry's 32-bit deadline, the true time `due` it stands for. The code reads only the counter
 * and the 32-bit deadlines; `now`, `due`, `uid` and `log` are history.
 */
module SoftTimer {
  import opened Common

  const SLOTS: nat := 16
  const NONE: u32 := 0xFFFF_FFFF
  const INVALID: int := -1

  /** `cb` names a callback together with its context. */
  datatype Entry = Entry(active: bool, deadline: u32, cb: Option<nat>, due: nat, uid: nat)

  /** How a registration ended. */
  datatype End = Fired(uid: nat, at: nat, due: nat) | Cancelled(uid: nat)

  /**
   * `next` is the deadline the module believes armed; `compare`, `enabled` and `matched` are the
   * compare register, its interrupt enable and its match flag.
   */
  datatype World = World(
    entries: seq<Entry>, next: u32,
    now: nat, compare: u32, enabled: bool, matched: bool,
    serial: nat, log: seq<End>)

  /** What a task or a callback can do: register, unregister, or let time pass. */
  datatype Op = Register(delay: u32, cb: Option<nat>) | Unregister(id: int) | Elapse(us: nat)

  /** `script[i]` is what the callback in slot `i` does, should it run. */
  datatype Event = Do(op: Op) | Interrupt(script: seq<seq<Op>>)

  predicate Sized(w: World) {
    |w.entries| == SLOTS
  }

  function Wrap(t: int): u32 {
    t % 0x1_0000_0000
  }

  lemma WrapShift(x: int, q: int)
    ensures Wrap(x + q * 0x1_0000_0000) == Wrap(x)
  {
  }

  /** The counter may stand for the clock inside a wrapping sum or difference. */
  lemma WrapInside(x: int, t: int)
    ensures Wrap(x + Wrap(t)) == Wrap(x + t) && Wrap(x - Wrap(t)) == Wrap(x - t)
  {
    var q := t / 0x1_0000_0000;
    assert t == q * 0x1_0000_0000 + Wrap(t);
    WrapShift(x + t, -q);
    WrapShift(x - t, q);
  }

  predicate Due(deadline: u32, tick: u32) {
    Wrap(tick - deadline) < TWO31
  }

  /** The numerically smallest active deadline of the first `n` entries; all-ones stands for none. */
  function EarliestOf(entries: seq<Entry>, n: nat): u32
    requires n <= |entries|
  {
    if n == 0 then NONE
    else
      var best, e := EarliestOf(entries, n - 1), entries[n - 1];
      if e.active && (best == NONE || e.deadline < best) then e.deadline else best
  }

  function Schedule(w: World, at: u32): World {
    w.(compare := at, enabled := true, matched := false)
  }

  function Reschedule(w: World): (w': World)
    requires Sized(w)
    ensures w' == w.(next := w'.next, compare := w'.compare, enabled := w'.enabled, matched := w'.matched)
  {
    var earliest := EarliestOf(w.entries, SLOTS);
    var w1 := w.(next := earliest);
    if earliest == NONE then w1.(enabled := false)
    else if Due(earliest, Wrap(w.now)) then Schedule(w1, Wrap(w.now + 1))
    else Schedule(w1, earliest)
  }

  /** The first inactive slot from `i` on. */
  function FreeSlot(entries: seq<Entry>, i: nat): (slot: nat)
    requires i <= |entries|
    ensures i <= slot <= |entries|
    ensures slot < |entries| ==> !entries[slot].active
    ensures forall k :: i <= k < slot ==> entries[k].active
    decreases |entries| - i
  {
    if i == |entries| || !entries[i].active then i else FreeSlot(entries, i + 1)
  }

  /** The table after a registration in `slot`. */
  function Enter(w: World, slot: nat, delay: u32, cb: Option<nat>): World
    requires Sized(w) && slot < SLOTS
  {
    w.(entries := w.entries[slot := Entry(true, Wrap(w.now + delay), cb, w.now + delay, w.serial)],
       serial := w.serial + 1)
  }

  function DoRegister(w: World, delay: u32, cb: Option<nat>): (r: (World, int))
    requires Sized(w)
    ensures Sized(r.0)
  {
    var slot := FreeSlot(w.entries, 0);
    if cb.None? || delay == 0 || slot == SLOTS then (w, INVALID)
    else
      var w1 := Enter(w, slot, delay, cb);
      var deadline := w1.entries[slot].deadline;
      (if w.next == NONE || deadline < w.next then Reschedule(w1) else w1, slot)
  }

  function DoUnregister(w: World, id: int): (w': World)
    requires Sized(w)
    ensures Sized(w')
  {
    if id < 0 || id >= SLOTS then w
    else
      var e := w.entries[id];
      Reschedule(w.(entries := w.entries[id := e.(active := false, cb := None)],
                    log := if e.active then w.log + [Cancelled(e.uid)] else w.log))
  }

  /** Microseconds until the counter next equals the compare register. */
  function UntilMatch(w: World): (d: nat)
    ensures 1 <= d <= TWO32
  {
    Wrap(w.compare - 1 - w.now) + 1
  }

  function DoElapse(w: World, us: nat): World {
    w.(now := w.now + us, matched := w.matched || UntilMatch(w) <= us)
  }

  function DoOp(w: World, op: Op): (w': World)
    requires Sized(w)
    ensures Sized(w')
  {
    match op
    case Register(delay, cb) => DoRegister(w, delay, cb).0
    case Unregister(id) => DoUnregister(w, id)
    case Elapse(us) => DoElapse(w, us)
  }

  function DoOps(w: World, ops: seq<Op>): (w': World)
    requires Sized(w)
    ensures Sized(w')
    decreases |ops|
  {
    if ops == [] then w else DoOps(DoOp(w, ops[0]), ops[1..])
  }

  /** The entry leaves the table just before its callback runs. */
  function Fire(w: World, i: nat): World
    requires Sized(w) && i < SLOTS
  {
    var e := w.entries[i];
    w.(entries := w.entries[i := e.(active := false)], log := w.log + [Fired(e.uid, w.now, e.due)])
  }

  function ScriptAt(script: seq<seq<Op>>, i: nat): seq<Op> {
    if i < |script| then script[i] else []
  }

  /** The expiry pass from slot `i` on; `tick` was read once at its start. */
  function Expire(w: World, i: nat, tick: u32, fired: bool, script: seq<seq<Op>>): (w': World)
    requires Sized(w) && i <= SLOTS
    ensures Sized(w')
    decreases SLOTS - i
  {
    if i == SLOTS then (if fired then Reschedule(w) else w)
    else if !w.entries[i].active || !Due(w.entries[i].deadline, tick) then Expire(w, i + 1, tick, fired, script)
    else
      var ran := if w.entries[i].cb.Some? then DoOps(Fire(w, i), ScriptAt(script, i)) else Fire(w, i);
      Expire(ran, i + 1, tick, true, script)
  }

  /** The compare interrupt: disabled first, then the expiry pass. It is taken only when enabled and matched. */
  function DoInterrupt(w: World, script: seq<seq<Op>>): (w': World)
    requires Sized(w)
    ensures Sized(w')
  {
    if w.enabled && w.matched
    then Expire(w.(enabled := false, matched := false), 0, Wrap(w.now), false, script)
    else w
  }

  function Apply(w: World, event: Event): (w': World)
    requires Sized(w)
    ensures Sized(w')
  {
    match event
    case Do(op) => DoOp(w, op)
    case Interrupt(script) => DoInterrupt(w, script)
  }

  function Run(w: World, events: seq<Event>): (w': World)
    requires Sized(w)
    ensures Sized(w')
  {
    if events == [] then w else Apply(Run(w, events[..|events| - 1]), events[|events| - 1])
  }

  predicate Initial(w: World) {
    && Sized(w) && (forall i :: 0 <= i < SLOTS ==> !w.entries[i].active)
    && w.next == NONE && !w.enabled && !w.matched && w.serial == 0 && w.log == []
  }

  /**
   * A registration is refused without a callback, without a delay, or with all sixteen slots active.
   * Otherwise it takes the first inactive slot, due its delay from now, and touches no other.
   */
  lemma RegisterEntersIff(w: World, delay: u32, cb: Option<nat>)
    requires Sized(w)
    ensures var (r, id) := DoRegister(w, delay, cb);
            && r.now == w.now && r.log == w.log
            && (id == -1 <==> cb.None? || delay == 0 || forall k :: 0 <= k < 16 ==> w.entries[k].active)
            && (id == -1 ==> r == w)
            && (id != -1 ==>
                  && 0 <= id < 16 && !w.entries[id].active && (forall k :: 0 <= k < id ==> w.entries[k].active)
                  && r.entries == w.entries[id := Entry(true, Wrap(w.now + delay), cb, w.now + delay, w.serial)]
                  && r.serial == w.serial + 1)
  {
  }

  /** Cancelling a slot leaves it inactive and the others as they were; an id outside the table does nothing. */
  lemma UnregisterFrees(w: World, id: int)
    requires Sized(w)
    ensures var r := DoUnregister(w, id);
            && r.now == w.now && r.serial == w.serial
            && (!(0 <= id < 16) ==> r == w)
            && (0 <= id < 16 ==>
                  && r.entries == w.entries[id := w.entries[id].(active := false, cb := None)]
                  && r.log == w.log + if w.entries[id].active then [Cancelled(w.entries[id].uid)] else [])
  {
    if 0 <= id < 16 {
      assert w.log + [] == w.log;
    }
  }

  /** `m` is the minimum of the active deadlines, with all-ones above them all. */
  predicate IsMin(entries: seq<Entry>, m: u32) {
    && (forall i :: 0 <= i < |entries| && entries[i].active ==> m <= entries[i].deadline)
    && (m == NONE || exists i :: 0 <= i < |entries| && entries[i].active && entries[i].deadline == m)
  }

  lemma {:induction false} EarliestIsMin(entries: seq<Entry>, n: nat)
    requires n <= |entries|
    ensures IsMin(entries[..n], EarliestOf(entries, n))
  {
    if n > 0 {
      EarliestIsMin(entries, n - 1);
      var best := EarliestOf(entries, n);
      assert entries[..n][..n - 1] == entries[..n - 1];
      assert forall i :: 0 <= i < n - 1 ==> entries[..n][i] == entries[..n - 1][i];
      if best != NONE && best == EarliestOf(entries, n - 1) {
        var i :| 0 <= i < n - 1 && entries[..n - 1][i].active && entries[..n - 1][i].deadline == best;
        assert entries[..n][i].active && entries[..n][i].deadline == best;
      } else if best != NONE {
        assert entries[..n][n - 1].active && entries[..n][n - 1].deadline == best;
      }
    }
  }

  /**
   * Outside an expiry pass: the believed deadline is the minimum, and the interrupt is enabled exactly
   * when there is one.
   */
  predicate Armed(w: World)
    requires Sized(w)
  {
    && IsMin(w.entries, w.next)
    && (w.enabled <==> w.next != NONE)
  }

  /** The interrupt is enabled if and only if some active deadline is not the all-ones sentinel. */
  lemma EnabledIff(w: World)
    requires Sized(w) && Armed(w)
    ensures w.enabled <==> exists i :: 0 <= i < SLOTS && w.entries[i].active && w.entries[i].deadline != NONE
  {
    if w.enabled {
      var i :| 0 <= i < SLOTS && w.entries[i].active && w.entries[i].deadline == w.next;
      assert w.entries[i].deadline != NONE;
    }
  }

  lemma RescheduleArms(w: World)
    requires Sized(w)
    ensures Armed(Reschedule(w))
  {
    EarliestIsMin(w.entries, SLOTS);
    assert w.entries[..SLOTS] == w.entries;
  }

  lemma OpKeepsArmed(w: World, op: Op)
    requires Sized(w) && Armed(w)
    ensures Armed(DoOp(w, op))
  {
    match op
    case Register(delay, cb) =>
      var slot := FreeSlot(w.entries, 0);
      if cb.Some? && delay != 0 && slot < SLOTS {
        var w1 := Enter(w, slot, delay, cb);
        RescheduleArms(w1);
        if w.next != NONE && w.next <= w1.entries[slot].deadline {
          var i :| 0 <= i < SLOTS && w.entries[i].active && w.entries[i].deadline == w.next;
          assert w1.entries[i].active && w1.entries[i].deadline == w.next;
        }
      }
    case Unregister(id) =>
      if 0 <= id < SLOTS {
        var e := w.entries[id];
        RescheduleArms(w.(entries := w.entries[id := e.(active := false, cb := None)],
                          log := if e.active then w.log + [Cancelled(e.uid)] else w.log));
      }
    case Elapse(_) =>
  }

  /** Some active entry is due at `tick`, from slot `i` on. */
  predicate AnyDue(w: World, i: nat, tick: u32)
    requires Sized(w)
  {
    exists k :: i <= k < SLOTS && w.entries[k].active && Due(w.entries[k].deadline, tick)
  }

  /** The pass re-arms when it has fired or finds an entry due; otherwise it changes nothing. */
  lemma {:induction false} ExpireOutcome(w: World, i: nat, tick: u32, fired: bool, script: seq<seq<Op>>)
    requires Sized(w) && i <= SLOTS
    ensures fired || AnyDue(w, i, tick) ==> Armed(Expire(w, i, tick, fired, script))
    ensures !fired && !AnyDue(w, i, tick) ==> Expire(w, i, tick, fired, script) == w
    decreases SLOTS - i
  {
    if i == SLOTS {
      RescheduleArms(w);
    } else if !w.entries[i].active || !Due(w.entries[i].deadline, tick) {
      ExpireOutcome(w, i + 1, tick, fired, script);
    } else {
      var ran := if w.entries[i].cb.Some? then DoOps(Fire(w, i), ScriptAt(script, i)) else Fire(w, i);
      ExpireOutcome(ran, i + 1, tick, true, script);
    }
  }

  /**
   * A compare interrupt leaves the multiplexer armed if and only if it finds some entry due; if it
   * finds none, the interrupt stays disabled with entries still waiting. Callbacks may register and
   * unregister whatever they like.
   */
  lemma InterruptRearmsIff(w: World, script: seq<seq<Op>>)
    requires Sized(w) && Armed(w) && w.enabled && w.matched
    ensures Armed(DoInterrupt(w, script)) <==> AnyDue(w, 0, Wrap(w.now))
    ensures !AnyDue(w, 0, Wrap(w.now)) ==>
              !DoInterrupt(w, script).enabled && DoInterrupt(w, script).entries == w.entries && w.next != NONE
  {
    ExpireOutcome(w.(enabled := false, matched := false), 0, Wrap(w.now), false, script);
  }
}
