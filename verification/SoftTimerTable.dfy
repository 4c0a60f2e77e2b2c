/** The soft-timer module's own code over the compare timer's: a table of entries updated in place. */
module SoftTimerTable {
  import opened Common
  import opened SoftTimer

  /** The compare channel of the free-running counter; `now` is the unbounded clock behind the counter. */
  class HTimer {
    var counter: u32
    var compare: u32
    var enabled: bool
    var matched: bool
    ghost var now: nat

    ghost predicate Valid()
      reads this
    {
      counter == Wrap(now)
    }

    constructor ()
      ensures Valid() && now == 0 && !enabled && !matched
    {
      counter, compare, enabled, matched, now := 0, 0, false, false, 0;
    }

    method TickUs() returns (tick: u32)
      requires Valid()
      ensures tick == Wrap(now)
    {
      tick := counter;
    }

    /** Clears a stale match, then arms the compare. */
    method Arm(at: u32)
      modifies this`compare, this`enabled, this`matched
      ensures !matched && compare == at && enabled
    {
      matched := false;
      compare := at;
      enabled := true;
    }

    method StopCompare()
      modifies this`enabled
      ensures !enabled
    {
      enabled := false;
    }

    /** Time passes; the hardware sets the match flag when the counter meets the compare register. */
    method Advance(us: nat)
      requires Valid()
      modifies this`counter, this`now, this`matched
      ensures Valid() && now == old(now) + us
      ensures matched == (old(matched) || Wrap(compare - 1 - old(now)) + 1 <= us)
    {
      WrapInside(compare - 1, now);
      WrapInside(us, now);
      matched := matched || (compare - 1 - counter) % TWO32 + 1 <= us;
      counter := (us + counter) % TWO32;
      now := now + us;
    }
  }

  /** One row of the table. */
  datatype Row = Row(active: bool, deadline: u32, cb: Option<nat>)

  /** The part of an entry that the code stores. */
  function Stored(e: Entry): Row {
    Row(e.active, e.deadline, e.cb)
  }

  class Timers {
    const timer: HTimer
    const rows: array<Row>
    var nextDeadline: u32

    /** The whole state as a value, history included. */
    ghost var world: World

    ghost predicate Valid()
      reads this, timer, rows
    {
      && rows.Length == SLOTS && Sized(world)
      && (forall i :: 0 <= i < SLOTS ==> rows[i] == Stored(world.entries[i]))
      && world.next == nextDeadline
      && timer.Valid() && world.now == timer.now && world.compare == timer.compare
      && world.enabled == timer.enabled && world.matched == timer.matched
    }

    constructor (timer: HTimer)
      requires timer.Valid() && !timer.enabled && !timer.matched
      ensures Valid() && Initial(world) && this.timer == timer && fresh(rows)
    {
      this.timer := timer;
      rows := new Row[SLOTS](_ => Row(false, 0, None));
      nextDeadline := NONE;
      new;
      world := World(seq(SLOTS, _ => Entry(false, 0, None, 0, 0)), NONE,
                     timer.now, timer.compare, timer.enabled, timer.matched, 0, []);
    }

    /** The plain search: all-ones stands for none, and the comparison is numeric. */
    method FindEarliest() returns (best: u32)
      requires Valid()
      ensures best == EarliestOf(world.entries, SLOTS)
    {
      best := NONE;
      var i := 0;
      while i < SLOTS
        invariant i <= SLOTS && best == EarliestOf(world.entries, i)
      {
        if rows[i].active {
          if best == NONE || rows[i].deadline < best {
            best := rows[i].deadline;
          }
        }
        i := i + 1;
      }
    }

    method DoReschedule()
      requires Valid()
      modifies this`nextDeadline, this`world, timer`compare, timer`enabled, timer`matched
      ensures Valid() && Sized(old(world)) && world == Reschedule(old(world))
    {
      var now := timer.TickUs();
      WrapInside(1, timer.now);
      var earliest := FindEarliest();
      nextDeadline := earliest;
      if earliest == NONE {
        timer.StopCompare();
      } else if Due(earliest, now) {
        timer.Arm((1 + now) % TWO32);
      } else {
        timer.Arm(earliest);
      }
      world := Reschedule(world);
    }

    /** Takes the first free slot; reschedules only when the new deadline is numerically first. */
    method RegisterTimer(delay: u32, cb: Option<nat>) returns (id: int)
      requires Valid()
      modifies this`nextDeadline, this`world, timer`compare, timer`enabled, timer`matched, rows
      ensures Valid() && Sized(old(world)) && (world, id) == DoRegister(old(world), delay, cb)
    {
      if cb.None? || delay == 0 {
        return INVALID;
      }
      var i := 0;
      while i < SLOTS && rows[i].active
        invariant i <= SLOTS && FreeSlot(world.entries, i) == FreeSlot(world.entries, 0)
      {
        i := i + 1;
      }
      if i == SLOTS {
        return INVALID;
      }
      var now := timer.TickUs();
      WrapInside(delay, timer.now);
      var deadline := (delay + now) % TWO32;
      rows[i] := Row(true, deadline, cb);
      world := Enter(world, i, delay, cb);
      if nextDeadline == NONE || deadline < nextDeadline {
        DoReschedule();
      }
      id := i;
    }

    method UnregisterTimer(id: int)
      requires Valid()
      modifies this`nextDeadline, this`world, timer`compare, timer`enabled, timer`matched, rows
      ensures Valid() && Sized(old(world)) && world == DoUnregister(old(world), id)
    {
      if id < 0 || id >= SLOTS {
        return;
      }
      ghost var e := world.entries[id];
      rows[id] := rows[id].(active := false, cb := None);
      world := world.(entries := world.entries[id := e.(active := false, cb := None)],
                      log := if e.active then world.log + [Cancelled(e.uid)] else world.log);
      DoReschedule();
    }

    /** A callback's body: it may call back into this module, and takes time. */
    method RunCallback(ops: seq<Op>)
      requires Valid()
      modifies this`nextDeadline, this`world, timer, rows
      ensures Valid() && Sized(old(world)) && world == DoOps(old(world), ops)
    {
      var rest := ops;
      while rest != []
        invariant Valid() && DoOps(world, rest) == DoOps(old(world), ops)
        decreases |rest|
      {
        match rest[0] {
          case Register(delay, cb) => var _ := RegisterTimer(delay, cb);
          case Unregister(id) => UnregisterTimer(id);
          case Elapse(us) =>
            timer.Advance(us);
            world := DoElapse(world, us);
        }
        rest := rest[1..];
      }
    }

    /** One due row: deactivate it, then run its callback. */
    method FireRow(i: nat, ops: seq<Op>)
      requires Valid() && i < SLOTS && rows[i].active
      modifies this`nextDeadline, this`world, timer, rows
      ensures Valid() && Sized(old(world))
      ensures var f := Fire(old(world), i);
              world == if old(world).entries[i].cb.Some? then DoOps(f, ops) else f
    {
      var cb := rows[i].cb;
      world := Fire(world, i);
      rows[i] := rows[i].(active := false);
      if cb.Some? {
        RunCallback(ops);
      }
    }

    /** The expiry pass: the tick is read once; an entry is deactivated before its callback runs. */
    method ExpireHook(script: seq<seq<Op>>)
      requires Valid()
      modifies this`nextDeadline, this`world, timer, rows
      ensures Valid() && Sized(old(world))
      ensures world == Expire(old(world), 0, Wrap(old(world).now), false, script)
    {
      var now := timer.TickUs();
      var fired := false;
      var i := 0;
      while i < SLOTS
        invariant Valid() && i <= SLOTS
        invariant Expire(world, i, now, fired, script) == Expire(old(world), 0, now, false, script)
      {
        if rows[i].active && Due(rows[i].deadline, now) {
          fired := true;
          FireRow(i, ScriptAt(script, i));
        }
        i := i + 1;
      }
      if fired {
        DoReschedule();
      }
    }

    /** The compare interrupt: the HAL clears the match and the driver disables the compare before the pass. */
    method OcDelayElapsed(script: seq<seq<Op>>)
      requires Valid() && timer.enabled && timer.matched
      modifies this`nextDeadline, this`world, timer, rows
      ensures Valid() && Sized(old(world)) && world == DoInterrupt(old(world), script)
    {
      timer.matched := false;
      timer.StopCompare();
      world := world.(enabled := false, matched := false);
      ExpireHook(script);
    }
  }
}
