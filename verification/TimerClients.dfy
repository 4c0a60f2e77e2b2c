/**
 * The clients of the software timers: the I2C timeout, the IR receiver's idle timer, the IR
 * transmitter's segment timer and the sensor's sample timer. Each stores the id of at most one timer,
 * forgets it when it fires, and cancels it by that id. Client `c` registers its callback as `c`. What
 * is assumed of the clients here, `Board` proves of the four drivers.
 */
module TimerClients {
  import opened Common
  import opened SoftTimer

  /** `ids[c]` is the id client `c` has stored. */
  datatype State = State(w: World, ids: seq<int>)

  /**
   * `Rearm` cancels what is stored and registers anew, as the IR receiver and the sensor do; `Arm`
   * registers and overwrites what is stored, as the I2C driver and the IR transmitter do; `Fires` is
   * the expiry pass running the callback of a slot, which forgets its id before doing anything else.
   */
  datatype Event =
    | Rearm(c: nat, delay: u32)
    | Arm(c: nat, delay: u32)
    | Disarm(c: nat)
    | Fires(slot: nat)
    | Passes(us: nat)
    | Reschedules

  function DoDisarm(s: State, c: nat): (s': State)
    requires Sized(s.w) && c < |s.ids|
    ensures Sized(s'.w) && |s'.ids| == |s.ids| && s'.ids[c] < 0
  {
    if s.ids[c] >= 0 then State(DoUnregister(s.w, s.ids[c]), s.ids[c := INVALID]) else s
  }

  function DoArm(s: State, c: nat, delay: u32): (s': State)
    requires Sized(s.w) && c < |s.ids|
    ensures Sized(s'.w) && |s'.ids| == |s.ids|
  {
    var (w, id) := DoRegister(s.w, delay, Some(c));
    State(w, s.ids[c := id])
  }

  function DoRearm(s: State, c: nat, delay: u32): (s': State)
    requires Sized(s.w) && c < |s.ids|
    ensures Sized(s'.w) && |s'.ids| == |s.ids|
  {
    DoArm(DoDisarm(s, c), c, delay)
  }

  function DoFires(s: State, slot: nat): (s': State)
    requires Sized(s.w)
    ensures Sized(s'.w) && |s'.ids| == |s.ids|
  {
    if slot >= SLOTS || !s.w.entries[slot].active || s.w.entries[slot].cb.None? then s
    else
      var c := s.w.entries[slot].cb.value;
      State(Fire(s.w, slot), if c < |s.ids| then s.ids[c := INVALID] else s.ids)
  }

  function Apply(s: State, event: Event): (s': State)
    requires Sized(s.w)
    ensures Sized(s'.w) && |s'.ids| == |s.ids|
  {
    match event
    case Rearm(c, delay) => if c < |s.ids| then DoRearm(s, c, delay) else s
    case Arm(c, delay) => if c < |s.ids| then DoArm(s, c, delay) else s
    case Disarm(c) => if c < |s.ids| then DoDisarm(s, c) else s
    case Fires(slot) => DoFires(s, slot)
    case Passes(us) => s.(w := DoElapse(s.w, us))
    case Reschedules => s.(w := Reschedule(s.w))
  }

  function Run(s: State, events: seq<Event>): (s': State)
    requires Sized(s.w)
    ensures Sized(s'.w) && |s'.ids| == |s.ids|
  {
    if events == [] then s else Apply(Run(s, events[..|events| - 1]), events[|events| - 1])
  }

  /** The overwriting kind of registration happens only with nothing stored. */
  predicate Legal(s: State, event: Event) {
    event.Arm? && event.c < |s.ids| ==> s.ids[event.c] < 0
  }

  predicate LegalRun(s: State, events: seq<Event>)
    requires Sized(s.w)
  {
    events == []
    || var n := |events| - 1; LegalRun(s, events[..n]) && Legal(Run(s, events[..n]), events[n])
  }

  /** A stored id names an active slot with its client's callback, or is negative. */
  predicate Stored(entries: seq<Entry>, ids: seq<int>) {
    forall c :: 0 <= c < |ids| && ids[c] >= 0 ==>
      ids[c] < |entries| && entries[ids[c]].active && entries[ids[c]].cb == Some(c)
  }

  /** An active slot is stored by the client whose callback it holds. */
  predicate Held(entries: seq<Entry>, ids: seq<int>) {
    forall k :: 0 <= k < |entries| && entries[k].active ==>
      entries[k].cb.Some? && entries[k].cb.value < |ids| && ids[entries[k].cb.value] == k
  }

  predicate Owned(s: State) {
    Sized(s.w) && Stored(s.w.entries, s.ids) && Held(s.w.entries, s.ids)
  }

  predicate Starts(s: State) {
    Initial(s.w) && forall c :: 0 <= c < |s.ids| ==> s.ids[c] == INVALID
  }

  /** Cancelling touches no slot but the client's own. */
  lemma DisarmIsOwn(s: State, c: nat)
    requires Owned(s) && c < |s.ids|
    ensures Owned(DoDisarm(s, c))
    ensures forall k :: 0 <= k < SLOTS && s.w.entries[k].active ==>
              if s.w.entries[k].cb == Some(c) then !DoDisarm(s, c).w.entries[k].active
              else DoDisarm(s, c).w.entries[k] == s.w.entries[k]
  {
    if s.ids[c] >= 0 {
      var id := s.ids[c];
      assert DoDisarm(s, c).w.entries == s.w.entries[id := s.w.entries[id].(active := false, cb := None)];
    }
  }

  // ---- There is always a free slot ----

  /** The clients whose timers occupy the first `n` slots. */
  function Owners(entries: seq<Entry>, n: nat): set<nat>
    requires n <= |entries|
  {
    if n == 0 then {}
    else
      var e := entries[n - 1];
      Owners(entries, n - 1) + if e.active && e.cb.Some? then {e.cb.value} else {}
  }

  function ActiveCount(entries: seq<Entry>, n: nat): nat
    requires n <= |entries|
  {
    if n == 0 then 0 else ActiveCount(entries, n - 1) + if entries[n - 1].active then 1 else 0
  }

  lemma {:induction false} OwnersAreDistinct(entries: seq<Entry>, ids: seq<int>, n: nat)
    requires n <= |entries| && Held(entries, ids)
    ensures |Owners(entries, n)| == ActiveCount(entries, n)
    ensures forall c :: c in Owners(entries, n) ==> c < |ids| && 0 <= ids[c] < n
  {
    if n > 0 {
      OwnersAreDistinct(entries, ids, n - 1);
    }
  }

  function Below(n: nat): (s: set<nat>)
    ensures |s| == n
    ensures forall x: nat :: x in s <==> x < n
  {
    if n == 0 then {} else Below(n - 1) + {n - 1}
  }

  lemma SubsetSize(a: set<nat>, b: set<nat>)
    requires a <= b
    ensures |a| <= |b|
  {
    assert b == a + (b - a);
  }

  /** No more timers are active than there are clients, and one fewer when a client has none. */
  lemma ActiveAreFew(s: State, c: nat)
    requires Owned(s)
    ensures ActiveCount(s.w.entries, SLOTS) <= |s.ids|
    ensures c < |s.ids| && s.ids[c] < 0 ==> ActiveCount(s.w.entries, SLOTS) < |s.ids|
  {
    OwnersAreDistinct(s.w.entries, s.ids, SLOTS);
    var owners := Owners(s.w.entries, SLOTS);
    SubsetSize(owners, Below(|s.ids|));
    if c < |s.ids| && s.ids[c] < 0 {
      SubsetSize(owners, Below(|s.ids|) - {c});
    }
  }

  lemma {:induction false} FreeOrFull(entries: seq<Entry>, n: nat)
    requires n <= |entries|
    ensures ActiveCount(entries, n) <= n
    ensures ActiveCount(entries, n) < n ==> exists k :: 0 <= k < n && !entries[k].active
  {
    if n > 0 {
      FreeOrFull(entries, n - 1);
    }
  }

  lemma {:induction false} FreeSlotFinds(entries: seq<Entry>, i: nat, k: nat)
    requires i <= k < |entries| && !entries[k].active
    ensures FreeSlot(entries, i) <= k
    decreases k - i
  {
    if i < k {
      FreeSlotFinds(entries, i + 1, k);
    }
  }

  /** With at most sixteen clients, arming with a positive delay never runs out of slots. */
  lemma ArmFindsSlot(s: State, c: nat)
    requires Owned(s) && c < |s.ids| <= SLOTS && s.ids[c] < 0
    ensures FreeSlot(s.w.entries, 0) < SLOTS
  {
    ActiveAreFew(s, c);
    FreeOrFull(s.w.entries, SLOTS);
    var k :| 0 <= k < SLOTS && !s.w.entries[k].active;
    FreeSlotFinds(s.w.entries, 0, k);
  }

  lemma ArmOwns(s: State, c: nat, delay: u32)
    requires Owned(s) && c < |s.ids| && s.ids[c] < 0
    ensures Owned(DoArm(s, c, delay))
  {
    var slot := FreeSlot(s.w.entries, 0);
    if delay != 0 && slot < SLOTS {
      assert DoArm(s, c, delay).w.entries == Enter(s.w, slot, delay, Some(c)).entries;
    }
  }

  /**
   * Registering over a stored id leaves its timer running with nobody to cancel it: ownership survives
   * if and only if nothing was stored.
   */
  lemma ArmOwnsIff(s: State, c: nat, delay: u32)
    requires Owned(s) && c < |s.ids|
    ensures Owned(DoArm(s, c, delay)) <==> s.ids[c] < 0
  {
    if s.ids[c] < 0 {
      ArmOwns(s, c, delay);
    } else {
      var slot, lost := FreeSlot(s.w.entries, 0), s.ids[c];
      var a := DoArm(s, c, delay);
      assert a.w.entries[lost] == s.w.entries[lost] && a.ids[c] != lost;
    }
  }

  lemma FiresOwns(s: State, slot: nat)
    requires Owned(s)
    ensures Owned(DoFires(s, slot))
  {
    if slot < SLOTS && s.w.entries[slot].active {
      assert Fire(s.w, slot).entries == s.w.entries[slot := s.w.entries[slot].(active := false)];
    }
  }

  lemma EventOwns(s: State, event: Event)
    requires Owned(s) && Legal(s, event)
    ensures Owned(Apply(s, event))
  {
    match event
    case Rearm(c, delay) =>
      if c < |s.ids| {
        DisarmIsOwn(s, c);
        ArmOwns(DoDisarm(s, c), c, delay);
      }
    case Arm(c, delay) =>
      if c < |s.ids| {
        ArmOwns(s, c, delay);
      }
    case Disarm(c) =>
      if c < |s.ids| {
        DisarmIsOwn(s, c);
      }
    case Fires(slot) => FiresOwns(s, slot);
    case _ =>
  }

  /**
   * Over every run of at most sixteen clients (the boards have four): every stored id is negative or
   * names an active slot holding that client's own callback, every active slot is stored by its
   * client, no more slots are active than there are clients, and arming a client with a positive
   * delay always succeeds, leaving the timers of the others alone.
   */
  lemma {:induction false} ClientsOwnTheirTimers(s: State, events: seq<Event>, c: nat, delay: u32)
    requires Starts(s) && LegalRun(s, events) && c < |s.ids| <= SLOTS && delay != 0
    ensures var r := Run(s, events);
            && Owned(r)
            && ActiveCount(r.w.entries, SLOTS) <= |r.ids|
            && DoRearm(r, c, delay).ids[c] >= 0
            && (r.ids[c] < 0 ==> DoArm(r, c, delay).ids[c] >= 0)
            && forall k :: 0 <= k < SLOTS && r.w.entries[k].active && r.w.entries[k].cb != Some(c) ==>
                 DoRearm(r, c, delay).w.entries[k] == r.w.entries[k]
  {
    if events != [] {
      ClientsOwnTheirTimers(s, events[..|events| - 1], c, delay);
      EventOwns(Run(s, events[..|events| - 1]), events[|events| - 1]);
    }
    var r := Run(s, events);
    ActiveAreFew(r, c);
    DisarmIsOwn(r, c);
    ArmSucceeds(DoDisarm(r, c), c, delay);
    if r.ids[c] < 0 {
      ArmSucceeds(r, c, delay);
    }
  }

  lemma ArmSucceeds(s: State, c: nat, delay: u32)
    requires Owned(s) && c < |s.ids| <= SLOTS && delay != 0 && s.ids[c] < 0
    ensures DoArm(s, c, delay).ids[c] >= 0
    ensures forall k :: 0 <= k < SLOTS && s.w.entries[k].active ==> DoArm(s, c, delay).w.entries[k] == s.w.entries[k]
  {
    ArmFindsSlot(s, c);
    var slot := FreeSlot(s.w.entries, 0);
    assert DoArm(s, c, delay).w.entries == Enter(s.w, slot, delay, Some(c)).entries;
  }
}
