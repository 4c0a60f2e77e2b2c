/**
 * The queue of fixed-size slots that an interrupt fills in place and a task copies out of, first as
 * run-to-completion operations, then with the interrupt allowed between any two steps of the task.
 */
module SlotQueue {
  import opened Common
  import opened RingBuf

  const OK: int := 0
  const EMPTY: int := -1
  const FULL: int := -2

  /** The slot `i` places after `tail`. */
  function At(tail: nat, i: nat, depth: nat): (slot: nat)
    requires tail < depth && i <= depth
    ensures slot < depth
  {
    if tail + i < depth then tail + i else tail + i - depth
  }

  /** Walking on one slot at a time, as the code does with its modulo, arrives there. */
  lemma AtSteps(tail: nat, i: nat, depth: nat)
    requires tail < depth && i < depth
    ensures At(tail, 0, depth) == tail
    ensures At(tail, i + 1, depth) == (At(tail, i, depth) + 1) % depth
  {
    NextIsModulo(At(tail, i, depth), depth);
  }

  /** The `n` slots from `tail` on, wrapping. */
  function Live<T>(slots: seq<T>, tail: nat, n: nat): (live: seq<T>)
    requires tail < |slots| && n <= |slots|
    ensures |live| == n
  {
    seq(n, i requires 0 <= i < n => slots[At(tail, i, |slots|)])
  }

  /** The slot just past the live ones is not live: writing it changes nothing, and counting it appends it. */
  lemma LivePush<T>(slots: seq<T>, tail: nat, n: nat, x: T)
    requires tail < |slots| && n < |slots|
    ensures var head := At(tail, n, |slots|);
            && Live(slots[head := x], tail, n) == Live(slots, tail, n)
            && Live(slots[head := x], tail, n + 1) == Live(slots, tail, n) + [x]
            && At(tail, n + 1, |slots|) == Next(head, |slots|)
  {
    var head := At(tail, n, |slots|);
    forall i: nat | i < n
      ensures At(tail, i, |slots|) != head
    {
    }
  }

  lemma LivePop<T>(slots: seq<T>, tail: nat, n: nat)
    requires tail < |slots| && 0 < n <= |slots|
    ensures Live(slots, tail, n) == [slots[tail]] + Live(slots, Next(tail, |slots|), n - 1)
    ensures At(Next(tail, |slots|), n - 1, |slots|) == At(tail, n, |slots|)
  {
    forall i: nat | 0 < i < n
      ensures At(tail, i, |slots|) == At(Next(tail, |slots|), i - 1, |slots|)
    {
    }
  }

  class SlotQueue<T> {
    const slots: array<T>
    var head: nat
    var tail: nat
    var count: nat

    /** The elements released and not yet popped, oldest first. */
    ghost var contents: seq<T>

    ghost predicate Valid()
      reads this, slots
    {
      && 1 <= slots.Length < 0x100 && head < slots.Length && tail < slots.Length && count <= slots.Length
      && head == At(tail, count, slots.Length)
      && contents == Live(slots[..], tail, count)
    }

    constructor (slots: array<T>)
      requires 1 <= slots.Length < 0x100
      ensures Valid() && contents == [] && this.slots == slots
    {
      this.slots := slots;
      head, tail, count, contents := 0, 0, 0, [];
    }

    /** A slot to fill in place, unless all are in use. */
    method Acquire() returns (slot: Option<nat>)
      requires Valid()
      ensures slot.None? <==> |contents| == slots.Length
      ensures slot.Some? ==> slot.value == head
    {
      slot := if count >= slots.Length then None else Some(head);
    }

    /** Filling an acquired slot touches no queued element, whether or not it is ever released. */
    method Fill(slot: nat, x: T)
      requires Valid() && slot == head && |contents| < slots.Length
      modifies slots
      ensures Valid() && contents == old(contents) && slots[head] == x
    {
      LivePush(slots[..], tail, count, x);
      ghost var before := slots[..];
      slots[slot] := x;
      assert slots[..] == before[slot := x];
    }

    method Release()
      requires Valid()
      modifies this`head, this`count, this`contents
      ensures Valid()
      ensures contents == if |old(contents)| < slots.Length then old(contents) + [slots[old(head)]] else old(contents)
    {
      if count >= slots.Length {
        return;
      }
      LivePush(slots[..], tail, count, slots[head]);
      NextIsModulo(head, slots.Length);
      assert slots[..][head := slots[head]] == slots[..];
      contents := contents + [slots[head]];
      head := (head + 1) % slots.Length;
      count := count + 1;
    }

    method TryPush(x: T) returns (rc: int)
      requires Valid()
      modifies this`head, this`count, this`contents, slots
      ensures Valid()
      ensures rc == if |old(contents)| < slots.Length then OK else FULL
      ensures contents == if rc == OK then old(contents) + [x] else old(contents)
    {
      var slot := Acquire();
      if slot.None? {
        return FULL;
      }
      Fill(slot.value, x);
      Release();
      rc := OK;
    }

    method TryPop() returns (rc: int, out: Option<T>)
      requires Valid()
      modifies this`tail, this`count, this`contents
      ensures Valid()
      ensures rc == if old(contents) == [] then EMPTY else OK
      ensures if rc == OK then out.Some? && old(contents) == [out.value] + contents else out.None? && contents == []
    {
      if count == 0 {
        return EMPTY, None;
      }
      LivePop(slots[..], tail, count);
      NextIsModulo(tail, slots.Length);
      out := Some(slots[tail]);
      tail := (tail + 1) % slots.Length;
      count := count - 1;
      contents := contents[1..];
      rc := OK;
    }
  }

  // ---- The consumer interrupted between any two of its steps ----

  /**
   * Inside one pop: past the empty test with some bytes copied; with the tail published; with the
   * count read for its decrement. The decrement is a load and a store, as compiled from a volatile.
   */
  datatype Consumer = Waiting | Copying(buf: seq<byte>) | Freed(buf: seq<byte>) | Loaded(buf: seq<byte>, seen: nat)

  /** `released` and `popped` are histories. */
  datatype State = State(
    slots: seq<seq<byte>>, size: nat, head: nat, tail: nat, count: nat,
    consumer: Consumer, released: seq<seq<byte>>, popped: seq<seq<byte>>)

  /** The interrupt fills the acquired slot with `x` and releases it or abandons it. */
  datatype Step = Interrupt(x: seq<byte>, publish: bool) | EmptyTest | CopyByte | PublishTail | LoadCount | StoreCount

  predicate Shape(s: State) {
    && 0 < |s.slots| && s.head < |s.slots| && s.tail < |s.slots| && s.count <= |s.slots|
    && forall i :: 0 <= i < |s.slots| ==> |s.slots[i]| == s.size
  }

  function DoInterrupt(s: State, x: seq<byte>, publish: bool): (s': State)
    requires Shape(s)
    ensures Shape(s')
  {
    if s.count >= |s.slots| || |x| != s.size then s
    else
      var filled := s.(slots := s.slots[s.head := x]);
      if publish
      then filled.(head := Next(s.head, |s.slots|), count := s.count + 1, released := s.released + [x])
      else filled
  }

  /** One step; a consumer step out of turn leaves the state alone. */
  function Apply(s: State, step: Step): (s': State)
    requires Shape(s)
    ensures Shape(s')
  {
    match (step, s.consumer)
    case (Interrupt(x, publish), _) => DoInterrupt(s, x, publish)
    case (EmptyTest, Waiting) =>
      if s.count == 0 then s else s.(consumer := Copying([]))
    case (CopyByte, Copying(buf)) =>
      if |buf| < s.size then s.(consumer := Copying(buf + [s.slots[s.tail][|buf|]])) else s
    case (PublishTail, Copying(buf)) =>
      if |buf| < s.size then s else s.(tail := Next(s.tail, |s.slots|), consumer := Freed(buf))
    case (LoadCount, Freed(buf)) =>
      s.(consumer := Loaded(buf, s.count))
    case (StoreCount, Loaded(buf, seen)) =>
      if seen == 0 || seen > |s.slots| then s
      else s.(count := seen - 1, consumer := Waiting, popped := s.popped + [buf])
    case _ => s
  }

  function Run(s: State, steps: seq<Step>): (s': State)
    requires Shape(s)
    ensures Shape(s')
  {
    if steps == [] then s else Apply(Run(s, steps[..|steps| - 1]), steps[|steps| - 1])
  }

  predicate Initial(s: State) {
    && Shape(s) && s.head == s.tail && s.count == 0 && s.consumer == Waiting && s.released == [] && s.popped == []
  }

  /** Slots freed by the consumer but still counted. */
  function Lag(c: Consumer): nat {
    if c.Freed? || c.Loaded? then 1 else 0
  }

  /** The element copied out but not yet counted as popped. */
  function InHand(c: Consumer): seq<seq<byte>> {
    if c.Freed? || c.Loaded? then [c.buf] else []
  }

  function Queued(s: State): seq<seq<byte>>
    requires Shape(s) && Lag(s.consumer) <= s.count
  {
    Live(s.slots, s.tail, s.count - Lag(s.consumer))
  }

  predicate Inv(s: State) {
    && Shape(s) && Lag(s.consumer) <= s.count
    && s.head == At(s.tail, s.count - Lag(s.consumer), |s.slots|)
    && s.released == s.popped + InHand(s.consumer) + Queued(s)
    && (s.consumer.Copying? ==> s.count > 0 && s.consumer.buf <= s.slots[s.tail])
    && (s.consumer.Loaded? ==> s.consumer.seen == s.count)
  }

  /** A release between the load and the store of the count. */
  predicate Collides(s: State, step: Step)
    requires Shape(s)
  {
    s.consumer.Loaded? && step.Interrupt? && step.publish && |step.x| == s.size && s.count < |s.slots|
  }

  predicate Undisturbed(s: State, steps: seq<Step>)
    requires Shape(s)
  {
    steps == []
    || var n := |steps| - 1; Undisturbed(s, steps[..n]) && !Collides(Run(s, steps[..n]), steps[n])
  }

  /**
   * The interrupt finds a slot exactly when fewer than all are counted; the slot it fills is never a
   * live one; releasing appends it and abandoning it changes nothing.
   */
  lemma InterruptRefinesQueue(s: State, x: seq<byte>, publish: bool)
    requires Inv(s) && |x| == s.size && !(publish && s.consumer.Loaded?)
    ensures var s' := DoInterrupt(s, x, publish);
            && Inv(s')
            && Queued(s') == if publish && s.count < |s.slots| then Queued(s) + [x] else Queued(s)
  {
    if s.count < |s.slots| {
      var n := s.count - Lag(s.consumer);
      LivePush(s.slots, s.tail, n, x);
      if s.consumer.Copying? {
        assert At(s.tail, 0, |s.slots|) == s.tail != s.head;
      }
      assert (s.popped + InHand(s.consumer) + Queued(s)) + [x] == s.popped + InHand(s.consumer) + (Queued(s) + [x]);
    }
  }

  /**
   * Every consumer step is invisible, except publishing the tail, which removes the oldest element: the
   * one just copied whole.
   */
  lemma ConsumerRefinesQueue(s: State, step: Step)
    requires Inv(s) && !step.Interrupt?
    ensures Inv(Apply(s, step))
    ensures if step.PublishTail? && s.consumer.Copying? && |s.consumer.buf| == s.size
            then Queued(s) == [s.consumer.buf] + Queued(Apply(s, step))
            else Queued(Apply(s, step)) == Queued(s)
  {
    if step.PublishTail? && s.consumer.Copying? {
      LivePop(s.slots, s.tail, s.count);
      assert |s.consumer.buf| == s.size ==> s.consumer.buf == s.slots[s.tail];
      var after := Live(s.slots, Next(s.tail, |s.slots|), s.count - 1);
      assert s.popped + [] + ([s.slots[s.tail]] + after) == s.popped + [s.slots[s.tail]] + after;
    } else if step.StoreCount? && s.consumer.Loaded? {
      assert s.popped + [s.consumer.buf] + [] == s.popped + [s.consumer.buf];
    }
  }

  lemma StepKeepsInv(s: State, step: Step)
    requires Inv(s) && !Collides(s, step)
    ensures Inv(Apply(s, step))
  {
    match step
    case Interrupt(x, publish) =>
      if |x| == s.size && s.count < |s.slots| {
        InterruptRefinesQueue(s, x, publish);
      }
    case _ => ConsumerRefinesQueue(s, step);
  }

  /**
   * Over every interleaving in which no release falls between the load and the store of the count:
   * head is tail plus count modulo the depth, up to where the consumer stands; what was popped is a
   * prefix of what was released; and nothing is lost or reordered.
   */
  lemma {:induction false} InterleavingIsSafe(s: State, steps: seq<Step>)
    requires Initial(s) && Undisturbed(s, steps)
    ensures var r := Run(s, steps);
            && Inv(r)
            && r.head == At(r.tail, r.count - Lag(r.consumer), |r.slots|)
            && r.popped <= r.released
            && r.released == r.popped + InHand(r.consumer) + Queued(r)
  {
    RunKeepsInv(s, steps);
  }

  lemma InitialInv(s: State)
    requires Initial(s)
    ensures Inv(s)
  {
    assert Live(s.slots, s.tail, 0) == [];
  }

  lemma {:induction false} RunKeepsInv(s: State, steps: seq<Step>)
    requires Initial(s) && Undisturbed(s, steps)
    ensures Inv(Run(s, steps))
  {
    if steps == [] {
      InitialInv(s);
    } else {
      var n := |steps| - 1;
      RunKeepsInv(s, steps[..n]);
      StepKeepsInv(Run(s, steps[..n]), steps[n]);
    }
  }

  // ---- A pop left alone ----

  /** `n` bytes copied in a row. */
  function Copies(s: State, n: nat): (s': State)
    requires Shape(s)
    ensures Shape(s')
  {
    if n == 0 then s else Apply(Copies(s, n - 1), CopyByte)
  }

  lemma {:induction false} CopiesPrefix(s: State, n: nat)
    requires Shape(s) && s.consumer == Copying([]) && n <= s.size
    ensures Copies(s, n) == s.(consumer := Copying(s.slots[s.tail][..n]))
  {
    if n > 0 {
      CopiesPrefix(s, n - 1);
      assert s.slots[s.tail][..n] == s.slots[s.tail][..n - 1] + [s.slots[s.tail][n - 1]];
    }
  }

  /** The steps of one pop in a row. */
  function PopAlone(s: State): State
    requires Shape(s)
  {
    Apply(Apply(Apply(Copies(Apply(s, EmptyTest), s.size), PublishTail), LoadCount), StoreCount)
  }

  lemma CopiedWhole(s: State)
    requires Inv(s) && s.consumer == Waiting && s.count > 0
    ensures var c := Copies(Apply(s, EmptyTest), s.size);
            Inv(c) && c == s.(consumer := Copying(s.slots[s.tail])) && Queued(c) == Queued(s)
  {
    CopiesPrefix(Apply(s, EmptyTest), s.size);
    assert s.slots[s.tail][..s.size] == s.slots[s.tail];
  }

  lemma CopiedIsPopped(s: State)
    requires Inv(s) && s.consumer.Copying? && |s.consumer.buf| == s.size
    ensures var r := Apply(Apply(Apply(s, PublishTail), LoadCount), StoreCount);
            && Inv(r) && r.consumer == Waiting && Queued(s) == [s.consumer.buf] + Queued(r)
            && r.popped == s.popped + [s.consumer.buf] && r.count == s.count - 1 && r.released == s.released
  {
    var freed := Apply(s, PublishTail);
    var loaded := Apply(freed, LoadCount);
    ConsumerRefinesQueue(s, PublishTail);
    ConsumerRefinesQueue(freed, LoadCount);
    ConsumerRefinesQueue(loaded, StoreCount);
  }

  /**
   * A pop left alone takes the oldest element if there is one, frees its slot and counts it off; on an
   * empty queue it does nothing.
   */
  lemma UndisturbedPop(s: State)
    requires Inv(s) && s.consumer == Waiting
    ensures var r := PopAlone(s);
            && Inv(r) && r.consumer == Waiting
            && (Queued(s) == [] ==> r == s)
            && (Queued(s) != [] ==>
                  && r.popped == s.popped + [Queued(s)[0]] && Queued(s) == [Queued(s)[0]] + Queued(r)
                  && r.count == s.count - 1 && r.released == s.released)
  {
    if s.count == 0 {
      CopiesNothing(s, s.size);
    } else {
      CopiedWhole(s);
      CopiedIsPopped(Copies(Apply(s, EmptyTest), s.size));
    }
  }

  lemma {:induction false} CopiesNothing(s: State, n: nat)
    requires Shape(s) && s.consumer == Waiting
    ensures Copies(s, n) == s
  {
    if n > 0 {
      CopiesNothing(s, n - 1);
    }
  }

  /** Interrupts only, counting those that release. */
  function Releases(s: State, burst: seq<seq<byte>>): (s': State)
    requires Shape(s)
    ensures Shape(s')
  {
    if burst == [] then s else DoInterrupt(Releases(s, burst[..|burst| - 1]), burst[|burst| - 1], true)
  }

  lemma {:induction false} ReleasesOutcome(s: State, burst: seq<seq<byte>>)
    requires Shape(s) && forall i :: 0 <= i < |burst| ==> |burst[i]| == s.size
    ensures var r := Releases(s, burst);
            && r.count == Min(|s.slots|, s.count + |burst|) && r.consumer == s.consumer && r.popped == s.popped
            && r.size == s.size && |r.slots| == |s.slots|
            && r.tail == s.tail
            && r.released == s.released + burst[..r.count - s.count]
  {
    if burst != [] {
      ReleasesOutcome(s, burst[..|burst| - 1]);
      var r := Releases(s, burst[..|burst| - 1]);
      if r.count < |s.slots| {
        assert burst[..|burst|] == burst == burst[..|burst| - 1] + [burst[|burst| - 1]];
      }
    }
  }

  /**
   * The decrement is not atomic: when interrupts fall between its load and its store, the count it
   * leaves accounts for every element released and not popped if and only if none of them could
   * release. Each one that did is uncounted.
   */
  lemma DecrementIsExactIff(s: State, burst: seq<seq<byte>>)
    requires Inv(s) && s.consumer.Loaded?
    requires forall i :: 0 <= i < |burst| ==> |burst[i]| == s.size
    ensures var r := Apply(Releases(s, burst), StoreCount);
            && |r.released| - |r.popped| == r.count + (Releases(s, burst).count - s.count)
            && (Inv(r) <==> burst == [] || s.count == |s.slots|)
  {
    ReleasesOutcome(s, burst);
    var r := Apply(Releases(s, burst), StoreCount);
    assert |s.released| == |s.popped| + 1 + |Queued(s)|;
    if burst == [] {
      ConsumerRefinesQueue(s, StoreCount);
    } else if s.count == |s.slots| {
      FullReleases(s, burst);
      ConsumerRefinesQueue(s, StoreCount);
    }
  }

  lemma {:induction false} FullReleases(s: State, burst: seq<seq<byte>>)
    requires Shape(s) && s.count == |s.slots|
    ensures Releases(s, burst) == s
  {
    if burst != [] {
      FullReleases(s, burst[..|burst| - 1]);
    }
  }

  /**
   * A release that falls there with the queue otherwise empty is stranded: the queue then tests empty
   * with an element in it.
   */
  lemma CollidingReleaseIsStranded(s: State, x: seq<byte>)
    requires Inv(s) && s.consumer.Loaded? && s.count == 1 < |s.slots| && |x| == s.size
    ensures var r := Apply(Apply(s, Interrupt(x, true)), StoreCount);
            && r.consumer == Waiting && Apply(r, EmptyTest) == r
            && r.released == r.popped + [x]
  {
    assert s.released == s.popped + [s.consumer.buf] + [];
  }
}
