/**
 * The byte ring shared by one producer and one consumer that interrupt each other between any two
 * memory accesses: the full test, the slot write and the head publication on one side, the empty
 * test, the slot read and the tail publication on the other.
 */
module RingProtocol {
  import opened Common
  import opened RingBuf

  /** Where the producer stands inside one round of its push loop. */
  datatype Producer = Ready | Cleared(b: byte) | Filled(b: byte)

  /** Where the consumer stands inside one round of its pop loop. */
  datatype Consumer = Waiting | Seen | Copied(b: byte)

  /** `pushed` and `popped` are the histories of completed rounds. */
  datatype State = State(
    storage: seq<byte>, head: nat, tail: nat,
    producer: Producer, consumer: Consumer,
    pushed: seq<byte>, popped: seq<byte>)

  datatype Step = FullTest(b: byte) | Fill | Publish | EmptyTest | Copy | Free

  predicate Shape(s: State) {
    2 <= |s.storage| && s.head < |s.storage| && s.tail < |s.storage|
  }

  predicate Initial(s: State) {
    && Shape(s) && s.head == s.tail
    && s.producer == Ready && s.consumer == Waiting
    && s.pushed == [] && s.popped == []
  }

  /** One memory access; a step that its side is not ready for leaves the state alone. */
  function Apply(s: State, step: Step): (s': State)
    requires Shape(s)
    ensures Shape(s')
  {
    match (step, s.producer, s.consumer)
    case (FullTest(b), Ready, _) =>
      if Next(s.head, |s.storage|) == s.tail then s else s.(producer := Cleared(b))
    case (Fill, Cleared(b), _) =>
      s.(storage := s.storage[s.head := b], producer := Filled(b))
    case (Publish, Filled(b), _) =>
      s.(head := Next(s.head, |s.storage|), producer := Ready, pushed := s.pushed + [b])
    case (EmptyTest, _, Waiting) =>
      if s.tail == s.head then s else s.(consumer := Seen)
    case (Copy, _, Seen) =>
      s.(consumer := Copied(s.storage[s.tail]))
    case (Free, _, Copied(b)) =>
      s.(tail := Next(s.tail, |s.storage|), consumer := Waiting, popped := s.popped + [b])
    case _ => s
  }

  function Run(s: State, steps: seq<Step>): (s': State)
    requires Shape(s)
    ensures Shape(s')
  {
    if steps == [] then s else Apply(Run(s, steps[..|steps| - 1]), steps[|steps| - 1])
  }

  /** The bytes between tail and head. */
  function Stored(s: State): seq<byte>
    requires Shape(s)
  {
    Window(s.storage, s.tail, s.head)
  }

  predicate Inv(s: State) {
    && Shape(s)
    && s.pushed == s.popped + Stored(s)
    && (s.producer != Ready ==> Next(s.head, |s.storage|) != s.tail)
    && (s.producer.Filled? ==> s.storage[s.head] == s.producer.b)
    && (s.consumer != Waiting ==> s.tail != s.head)
    && (s.consumer.Copied? ==> s.storage[s.tail] == s.consumer.b)
  }

  /**
   * Every access of the producer is either invisible or one whole append to a bounded queue: the
   * full test passes exactly when there is room, and the publication appends the byte tested for,
   * with room still there however much later it happens.
   */
  lemma ProducerRefinesQueue(s: State, step: Step)
    requires Inv(s) && (step.FullTest? || step.Fill? || step.Publish?)
    ensures Inv(Apply(s, step)) && |Stored(s)| <= |s.storage| - 1
    ensures step.FullTest? && s.producer == Ready ==>
              (Apply(s, step).producer.Cleared? <==> |Stored(s)| < |s.storage| - 1)
    ensures if step.Publish? && s.producer.Filled?
            then |Stored(s)| < |s.storage| - 1 && Stored(Apply(s, step)) == Stored(s) + [s.producer.b]
            else Stored(Apply(s, step)) == Stored(s)
  {
    WindowBound(s.storage, s.tail, s.head);
    match (step, s.producer)
    case (Fill, Cleared(b)) =>
      WindowPush(s.storage, s.tail, s.head, b);
    case (Publish, Filled(b)) =>
      assert s.storage[s.head := b] == s.storage;
      WindowPush(s.storage, s.tail, s.head, b);
    case _ =>
  }

  /** Freeing a slot removes the oldest byte, which is the byte that was copied. */
  lemma FreeRefinesQueue(s: State)
    requires Inv(s) && s.consumer.Copied?
    ensures Inv(Apply(s, Free)) && Stored(s) == [s.consumer.b] + Stored(Apply(s, Free))
  {
    WindowPop(s.storage, s.tail, s.head);
    var b, left := s.consumer.b, Window(s.storage, Next(s.tail, |s.storage|), s.head);
    assert Apply(s, Free) == s.(tail := Next(s.tail, |s.storage|), consumer := Waiting, popped := s.popped + [b]);
    assert s.popped + ([b] + left) == (s.popped + [b]) + left;
  }

  /** Every access of the consumer is either invisible or one whole removal of the oldest byte. */
  lemma ConsumerRefinesQueue(s: State, step: Step)
    requires Inv(s) && (step.EmptyTest? || step.Copy? || step.Free?)
    ensures Inv(Apply(s, step))
    ensures step.EmptyTest? && s.consumer == Waiting ==>
              (Apply(s, step).consumer.Seen? <==> Stored(s) != [])
    ensures if step.Free? && s.consumer.Copied?
            then Stored(s) == [s.consumer.b] + Stored(Apply(s, step))
            else Stored(Apply(s, step)) == Stored(s)
  {
    match (step, s.consumer)
    case (Free, Copied(_)) => FreeRefinesQueue(s);
    case (EmptyTest, Waiting) => WindowBound(s.storage, s.tail, s.head);
    case _ =>
  }

  lemma {:induction false} RunKeepsInv(s: State, steps: seq<Step>)
    requires Inv(s)
    ensures Inv(Run(s, steps)) && |Run(s, steps).storage| == |s.storage|
  {
    if steps != [] {
      RunKeepsInv(s, steps[..|steps| - 1]);
      var r, step := Run(s, steps[..|steps| - 1]), steps[|steps| - 1];
      if step.FullTest? || step.Fill? || step.Publish? {
        ProducerRefinesQueue(r, step);
      } else {
        ConsumerRefinesQueue(r, step);
      }
    }
  }

  /**
   * Over every interleaving: the bytes popped and the bytes still stored are, in order, exactly the
   * bytes pushed; one slot always stays free; the byte the consumer is about to copy was published
   * and is the next one due; the slot the producer is about to fill is not among the unread ones.
   */
  lemma InterleavingIsSafe(s: State, steps: seq<Step>)
    requires Initial(s)
    ensures var r := Run(s, steps);
            && r.pushed == r.popped + Stored(r)
            && |Stored(r)| <= |s.storage| - 1
            && (r.consumer.Seen? ==> |r.popped| < |r.pushed| && Apply(r, Copy).consumer.b == r.pushed[|r.popped|])
            && (r.consumer.Copied? ==> |r.popped| < |r.pushed| && r.consumer.b == r.pushed[|r.popped|])
            && Stored(Apply(r, Fill)) == Stored(r)
  {
    RunKeepsInv(s, steps);
    var r := Run(s, steps);
    ProducerRefinesQueue(r, Fill);
    if r.consumer != Waiting {
      WindowPop(r.storage, r.tail, r.head);
    }
  }

  /** One undisturbed round on each side does what `RingBuffer.PushByte` and `RingBuffer.PopByte` do. */
  lemma UndisturbedRounds(s: State, b: byte)
    requires Inv(s) && s.producer == Ready && s.consumer == Waiting
    ensures Stored(Apply(Apply(Apply(s, FullTest(b)), Fill), Publish))
            == if |Stored(s)| < |s.storage| - 1 then Stored(s) + [b] else Stored(s)
    ensures Stored(Apply(Apply(Apply(s, EmptyTest), Copy), Free))
            == if Stored(s) == [] then [] else Stored(s)[1..]
  {
    var s1 := Apply(s, FullTest(b));
    var s2 := Apply(s1, Fill);
    ProducerRefinesQueue(s, FullTest(b));
    ProducerRefinesQueue(s1, Fill);
    ProducerRefinesQueue(s2, Publish);
    var t1 := Apply(s, EmptyTest);
    var t2 := Apply(t1, Copy);
    ConsumerRefinesQueue(s, EmptyTest);
    ConsumerRefinesQueue(t1, Copy);
    ConsumerRefinesQueue(t2, Free);
  }
}
