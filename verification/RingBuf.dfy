/** The single-producer single-consumer byte ring: its storage view and the run-to-completion operations. */
module RingBuf {
  import opened Common

  /** The index after `i`, wrapping at the capacity. */
  function Next(i: nat, capacity: nat): (next: nat)
    requires i < capacity
    ensures next < capacity
  {
    if i + 1 == capacity then 0 else i + 1
  }

  /** The wrap is the modulo the ring computes. */
  lemma NextIsModulo(i: nat, capacity: nat)
    requires i < capacity
    ensures (i + 1) % capacity == Next(i, capacity)
  {
    if i + 1 == capacity {
      assert capacity % capacity == 0;
    }
  }

  /** The unread bytes: from the read index round to the write index. */
  function Window(storage: seq<byte>, tail: nat, head: nat): seq<byte>
    requires tail < |storage| && head < |storage|
  {
    if tail <= head then storage[tail..head] else storage[tail..] + storage[..head]
  }

  lemma WindowBound(storage: seq<byte>, tail: nat, head: nat)
    requires tail < |storage| && head < |storage|
    ensures |Window(storage, tail, head)| < |storage|
    ensures Window(storage, tail, head) == [] <==> tail == head
    ensures Next(head, |storage|) == tail <==> |Window(storage, tail, head)| == |storage| - 1
  {
  }

  /** Writing the free slot at `head` and publishing it appends exactly that byte. */
  lemma WindowPush(storage: seq<byte>, tail: nat, head: nat, b: byte)
    requires tail < |storage| && head < |storage|
    requires Next(head, |storage|) != tail
    ensures Window(storage[head := b], tail, head) == Window(storage, tail, head)
    ensures Window(storage[head := b], tail, Next(head, |storage|)) == Window(storage, tail, head) + [b]
  {
    var after := storage[head := b];
    if head + 1 < |storage| {
      if tail <= head {
        assert after[tail..head + 1] == storage[tail..head] + [b];
      } else {
        assert after[tail..] == storage[tail..];
        assert after[..head + 1] == storage[..head] + [b];
      }
    } else {
      assert after[tail..] == storage[tail..head] + [b];
    }
  }

  /** Advancing `tail` over a non-empty window drops exactly its first byte. */
  lemma WindowPop(storage: seq<byte>, tail: nat, head: nat)
    requires tail < |storage| && head < |storage| && tail != head
    ensures Window(storage, tail, head) == [storage[tail]] + Window(storage, Next(tail, |storage|), head)
  {
    if tail + 1 == |storage| {
      assert storage[tail..] == [storage[tail]];
    }
  }

  class RingBuffer {
    var storage: array<byte>
    var capacity: nat
    var head: nat
    var tail: nat

    /** The bytes pushed and not yet popped, oldest first. */
    ghost var contents: seq<byte>

    ghost predicate Valid()
      reads this, storage
    {
      && capacity == storage.Length
      && 2 <= capacity < 0x1_0000
      && head < capacity
      && tail < capacity
      && contents == Window(storage[..], tail, head)
    }

    constructor (storage: array<byte>)
      requires 2 <= storage.Length < 0x1_0000
      ensures Valid() && contents == []
      ensures this.storage == storage && capacity == storage.Length
    {
      this.storage := storage;
      this.capacity := storage.Length;
      this.head := 0;
      this.tail := 0;
      this.contents := [];
    }

    method Len() returns (len: nat)
      requires Valid()
      ensures len == |contents|
    {
      if head >= tail {
        len := head - tail;
      } else {
        len := capacity - (tail - head);
      }
    }

    method Space() returns (space: nat)
      requires Valid()
      ensures space == capacity - 1 - |contents|
    {
      var len := Len();
      WindowBound(storage[..], tail, head);
      space := (capacity - 1) - len;
    }

    /** One round of the push loop: the full test, the slot write and the publication of the new head. */
    method PushByte(b: byte) returns (ok: bool)
      requires Valid()
      modifies this`head, this`contents, storage
      ensures Valid() && |contents| < capacity
      ensures ok <==> |old(contents)| < capacity - 1
      ensures contents == if ok then old(contents) + [b] else old(contents)
    {
      WindowBound(storage[..], tail, head);
      NextIsModulo(head, capacity);
      var next := (head + 1) % capacity;
      if next == tail {
        return false;
      }
      WindowPush(storage[..], tail, head, b);
      ghost var before := storage[..];
      storage[head] := b;
      assert storage[..] == before[head := b];
      head := next;
      contents := contents + [b];
      ok := true;
    }

    /** One round of the pop loop: the empty test, the slot read and the publication of the new tail. */
    method PopByte() returns (ok: bool, b: byte)
      requires Valid()
      modifies this`tail, this`contents
      ensures Valid()
      ensures ok <==> old(contents) != []
      ensures ok ==> old(contents) == [b] + contents
      ensures !ok ==> contents == []
    {
      WindowBound(storage[..], tail, head);
      if tail == head {
        return false, 0;
      }
      WindowPop(storage[..], tail, head);
      NextIsModulo(tail, capacity);
      ok, b := true, storage[tail];
      tail := (tail + 1) % capacity;
      contents := contents[1..];
    }

    /** Accepts as many bytes as fit below `capacity - 1`, in order. */
    method Push(data: seq<byte>) returns (pushed: nat)
      requires Valid()
      modifies this`head, this`contents, storage
      ensures Valid()
      ensures pushed == Min(|data|, capacity - 1 - |old(contents)|) && |old(contents)| < capacity
      ensures contents == old(contents) + data[..pushed]
    {
      pushed := 0;
      WindowBound(storage[..], tail, head);
      while pushed < |data|
        invariant Valid() && pushed <= |data|
        invariant contents == old(contents) + data[..pushed]
        invariant |contents| < capacity
      {
        var ok := PushByte(data[pushed]);
        if !ok {
          break;
        }
        pushed := pushed + 1;
      }
    }

    /** Moves as many of the oldest bytes as are there, at most `len`, to the front of `out`. */
    method Pop(out: array<byte>, len: nat) returns (popped: nat)
      requires Valid() && len <= out.Length && out != storage
      modifies this`tail, this`contents, out
      ensures Valid()
      ensures popped == Min(len, |old(contents)|)
      ensures out[..] == old(contents)[..popped] + old(out[..])[popped..]
      ensures contents == old(contents)[popped..]
    {
      popped := 0;
      while popped < len
        invariant Valid() && popped <= len && popped <= |old(contents)|
        invariant contents == old(contents)[popped..]
        invariant forall k :: 0 <= k < popped ==> out[k] == old(contents)[k]
        invariant forall k :: popped <= k < out.Length ==> out[k] == old(out[k])
      {
        var ok, b := PopByte();
        if !ok {
          break;
        }
        out[popped] := b;
        popped := popped + 1;
      }
    }
  }
}
