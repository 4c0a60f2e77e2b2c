/** The task registry: sixteen slots, one inbox queue and one notification count per registered node. */
module TaskManager {
  import opened Common

  const MAX_TASK: nat := 16
  const QUEUE_LENGTH: nat := 8

  const NODE_NONE: nat := 0
  const NODE_ISR: nat := 1

  const OK: int := 0
  const ERR_PARAM: int := -1
  const ERR_FULL: int := -2
  const ERR_EMPTY: int := -3
  const ERR_NOT_FOUND: int := -4

  datatype Message = Message(src: nat, opcode: nat, arg: nat)

  /** What a node can see of itself: its kernel handle, its inbox and its notification count. */
  datatype Box = Box(handle: nat, depth: nat, inbox: seq<Message>, notif: nat)

  /** A slot is free while its id is `NODE_NONE`. */
  datatype Slot = Slot(id: nat, box: Box)

  predicate UniqueIds(slots: seq<Slot>) {
    forall i, j :: 0 <= i < j < |slots| && slots[i].id != NODE_NONE ==> slots[i].id != slots[j].id
  }

  /** The registered nodes. */
  function View(slots: seq<Slot>): map<nat, Box> {
    if slots == [] then map[]
    else
      var last := slots[|slots| - 1];
      var front := View(slots[..|slots| - 1]);
      if last.id == NODE_NONE then front else front[last.id := last.box]
  }

  lemma {:induction false} ViewHas(slots: seq<Slot>, i: nat)
    requires UniqueIds(slots) && i < |slots| && slots[i].id != NODE_NONE
    ensures slots[i].id in View(slots) && View(slots)[slots[i].id] == slots[i].box
  {
    if i < |slots| - 1 {
      ViewHas(slots[..|slots| - 1], i);
    }
  }

  lemma {:induction false} ViewLacks(slots: seq<Slot>, id: nat)
    requires forall i :: 0 <= i < |slots| ==> slots[i].id != id
    ensures id !in View(slots)
  {
    if slots != [] {
      ViewLacks(slots[..|slots| - 1], id);
    }
  }

  lemma {:induction false} ViewLacksNone(slots: seq<Slot>)
    ensures NODE_NONE !in View(slots) && |View(slots)| <= |slots|
  {
    if slots != [] {
      ViewLacksNone(slots[..|slots| - 1]);
    }
  }

  lemma {:induction false} ViewIsFull(slots: seq<Slot>)
    requires UniqueIds(slots)
    ensures |View(slots)| == |slots| <==> forall i :: 0 <= i < |slots| ==> slots[i].id != NODE_NONE
  {
    if slots != [] {
      var n := |slots| - 1;
      ViewIsFull(slots[..n]);
      ViewLacksNone(slots[..n]);
      if slots[n].id != NODE_NONE {
        ViewLacks(slots[..n], slots[n].id);
      }
    }
  }

  /** Writing a slot that was free, or keeps its id, changes that node and no other. */
  lemma {:induction false} ViewWrite(slots: seq<Slot>, i: nat, slot: Slot)
    requires i < |slots| && UniqueIds(slots) && UniqueIds(slots[i := slot])
    requires slot.id != NODE_NONE && (slots[i].id == NODE_NONE || slots[i].id == slot.id)
    ensures View(slots[i := slot]) == View(slots)[slot.id := slot.box]
  {
    var n := |slots| - 1;
    if i == n {
      assert slots[i := slot][..n] == slots[..n];
    } else {
      assert slots[i := slot][..n] == slots[..n][i := slot];
      ViewWrite(slots[..n], i, slot);
      assert slots[i := slot][i].id != slots[i := slot][n].id;
    }
  }

  // ---- What the operations mean for the nodes ----

  /** A message is queued and its receiver notified, unless the inbox is full. */
  predicate Accepts(boxes: map<nat, Box>, to: nat) {
    to in boxes && |boxes[to].inbox| < boxes[to].depth
  }

  function Put(boxes: map<nat, Box>, to: nat, msg: Message): map<nat, Box>
    requires Accepts(boxes, to)
  {
    var b := boxes[to];
    boxes[to := b.(inbox := b.inbox + [msg], notif := b.notif + 1)]
  }

  function Get(boxes: map<nat, Box>, node: nat): map<nat, Box>
    requires node in boxes && boxes[node].inbox != []
  {
    boxes[node := boxes[node].(inbox := boxes[node].inbox[1..])]
  }

  function Take(boxes: map<nat, Box>, node: nat): map<nat, Box>
    requires node in boxes
  {
    boxes[node := boxes[node].(notif := 0)]
  }

  /** The node whose task is running, found by its kernel handle. */
  predicate IsSelf(boxes: map<nat, Box>, me: nat, node: nat) {
    if node == NODE_NONE then forall n :: n in boxes ==> boxes[n].handle != me
    else node in boxes && boxes[node].handle == me
  }

  class Manager {
    const slots: array<Slot>

    ghost predicate Valid()
      reads this, slots
    {
      slots.Length == MAX_TASK && UniqueIds(slots[..])
    }

    /** The registered nodes. */
    ghost function Boxes(): map<nat, Box>
      reads this, slots
    {
      View(slots[..])
    }

    constructor ()
      ensures Valid() && Boxes() == map[] && fresh(slots)
    {
      slots := new Slot[MAX_TASK](_ => Slot(NODE_NONE, Box(0, 0, [], 0)));
      new;
      NoneRegistered(slots[..]);
    }

    static lemma {:induction false} NoneRegistered(slots: seq<Slot>)
      requires forall i :: 0 <= i < |slots| ==> slots[i].id == NODE_NONE
      ensures View(slots) == map[]
    {
      if slots != [] {
        NoneRegistered(slots[..|slots| - 1]);
      }
    }

    /** The first slot of that id, or 16; asked for `NODE_NONE` it finds a free one. */
    method Find(id: nat) returns (i: nat)
      requires Valid()
      ensures i <= MAX_TASK
      ensures i < MAX_TASK ==> slots[i].id == id
      ensures i == MAX_TASK ==> forall k :: 0 <= k < MAX_TASK ==> slots[k].id != id
      ensures id != NODE_NONE ==> (i < MAX_TASK <==> id in Boxes())
      ensures id != NODE_NONE && i < MAX_TASK ==> Boxes()[id] == slots[i].box
      ensures id == NODE_NONE ==> (i == MAX_TASK <==> |Boxes()| == MAX_TASK)
    {
      i := 0;
      while i < MAX_TASK && slots[i].id != id
        invariant i <= MAX_TASK && forall k :: 0 <= k < i ==> slots[k].id != id
      {
        i := i + 1;
      }
      ViewIsFull(slots[..]);
      if i == MAX_TASK {
        ViewLacks(slots[..], id);
      } else {
        assert slots[..][i].id == id;
        if id != NODE_NONE {
          ViewHas(slots[..], i);
        }
      }
    }

    method WriteSlot(i: nat, slot: Slot)
      requires Valid() && i < MAX_TASK && slot.id != NODE_NONE
      requires slots[i].id == slot.id || (slots[i].id == NODE_NONE && slot.id !in Boxes())
      modifies slots
      ensures Valid() && Boxes() == old(Boxes())[slot.id := slot.box]
    {
      ghost var before := slots[..];
      if slots[i].id == NODE_NONE {
        forall k | 0 <= k < MAX_TASK
          ensures before[k].id != slot.id
        {
          if before[k].id == slot.id {
            ViewHas(before, k);
          }
        }
      }
      slots[i] := slot;
      assert slots[..] == before[i := slot];
      ViewWrite(before, i, slot);
    }

    /**
     * Registers a node with an empty inbox, or fails leaving every node as it was. `queueOk` and
     * `created` are the kernel's answers, `handle` the handle it gives.
     */
    method Init(id: nat, named: bool, hasHandler: bool, queueLen: nat, queueOk: bool, created: bool, handle: nat)
      returns (rc: int)
      requires Valid()
      modifies slots
      ensures Valid()
      ensures rc == ERR_PARAM <==>
                id == NODE_NONE || id == NODE_ISR || !named || !hasHandler || id in old(Boxes())
      ensures rc == ERR_FULL ==> |old(Boxes())| == 16 || !queueOk || !created
      ensures rc == OK ==> |old(Boxes())| < 16 && queueOk && created
      ensures rc == OK || rc == ERR_PARAM || rc == ERR_FULL
      ensures Boxes() ==
              if rc != OK then old(Boxes())
              else old(Boxes())[id := Box(handle, if queueLen != 0 then queueLen else 8, [], 0)]
    {
      if id == NODE_NONE || id == NODE_ISR || !named {
        return ERR_PARAM;
      }
      if !hasHandler {
        return ERR_PARAM;
      }
      var i := Find(id);
      if i < MAX_TASK {
        return ERR_PARAM;
      }
      ViewLacksNone(slots[..]);
      i := Find(NODE_NONE);
      if i == MAX_TASK {
        return ERR_FULL;
      }
      var depth := if queueLen != 0 then queueLen else QUEUE_LENGTH;
      if !queueOk || !created {
        return ERR_FULL;
      }
      WriteSlot(i, Slot(id, Box(handle, depth, [], 0)));
      rc := OK;
    }

    method Self(me: nat) returns (node: nat)
      requires Valid()
      ensures IsSelf(Boxes(), me, node)
    {
      var i := 0;
      while i < MAX_TASK && !(slots[i].id != NODE_NONE && slots[i].box.handle == me)
        invariant i <= MAX_TASK
        invariant forall k :: 0 <= k < i ==> slots[k].id == NODE_NONE || slots[k].box.handle != me
      {
        i := i + 1;
      }
      if i == MAX_TASK {
        NoneIsMe(slots[..], me);
        return NODE_NONE;
      }
      ViewHas(slots[..], i);
      node := slots[i].id;
    }

    static lemma {:induction false} NoneIsMe(slots: seq<Slot>, me: nat)
      requires forall k :: 0 <= k < |slots| ==> slots[k].id == NODE_NONE || slots[k].box.handle != me
      ensures forall n :: n in View(slots) ==> View(slots)[n].handle != me
    {
      if slots != [] {
        NoneIsMe(slots[..|slots| - 1], me);
      }
    }

    /** Queues the message, stamped with its source, and notifies the receiver. */
    method PostTo(to: nat, msg: Message) returns (rc: int)
      requires Valid() && to != NODE_NONE
      modifies slots
      ensures Valid()
      ensures rc == if to !in old(Boxes()) then ERR_NOT_FOUND
                    else if |old(Boxes())[to].inbox| < old(Boxes())[to].depth then OK else ERR_FULL
      ensures rc == OK ==>
                var b := old(Boxes())[to];
                Boxes() == old(Boxes())[to := b.(inbox := b.inbox + [msg], notif := b.notif + 1)]
      ensures rc != OK ==> Boxes() == old(Boxes())
    {
      var i := Find(to);
      if i == MAX_TASK {
        return ERR_NOT_FOUND;
      }
      var box := slots[i].box;
      if |box.inbox| >= box.depth {
        return ERR_FULL;
      }
      WriteSlot(i, Slot(to, box.(inbox := box.inbox + [msg], notif := box.notif + 1)));
      rc := OK;
    }

    /** From a task: the source is the node of the running task, which must be registered. */
    method SendMessage(to: nat, msg: Message, me: nat) returns (rc: int, ghost self: nat)
      requires Valid()
      modifies slots
      ensures Valid() && IsSelf(old(Boxes()), me, self)
      ensures rc == if to == NODE_NONE || self == NODE_NONE then ERR_PARAM
                    else if to !in old(Boxes()) then ERR_NOT_FOUND
                    else if |old(Boxes())[to].inbox| < old(Boxes())[to].depth then OK else ERR_FULL
      ensures rc == OK ==>
                var b := old(Boxes())[to];
                Boxes() == old(Boxes())[to := b.(inbox := b.inbox + [msg.(src := self)], notif := b.notif + 1)]
      ensures rc != OK ==> Boxes() == old(Boxes())
    {
      var node := Self(me);
      self := node;
      if to == NODE_NONE || node == NODE_NONE {
        return ERR_PARAM, self;
      }
      rc := PostTo(to, msg.(src := node));
    }

    method SendFromIsr(to: nat, msg: Message) returns (rc: int)
      requires Valid()
      modifies slots
      ensures Valid()
      ensures rc == if to == NODE_NONE || to == NODE_ISR then ERR_PARAM
                    else if to !in old(Boxes()) then ERR_NOT_FOUND
                    else if |old(Boxes())[to].inbox| < old(Boxes())[to].depth then OK else ERR_FULL
      ensures rc == OK ==>
                var b := old(Boxes())[to];
                Boxes() == old(Boxes())[to := b.(inbox := b.inbox + [msg.(src := NODE_ISR)], notif := b.notif + 1)]
      ensures rc != OK ==> Boxes() == old(Boxes())
    {
      if to == NODE_NONE || to == NODE_ISR {
        return ERR_PARAM;
      }
      rc := PostTo(to, msg.(src := NODE_ISR));
    }

    /** The oldest message of the running task's inbox. */
    method Recv(me: nat) returns (rc: int, msg: Option<Message>, ghost self: nat)
      requires Valid()
      modifies slots
      ensures Valid() && IsSelf(old(Boxes()), me, self)
      ensures rc == if self == NODE_NONE then ERR_PARAM else if old(Boxes())[self].inbox == [] then ERR_EMPTY else OK
      ensures rc == OK ==>
                var b := old(Boxes())[self];
                && msg == Some(b.inbox[0])
                && Boxes() == old(Boxes())[self := b.(inbox := b.inbox[1..])]
      ensures rc != OK ==> msg == None && Boxes() == old(Boxes())
    {
      var node := Self(me);
      self, msg := node, None;
      if node == NODE_NONE {
        return ERR_PARAM, None, self;
      }
      var i := Find(node);
      var box := slots[i].box;
      if |box.inbox| == 0 {
        return ERR_EMPTY, None, self;
      }
      msg := Some(box.inbox[0]);
      WriteSlot(i, Slot(node, box.(inbox := box.inbox[1..])));
      rc := OK;
    }

    /** The running task's wait: it goes on if it has been notified, and starts counting afresh. */
    method TakeNotif(me: nat) returns (woken: bool, ghost self: nat)
      requires Valid()
      modifies slots
      ensures Valid() && IsSelf(old(Boxes()), me, self)
      ensures woken <==> self != NODE_NONE && old(Boxes())[self].notif > 0
      ensures Boxes() == if self == NODE_NONE then old(Boxes())
                         else old(Boxes())[self := old(Boxes())[self].(notif := 0)]
    {
      var node := Self(me);
      self, woken := node, false;
      if node == NODE_NONE {
        return;
      }
      var i := Find(node);
      var box := slots[i].box;
      woken := box.notif > 0;
      WriteSlot(i, Slot(node, box.(notif := 0)));
    }
  }

  // ---- Delivery over every run ----

  datatype Net = Net(boxes: map<nat, Box>, sent: seq<(nat, Message)>, got: seq<(nat, Message)>)

  /** Registering, and the operations above as the kernel may interleave them. */
  datatype Event =
    | Join(id: nat, handle: nat, depth: nat)
    | Send(to: nat, msg: Message)
    | Fetch(node: nat)
    | Sleep(node: nat)

  function Apply(s: Net, event: Event): Net {
    match event
    case Join(id, handle, depth) =>
      if id in s.boxes || id == NODE_NONE then s else s.(boxes := s.boxes[id := Box(handle, depth, [], 0)])
    case Send(to, msg) =>
      if Accepts(s.boxes, to) then s.(boxes := Put(s.boxes, to, msg), sent := s.sent + [(to, msg)]) else s
    case Fetch(node) =>
      if node in s.boxes && s.boxes[node].inbox != []
      then s.(boxes := Get(s.boxes, node), got := s.got + [(node, s.boxes[node].inbox[0])])
      else s
    case Sleep(node) => if node in s.boxes then s.(boxes := Take(s.boxes, node)) else s
  }

  function Run(s: Net, events: seq<Event>): Net {
    if events == [] then s else Apply(Run(s, events[..|events| - 1]), events[|events| - 1])
  }

  /** The messages of a history that concern a node. */
  function Of(history: seq<(nat, Message)>, node: nat): seq<Message> {
    if history == [] then []
    else
      var last := history[|history| - 1];
      Of(history[..|history| - 1], node) + if last.0 == node then [last.1] else []
  }

  lemma OfSnoc(history: seq<(nat, Message)>, to: nat, msg: Message, node: nat)
    ensures Of(history + [(to, msg)], node) == Of(history, node) + if to == node then [msg] else []
  {
    assert (history + [(to, msg)])[..|history|] == history;
  }

  predicate Delivers(s: Net, node: nat) {
    Of(s.sent, node) == Of(s.got, node) + InboxOf(s.boxes, node)
  }

  /**
   * Over every run, every node has received exactly what was sent to it, in order, but for what is still
   * in its inbox.
   */
  lemma {:induction false} EveryNodeGetsItsMessages(events: seq<Event>, node: nat)
    ensures Delivers(Run(Net(map[], [], []), events), node)
  {
    if events != [] {
      EveryNodeGetsItsMessages(events[..|events| - 1], node);
      EventDelivers(Run(Net(map[], [], []), events[..|events| - 1]), events[|events| - 1], node);
    }
  }

  function InboxOf(boxes: map<nat, Box>, node: nat): seq<Message> {
    if node in boxes then boxes[node].inbox else []
  }

  lemma SendDelivers(s: Net, to: nat, msg: Message, node: nat)
    requires Delivers(s, node) && Accepts(s.boxes, to)
    ensures Delivers(Apply(s, Send(to, msg)), node)
  {
    OfSnoc(s.sent, to, msg, node);
    assert Of(s.got, node) + (InboxOf(s.boxes, node) + [msg]) == Of(s.got, node) + InboxOf(s.boxes, node) + [msg];
  }

  lemma FetchDelivers(s: Net, from: nat, node: nat)
    requires Delivers(s, node) && from in s.boxes && s.boxes[from].inbox != []
    ensures Delivers(Apply(s, Fetch(from)), node)
  {
    var inbox := s.boxes[from].inbox;
    OfSnoc(s.got, from, inbox[0], node);
    assert Of(s.got, from) + inbox == Of(s.got, from) + [inbox[0]] + inbox[1..];
  }

  lemma EventDelivers(s: Net, event: Event, node: nat)
    requires Delivers(s, node)
    ensures Delivers(Apply(s, event), node)
  {
    match event
    case Send(to, msg) =>
      if Accepts(s.boxes, to) {
        SendDelivers(s, to, msg, node);
      }
    case Fetch(from) =>
      if from in s.boxes && s.boxes[from].inbox != [] {
        FetchDelivers(s, from, node);
      }
    case _ =>
  }

  /** The event is a send to the node that it has room for. */
  predicate Reaches(s: Net, event: Event, node: nat) {
    event.Send? && event.to == node && node in s.boxes && |s.boxes[node].inbox| < s.boxes[node].depth
  }

  function Start(): Net {
    Net(map[], [], [])
  }

  /** The messages sent to a node while it had room, told from the events. */
  function Offered(events: seq<Event>, node: nat): seq<Message> {
    if events == [] then []
    else
      var before, last := events[..|events| - 1], events[|events| - 1];
      Offered(before, node) + if Reaches(Run(Start(), before), last, node) then [last.msg] else []
  }

  /** How many of them since the node last slept, or joined. */
  function Unseen(events: seq<Event>, node: nat): nat {
    if events == [] then 0
    else
      var before, last := events[..|events| - 1], events[|events| - 1];
      if last == Sleep(node) || (last.Join? && last.id == node && node !in Run(Start(), before).boxes) then 0
      else Unseen(before, node) + if Reaches(Run(Start(), before), last, node) then 1 else 0
  }

  /**
   * Over every run: what a node was sent while it had room is what it has fetched and what is in its
   * inbox, in order.
   */
  lemma {:induction false} NothingOfferedIsLost(events: seq<Event>, node: nat)
    ensures var r := Run(Start(), events); Offered(events, node) == Of(r.got, node) + InboxOf(r.boxes, node)
  {
    EveryNodeGetsItsMessages(events, node);
    SentIsOffered(events, node);
  }

  lemma {:induction false} SentIsOffered(events: seq<Event>, node: nat)
    ensures Of(Run(Start(), events).sent, node) == Offered(events, node)
  {
    if events != [] {
      var before, last := events[..|events| - 1], events[|events| - 1];
      SentIsOffered(before, node);
      if last.Send? {
        OfSnoc(Run(Start(), before).sent, last.to, last.msg, node);
      }
    }
  }

  /**
   * Over every run a node's notification count is the number of messages accepted for it since it last
   * slept or joined. So a node with a message it has not been woken for has a positive count.
   */
  lemma {:induction false} NotificationsCountMessages(events: seq<Event>, node: nat)
    requires node != NODE_NONE
    ensures var r := Run(Start(), events);
            if node in r.boxes then r.boxes[node].notif == Unseen(events, node) else Unseen(events, node) == 0
  {
    if events != [] {
      NotificationsCountMessages(events[..|events| - 1], node);
    }
  }
}
