/** The message queue of a service and the global list of runnable queues (skynet_mq.c). `Queue` is what a queue means;
    the classes are the ring buffer and the linked list that implement it. */
module MessageQueue {
  datatype Option<+T> = None | Some(value: T)

  datatype Message = Message(source: nat, session: int, data: nat, size: nat)

  // ---- What a queue means -----------------------------------------------------------------------------------------

  /** The messages waiting, whether the queue counts as runnable, and whether its service is gone. */
  datatype Queue = Queue(contents: seq<Message>, inGlobal: bool, release: bool)

  const CREATED := Queue([], true, false)

  datatype Pushed = Pushed(queue: Queue, publish: bool)

  /** `skynet_mq_push`: append, and publish the queue when it was not runnable. */
  function Enqueued(q: Queue, m: Message): Pushed {
    Pushed(q.(contents := q.contents + [m], inGlobal := true), !q.inGlobal)
  }

  datatype Popped = Popped(queue: Queue, message: Option<Message>)

  /** `skynet_mq_pop`: take the oldest message; an empty queue stops being runnable. */
  function Dequeued(q: Queue): Popped {
    if q.contents == [] then Popped(q.(inGlobal := false), None)
    else Popped(q.(contents := q.contents[1..]), Some(q.contents[0]))
  }

  /** `skynet_mq_mark_release`: publish the queue once more, but do not count it as runnable. */
  function MarkedReleased(q: Queue): Pushed {
    Pushed(q.(release := true), !q.inGlobal)
  }

  // ---- The ring buffer --------------------------------------------------------------------------------------------

  const DEFAULTSIZE: nat := 64
  const OVERLOAD: nat := 1024

  /** What lies between `head` and `tail` going round an array */
  function Ring(a: seq<Message>, head: nat, tail: nat): (r: seq<Message>)
    requires head < |a| && tail < |a|
    ensures |r| == if head <= tail then tail - head else tail + |a| - head
  {
    if head <= tail then a[head..tail] else a[head..] + a[..tail]
  }

  lemma RingFirst(a: seq<Message>, head: nat, tail: nat)
    requires head < |a| && tail < |a| && head != tail
    ensures Ring(a, head, tail)[0] == a[head]
    ensures Ring(a, if head + 1 >= |a| then 0 else head + 1, tail) == Ring(a, head, tail)[1..]
  {
  }

  /** An array turned so that it starts at `head` */
  function Turned(a: seq<Message>, head: nat): (r: seq<Message>)
    requires head < |a|
    ensures |r| == |a|
  {
    a[head..] + a[..head]
  }

  lemma Around(k: nat, n: nat)
    requires 0 < n && k < 2 * n
    ensures k % n == if k < n then k else k - n
  {
    if k >= n {
      assert k == 1 * n + (k - n);
    }
  }

  lemma TurnedAt(a: seq<Message>, head: nat, k: nat)
    requires head < |a| && k < |a|
    ensures Turned(a, head)[k] == a[(head + k) % |a|]
  {
    Around(head + k, |a|);
  }

  /** The threshold for the next warning: doubled until the length no longer exceeds it */
  function NextThreshold(length: nat, threshold: nat): (r: nat)
    requires threshold > 0
    ensures r >= threshold && r >= length && (length <= threshold ==> r == threshold)
    ensures r > threshold ==> r < 2 * length
    decreases length - threshold
  {
    if length > threshold then NextThreshold(length, threshold * 2) else threshold
  }

  lemma DroppedOne(dropped: seq<Message>, left: seq<Message>)
    requires left != []
    ensures dropped + [left[0]] + left[1..] == dropped + left
  {
  }

  class MQ {
    const handle: nat
    var cap: nat
    var head: nat
    var tail: nat
    var release: bool
    var inGlobal: bool
    var overload: nat
    var overloadThreshold: nat
    var queue: array<Message>
    var next: MQ?

    ghost predicate Valid()
      reads this, queue
    {
      0 < cap == queue.Length && head < cap && tail < cap && overloadThreshold >= OVERLOAD
    }

    ghost function Model(): Queue
      requires Valid()
      reads this, queue
    {
      Queue(Ring(queue[..], head, tail), inGlobal, release)
    }

    constructor (handle: nat)
      ensures Valid() && fresh(queue) && Model() == CREATED && next == null && this.handle == handle
    {
      this.handle := handle;
      cap := DEFAULTSIZE;
      head, tail := 0, 0;
      inGlobal, release := true, false;
      overload, overloadThreshold := 0, OVERLOAD;
      queue := new Message[DEFAULTSIZE];
      next := null;
    }

    method Length() returns (n: nat)
      requires Valid()
      ensures n == |Model().contents|
    {
      if head <= tail {
        return tail - head;
      }
      return tail + cap - head;
    }

    /** `skynet_mq_overload`: report an overload once. */
    method Overload() returns (n: nat)
      requires Valid()
      modifies this`overload
      ensures Valid() && n == old(overload) && overload == 0
    {
      n := overload;
      if overload != 0 {
        overload := 0;
      }
    }

    /** Take the oldest message, and note an overload when more are left than the threshold allows. */
    method Pop() returns (message: Option<Message>)
      requires Valid()
      modifies this`head, this`inGlobal, this`overload, this`overloadThreshold
      ensures Valid() && Model() == Dequeued(old(Model())).queue && message == Dequeued(old(Model())).message
      ensures message.None? ==> overload == old(overload) && overloadThreshold == OVERLOAD
      ensures message.Some? ==>
                && overloadThreshold == NextThreshold(|Model().contents|, old(overloadThreshold))
                && overload == if |Model().contents| > old(overloadThreshold) then |Model().contents| else old(overload)
    {
      hide NextThreshold, Ring;
      if head != tail {
        ghost var all := queue[..];
        RingFirst(all, head, tail);
        message := Some(queue[head]);
        head := head + 1;
        if head >= cap {
          head := 0;
        }
        var length: int := tail - head;
        if length < 0 {
          length := length + cap;
        }
        NoteOverload(length);
        assert queue[..] == all;
      } else {
        overloadThreshold := OVERLOAD;
        message := None;
        inGlobal := false;
      }
    }

    /** Note an overload, and wait for twice as many messages before the next. */
    method NoteOverload(length: nat)
      requires overloadThreshold > 0
      modifies this`overload, this`overloadThreshold
      ensures overloadThreshold == NextThreshold(length, old(overloadThreshold))
      ensures overload == if length > old(overloadThreshold) then length else old(overload)
    {
      while length > overloadThreshold
        invariant overloadThreshold > 0
        invariant NextThreshold(length, overloadThreshold) == NextThreshold(length, old(overloadThreshold))
        invariant old(overloadThreshold) <= overloadThreshold
        invariant overload == if old(overloadThreshold) < overloadThreshold then length else old(overload)
        invariant old(overloadThreshold) < overloadThreshold ==> length > old(overloadThreshold)
        decreases length - overloadThreshold
      {
        overload := length;
        overloadThreshold := overloadThreshold * 2;
      }
    }

    /** Twice the room, with the messages at its start; called on a ring whose ends have met. */
    method ExpandQueue()
      requires Valid() && head == tail
      modifies this`queue, this`cap, this`head, this`tail
      ensures Valid() && fresh(queue) && Ring(queue[..], head, tail) == Turned(old(queue[..]), old(head))
    {
      var newQueue := new Message[cap * 2];
      for i := 0 to cap
        modifies newQueue
        invariant forall k :: 0 <= k < i ==> newQueue[k] == Turned(queue[..], head)[k]
      {
        TurnedAt(queue[..], head, i);
        newQueue[i] := queue[(head + i) % cap];
      }
      ghost var turned := Turned(queue[..], head);
      assert newQueue[..cap] == turned;
      head := 0;
      tail := cap;
      cap := cap * 2;
      queue := newQueue;
    }

    /** Store a message; `publish` is set when the queue has to go to the global list. */
    method Append(message: Message) returns (publish: bool)
      requires Valid()
      modifies this`queue, this`cap, this`head, this`tail, this`inGlobal, queue
      ensures Valid() && (queue == old(queue) || fresh(queue))
      ensures Pushed(Model(), publish) == Enqueued(old(Model()), message)
    {
      ghost var before := Ring(queue[..], head, tail);
      ghost var was := queue[..];
      queue[tail] := message;
      tail := tail + 1;
      if tail >= cap {
        tail := 0;
      }
      if head == tail {
        assert Turned(queue[..], head) == before + [message];
        ExpandQueue();
      } else {
        assert Ring(queue[..], head, tail) == before + [message];
      }
      publish := !inGlobal;
      inGlobal := true;
    }

    method Push(message: Message, global: GlobalQueue)
      requires Valid() && global.Valid() && (!inGlobal ==> next == null && this !in global.list)
      modifies this, queue, global, global.list`next
      ensures Valid() && global.Valid() && (queue == old(queue) || fresh(queue))
      ensures Model() == Enqueued(old(Model()), message).queue
      ensures global.list == old(global.list) + if Enqueued(old(Model()), message).publish then [this] else []
    {
      var publish := Append(message);
      assert global.Valid();
      if publish {
        global.Push(this);
      }
    }

    method MarkRelease(global: GlobalQueue)
      requires !release
      requires Valid() && global.Valid() && (!inGlobal ==> next == null && this !in global.list)
      modifies this`release, global, global.list`next
      ensures Valid() && global.Valid() && Model() == MarkedReleased(old(Model())).queue
      ensures global.list == old(global.list) + if MarkedReleased(old(Model())).publish then [this] else []
    {
      release := true;
      if !inGlobal {
        global.Push(this);
      }
    }

    /** `skynet_mq_release`: empty the queue of a service that is gone, and free it (`freed`); the queue of any other
        service goes back to the global list. `dropped` are the messages given to the drop function. */
    method Release(global: GlobalQueue) returns (dropped: seq<Message>, freed: bool)
      requires Valid() && global.Valid() && next == null && this !in global.list
      modifies this, global, global.list`next
      ensures Valid() && global.Valid() && freed == old(release)
      ensures freed ==> dropped == old(Model().contents) && Model() == Queue([], false, true) && global.list == old(global.list)
      ensures !freed ==> dropped == [] && Model() == old(Model()) && global.list == old(global.list) + [this]
    {
      dropped, freed := [], release;
      if !release {
        global.Push(this);
        return;
      }
      dropped := DropQueue();
    }

    method DropQueue() returns (dropped: seq<Message>)
      requires Valid()
      modifies this`head, this`inGlobal, this`overload, this`overloadThreshold
      ensures Valid() && dropped == old(Model().contents) && Model() == Queue([], false, release)
    {
      hide Ring;
      dropped := [];
      while true
        invariant Valid() && dropped + Model().contents == old(Model().contents)
        decreases |Model().contents|
      {
        ghost var left := Model().contents;
        var message := Pop();
        if message.None? {
          assert dropped + [] == dropped;
          break;
        }
        DroppedOne(dropped, left);
        dropped := dropped + [message.value];
      }
    }
  }

  // ---- The global list --------------------------------------------------------------------------------------------

  function After(list: seq<MQ>, k: nat): MQ? {
    if k + 1 < |list| then list[k + 1] else null
  }

  /** A list linked through the queues themselves: first in, first out */
  class GlobalQueue {
    var head: MQ?
    var tail: MQ?
    ghost var list: seq<MQ>

    ghost predicate Valid()
      reads this, list`next
    {
      && (forall i, j :: 0 <= i < j < |list| ==> list[i] != list[j])
      && (forall k :: 0 <= k < |list| ==> list[k].next == After(list, k))
      && head == (if list == [] then null else list[0])
      && tail == (if list == [] then null else list[|list| - 1])
    }

    constructor ()
      ensures Valid() && list == []
    {
      head, tail := null, null;
      list := [];
    }

    method Push(q: MQ)
      requires Valid() && q !in list && q.next == null
      modifies this, list`next
      ensures Valid() && list == old(list) + [q]
    {
      if tail != null {
        tail.next := q;
        tail := q;
      } else {
        head, tail := q, q;
      }
      list := list + [q];
    }

    method Pop() returns (q: MQ?)
      requires Valid()
      modifies this, list`next
      ensures Valid()
      ensures old(list) == [] ==> q == null && list == []
      ensures old(list) != [] ==> q == old(list[0]) && list == old(list)[1..] && q.next == null && q !in list
    {
      q := head;
      if q != null {
        ghost var was := list;
        assert was[0] == q && q.next == After(was, 0);
        head := q.next;
        if head == null {
          tail := null;
        }
        q.next := null;
        list := list[1..];
        assert forall k :: 0 <= k < |list| ==> list[k] == was[k + 1] && After(list, k) == After(was, k + 1);
        assert forall k :: 1 <= k < |was| ==> was[k] != q;
      }
    }
  }
}
