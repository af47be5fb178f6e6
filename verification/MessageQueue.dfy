/** skynet_mq.c: the ring buffer of a service and the global list of queues, linked through them.

    The locked sections of this file are the queue steps of the scheduler's state machine; their contracts
    say the same things about `Contents()`, `inGlobal` and the list as the fields of the model there. */
module MessageQueue {
  import opened Division
  import opened Scheduler

  const DEFAULT_QUEUE_SIZE := 64
  const MQ_OVERLOAD := 1024

  function Doubled(n: nat, k: nat): nat {
    if k == 0 then n else 2 * Doubled(n, k - 1)
  }

  class Queue {
    const handle: Handle
    var queue: array<Message>
    var head: nat
    var tail: nat
    var cap: nat
    var inGlobal: bool
    var release: bool
    var priority: bool
    var overload: nat
    var threshold: nat
    var next: Queue?

    ghost predicate Valid()
      reads `queue, `head, `tail, `cap, `threshold
    {
      queue.Length == cap && head < cap && tail < cap && threshold > 0
    }

    ghost function Contents(): seq<Message>
      requires Valid()
      reads `queue, `head, `tail, `cap, `threshold, queue
    {
      if head <= tail then queue[head..tail] else queue[head..] + queue[..tail]
    }

    /** skynet_mq_create: a new queue counts as being in the global list until its creator lets go. */
    constructor (handle: Handle)
      ensures Valid() && fresh(queue) && Contents() == []
      ensures inGlobal && !release && !priority && next == null && this.handle == handle
    {
      this.handle := handle;
      queue := new Message[DEFAULT_QUEUE_SIZE](_ => Message(0, 0, 0));
      head, tail, cap := 0, 0, DEFAULT_QUEUE_SIZE;
      inGlobal, release, priority := true, false, false;
      overload, threshold := 0, MQ_OVERLOAD;
      next := null;
    }

    /** skynet_mq_length */
    method Length() returns (n: nat)
      requires Valid()
      ensures n == |Contents()|
    {
      n := if head <= tail then tail - head else tail + cap - head;
    }

    /** expand_queue: the ring is full when head and tail meet after a push */
    method Expand()
      requires Valid() && head == tail
      modifies this`queue, this`head, this`tail, this`cap
      ensures Valid() && fresh(queue) && cap == 2 * old(cap)
      ensures Contents() == old(queue[head..] + queue[..head])
    {
      ghost var full := queue[head..] + queue[..head];
      var wider := new Message[cap * 2](_ => Message(0, 0, 0));
      for i := 0 to cap
        invariant wider[..i] == full[..i]
        invariant unchanged(this) && unchanged(queue)
      {
        RingIndex(head, i, cap);
        wider[i] := queue[(head + i) % cap];
        assert full[..i + 1] == full[..i] + [full[i]];
      }
      head, tail, cap := 0, cap, cap * 2;
      queue := wider;
    }

    /** The queue part of skynet_mq_push. */
    method Enqueue(m: Message)
      requires Valid()
      modifies this`queue, this`head, this`tail, this`cap, queue
      ensures Valid() && (queue == old(queue) || fresh(queue))
      ensures Contents() == old(Contents()) + [m]
    {
      ghost var was := Contents();
      queue[tail] := m;
      tail := tail + 1;
      if tail >= cap {
        tail := 0;
      }
      if head == tail {
        assert queue[head..] + queue[..head] == was + [m];
        Expand();
      }
    }

    /** skynet_mq_pop: false when the queue is empty, and then the owner has let go of it */
    method Pop() returns (ok: bool, m: Message)
      requires Valid()
      modifies this`head, this`inGlobal, this`overload, this`threshold
      ensures Valid() && ok == (old(Contents()) != [])
      ensures ok ==> [m] + Contents() == old(Contents()) && inGlobal == old(inGlobal)
      ensures ok ==> |Contents()| <= threshold && (threshold == old(threshold) || overload == |Contents()|)
      ensures !ok ==> Contents() == [] && !inGlobal && threshold == MQ_OVERLOAD
    {
      ghost var was := Contents();
      m := Message(0, 0, 0);
      if head != tail {
        ok := true;
        m := queue[head];
        head := head + 1;
        if head >= cap {
          head := 0;
        }
        assert [m] + Contents() == was;
        var length: int := tail - head;
        if length < 0 {
          length := length + cap;
        }
        NoteLength(length);
      } else {
        ok := false;
        threshold := MQ_OVERLOAD;
        inGlobal := false;
      }
    }

    /** The overload note of skynet_mq_pop: the threshold doubles past the length. */
    method NoteLength(length: nat)
      requires threshold > 0
      modifies this`overload, this`threshold
      ensures length <= threshold && exists k: nat :: threshold == Doubled(old(threshold), k)
      ensures if length <= old(threshold) then threshold == old(threshold) && overload == old(overload)
              else old(threshold) < threshold < 2 * length && overload == length
    {
      assert threshold == Doubled(threshold, 0);
      while length > threshold
        invariant threshold > 0 && exists k: nat :: threshold == Doubled(old(threshold), k)
        invariant if length <= old(threshold) || threshold == old(threshold)
                  then threshold == old(threshold) && overload == old(overload)
                  else old(threshold) < threshold < 2 * length && overload == length
        decreases length - threshold
      {
        ghost var k: nat :| threshold == Doubled(old(threshold), k);
        overload := length;
        threshold := threshold * 2;
        assert threshold == Doubled(old(threshold), k + 1);
      }
    }

    /** _drop_queue up to the free */
    method Drain() returns (dropped: seq<Message>)
      requires Valid()
      modifies this`head, this`inGlobal, this`overload, this`threshold
      ensures Valid() && dropped == old(Contents()) && Contents() == [] && !inGlobal
    {
      hide Contents;
      dropped := [];
      ghost var left := Contents();
      var ok, m := Pop();
      while ok
        invariant Valid() && old(Contents()) == dropped + left
        invariant if ok then left == [m] + Contents() else left == Contents() == [] && !inGlobal
        decreases |left|
      {
        dropped := dropped + [m];
        left := Contents();
        ok, m := Pop();
      }
    }
  }

  lemma RingIndex(head: nat, i: nat, cap: nat)
    requires head < cap && i < cap
    ensures (head + i) % cap == if head + i < cap then head + i else head + i - cap
  {
    var q := if head + i < cap then 0 else 1;
    QuotientIs(head + i, cap, q, head + i - cap * q);
  }

  /** struct global_queue: a list linked through the queues themselves. */
  class GlobalQueue {
    var head: Queue?
    var tail: Queue?
    ghost var members: seq<Queue>

    ghost predicate Valid()
      reads this, members
    {
      (forall i, j | 0 <= i < j < |members| :: members[i] != members[j]) &&
      (forall i | 0 <= i < |members| - 1 :: members[i].next == members[i + 1]) &&
      if members == [] then head == null && tail == null
      else head == members[0] && tail == members[|members| - 1] && members[|members| - 1].next == null
    }

    constructor ()
      ensures Valid() && members == []
    {
      head, tail, members := null, null, [];
    }

    /** skynet_globalmq_push */
    method Push(q: Queue)
      requires Valid() && q !in members && q.next == null
      modifies this, q`next, (set m | m in members)`next
      ensures Valid() && members == old(members) + [q]
    {
      if tail != null {
        tail.next := q;
        tail := q;
      } else {
        head, tail := q, q;
      }
      members := members + [q];
    }

    /** skynet_globalmq_push_head */
    method PushHead(q: Queue)
      requires Valid() && q !in members && q.next == null
      modifies this, q`next
      ensures Valid() && members == [q] + old(members)
    {
      if head != null {
        q.next := head;
        head := q;
      } else {
        head, tail := q, q;
      }
      members := [q] + members;
    }

    /** skynet_globalmq_pop */
    method Pop() returns (mq: Queue?)
      requires Valid()
      modifies this, (set m | m in members)`next
      ensures Valid() && (mq == null <==> old(members) == [])
      ensures mq == null ==> members == []
      ensures mq != null ==> mq == old(members)[0] && members == old(members)[1..] && mq.next == null && mq !in members
    {
      mq := head;
      if mq != null {
        head := mq.next;
        if head == null {
          tail := null;
        }
        mq.next := null;
        members := members[1..];
      }
    }

    /** skynet_mq_push: the first message for a queue that nobody owns puts it into the list */
    method Send(q: Queue, m: Message)
      requires Valid() && q.Valid() && (!q.inGlobal ==> q !in members && q.next == null)
      modifies this, q, q.queue, (set p | p in members)`next
      ensures Valid() && q.Valid() && q.Contents() == old(q.Contents()) + [m] && q.inGlobal
      ensures q.priority == old(q.priority) && q.release == old(q.release)
      ensures members == if old(q.inGlobal) then old(members) else Listed(old(members), q, q.priority)
    {
      hide Queue.Valid, Queue.Contents, Listed;
      q.Enqueue(m);
      if !q.inGlobal {
        q.inGlobal := true;
        Enter(q);
      }
    }

    /** A queue with priority goes first. */
    method Enter(q: Queue)
      requires Valid() && q !in members && q.next == null
      modifies this, q`next, (set p | p in members)`next
      ensures Valid() && members == Listed(old(members), q, q.priority)
    {
      if q.priority {
        PushHead(q);
      } else {
        Push(q);
      }
    }

    /** skynet_mq_mark_release */
    method MarkRelease(q: Queue)
      requires Valid() && q.Valid() && !q.release && (!q.inGlobal ==> q !in members && q.next == null)
      modifies this, q`release, q`next, (set p | p in members)`next
      ensures Valid() && q.Valid() && q.release
      ensures members == if q.inGlobal then old(members) else old(members) + [q]
    {
      q.release := true;
      if !q.inGlobal {
        Push(q);
      }
    }

    /** skynet_mq_release and _drop_queue: drain a marked queue, or hand an unmarked one on */
    method Release(q: Queue) returns (dropped: seq<Message>)
      requires Valid() && q.Valid() && q !in members && q.next == null
      modifies this, q, (set p | p in members)`next
      ensures Valid() && q.Valid()
      ensures old(q.release) ==> dropped == old(q.Contents()) && q.Contents() == [] && members == old(members)
      ensures !old(q.release) ==> dropped == [] && q.Contents() == old(q.Contents()) && members == old(members) + [q]
    {
      dropped := [];
      if q.release {
        dropped := q.Drain();
      } else {
        Push(q);
      }
    }
  }

  ghost function Listed(g: seq<Queue>, q: Queue, priority: bool): seq<Queue> {
    if priority then [q] + g else g + [q]
  }
}
