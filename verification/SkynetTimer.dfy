/** skynet_timer.c: the timing wheel behind skynet_timeout.

    A list of nodes that the wheel links and clears is a `seq` field element; everything else is the
    layout of `struct timer`.  The ghost fields are the unbounded clock and bag that the wheel refines. */
module SkynetTimer {
  import opened WheelDigits
  import opened TimerBag

  const MAX_DELAY: nat := 0x8000_0000 // a delay is a positive C int

  function Next(time: nat): nat { (time + 1) % WRAP }

  class Timer {
    var time: nat
    const near: array<seq<Node>>
    const far: array2<seq<Node>>
    ghost var now: nat
    ghost var pending: seq<Entry>

    ghost predicate Shape()
      reads this
    {
      near.Length == NEAR && far.Length0 == 4 && far.Length1 == LEVEL && time < WRAP
    }

    ghost function List(s: Slot): seq<Node>
      requires Shape() && InWheel(s)
      reads this, near, far
    {
      match s
      case Near(i) => near[i]
      case Far(l, i) => far[l, i]
    }

    /** Every list is the part of the bag that belongs there, and the bag is within reach. */
    ghost predicate Valid()
      reads this, near, far
    {
      Shape() && time == now % WRAP &&
      (forall e | e in pending :: now <= e.deadline < now + MAX_DELAY) &&
      (forall s | InWheel(s) :: List(s) == Listed(pending, Wrapping(time), s))
    }

    /** Nothing is due at this very moment: so it is whenever the lock is free. */
    ghost predicate Settled()
      reads this
    {
      forall e | e in pending :: e.deadline != now
    }

    constructor ()
      ensures Valid() && Settled() && now == 0 && pending == []
      ensures fresh(near) && fresh(far)
    {
      time := 0;
      near := new seq<Node>[NEAR](_ => []);
      far := new seq<Node>[4, LEVEL]((_, _) => []);
      now, pending := 0, [];
    }

    /** link */
    method Link(s: Slot, node: Node)
      requires Shape() && InWheel(s)
      modifies near, far
      ensures forall r | InWheel(r) :: List(r) == if r == s then old(List(r)) + [node] else old(List(r))
    {
      match s
      case Near(i) => near[i] := near[i] + [node];
      case Far(l, i) => far[l, i] := far[l, i] + [node];
    }

    /** add_node */
    method AddNode(node: Node)
      requires Shape() && node.expire < WRAP
      modifies near, far
      ensures forall r | InWheel(r) ::
                List(r) == if r == Wrapping(time).At(node.expire) then old(List(r)) + [node] else old(List(r))
    {
      var expire := node.expire;
      OrLowComparesQuotients(expire, time, NEAR);
      if OrLow(expire, NEAR) == OrLow(time, NEAR) {
        Link(Near(expire % NEAR), node);
      } else {
        var i, mask := 0, NEAR * LEVEL;
        while i < 3
          invariant 0 <= i <= 3 && (i < 3 ==> mask == Unit(i + 1))
          invariant forall j | 0 < j <= i :: Quot(expire, j) != Quot(time, j)
          modifies {}
        {
          OrLowComparesQuotients(expire, time, mask);
          if OrLow(expire, mask) == OrLow(time, mask) {
            break;
          }
          mask := mask * LEVEL;
          i := i + 1;
        }
        assert i == LevelOf(expire, time);
        var s := Far(i, Quot(expire, i) % LEVEL);
        assert s == SlotOf(expire, time);
        Link(s, node);
      }
    }

    /** skynet_timeout: a delay that is not positive is answered at once and never enters the wheel. */
    method Timeout(delay: int, event: Event) returns (sent: seq<Event>)
      requires Valid() && delay < MAX_DELAY
      modifies this`pending, near, far
      ensures Valid() && sent == if delay <= 0 then [event] else []
      ensures pending == old(pending) + if delay <= 0 then [] else [Entry(now + delay, event)]
    {
      if delay <= 0 {
        sent := [event];
      } else {
        sent := [];
        Add(Request(delay, event));
      }
    }

    /** timer_add */
    method Add(r: Request)
      requires Valid() && 0 < r.delay < MAX_DELAY
      modifies this`pending, near, far
      ensures Valid()
      ensures pending == old(pending) + [Entry(now + r.delay, r.event)]
    {
      var node := Node((r.delay + time) % WRAP, r.event);
      AddNode(node);
      ghost var e := Entry(now + r.delay, r.event);
      assert e.deadline % WRAP == node.expire;
      assert (pending + [e])[..|pending + [e]| - 1] == pending;
      pending := pending + [e];
    }

    method AddAll(rs: seq<Request>)
      requires Valid() && DelaysWithin(rs, MAX_DELAY)
      modifies this`pending, near, far
      ensures Valid() && pending == old(pending) + Stamp(rs, now)
    {
      var k := 0;
      while k < |rs|
        invariant 0 <= k <= |rs| && Valid() && pending == old(pending) + Stamp(rs[..k], now)
      {
        Add(rs[k]);
        k := k + 1;
        assert Stamp(rs[..k], now) == Stamp(rs[..k - 1], now) + [Entry(now + rs[k - 1].delay, rs[k - 1].event)];
      }
      assert rs[..k] == rs;
    }

    /** Every list is the part of the bag that `place` files there. */
    ghost predicate Fits(place: Filing)
      requires Shape()
      reads this, near, far
    {
      forall s | InWheel(s) :: List(s) == Listed(pending, place, s)
    }

    /** move_list */
    method MoveList(level: nat, idx: nat, ghost was: Filing)
      requires Shape() && InWheel(Far(level, idx)) && Fits(was)
      requires forall s :: FitsMoving(pending, was, Wrapping(time), Far(level, idx), s)
      modifies near, far
      ensures Fits(Wrapping(time))
    {
      hide Filing.At;
      var current := far[level, idx];
      far[level, idx] := [];
      ListedFacts(pending, was, Far(level, idx));
      AddNodes(current);
      forall s | InWheel(s) ensures List(s) == Listed(pending, Wrapping(time), s) {
        assert FitsMoving(pending, was, Wrapping(time), Far(level, idx), s);
      }
    }

    method AddNodes(ns: seq<Node>)
      requires Shape() && forall n | n in ns :: n.expire < WRAP
      modifies near, far
      ensures forall s | InWheel(s) :: List(s) == old(List(s)) + Sent(ns, Wrapping(time), s)
    {
      hide Filing.At;
      var k := 0;
      while k < |ns|
        invariant 0 <= k <= |ns|
        invariant forall s | InWheel(s) :: List(s) == old(List(s)) + Sent(ns[..k], Wrapping(time), s)
      {
        assert ns[..k + 1][..k] == ns[..k] && ns[k] in ns;
        AddNode(ns[k]);
        k := k + 1;
      }
      assert ns[..k] == ns;
    }

    /** timer_shift */
    method Shift()
      requires Valid() && Settled()
      modifies this`time, this`now, near, far
      ensures Valid() && now == old(now) + 1
    {
      hide FitsMoving, FitsAfter, Listed, CascadeAt, SlotOf;
      ghost var was := Wrapping(time);
      CascadeKeepsLists();
      time := Next(time);
      now := now + 1;
      if time == 0 {
        MoveList(3, 0, was);
      } else {
        MoveCarried(was);
      }
    }

    /** The loop of timer_shift: the list under the lowest digit that the carry did not leave zero. */
    method MoveCarried(ghost was: Filing)
      requires Shape() && time != 0 && Fits(was)
      requires forall s :: FitsAfter(pending, was, time, s)
      modifies near, far
      ensures Fits(Wrapping(time))
    {
      var mask, t, i := NEAR, Quot(time, 0), 0;
      while time % mask == 0
        invariant i < 4 && mask == Unit(i) && t == Quot(time, i)
        invariant i > 0 ==> time % mask == 0
        invariant time % mask == 0 ==> CascadeAt(time) == CascadeFrom(time, i)
        decreases 4 - i
        modifies {}
      {
        if t % LEVEL != 0 {
          break;
        }
        DigitZero(time, i);
        Quotients(time);
        mask, t, i := mask * LEVEL, t / LEVEL, i + 1;
      }
      if time % mask == 0 {
        assert CascadeAt(time) == Move(i, t % LEVEL);
        forall s ensures FitsMoving(pending, was, Wrapping(time), Far(i, t % LEVEL), s) {
          assert FitsAfter(pending, was, time, s);
        }
        MoveList(i, t % LEVEL, was);
      } else {
        assert CascadeAt(time) == Nothing;
        forall s | InWheel(s) ensures List(s) == Listed(pending, Wrapping(time), s) {
          assert FitsAfter(pending, was, time, s);
        }
      }
    }

    lemma CascadeKeepsLists()
      requires Valid() && Settled()
      ensures forall s :: FitsAfter(pending, Wrapping(time), Next(time), s)
      ensures Next(time) == 0 ==>
                forall s :: FitsMoving(pending, Wrapping(time), Wrapping(0), Far(3, 0), s)
    {
      hide Listed, Filing.At, SlotOf;
      var was, next := Wrapping(time), Wrapping(Next(time));
      forall e | e in pending
        ensures Ahead(e.deadline % WRAP, time)
      {
        assert now < e.deadline < now + MAX_DELAY;
      }
      forall s
        ensures FitsAfter(pending, was, Next(time), s)
      {
        CascadeKeepsList(pending, time, s);
      }
      if Next(time) == 0 {
        forall s
          ensures FitsMoving(pending, was, Wrapping(0), Far(3, 0), s)
        {
          assert FitsAfter(pending, was, 0, s);
        }
      }
    }

    /** timer_execute.  The lock is free while a grabbed list is dispatched, which is when the requests
        of other threads get in; when nothing is due they get in after the lock is given back. */
    method Execute(arrivals: seq<Request>) returns (fired: seq<Event>)
      requires Valid() && DelaysWithin(arrivals, MAX_DELAY)
      modifies this`pending, near, far
      ensures Valid() && Settled()
      ensures fired == Due(old(pending), now)
      ensures pending == After(old(pending), now) + Stamp(arrivals, now)
    {
      var idx := time % NEAR;
      var waiting := arrivals;
      fired := [];
      ghost var grabbed := false;
      while near[idx] != []
        invariant Valid()
        invariant !grabbed ==> waiting == arrivals && fired == [] && pending == old(pending)
        invariant grabbed ==> waiting == [] && Settled()
        invariant grabbed ==> fired == Due(old(pending), now)
        invariant grabbed ==> pending == After(old(pending), now) + Stamp(arrivals, now)
        decreases |near[idx]|
      {
        if grabbed {
          NothingDue();
        }
        var current := Grab();
        fired := fired + current;
        AddAll(waiting);
        NothingDue();
        waiting, grabbed := [], true;
      }
      if !grabbed {
        NothingNear();
      }
      AddAll(waiting);
    }

    /** timer_update */
    method Update(arrivals: seq<Request>) returns (fired: seq<Event>)
      requires Valid() && Settled() && DelaysWithin(arrivals, MAX_DELAY)
      modifies this, near, far
      ensures Valid() && Settled() && now == old(now) + 1
      ensures fired == Due(old(pending), now)
      ensures pending == After(old(pending), now) + Stamp(arrivals, now)
    {
      AllAfter(pending, now);
      var early := Execute([]);
      assert pending == old(pending);
      Shift();
      var late := Execute(arrivals);
      fired := early + late;
    }

    /** When nothing is due the near list of the current time is empty, and the other way round. */
    lemma NothingDue()
      requires Valid() && Settled()
      ensures near[time % NEAR] == []
    {
      DueIsNear();
      ListedIsDue(pending, Wrapping(time), Near(time % NEAR), now);
      AllAfter(pending, now);
    }

    lemma NothingNear()
      requires Valid() && near[time % NEAR] == []
      ensures Settled() && Due(pending, now) == [] && After(pending, now) == pending
    {
      DueIsNear();
      ListedIsDue(pending, Wrapping(time), Near(time % NEAR), now);
      NoneDue(pending, now);
      AllAfter(pending, now);
    }

    /** One round of timer_execute up to the unlock: clear the list of the current time. */
    method Grab() returns (current: seq<Event>)
      requires Valid()
      modifies this`pending, near
      ensures Valid() && Settled() && near[time % NEAR] == []
      ensures current == Due(old(pending), now) && pending == After(old(pending), now)
    {
      var idx := time % NEAR;
      DueIsNear();
      ListedIsDue(pending, Wrapping(time), Near(idx), now);
      forall s | InWheel(s)
        ensures Listed(After(pending, now), Wrapping(time), s) == if s == Near(idx) then [] else List(s)
      {
        ListedWithoutDue(pending, Wrapping(time), Near(idx), s, now);
      }
      AfterElements(pending, now);
      current := Events(near[idx]);
      near[idx] := [];
      pending := After(pending, now);
    }

    lemma DueIsNear()
      requires Valid()
      ensures forall e | e in pending :: Wrapping(time).At(e.deadline % WRAP) == Near(time % NEAR) <==> e.deadline == now
    {
      hide SlotOf, Listed;
      forall e | e in pending
        ensures Wrapping(time).At(e.deadline % WRAP) == Near(time % NEAR) <==> e.deadline == now
      {
        OnlyNowIsNear(e.deadline % WRAP, time);
        assert now <= e.deadline < now + MAX_DELAY;
      }
    }
  }

  ghost predicate FitsAfter(p: seq<Entry>, was: Filing, time: nat, s: Slot)
    requires time < WRAP
  {
    match CascadeAt(time)
    case Nothing => Listed(p, Wrapping(time), s) == Listed(p, was, s)
    case Move(l, i) => FitsMoving(p, was, Wrapping(time), Far(l, i), s)
  }

  /** The cascade of one advance is exactly what the lists need. */
  lemma CascadeKeepsList(p: seq<Entry>, time: nat, s: Slot)
    requires time < WRAP && forall e | e in p :: Ahead(e.deadline % WRAP, time)
    ensures FitsAfter(p, Wrapping(time), Next(time), s)
  {
    var was, next := Wrapping(time), Wrapping(Next(time));
    match CascadeAt(Next(time))
    case Nothing =>
      forall e | e in p
        ensures next.At(e.deadline % WRAP) == was.At(e.deadline % WRAP)
      {
        AdvanceMovesOneList(e.deadline % WRAP, time);
      }
      SamePlaces(p, was, next, s);
    case Move(l, i) =>
      forall e | e in p
        ensures StaysOrDrops(e.deadline % WRAP, was, next, Far(l, i))
      {
        AdvanceMovesOneList(e.deadline % WRAP, time);
      }
      MovingOneList(p, was, next, Far(l, i), s);
  }

  /** Every run of the timer, with any requests at any times, dispatches what the bag of deadlines says. */
  method Run(ops: seq<Op>) returns (log: seq<seq<Event>>)
    requires OpsWithin(ops, MAX_DELAY)
    ensures Dispatches(ops, log)
  {
    var timer := new Timer();
    log := [];
    for i := 0 to |ops|
      invariant fresh(timer) && fresh(timer.near) && fresh(timer.far)
      invariant Follows(timer, ops[..i], log)
    {
      assert ops[..i + 1] == ops[..i] + [ops[i]] && ops[i] in ops;
      log := Step(timer, ops[i], ops[..i], log);
    }
    assert ops[..|ops|] == ops;
  }

  ghost predicate Follows(timer: Timer, ops: seq<Op>, log: seq<seq<Event>>)
    reads timer, timer.near, timer.far
  {
    timer.Valid() && timer.Settled() && timer.now == Ticks(ops) &&
    timer.pending == After(Requested(ops), timer.now) && Dispatches(ops, log)
  }

  method Step(timer: Timer, op: Op, ghost ops: seq<Op>, log: seq<seq<Event>>) returns (more: seq<seq<Event>>)
    requires OpsWithin([op], MAX_DELAY) && Follows(timer, ops, log)
    modifies timer, timer.near, timer.far
    ensures Follows(timer, ops + [op], more)
  {
    hide After, Due, Requested, Stamp;
    assert op in [op];
    match op
    case Add(r) =>
      AddKeepsRun(ops, r, log);
      timer.Add(r);
      more := log;
    case Tick(early, arrivals) =>
      // the lock is kept until the dispatch, and lets them in together
      TickKeepsRun(ops, early, arrivals, log);
      var fired := timer.Update(early + arrivals);
      more := log + [fired];
  }
}
