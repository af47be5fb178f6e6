/** twheel.c: the second timing wheel, which keeps deadlines beyond the 32-bit wrap in an overflow list.

    It refines the same bag as the first wheel, for every delay that a uint32_t can hold. */
module TimeWheel {
  import opened WheelDigits
  import opened TimerBag

  function Next(time: nat): nat { (time + 1) % WRAP }

  predicate HasList(s: Slot) {
    InWheel(s) || s.Overflow?
  }

  class Wheel {
    var time: nat // curr_time
    const near: array<seq<Node>>
    const far: array2<seq<Node>>
    var overflow: seq<Node>
    ghost var now: nat
    ghost var pending: seq<Entry>

    ghost predicate Shape()
      reads this
    {
      near.Length == NEAR && far.Length0 == 4 && far.Length1 == LEVEL && time < WRAP
    }

    ghost function List(s: Slot): seq<Node>
      requires Shape() && HasList(s)
      reads this, near, far
    {
      match s
      case Near(i) => near[i]
      case Far(l, i) => far[l, i]
      case Overflow => overflow
    }

    /** Every list is the part of the bag that belongs there, and the bag is within reach. */
    ghost predicate Valid()
      reads this, near, far
    {
      Shape() && time == now % WRAP &&
      (forall e | e in pending :: now <= e.deadline < now + WRAP) &&
      (forall s | HasList(s) :: List(s) == Listed(pending, Overflowing(time), s))
    }

    /** Nothing is due at this very moment: so it is whenever the lock is free. */
    ghost predicate Settled()
      reads this
    {
      forall e | e in pending :: e.deadline != now
    }

    constructor ()
      ensures Valid() && Settled() && now == 0 && pending == []
      ensures fresh(near) && fresh(far)
    {
      time := 0;
      near := new seq<Node>[NEAR](_ => []);
      far := new seq<Node>[4, LEVEL]((_, _) => []);
      overflow := [];
      now, pending := 0, [];
    }

    /** timelist_add */
    method Link(s: Slot, node: Node)
      requires Shape() && HasList(s)
      modifies `overflow, near, far
      ensures forall r | HasList(r) :: List(r) == if r == s then old(List(r)) + [node] else old(List(r))
    {
      match s
      case Near(i) => near[i] := near[i] + [node];
      case Far(l, i) => far[l, i] := far[l, i] + [node];
      case Overflow => overflow := overflow + [node];
    }

    /** timewheel_add_node: the level never leaves 0..3, whatever the two times are */
    method AddNode(node: Node)
      requires Shape() && node.expire < WRAP
      modifies `overflow, near, far
      ensures forall r | HasList(r) ::
                List(r) == if r == Overflowing(time).At(node.expire) then old(List(r)) + [node] else old(List(r))
    {
      var expire := node.expire;
      if expire < time {
        Link(Overflow, node);
        return;
      }
      OrLowComparesQuotients(expire, time, NEAR);
      if OrLow(expire, NEAR) == OrLow(time, NEAR) {
        Link(Near(expire % NEAR), node);
      } else {
        var t1, t2, i := Quot(time, 0), Quot(expire, 0), 0;
        while i < 4
          invariant 0 <= i < 4 && t1 == Quot(time, i) && t2 == Quot(expire, i)
          invariant forall j | 0 < j <= i :: Quot(expire, j) != Quot(time, j)
          modifies {}
        {
          Quotients(time);
          Quotients(expire);
          OrLowComparesQuotients(t1, t2, LEVEL);
          if OrLow(t1, LEVEL) == OrLow(t2, LEVEL) {
            break;
          }
          t1, t2, i := t1 / LEVEL, t2 / LEVEL, i + 1;
        }
        assert i == LevelOf(expire, time);
        var s := Far(i, t2 % LEVEL);
        assert s == SlotOf(expire, time);
        Link(s, node);
      }
    }

    /** timewheel_add_time */
    method Add(r: Request)
      requires Valid() && 0 < r.delay < WRAP
      modifies `pending, `overflow, near, far
      ensures Valid()
      ensures pending == old(pending) + [Entry(now + r.delay, r.event)]
    {
      var node := Node((r.delay + time) % WRAP, r.event);
      AddNode(node);
      ghost var e := Entry(now + r.delay, r.event);
      assert e.deadline % WRAP == node.expire;
      assert (pending + [e])[..|pending + [e]| - 1] == pending;
      pending := pending + [e];
    }

    method AddAll(rs: seq<Request>)
      requires Valid() && DelaysWithin(rs, WRAP)
      modifies `pending, `overflow, near, far
      ensures Valid() && pending == old(pending) + Stamp(rs, now)
    {
      var k := 0;
      while k < |rs|
        invariant 0 <= k <= |rs| && Valid() && pending == old(pending) + Stamp(rs[..k], now)
      {
        Add(rs[k]);
        k := k + 1;
        assert Stamp(rs[..k], now) == Stamp(rs[..k - 1], now) + [Entry(now + rs[k - 1].delay, rs[k - 1].event)];
      }
      assert rs[..k] == rs;
    }

    /** Every list is the part of the bag that `place` files there. */
    ghost predicate Fits(place: Filing)
      requires Shape()
      reads this, near, far
    {
      forall s | HasList(s) :: List(s) == Listed(pending, place, s)
    }

    /** The loops of timewheel_shift: clear a list and file its nodes again. */
    method MoveList(c: Slot, ghost was: Filing)
      requires Shape() && HasList(c) && !c.Near? && Fits(was)
      requires forall s :: FitsMoving(pending, was, Overflowing(time), c, s)
      modifies `overflow, near, far
      ensures Fits(Overflowing(time))
    {
      hide Filing.At;
      var next: seq<Node>;
      if c == Overflow {
        next, overflow := overflow, [];
      } else {
        next := far[c.level, c.idx];
        far[c.level, c.idx] := [];
      }
      ListedFacts(pending, was, c);
      AddNodes(next);
      forall s | HasList(s) ensures List(s) == Listed(pending, Overflowing(time), s) {
        assert FitsMoving(pending, was, Overflowing(time), c, s);
      }
    }

    method AddNodes(ns: seq<Node>)
      requires Shape() && forall n | n in ns :: n.expire < WRAP
      modifies `overflow, near, far
      ensures forall s | HasList(s) :: List(s) == old(List(s)) + Sent(ns, Overflowing(time), s)
    {
      hide Filing.At;
      var k := 0;
      while k < |ns|
        invariant 0 <= k <= |ns|
        invariant forall s | HasList(s) :: List(s) == old(List(s)) + Sent(ns[..k], Overflowing(time), s)
      {
        assert ns[..k + 1][..k] == ns[..k] && ns[k] in ns;
        AddNode(ns[k]);
        k := k + 1;
      }
      assert ns[..k] == ns;
    }

    /** timewheel_shift */
    method Shift()
      requires Valid() && Settled()
      modifies `time, `now, `overflow, near, far
      ensures Valid() && now == old(now) + 1
    {
      hide FitsMoving, FitsAfter, Listed, CascadeAt, SlotOf;
      ghost var was := Overflowing(time);
      CascadeKeepsLists();
      time := Next(time);
      now := now + 1;
      if time == 0 {
        MoveList(Overflow, was);
      } else {
        MoveCarried(was);
      }
    }

    /** The part of timewheel_shift for a time that did not wrap. */
    method MoveCarried(ghost was: Filing)
      requires Shape() && time != 0 && Fits(was)
      requires forall s :: FitsAfter(pending, was, time, s)
      modifies `overflow, near, far
      ensures Fits(Overflowing(time))
    {
      if time % NEAR == 0 {
        var t, level := Quot(time, 0), 0;
        while t != 0
          invariant level < 4 && t == Quot(time, level) != 0 && time % Unit(level) == 0
          invariant CascadeAt(time) == CascadeFrom(time, level)
          decreases 4 - level
          modifies {}
        {
          if t % LEVEL != 0 {
            break;
          }
          DigitZero(time, level);
          Quotients(time);
          t, level := t / LEVEL, level + 1;
        }
        assert CascadeAt(time) == Move(level, t % LEVEL) && HasList(Far(level, t % LEVEL));
        forall s ensures FitsMoving(pending, was, Overflowing(time), Far(level, t % LEVEL), s) {
          assert FitsAfter(pending, was, time, s);
        }
        MoveList(Far(level, t % LEVEL), was);
      } else {
        forall s | HasList(s) ensures List(s) == Listed(pending, Overflowing(time), s) {
          assert FitsAfter(pending, was, time, s);
        }
      }
    }

    lemma CascadeKeepsLists()
      requires Valid() && Settled()
      ensures forall s :: FitsAfter(pending, Overflowing(time), Next(time), s)
      ensures Next(time) == 0 ==>
                forall s :: FitsMoving(pending, Overflowing(time), Overflowing(0), Overflow, s)
    {
      hide Listed, Filing.At, SlotOf;
      forall e | e in pending
        ensures Next(time) == 0 ==> e.deadline % WRAP < time
        ensures e.deadline % WRAP != time
      {
        assert now < e.deadline < now + WRAP;
      }
      forall s
        ensures FitsAfter(pending, Overflowing(time), Next(time), s)
      {
        CascadeKeepsList(pending, time, s);
      }
      if Next(time) == 0 {
        forall s
          ensures FitsMoving(pending, Overflowing(time), Overflowing(0), Overflow, s)
        {
          assert FitsAfter(pending, Overflowing(time), 0, s);
        }
      }
    }

    /** timewheel_execute; the requests of the callbacks and of other threads get in after the unlock. */
    method Execute(arrivals: seq<Request>) returns (fired: seq<Event>)
      requires Valid() && DelaysWithin(arrivals, WRAP)
      modifies `pending, `overflow, near, far
      ensures Valid() && Settled()
      ensures fired == Due(old(pending), now)
      ensures pending == After(old(pending), now) + Stamp(arrivals, now)
    {
      fired := Grab();
      AddAll(arrivals);
    }

    /** One round of timewheel_update: the lock is free between the shift and the execution. */
    method Update(early: seq<Request>, arrivals: seq<Request>) returns (fired: seq<Event>)
      requires Valid() && Settled() && DelaysWithin(early + arrivals, WRAP)
      modifies this, near, far
      ensures Valid() && Settled() && now == old(now) + 1
      ensures fired == Due(old(pending), now)
      ensures pending == After(old(pending), now) + Stamp(early + arrivals, now)
    {
      hide Due, After, Stamp, Valid, Settled;
      assert (forall r | r in early :: r in early + arrivals) && forall r | r in arrivals :: r in early + arrivals;
      EarlyOnesWait(pending, early, arrivals, now + 1);
      Shift();
      AddAll(early);
      fired := Execute(arrivals);
    }

    /** timewheel_execute up to the unlock: clear the list of the current time. */
    method Grab() returns (current: seq<Event>)
      requires Valid()
      modifies `pending, near
      ensures Valid() && Settled() && near[time % NEAR] == []
      ensures current == Due(old(pending), now) && pending == After(old(pending), now)
    {
      var idx := time % NEAR;
      DueIsNear();
      ListedIsDue(pending, Overflowing(time), Near(idx), now);
      forall s | HasList(s)
        ensures Listed(After(pending, now), Overflowing(time), s) == if s == Near(idx) then [] else List(s)
      {
        ListedWithoutDue(pending, Overflowing(time), Near(idx), s, now);
      }
      AfterElements(pending, now);
      current := Events(near[idx]);
      near[idx] := [];
      pending := After(pending, now);
    }

    lemma DueIsNear()
      requires Valid()
      ensures forall e | e in pending :: Overflowing(time).At(e.deadline % WRAP) == Near(time % NEAR) <==> e.deadline == now
    {
      hide SlotOf, Listed;
      forall e | e in pending
        ensures Overflowing(time).At(e.deadline % WRAP) == Near(time % NEAR) <==> e.deadline == now
      {
        OnlyNowIsNear(e.deadline % WRAP, time);
        assert now <= e.deadline < now + WRAP;
      }
    }
  }

  ghost predicate FitsAfter(p: seq<Entry>, was: Filing, time: nat, s: Slot)
    requires time < WRAP
  {
    if time == 0 then FitsMoving(p, was, Overflowing(0), Overflow, s)
    else
      match CascadeAt(time)
      case Nothing => Listed(p, Overflowing(time), s) == Listed(p, was, s)
      case Move(l, i) => FitsMoving(p, was, Overflowing(time), Far(l, i), s)
  }

  /** One advance needs exactly what the shift does.  At the wrap every waiting deadline is in the overflow
      list, and from then on none is. */
  lemma CascadeKeepsList(p: seq<Entry>, time: nat, s: Slot)
    requires time < WRAP && forall e | e in p :: e.deadline % WRAP != time
    requires Next(time) == 0 ==> forall e | e in p :: e.deadline % WRAP < time
    ensures FitsAfter(p, Overflowing(time), Next(time), s)
  {
    var was, next := Overflowing(time), Overflowing(Next(time));
    if Next(time) == 0 {
      forall e | e in p
        ensures StaysOrDrops(e.deadline % WRAP, was, next, Overflow)
      {
        hide SlotOf;
        assert InWheel(SlotOf(e.deadline % WRAP, 0));
      }
      MovingOneList(p, was, next, Overflow, s);
    } else {
      var c := CascadeAt(Next(time));
      forall e | e in p
        ensures match c
                case Nothing => next.At(e.deadline % WRAP) == was.At(e.deadline % WRAP)
                case Move(l, i) => StaysOrDrops(e.deadline % WRAP, was, next, Far(l, i))
      {
        hide SlotOf, CascadeAt;
        if e.deadline % WRAP > time {
          AdvanceMovesOneList(e.deadline % WRAP, time);
        }
      }
      match c
      case Nothing => SamePlaces(p, was, next, s);
      case Move(l, i) => MovingOneList(p, was, next, Far(l, i), s);
    }
  }

  /** Every run of the wheel, with any requests at any times, dispatches what the bag of deadlines says. */
  method Run(ops: seq<Op>) returns (log: seq<seq<Event>>)
    requires OpsWithin(ops, WRAP)
    ensures Dispatches(ops, log)
  {
    var wheel := new Wheel();
    log := [];
    for i := 0 to |ops|
      invariant fresh(wheel) && fresh(wheel.near) && fresh(wheel.far)
      invariant Follows(wheel, ops[..i], log)
    {
      assert ops[..i + 1] == ops[..i] + [ops[i]] && ops[i] in ops;
      log := Step(wheel, ops[i], ops[..i], log);
    }
    assert ops[..|ops|] == ops;
  }

  ghost predicate Follows(wheel: Wheel, ops: seq<Op>, log: seq<seq<Event>>)
    reads wheel, wheel.near, wheel.far
  {
    wheel.Valid() && wheel.Settled() && wheel.now == Ticks(ops) &&
    wheel.pending == After(Requested(ops), wheel.now) && Dispatches(ops, log)
  }

  method Step(wheel: Wheel, op: Op, ghost ops: seq<Op>, log: seq<seq<Event>>) returns (more: seq<seq<Event>>)
    requires OpsWithin([op], WRAP) && Follows(wheel, ops, log)
    modifies wheel, wheel.near, wheel.far
    ensures Follows(wheel, ops + [op], more)
  {
    hide After, Due, Requested, Stamp;
    assert op in [op];
    match op
    case Add(r) =>
      AddKeepsRun(ops, r, log);
      wheel.Add(r);
      more := log;
    case Tick(early, arrivals) =>
      TickKeepsRun(ops, early, arrivals, log);
      var fired := wheel.Update(early, arrivals);
      more := log + [fired];
  }
}
