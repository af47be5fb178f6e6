/** What a timer is for, without any wheel: a bag of deadlines on an unbounded clock.

    The clock and the deadlines here are natural numbers that never wrap.  A wheel refines this bag when
    its 32-bit fields are these numbers modulo 2^32 and each of its lists is exactly the part of the bag
    that belongs there, in insertion order. */
module TimerBag {
  import opened WheelDigits

  /** The service to wake and the session of its timeout; the second wheel only keeps a handle. */
  datatype Event = Event(handle: nat, session: int)

  datatype Entry = Entry(deadline: nat, event: Event)

  /** A request to be called back after `delay` ticks. */
  datatype Request = Request(delay: nat, event: Event)

  /** The node of a wheel's list, with its 32-bit deadline. */
  datatype Node = Node(expire: nat, event: Event)

  /** One step of a run: a request, or a tick. Early requests come in between the advance of the time and the dispatch,
      if the lock is free there; the others arrive during the dispatch. */
  datatype Op = Add(request: Request) | Tick(early: seq<Request>, arrivals: seq<Request>)

  function Due(p: seq<Entry>, now: nat): seq<Event> {
    if p == [] then []
    else
      var rest := Due(p[..|p| - 1], now);
      if p[|p| - 1].deadline == now then rest + [p[|p| - 1].event] else rest
  }

  function After(p: seq<Entry>, now: nat): seq<Entry>
  {
    if p == [] then []
    else
      var rest := After(p[..|p| - 1], now);
      if p[|p| - 1].deadline > now then rest + [p[|p| - 1]] else rest
  }

  function Stamp(rs: seq<Request>, now: nat): (p: seq<Entry>)
    ensures |p| == |rs| && forall i | 0 <= i < |rs| :: p[i] == Entry(now + rs[i].delay, rs[i].event)
  {
    seq(|rs|, i requires 0 <= i < |rs| => Entry(now + rs[i].delay, rs[i].event))
  }

  function Ticks(ops: seq<Op>): nat {
    if ops == [] then 0
    else Ticks(ops[..|ops| - 1]) + if ops[|ops| - 1].Tick? then 1 else 0
  }

  /** Everything that a run asks for, in the order in which it asks, with absolute deadlines. */
  function Requested(ops: seq<Op>): seq<Entry> {
    if ops == [] then []
    else
      var front := ops[..|ops| - 1];
      Requested(front) +
      match ops[|ops| - 1]
      case Add(r) => Stamp([r], Ticks(front))
      case Tick(early, arrivals) => Stamp(early + arrivals, Ticks(front) + 1)
  }

  ghost predicate DelaysWithin(rs: seq<Request>, limit: nat) {
    forall r | r in rs :: 0 < r.delay < limit
  }

  ghost predicate OpsWithin(ops: seq<Op>, limit: nat) {
    forall op | op in ops ::
      match op
      case Add(r) => 0 < r.delay < limit
      case Tick(early, arrivals) => DelaysWithin(early + arrivals, limit)
  }

  /** The dispatches of a run: the k-th tick hands out what was requested for moment k, in the order of
      the requests. */
  ghost predicate Dispatches(ops: seq<Op>, log: seq<seq<Event>>) {
    |log| == Ticks(ops) && forall k | 0 <= k < |log| :: log[k] == Due(Requested(ops), k + 1)
  }

  lemma {:induction false} DueSplits(p: seq<Entry>, q: seq<Entry>, now: nat)
    ensures Due(p + q, now) == Due(p, now) + Due(q, now)
  {
    if q == [] {
      assert p + q == p;
    } else {
      assert (p + q)[..|p + q| - 1] == p + q[..|q| - 1];
      DueSplits(p, q[..|q| - 1], now);
    }
  }

  lemma {:induction false} AfterSplits(p: seq<Entry>, q: seq<Entry>, now: nat)
    ensures After(p + q, now) == After(p, now) + After(q, now)
  {
    if q == [] {
      assert p + q == p;
    } else {
      assert (p + q)[..|p + q| - 1] == p + q[..|q| - 1];
      AfterSplits(p, q[..|q| - 1], now);
    }
  }

  lemma {:induction false} AfterElements(p: seq<Entry>, now: nat)
    ensures forall e | e in After(p, now) :: e in p && e.deadline > now
  {
    if p != [] {
      AfterElements(p[..|p| - 1], now);
    }
  }

  lemma {:induction false} AllAfter(p: seq<Entry>, now: nat)
    requires forall e | e in p :: e.deadline > now
    ensures After(p, now) == p && Due(p, now) == []
  {
    if p != [] {
      AllAfter(p[..|p| - 1], now);
    }
  }

  lemma {:induction false} NoneDue(p: seq<Entry>, now: nat)
    requires Due(p, now) == [] && forall e | e in p :: e.deadline >= now
    ensures forall e | e in p :: e.deadline > now
  {
    if p != [] {
      NoneDue(p[..|p| - 1], now);
    }
  }

  /** Waiting longer only forgets entries, and keeps what is due at the next moment. */
  lemma {:induction false} AfterAgain(p: seq<Entry>, now: nat)
    ensures After(After(p, now), now + 1) == After(p, now + 1)
    ensures Due(After(p, now), now + 1) == Due(p, now + 1)
  {
    if p != [] {
      var front, last := p[..|p| - 1], p[|p| - 1];
      AfterAgain(front, now);
      if last.deadline > now {
        assert After(p, now)[..|After(p, now)| - 1] == After(front, now);
      }
    }
  }

  /** The k-th request of a run is handed out exactly once: at its own deadline, after exactly those
      earlier requests that have the same deadline. */
  lemma {:induction false} HandedOutOnce(p: seq<Entry>, k: nat)
    requires k < |p|
    ensures
      var at := |Due(p[..k], p[k].deadline)|;
      at < |Due(p, p[k].deadline)| && Due(p, p[k].deadline)[at] == p[k].event &&
      Due(p, p[k].deadline)[..at] == Due(p[..k], p[k].deadline)
  {
    var d := p[k].deadline;
    assert p == p[..k] + ([p[k]] + p[k + 1..]);
    DueSplits(p[..k], [p[k]] + p[k + 1..], d);
    DueSplits([p[k]], p[k + 1..], d);
    assert [p[k]][..0] == [];
    assert Due([p[k]], d) == [p[k].event];
  }

  /** How many requests have been handed out after the first `n` moments. */
  function Served(p: seq<Entry>, n: nat): nat {
    if n == 0 then 0 else Served(p, n - 1) + |Due(p, n)|
  }

  /** Nothing is handed out that was not requested, or twice: served plus waiting is all there is. */
  lemma {:induction false} ServedPlusWaiting(p: seq<Entry>, n: nat)
    requires forall e | e in p :: e.deadline > 0
    ensures Served(p, n) + |After(p, n)| == |p|
  {
    if n == 0 {
      AllAfter(p, 0);
    } else {
      ServedPlusWaiting(p, n - 1);
      WaitingShrinks(p, n - 1);
    }
  }

  lemma WaitingShrinks(p: seq<Entry>, now: nat)
    ensures |After(p, now)| == |Due(p, now + 1)| + |After(p, now + 1)|
  {
    AfterElements(p, now);
    AfterAgain(p, now);
    DueOrAfter(After(p, now), now + 1);
  }

  lemma {:induction false} DueOrAfter(p: seq<Entry>, now: nat)
    requires forall e | e in p :: e.deadline >= now
    ensures |Due(p, now)| + |After(p, now)| == |p|
  {
    if p != [] {
      DueOrAfter(p[..|p| - 1], now);
    }
  }

  lemma RequestedNext(ops: seq<Op>, op: Op)
    ensures Ticks(ops + [op]) == Ticks(ops) + if op.Tick? then 1 else 0
    ensures Requested(ops + [op]) ==
            Requested(ops) + if op.Add? then Stamp([op.request], Ticks(ops)) else Stamp(op.early + op.arrivals, Ticks(ops) + 1)
  {
    assert (ops + [op])[..|ops|] == ops;
  }

  /** What a request adds to a run is still waiting. */
  lemma AddKeepsRun(ops: seq<Op>, r: Request, log: seq<seq<Event>>)
    requires Dispatches(ops, log) && r.delay > 0
    ensures
      var now := Ticks(ops);
      var more := ops + [Add(r)];
      Ticks(more) == now && Dispatches(more, log) &&
      After(Requested(more), now) == After(Requested(ops), now) + [Entry(now + r.delay, r.event)]
  {
    hide Due, After, Requested, Ticks;
    var now := Ticks(ops);
    var p, q := Requested(ops), Stamp([r], now);
    RequestedNext(ops, Add(r));
    assert q == [Entry(now + r.delay, r.event)];
    LaterRequests(p, q, now);
  }

  /** A tick hands out what is due at the next moment, before the requests of its own time come in. */
  lemma TickKeepsRun(ops: seq<Op>, early: seq<Request>, arrivals: seq<Request>, log: seq<seq<Event>>)
    requires Dispatches(ops, log) && forall r | r in early + arrivals :: r.delay > 0
    ensures
      hide Due, After, Requested, Ticks;
    var now := Ticks(ops);
      var more := ops + [Tick(early, arrivals)];
      var waiting := After(Requested(ops), now);
      Ticks(more) == now + 1 && Dispatches(more, log + [Due(waiting, now + 1)]) &&
      After(Requested(more), now + 1) == After(waiting, now + 1) + Stamp(early + arrivals, now + 1)
  {
    var now := Ticks(ops);
    var more := ops + [Tick(early, arrivals)];
    var p, q := Requested(ops), Stamp(early + arrivals, now + 1);
    RequestedNext(ops, Tick(early, arrivals));
    AfterAgain(p, now);
    LaterRequests(p, q, now + 1);
    DispatchesMore(ops, more, log, p, q);
  }

  lemma DispatchesMore(ops: seq<Op>, more: seq<Op>, log: seq<seq<Event>>, p: seq<Entry>, q: seq<Entry>)
    requires Dispatches(ops, log) && p == Requested(ops) && Requested(more) == p + q
    requires Ticks(more) == Ticks(ops) + 1 && forall t: nat | t <= Ticks(more) :: Due(p + q, t) == Due(p, t)
    ensures Dispatches(more, log + [Due(p, Ticks(more))])
  {
    hide Due, Ticks, Requested;
  }

  /** Requests that come in just before a dispatch wait, like those that come in after it. */
  lemma EarlyOnesWait(p: seq<Entry>, early: seq<Request>, arrivals: seq<Request>, now: nat)
    requires forall r | r in early :: r.delay > 0
    ensures Due(p + Stamp(early, now), now) == Due(p, now)
    ensures After(p + Stamp(early, now), now) + Stamp(arrivals, now) == After(p, now) + Stamp(early + arrivals, now)
  {
    hide Due, After;
    LaterRequests(p, Stamp(early, now), now);
    assert Stamp(early + arrivals, now) == Stamp(early, now) + Stamp(arrivals, now);
  }

  /** Requests for after a moment do not change what was due up to it. */
  lemma LaterRequests(p: seq<Entry>, q: seq<Entry>, now: nat)
    requires forall e | e in q :: e.deadline > now
    ensures After(p + q, now) == After(p, now) + q
    ensures forall t: nat | t <= now :: Due(p + q, t) == Due(p, t)
  {
    AfterSplits(p, q, now);
    AllAfter(q, now);
    forall t: nat | t <= now
      ensures Due(p + q, t) == Due(p, t)
    {
      DueSplits(p, q, t);
      AllAfter(q, t);
    }
  }

  // ---- lists of a wheel as parts of the bag

  /** The part of the bag that `place` files under `s`, as list nodes in insertion order. */
  function Listed(p: seq<Entry>, place: Filing, s: Slot): seq<Node> {
    if p == [] then []
    else
      var x := Node(p[|p| - 1].deadline % WRAP, p[|p| - 1].event);
      var rest := Listed(p[..|p| - 1], place, s);
      if place.At(x.expire) == s then rest + [x] else rest
  }

  /** The nodes of a list that `place` files under `s`. */
  function Sent(ns: seq<Node>, place: Filing, s: Slot): seq<Node> {
    if ns == [] then []
    else
      var rest := Sent(ns[..|ns| - 1], place, s);
      if place.At(ns[|ns| - 1].expire) == s then rest + [ns[|ns| - 1]] else rest
  }

  lemma {:induction false} ListedFacts(p: seq<Entry>, place: Filing, s: Slot)
    ensures forall n | n in Listed(p, place, s) :: n.expire < WRAP && place.At(n.expire) == s
    ensures forall n | n in Listed(p, place, s) :: exists e :: e in p && n.expire == e.deadline % WRAP
  {
    if p != [] {
      ListedFacts(p[..|p| - 1], place, s);
    }
  }

  /** Strictly below a list: what cascading that list may reach. */
  predicate Lower(s: Slot, c: Slot) {
    match c
    case Far(l, _) => Below(s, l)
    case _ => s != c
  }

  /** From one moment to the next, a deadline leaves list `c` for a lower one, or stays where it is and
      that is not lower than `c`. */
  predicate StaysOrDrops(expire: nat, was: Filing, now: Filing, c: Slot) {
    if was.At(expire) == c then Lower(now.At(expire), c)
    else now.At(expire) == was.At(expire) && !Lower(now.At(expire), c)
  }

  /** What belongs in list `s` next is what moving list `c` leaves there. */
  ghost predicate FitsMoving(p: seq<Entry>, was: Filing, now: Filing, c: Slot, s: Slot) {
    Listed(p, now, s) == (if s == c then [] else Listed(p, was, s)) + Sent(Listed(p, was, c), now, s)
  }

  /** Moving the nodes of one list to their new places, one after the other at the tails, leaves every
      list the part of the bag that belongs there. */
  lemma {:induction false} MovingOneList(p: seq<Entry>, was: Filing, now: Filing, c: Slot, s: Slot)
    requires forall e | e in p :: StaysOrDrops(e.deadline % WRAP, was, now, c)
    ensures FitsMoving(p, was, now, c, s)
  {
    hide StaysOrDrops;
    if p != [] {
      hide Listed, Sent, FitsMoving;
      var front, last := p[..|p| - 1], p[|p| - 1];
      assert last in p && p == front + [last];
      MovingOneList(front, was, now, c, s);
      MovingOneMore(front, last, was, now, c, s);
    }
  }

  lemma MovingOneMore(p: seq<Entry>, e: Entry, was: Filing, now: Filing, c: Slot, s: Slot)
    requires StaysOrDrops(e.deadline % WRAP, was, now, c)
    requires forall f | f in p :: StaysOrDrops(f.deadline % WRAP, was, now, c)
    requires FitsMoving(p, was, now, c, s)
    ensures FitsMoving(p + [e], was, now, c, s)
  {
    hide Filing.At, Listed, Sent;
    var x := Node(e.deadline % WRAP, e.event);
    ListedSnoc(p, e, now, s);
    ListedSnoc(p, e, was, s);
    ListedSnoc(p, e, was, c);
    SentSnoc(Listed(p, was, c), x, now, s);
    if was.At(x.expire) == c {
      assert now.At(x.expire) != c;
    } else if was.At(x.expire) == s {
      ListedFacts(p, was, c);
      NoneSent(Listed(p, was, c), now, s);
    }
  }

  lemma ListedSnoc(p: seq<Entry>, e: Entry, place: Filing, s: Slot)
    ensures
      var x := Node(e.deadline % WRAP, e.event);
      Listed(p + [e], place, s) ==
      if place.At(x.expire) == s then Listed(p, place, s) + [x] else Listed(p, place, s)
  {
    assert (p + [e])[..|p|] == p;
  }

  lemma SentSnoc(ns: seq<Node>, n: Node, place: Filing, s: Slot)
    ensures Sent(ns + [n], place, s) == if place.At(n.expire) == s then Sent(ns, place, s) + [n] else Sent(ns, place, s)
  {
    assert (ns + [n])[..|ns|] == ns;
  }

  lemma {:induction false} SamePlaces(p: seq<Entry>, was: Filing, now: Filing, s: Slot)
    requires forall e | e in p :: now.At(e.deadline % WRAP) == was.At(e.deadline % WRAP)
    ensures Listed(p, now, s) == Listed(p, was, s)
  {
    if p != [] {
      assert p[|p| - 1] in p;
      SamePlaces(p[..|p| - 1], was, now, s);
    }
  }

  lemma {:induction false} NoneSent(ns: seq<Node>, place: Filing, s: Slot)
    requires forall n | n in ns :: place.At(n.expire) != s
    ensures Sent(ns, place, s) == []
  {
    if ns != [] {
      NoneSent(ns[..|ns| - 1], place, s);
    }
  }

  /** Entries filed under the slot of the current time are the ones that are due. */
  lemma {:induction false} ListedIsDue(p: seq<Entry>, place: Filing, s: Slot, now: nat)
    requires forall e | e in p :: place.At(e.deadline % WRAP) == s <==> e.deadline == now
    ensures Events(Listed(p, place, s)) == Due(p, now)
  {
    if p != [] {
      var front, last := p[..|p| - 1], p[|p| - 1];
      ListedIsDue(front, place, s, now);
      if last.deadline == now {
        assert Listed(p, place, s)[..|Listed(p, place, s)| - 1] == Listed(front, place, s);
      }
    }
  }

  /** Taking out the due entries empties their list and leaves every other one as it was. */
  lemma {:induction false} ListedWithoutDue(p: seq<Entry>, place: Filing, due: Slot, s: Slot, now: nat)
    requires forall e | e in p :: e.deadline >= now
    requires forall e | e in p :: place.At(e.deadline % WRAP) == due <==> e.deadline == now
    ensures Listed(After(p, now), place, s) == if s == due then [] else Listed(p, place, s)
  {
    if p != [] {
      var front, last := p[..|p| - 1], p[|p| - 1];
      hide Listed;
      ListedWithoutDue(front, place, due, s, now);
      assert p == front + [last];
      ListedSnoc(front, last, place, s);
      ListedSnoc(After(front, now), last, place, s);
    }
  }

  function Events(ns: seq<Node>): seq<Event> {
    if ns == [] then [] else Events(ns[..|ns| - 1]) + [ns[|ns| - 1].event]
  }
}
