/** Chains threaded through the slots of a hash table: what inserting right after a slot keeps, and what a walk
    along a chain finds. */
module Chains {

  /** The chain of every slot, named by the slot it began with (-1 for an unused one), and the slot's place on it.
      Between two places there is always room for a third. */
  datatype Order = Order(head: seq<int>, place: seq<real>)

  predicate Shaped(next: seq<int>, o: Order) {
    |next| == |o.head| == |o.place| &&
    forall i | 0 <= i < |next| :: -1 <= next[i] < |next| && (o.head[i] < 0 ==> next[i] == -1)
  }

  predicate Used(o: Order, i: nat)
    requires i < |o.head|
  {
    o.head[i] >= 0
  }

  predicate Same(o: Order, i: nat, k: nat)
    requires i < |o.head| && k < |o.head|
  {
    Used(o, i) && o.head[i] == o.head[k]
  }

  /** Slot k is reached from slot i. */
  predicate Reaches(o: Order, i: nat, k: nat)
    requires i < |o.head| == |o.place| && k < |o.head|
  {
    Same(o, i, k) && o.place[i] <= o.place[k]
  }

  /** `next` leads to the following place, and places differ. */
  ghost predicate LinkOk(next: seq<int>, o: Order, i: nat)
    requires Shaped(next, o) && i < |next|
  {
    (next[i] >= 0 ==> Same(o, i, next[i]) && o.place[i] < o.place[next[i]]) &&
    forall k | 0 <= k < |next| && k != i && Same(o, i, k) ::
      o.place[i] != o.place[k] &&
      (o.place[i] < o.place[k] ==> next[i] >= 0 && o.place[next[i]] <= o.place[k])
  }

  ghost predicate Linked(next: seq<int>, o: Order)
    requires Shaped(next, o)
  {
    forall i | 0 <= i < |next| && Used(o, i) :: LinkOk(next, o, i)
  }

  ghost predicate Wf(next: seq<int>, o: Order): (wf: bool)
    ensures wf ==> Shaped(next, o) && |next| == |o.head| == |o.place|
  {
    Shaped(next, o) && Linked(next, o)
  }

  function Nothing(n: nat): Order {
    Order(seq(n, _ => -1), seq(n, _ => 0.0))
  }

  lemma NothingWf(next: seq<int>)
    requires forall i | 0 <= i < |next| :: next[i] == -1
    ensures Wf(next, Nothing(|next|))
  {
  }

  /** An unused slot begins a chain. It must not be the name of another chain. */
  function Begin(o: Order, i: nat): Order
    requires i < |o.head| == |o.place|
  {
    Order(o.head[i := i], o.place[i := 0.0])
  }

  lemma BeginKeeps(next: seq<int>, o: Order, i: nat)
    requires Wf(next, o) && i < |next| && !Used(o, i)
    requires forall k | 0 <= k < |next| :: o.head[k] != i
    ensures Wf(next, Begin(o, i))
    ensures forall h, t | 0 <= h < |next| && 0 <= t < |next| && Reaches(o, h, t) :: Reaches(Begin(o, i), h, t)
  {
    var p := Begin(o, i);
    forall k | 0 <= k < |next| && Used(p, k)
      ensures LinkOk(next, p, k)
    {
      if k != i {
        assert LinkOk(next, o, k);
        forall l | 0 <= l < |next| && l != k && Same(p, k, l)
          ensures Same(o, k, l) && p.place[l] == o.place[l]
        {
        }
      }
    }
  }

  /** The place right after slot h. */
  function PlaceAfter(next: seq<int>, o: Order, h: nat): real
    requires Shaped(next, o) && h < |next|
  {
    if next[h] < 0 then o.place[h] + 1.0 else (o.place[h] + o.place[next[h]]) / 2.0
  }

  function Insert(next: seq<int>, o: Order, h: nat, t: nat): Order
    requires Shaped(next, o) && h < |next| && t < |next|
  {
    Order(o.head[t := o.head[h]], o.place[t := PlaceAfter(next, o, h)])
  }

  lemma RightAfter(next: seq<int>, o: Order, h: nat)
    requires Wf(next, o) && h < |next| && Used(o, h)
    ensures o.place[h] < PlaceAfter(next, o, h) && (next[h] >= 0 ==> PlaceAfter(next, o, h) < o.place[next[h]])
    ensures forall k | 0 <= k < |next| && Same(o, h, k) && k != h :: o.place[k] < o.place[h] || o.place[k] > PlaceAfter(next, o, h)
  {
    assert LinkOk(next, o, h);
  }

  /** An unused slot is linked in right after slot h. */
  lemma InsertKeeps(next: seq<int>, o: Order, h: nat, t: nat)
    requires Wf(next, o) && h < |next| && t < |next| && Used(o, h) && !Used(o, t)
    ensures Wf(next[t := next[h]][h := t], Insert(next, o, h, t))
    ensures Reaches(Insert(next, o, h, t), h, t)
    ensures forall i, k | 0 <= i < |next| && 0 <= k < |next| && Reaches(o, i, k) :: Reaches(Insert(next, o, h, t), i, k)
  {
    hide PlaceAfter;
    var next' := next[t := next[h]][h := t];
    var p := Insert(next, o, h, t);
    RightAfter(next, o, h);
    assert Shaped(next', p);
    forall i | 0 <= i < |next| && Used(p, i)
      ensures LinkOk(next', p, i)
    {
      InsertLink(next, o, h, t, i);
    }
  }

  lemma InsertLink(next: seq<int>, o: Order, h: nat, t: nat, i: nat)
    requires Wf(next, o) && h < |next| && t < |next| && Used(o, h) && !Used(o, t)
    requires i < |next| && Used(Insert(next, o, h, t), i) && Shaped(next[t := next[h]][h := t], Insert(next, o, h, t))
    ensures LinkOk(next[t := next[h]][h := t], Insert(next, o, h, t), i)
  {
    hide PlaceAfter;
    var next' := next[t := next[h]][h := t];
    var p := Insert(next, o, h, t);
    RightAfter(next, o, h);
    assert LinkOk(next, o, h);
    if i != t {
      assert LinkOk(next, o, i);
    }
    forall k | 0 <= k < |next| && k != i && Same(p, i, k)
      ensures p.place[i] != p.place[k] && (p.place[i] < p.place[k] ==> next'[i] >= 0 && p.place[next'[i]] <= p.place[k])
    {
      assert i != t && k != t ==> Same(o, i, k);
      assert i == t && k != h ==> Same(o, h, k);
      assert k == t && i != h ==> Same(o, h, i) && Same(o, i, h);
    }
  }

  lemma PlacesDiffer(next: seq<int>, o: Order, i: nat, k: nat)
    requires Wf(next, o) && i < |next| && k < |next| && i != k && Same(o, i, k)
    ensures o.place[i] != o.place[k]
  {
    assert LinkOk(next, o, i);
  }

  /** Slot h is taken off its chain, where it comes after slot `last`, and begins a chain of its own. */
  lemma EvictKeeps(next: seq<int>, o: Order, last: nat, h: nat)
    requires Wf(next, o) && last < |next| && h < |next| && next[last] == h
    requires forall k | 0 <= k < |next| && k != h :: o.head[k] != h
    ensures last != h && Used(o, last) && Used(o, h)
    ensures Wf(next[last := next[h]][h := -1], Begin(o, h))
  {
    var next', p := next[last := next[h]][h := -1], Begin(o, h);
    assert LinkOk(next, o, last) && LinkOk(next, o, h);
    forall i | 0 <= i < |next| && Used(p, i)
      ensures LinkOk(next', p, i)
    {
      EvictLink(next, o, last, h, i);
    }
  }

  lemma EvictLink(next: seq<int>, o: Order, last: nat, h: nat, i: nat)
    requires Wf(next, o) && last < |next| && h < |next| && next[last] == h && last != h
    requires forall k | 0 <= k < |next| && k != h :: o.head[k] != h
    requires i < |next| && Used(Begin(o, h), i) && Shaped(next[last := next[h]][h := -1], Begin(o, h))
    ensures LinkOk(next[last := next[h]][h := -1], Begin(o, h), i)
  {
    var next', p := next[last := next[h]][h := -1], Begin(o, h);
    assert LinkOk(next, o, last) && LinkOk(next, o, h);
    if i != h {
      assert LinkOk(next, o, i);
      assert i != last ==> next[i] != h;
    }
    forall k | 0 <= k < |next| && k != i && Same(p, i, k)
      ensures p.place[i] != p.place[k] && (p.place[i] < p.place[k] ==> next'[i] >= 0 && p.place[next'[i]] <= p.place[k])
    {
      assert i != h && k != h && Same(o, i, k);
      assert i == last ==> Same(o, h, k);
    }
  }

  // ---- walking

  ghost function Beyond(o: Order, i: nat): (b: set<int>)
    requires i < |o.place|
  {
    set k | 0 <= k < |o.place| && o.place[k] > o.place[i]
  }

  /** A step along the chain comes nearer to every slot that is still ahead. */
  lemma StepOn(next: seq<int>, o: Order, i: nat)
    requires Wf(next, o) && i < |next| && Used(o, i)
    ensures next[i] >= 0 ==> Used(o, next[i]) && Beyond(o, next[i]) < Beyond(o, i)
    ensures forall k | 0 <= k < |next| && k != i && Reaches(o, i, k) :: next[i] >= 0 && Reaches(o, next[i], k)
  {
    assert LinkOk(next, o, i);
    if next[i] >= 0 {
      assert next[i] in Beyond(o, i);
    }
  }
}
