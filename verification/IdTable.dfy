/** The hash table of gaoi.c, and of aoi.c: chains threaded through the slots, relocation of strangers, and drops
    that leave their id behind. In gaoi.c a main position whose object was dropped is used again; in aoi.c it is not,
    and a query brings the object back.

    The size is a power of two, so the mask of mainposition is a remainder. */
module IdTable {

  import C = Chains
  import opened Sets

  const INVALID_ID: nat := 0xFFFF_FFFF

  datatype Ptr = Null | Ptr(obj: nat)
  datatype Slot = Slot(id: nat, obj: Ptr, next: int)

  type Order = C.Order

  predicate Used(x: Slot) {
    x.id != INVALID_ID
  }

  predicate Live(x: Slot) {
    Used(x) && x.obj.Ptr?
  }

  /** mainposition */
  function Main(id: nat, size: nat): (h: nat)
    requires size > 0
    ensures h < size
  {
    id % size
  }

  predicate AtHome(s: seq<Slot>, i: nat)
    requires i < |s|
  {
    Main(s[i].id, |s|) == i
  }

  function Nexts(s: seq<Slot>): (next: seq<int>)
    ensures |next| == |s| && forall i | 0 <= i < |s| :: next[i] == s[i].next
  {
    seq(|s|, i requires 0 <= i < |s| => s[i].next)
  }

  /** The used slots are those on chains. A chain is named by a slot of it that is in its main position. */
  ghost predicate Shaped(s: seq<Slot>, o: Order) {
    |s| > 0 && C.Shaped(Nexts(s), o) &&
    (forall i | 0 <= i < |s| :: (Used(s[i]) <==> C.Used(o, i)) && (Used(s[i]) || s[i].obj.Null?)) &&
    (forall i | 0 <= i < |s| && Used(s[i]) ::
      o.head[i] < |s| && Used(s[o.head[i]]) && o.head[o.head[i]] == o.head[i] && AtHome(s, o.head[i]))
  }

  /** Every id is on the chain of its main position, at or after it, and whoever has the main position of
      an id in the table is at home there. */
  ghost predicate Reachable(s: seq<Slot>, o: Order)
    requires Shaped(s, o)
  {
    forall i | 0 <= i < |s| && Used(s[i]) :: InReach(s, o, i)
  }

  predicate InReach(s: seq<Slot>, o: Order, i: nat)
    requires |s| == |o.head| == |o.place| && i < |s|
  {
    var h := Main(s[i].id, |s|);
    C.Reaches(o, h, i) && AtHome(s, h)
  }

  /** A live entry comes before anything that a drop left behind under its id. */
  ghost predicate LiveFirst(s: seq<Slot>, o: Order)
    requires |s| == |o.place|
  {
    forall i, k | 0 <= i < |s| && 0 <= k < |s| && i != k :: LiveBefore(s, o, i, k)
  }

  predicate LiveBefore(s: seq<Slot>, o: Order, i: nat, k: nat)
    requires i < |s| == |o.place| && k < |s|
  {
    Live(s[i]) && s[k].id == s[i].id ==> o.place[i] < o.place[k]
  }

  ghost predicate Wf(s: seq<Slot>, o: Order): (wf: bool)
    ensures wf ==> |s| == |o.head| == |o.place| > 0
  {
    Shaped(s, o) && C.Linked(Nexts(s), o) && Reachable(s, o) && LiveFirst(s, o)
  }

  /** No slot has this id, not even one whose object was dropped. */
  ghost predicate NoneBears(s: seq<Slot>, id: nat) {
    forall i | 0 <= i < |s| && Used(s[i]) :: s[i].id != id
  }

  /** Where dropped entries are not used again, every id is in one slot at most. */
  ghost predicate Once(s: seq<Slot>) {
    forall i, k | 0 <= i < k < |s| && Used(s[i]) && Used(s[k]) :: s[i].id != s[k].id
  }

  lemma OnceMore(s: seq<Slot>, s': seq<Slot>, t: nat, id: nat)
    requires Once(s) && NoneBears(s, id) && |s| == |s'| && t < |s| && s'[t].id == id
    requires forall i | 0 <= i < |s| && i != t :: s'[i].id == s[i].id
    ensures Once(s')
    ensures Used(s[t]) && s[t].id != id ==> NoneBears(s', s[t].id)
  {
  }

  lemma OnceSame(s: seq<Slot>, s': seq<Slot>)
    requires |s| == |s'| && forall i | 0 <= i < |s| :: s'[i].id == s[i].id
    ensures Once(s) ==> Once(s')
  {
  }

  lemma NotHeldNotBorne(s: seq<Slot>, m: map<nat, nat>, id: nat)
    requires AllLive(s) && Holds(s, m) && id !in m
    ensures NoneBears(s, id)
  {
  }

  /** Where every id is in one slot at most, a dropped object can come back. */
  lemma ReviveKeeps(s: seq<Slot>, o: Order, i: nat, obj: nat)
    requires Wf(s, o) && Once(s) && i < |s| && Used(s[i])
    ensures Wf(s[i := s[i].(obj := Ptr(obj))], o)
  {
    hide Main, C.LinkOk;
    var s' := s[i := s[i].(obj := Ptr(obj))];
    assert Nexts(s') == Nexts(s);
    assert Shaped(s', o);
    forall k | 0 <= k < |s| && Used(s'[k])
      ensures InReach(s', o, k)
    {
      assert InReach(s, o, k);
    }
    forall k, l | 0 <= k < |s| && 0 <= l < |s| && k != l
      ensures LiveBefore(s', o, k, l)
    {
      assert LiveBefore(s, o, k, l);
    }
  }

  lemma RevivedIsHeld(s: seq<Slot>, o: Order, m: map<nat, nat>, i: nat, obj: nat)
    requires Wf(s, o) && Holds(s, m) && i < |s| && Used(s[i]) && s[i].id !in m
    ensures Holds(s[i := s[i].(obj := Ptr(obj))], m[s[i].id := obj])
  {
    var s' := s[i := s[i].(obj := Ptr(obj))];
    GivenIsHeld(s, o, m, s', i, s[i].id, obj);
  }

  /** The table as a finite map. */
  ghost predicate Holds(s: seq<Slot>, m: map<nat, nat>) {
    (forall i | 0 <= i < |s| && Live(s[i]) :: s[i].id in m && m[s[i].id] == s[i].obj.obj) &&
    (forall id | id in m :: exists i :: 0 <= i < |s| && Live(s[i]) && s[i].id == id)
  }

  lemma InRange(s: seq<Slot>, o: Order, i: nat)
    requires Wf(s, o) && i < |s|
    ensures C.Shaped(Nexts(s), o) && -1 <= s[i].next < |s|
  {
  }

  // ---- the changes to the slots

  /** A live entry comes to slot t, before what was dropped under its id. */
  lemma NewEntryIsFirst(s: seq<Slot>, o: Order, s': seq<Slot>, o': Order, t: nat, id: nat)
    requires |s| == |s'| == |o.place| == |o'.place| && t < |s| && LiveFirst(s, o)
    requires s'[t].id == id && forall i | 0 <= i < |s| && Live(s[i]) :: s[i].id != id
    requires forall i | 0 <= i < |s| && i != t :: s'[i].id == s[i].id && s'[i].obj == s[i].obj && o'.place[i] == o.place[i]
    requires forall k | 0 <= k < |s| && k != t && s[k].id == id :: o'.place[t] < o'.place[k]
    ensures LiveFirst(s', o')
  {
    forall i, k | 0 <= i < |s| && 0 <= k < |s| && i != k
      ensures LiveBefore(s', o', i, k)
    {
      assert LiveBefore(s, o, i, k);
    }
  }

  /** An entry starts a chain of its own. */
  lemma StartKeeps(s: seq<Slot>, o: Order, id: nat, obj: nat)
    requires Wf(s, o) && id != INVALID_ID && !Used(s[Main(id, |s|)])
    ensures
      var h := Main(id, |s|);
      Wf(s[h := Slot(id, Ptr(obj), -1)], C.Begin(o, h))
  {
    hide C.Linked, C.LinkOk, Reachable, LiveFirst, Main;
    var h := Main(id, |s|);
    var s', o' := s[h := Slot(id, Ptr(obj), -1)], C.Begin(o, h);
    assert Nexts(s') == Nexts(s);
    C.BeginKeeps(Nexts(s), o, h);
    assert Shaped(s', o');
    StartReaches(s, o, s', o', id, obj);
    NewEntryIsFirst(s, o, s', o', h, id);
  }

  lemma StartReaches(s: seq<Slot>, o: Order, s': seq<Slot>, o': Order, id: nat, obj: nat)
    requires Wf(s, o) && id != INVALID_ID && !Used(s[Main(id, |s|)])
    requires s' == s[Main(id, |s|) := Slot(id, Ptr(obj), -1)] && o' == C.Begin(o, Main(id, |s|)) && Shaped(s', o')
    ensures Reachable(s', o') && forall i | 0 <= i < |s| && i != Main(id, |s|) :: s[i].id != id
  {
    hide Main, C.Linked, LiveFirst;
    var h := Main(id, |s|);
    forall i | 0 <= i < |s| && Used(s'[i])
      ensures InReach(s', o', i) && (i != h ==> s'[i].id != id)
    {
      if i != h {
        assert InReach(s, o, i);
      }
    }
  }

  /** An entry takes over a main position whose object was dropped, links and all. */
  lemma TakeOverKeeps(s: seq<Slot>, o: Order, id: nat, obj: nat)
    requires Wf(s, o) && id != INVALID_ID && Used(s[Main(id, |s|)]) && !Live(s[Main(id, |s|)])
    requires forall i | 0 <= i < |s| && Live(s[i]) :: s[i].id != id
    ensures
      var h := Main(id, |s|);
      Wf(s[h := s[h].(id := id, obj := Ptr(obj))], o)
  {
    hide C.Linked, C.LinkOk, Reachable, LiveFirst, Main;
    var h := Main(id, |s|);
    var s' := s[h := s[h].(id := id, obj := Ptr(obj))];
    assert Nexts(s') == Nexts(s);
    assert Shaped(s', o);
    TakeOverReaches(s, o, s', id, obj);
    NewEntryIsFirst(s, o, s', o, h, id);
  }

  lemma TakeOverReaches(s: seq<Slot>, o: Order, s': seq<Slot>, id: nat, obj: nat)
    requires Wf(s, o) && id != INVALID_ID && Used(s[Main(id, |s|)]) && !Live(s[Main(id, |s|)])
    requires forall i | 0 <= i < |s| && Live(s[i]) :: s[i].id != id
    requires s' == s[Main(id, |s|) := s[Main(id, |s|)].(id := id, obj := Ptr(obj))] && Shaped(s', o)
    ensures Reachable(s', o)
    ensures forall k | 0 <= k < |s| && k != Main(id, |s|) && s[k].id == id :: o.place[Main(id, |s|)] < o.place[k]
  {
    hide Main, LiveFirst, C.Linked;
    var h := Main(id, |s|);
    forall i | 0 <= i < |s| && Used(s'[i])
      ensures InReach(s', o, i)
    {
      assert InReach(s, o, i);
    }
    forall k | 0 <= k < |s| && k != h && s[k].id == id
      ensures o.place[h] < o.place[k]
    {
      assert InReach(s, o, k);
      C.PlacesDiffer(Nexts(s), o, h, k);
    }
  }

  /** A stranger is taken off its chain and an entry that belongs there moves in. */
  lemma EvictKeeps(s: seq<Slot>, o: Order, last: nat, id: nat, obj: nat)
    requires Wf(s, o) && id != INVALID_ID && last < |s|
    requires Used(s[Main(id, |s|)]) && !AtHome(s, Main(id, |s|)) && s[last].next == Main(id, |s|)
    requires forall i | 0 <= i < |s| && Live(s[i]) :: s[i].id != id
    ensures
      var h := Main(id, |s|);
      Wf(s[last := s[last].(next := s[h].next)][h := Slot(id, Ptr(obj), -1)], C.Begin(o, h))
  {
    hide C.Linked, C.LinkOk, Reachable, LiveFirst, Main;
    var h := Main(id, |s|);
    C.EvictKeeps(Nexts(s), o, last, h);
    var s' := s[last := s[last].(next := s[h].next)][h := Slot(id, Ptr(obj), -1)];
    assert Nexts(s') == Nexts(s)[last := s[h].next][h := -1];
    assert Shaped(s', C.Begin(o, h));
    EvictReaches(s, o, s', last, id, obj);
    NewEntryIsFirst(s, o, s', C.Begin(o, h), h, id);
  }

  lemma EvictReaches(s: seq<Slot>, o: Order, s': seq<Slot>, last: nat, id: nat, obj: nat)
    requires Wf(s, o) && id != INVALID_ID && last < |s|
    requires Used(s[Main(id, |s|)]) && !AtHome(s, Main(id, |s|)) && last != Main(id, |s|)
    requires s' == s[last := s[last].(next := s[Main(id, |s|)].next)][Main(id, |s|) := Slot(id, Ptr(obj), -1)]
    requires Shaped(s', C.Begin(o, Main(id, |s|)))
    ensures Reachable(s', C.Begin(o, Main(id, |s|))) && forall i | 0 <= i < |s| && i != Main(id, |s|) :: s[i].id != id
  {
    hide Main, C.Linked, LiveFirst;
    var h := Main(id, |s|);
    var o' := C.Begin(o, h);
    forall i | 0 <= i < |s| && Used(s'[i])
      ensures InReach(s', o', i) && (i != h ==> s'[i].id != id)
    {
      if i != h {
        assert InReach(s, o, i);
      }
    }
  }

  /** An entry goes to an unused slot, linked in right after its main position. */
  lemma InsertKeeps(s: seq<Slot>, o: Order, t: nat, id: nat, obj: nat)
    requires Wf(s, o) && id != INVALID_ID && t < |s| && !Used(s[t])
    requires Used(s[Main(id, |s|)]) && AtHome(s, Main(id, |s|)) && s[Main(id, |s|)].id != id
    requires forall i | 0 <= i < |s| && Live(s[i]) :: s[i].id != id
    ensures
      var h := Main(id, |s|);
      Wf(s[t := Slot(id, Ptr(obj), s[h].next)][h := s[h].(next := t)], C.Insert(Nexts(s), o, h, t))
  {
    hide C.Linked, C.LinkOk, Reachable, LiveFirst, Main;
    var h := Main(id, |s|);
    var s', o' := s[t := Slot(id, Ptr(obj), s[h].next)][h := s[h].(next := t)], C.Insert(Nexts(s), o, h, t);
    C.InsertKeeps(Nexts(s), o, h, t);
    assert Nexts(s') == Nexts(s)[t := s[h].next][h := t];
    assert Shaped(s', o') by { hide C.PlaceAfter; }
    InsertReaches(s, o, s', o', t, id, obj);
    NewEntryIsFirst(s, o, s', o', t, id);
  }

  lemma InsertReaches(s: seq<Slot>, o: Order, s': seq<Slot>, o': Order, t: nat, id: nat, obj: nat)
    requires Wf(s, o) && id != INVALID_ID && t < |s| && !Used(s[t])
    requires Used(s[Main(id, |s|)]) && AtHome(s, Main(id, |s|)) && s[Main(id, |s|)].id != id
    requires forall i | 0 <= i < |s| && Live(s[i]) :: s[i].id != id
    requires
      var h := Main(id, |s|);
      s' == s[t := Slot(id, Ptr(obj), s[h].next)][h := s[h].(next := t)] && o' == C.Insert(Nexts(s), o, h, t) &&
      Shaped(s', o')
    ensures Reachable(s', o')
    ensures forall k | 0 <= k < |s| && k != t && s[k].id == id :: o'.place[t] < o.place[k]
  {
    hide Main, C.Linked, LiveFirst, C.PlaceAfter;
    var h := Main(id, |s|);
    C.RightAfter(Nexts(s), o, h);
    forall i | 0 <= i < |s| && Used(s[i])
      ensures i != t && InReach(s', o', i) && (s[i].id == id ==> o'.place[t] < o.place[i])
    {
      assert InReach(s, o, i);
    }
    assert InReach(s', o', t);
  }

  /** An object is dropped; its id and links stay. */
  lemma DropKeeps(s: seq<Slot>, o: Order, i: nat)
    requires Wf(s, o) && i < |s|
    ensures Wf(s[i := s[i].(obj := Null)], o)
  {
    hide Main, C.LinkOk;
    var s' := s[i := s[i].(obj := Null)];
    assert Nexts(s') == Nexts(s);
    assert Shaped(s', o);
    forall k | 0 <= k < |s| && Used(s'[k])
      ensures InReach(s', o, k)
    {
      assert InReach(s, o, k);
    }
    forall k, l | 0 <= k < |s| && 0 <= l < |s| && k != l
      ensures LiveBefore(s', o, k, l)
    {
      assert LiveBefore(s, o, k, l);
    }
  }

  // ---- the contents

  lemma IdsAreUnique(s: seq<Slot>, o: Order, i: nat, k: nat)
    requires Wf(s, o) && i < |s| && k < |s| && i != k && Live(s[i]) && Live(s[k])
    ensures s[i].id != s[k].id
  {
    hide C.Linked, Reachable, Shaped;
    assert LiveBefore(s, o, i, k) && LiveBefore(s, o, k, i);
  }

  /** What a table holds after slot t was given to an entry. */
  function Given(m: map<nat, nat>, was: Slot, id: nat, obj: nat): map<nat, nat> {
    if Live(was) then (m - {was.id})[id := obj] else m[id := obj]
  }

  lemma {:induction false} GivenIsHeld(s: seq<Slot>, o: Order, m: map<nat, nat>, s': seq<Slot>, t: nat, id: nat, obj: nat)
    requires Wf(s, o) && Holds(s, m) && t < |s| == |s'| && id != INVALID_ID && id !in m
    requires s'[t].id == id && s'[t].obj == Ptr(obj)
    requires forall i | 0 <= i < |s| && i != t :: s'[i].id == s[i].id && s'[i].obj == s[i].obj
    ensures Holds(s', Given(m, s[t], id, obj))
  {
    hide Wf;
    var m' := Given(m, s[t], id, obj);
    forall i | 0 <= i < |s| && Live(s'[i])
      ensures s'[i].id in m' && m'[s'[i].id] == s'[i].obj.obj
    {
      if i != t && Live(s[t]) {
        IdsAreUnique(s, o, i, t);
      }
    }
    forall x | x in m'
      ensures exists i :: 0 <= i < |s'| && Live(s'[i]) && s'[i].id == x
    {
      if x == id {
        assert Live(s'[t]);
      } else {
        var i :| 0 <= i < |s| && Live(s[i]) && s[i].id == x;
        assert i != t && Live(s'[i]) && s'[i].id == x;
      }
    }
  }

  lemma DroppedIsGone(s: seq<Slot>, o: Order, m: map<nat, nat>, i: nat)
    requires Wf(s, o) && Holds(s, m) && i < |s|
    requires Live(s[i]) || s[i].id !in m
    ensures Holds(s[i := s[i].(obj := Null)], m - {s[i].id})
  {
    hide Wf;
    var s', m' := s[i := s[i].(obj := Null)], m - {s[i].id};
    forall k | 0 <= k < |s| && Live(s'[k])
      ensures s'[k].id in m' && m'[s'[k].id] == s'[k].obj.obj
    {
      assert k != i && Live(s[k]);
      if Live(s[i]) {
        IdsAreUnique(s, o, i, k);
      }
    }
    forall x | x in m'
      ensures exists k :: 0 <= k < |s'| && Live(s'[k]) && s'[k].id == x
    {
      var k :| 0 <= k < |s| && Live(s[k]) && s[k].id == x;
      assert Live(s'[k]) && s'[k].id == x;
    }
  }

  ghost predicate Full(s: seq<Slot>) {
    forall i | 0 <= i < |s| :: Used(s[i])
  }

  /** Nothing was dropped from the table. */
  ghost predicate AllLive(s: seq<Slot>) {
    forall i | 0 <= i < |s| && Used(s[i]) :: Live(s[i])
  }

  function Ids(s: seq<Slot>, n: nat): (ids: set<nat>)
    requires n <= |s|
  {
    set i | 0 <= i < n :: s[i].id
  }

  lemma {:induction false} IdsCounted(s: seq<Slot>, o: Order, n: nat)
    requires Wf(s, o) && n <= |s| && forall i | 0 <= i < |s| :: Live(s[i])
    ensures |Ids(s, n)| == n
  {
    hide Wf;
    if n > 0 {
      IdsCounted(s, o, n - 1);
      forall i | 0 <= i < n - 1
        ensures s[i].id != s[n - 1].id
      {
        IdsAreUnique(s, o, i, n - 1);
      }
      assert Ids(s, n) == Ids(s, n - 1) + {s[n - 1].id} && s[n - 1].id !in Ids(s, n - 1);
    }
  }

  /** A table from which nothing was dropped is full only when it holds as many objects as it has slots. */
  lemma FullHoldsAll(s: seq<Slot>, o: Order, m: map<nat, nat>)
    requires Wf(s, o) && Holds(s, m) && AllLive(s) && Full(s)
    ensures |m| >= |s|
  {
    hide Wf;
    IdsCounted(s, o, |s|);
    assert Ids(s, |s|) <= m.Keys;
    SubsetSize(Ids(s, |s|), m.Keys);
  }

  // ---- searching

  /** Whatever bears this id is on the chain of slot i, and not before it. */
  ghost predicate Ahead(s: seq<Slot>, o: Order, i: nat, id: nat)
    requires i < |s| == |o.head| == |o.place|
  {
    forall k | 0 <= k < |s| && Used(s[k]) && s[k].id == id :: C.Reaches(o, i, k)
  }

  lemma AheadAtFirst(s: seq<Slot>, o: Order, id: nat)
    requires Wf(s, o)
    ensures Ahead(s, o, Main(id, |s|), id)
  {
    hide Main, C.Linked, LiveFirst;
    forall k | 0 <= k < |s| && Used(s[k]) && s[k].id == id
      ensures C.Reaches(o, Main(id, |s|), k)
    {
      assert InReach(s, o, k);
    }
  }

  lemma AheadNext(s: seq<Slot>, o: Order, i: nat, id: nat)
    requires Wf(s, o) && i < |s| && s[i].id != id && Ahead(s, o, i, id)
    ensures s[i].next >= 0 ==> Ahead(s, o, s[i].next, id) && C.Beyond(o, s[i].next) < C.Beyond(o, i)
    ensures s[i].next < 0 ==> forall k | 0 <= k < |s| && Used(s[k]) :: s[k].id != id
  {
    hide Main, LiveFirst, Reachable;
    if Used(s[i]) {
      C.StepOn(Nexts(s), o, i);
    }
  }

  /** The first entry with an id is the live one, when there is one. */
  lemma FirstIsLive(s: seq<Slot>, o: Order, m: map<nat, nat>, i: nat)
    requires Wf(s, o) && Holds(s, m) && i < |s| && Ahead(s, o, i, s[i].id)
    ensures s[i].obj == if s[i].id in m then Ptr(m[s[i].id]) else Null
  {
    hide Main, C.Linked, Reachable;
    if s[i].id in m {
      var k :| 0 <= k < |s| && Live(s[k]) && s[k].id == s[i].id;
      assert k == i || LiveBefore(s, o, k, i);
    }
  }

  /** A stranger's predecessor lies between the main position of its id and the stranger. */
  ghost predicate Leads(s: seq<Slot>, o: Order, last: nat, h: nat)
    requires last < |s| == |o.head| == |o.place| && h < |s|
  {
    C.Reaches(o, last, h) && last != h
  }

  lemma MainLeads(s: seq<Slot>, o: Order, h: nat)
    requires Wf(s, o) && h < |s| && Used(s[h]) && !AtHome(s, h)
    ensures Leads(s, o, Main(s[h].id, |s|), h)
  {
    hide Main, C.Linked, LiveFirst;
    assert InReach(s, o, h);
  }

  lemma NextLeads(s: seq<Slot>, o: Order, last: nat, h: nat)
    requires Wf(s, o) && h < |s| && last < |s| && Leads(s, o, last, h)
    ensures s[last].next >= 0
    ensures s[last].next != h ==> Leads(s, o, s[last].next, h) && C.Beyond(o, s[last].next) < C.Beyond(o, last)
  {
    hide Main, Reachable, LiveFirst;
    C.StepOn(Nexts(s), o, last);
  }

  lemma LeadsAhead(s: seq<Slot>, o: Order, last: nat, h: nat)
    requires Wf(s, o) && last < |s| && h < |s| && Leads(s, o, last, h)
    ensures last != h && Used(s[last])
  {
  }

  lemma MainIsHome(s: seq<Slot>, o: Order, i: nat)
    requires Wf(s, o) && i < |s| && Used(s[i])
    ensures Used(s[Main(s[i].id, |s|)]) && AtHome(s, Main(s[i].id, |s|))
  {
    assert InReach(s, o, i);
  }

  lemma NotHeld(s: seq<Slot>, m: map<nat, nat>, id: nat)
    requires Holds(s, m) && id !in m
    ensures forall i | 0 <= i < |s| && Live(s[i]) :: s[i].id != id
  {
  }

  lemma LiveIsHeld(s: seq<Slot>, m: map<nat, nat>, i: nat)
    requires Holds(s, m) && i < |s| && Live(s[i])
    ensures s[i].id in m && m[s[i].id] == s[i].obj.obj
  {
  }

  lemma UnusedHasNoNext(s: seq<Slot>, o: Order, i: nat)
    requires Wf(s, o) && i < |s| && !Used(s[i])
    ensures s[i].next == -1
  {
  }

  lemma LiveIfHasObject(s: seq<Slot>, o: Order, i: nat)
    requires Wf(s, o) && i < |s| && s[i].obj.Ptr?
    ensures Live(s[i])
  {
  }

  // ---- an empty table, and what rehash brings along

  lemma BlankIsEmpty(s: seq<Slot>)
    requires |s| > 0 && forall i | 0 <= i < |s| :: s[i] == Slot(INVALID_ID, Null, -1)
    ensures Wf(s, C.Nothing(|s|)) && Holds(s, map[]) && AllLive(s)
  {
    hide Main;
    C.NothingWf(Nexts(s));
  }

  /** What the first n slots hold. */
  function Held(s: seq<Slot>, n: nat): map<nat, nat>
    requires n <= |s|
  {
    if n == 0 then map[]
    else if Live(s[n - 1]) then Held(s, n - 1)[s[n - 1].id := s[n - 1].obj.obj]
    else Held(s, n - 1)
  }

  lemma {:induction false} HeldFew(s: seq<Slot>, n: nat)
    requires n <= |s|
    ensures |Held(s, n)| <= n
  {
    if n > 0 {
      HeldFew(s, n - 1);
    }
  }

  lemma {:induction false} HeldIs(s: seq<Slot>, o: Order, m: map<nat, nat>, n: nat)
    requires Wf(s, o) && Holds(s, m) && n <= |s|
    ensures forall id | id in Held(s, n) :: id in m && Held(s, n)[id] == m[id]
    ensures forall i | 0 <= i < n && Live(s[i]) :: s[i].id in Held(s, n)
  {
    hide Wf;
    if n > 0 {
      HeldIs(s, o, m, n - 1);
    }
  }

  lemma {:induction false} HeldComesFrom(s: seq<Slot>, n: nat, id: nat)
    requires n <= |s| && id in Held(s, n)
    ensures exists i :: 0 <= i < n && Live(s[i]) && s[i].id == id
  {
    if Live(s[n - 1]) && s[n - 1].id == id {
    } else {
      HeldComesFrom(s, n - 1, id);
    }
  }

  lemma HeldNext(s: seq<Slot>, o: Order, n: nat)
    requires Wf(s, o) && n < |s|
    ensures Live(s[n]) ==> s[n].id !in Held(s, n) && Held(s, n + 1) == Held(s, n)[s[n].id := s[n].obj.obj]
    ensures !Live(s[n]) ==> Held(s, n + 1) == Held(s, n)
  {
    hide Wf;
    if Live(s[n]) && s[n].id in Held(s, n) {
      HeldComesFrom(s, n, s[n].id);
      var i :| 0 <= i < n && Live(s[i]) && s[i].id == s[n].id;
      IdsAreUnique(s, o, i, n);
      assert false;
    }
  }

  lemma HeldAll(s: seq<Slot>, o: Order, m: map<nat, nat>)
    requires Wf(s, o) && Holds(s, m)
    ensures Held(s, |s|) == m
  {
    hide Wf;
    HeldIs(s, o, m, |s|);
    assert forall id | id in m :: id in Held(s, |s|);
  }

  lemma RoomLeft(s: seq<Slot>, o: Order, m: map<nat, nat>, n: nat)
    requires Wf(s, o) && Holds(s, m) && AllLive(s) && |m| <= n && 2 * n <= |s|
    ensures !Full(s)
  {
    hide Wf, Holds;
    if Full(s) {
      FullHoldsAll(s, o, m);
      assert false;
    }
  }

  // ---- the table

  class IdMap {
    // whether a main position whose object was dropped is used again
    const reuse: bool
    var slot: array<Slot>
    var lastfree: int
    ghost var order: Order
    ghost var contents: map<nat, nat>

    ghost predicate Valid()
      reads this, slot
    {
      Wf(slot[..], order) && Holds(slot[..], contents) && (reuse || Once(slot[..])) && -1 <= lastfree < slot.Length &&
      forall k | lastfree < k < slot.Length :: Used(slot[k])
    }

    constructor (size: nat, reuse: bool)
      requires size > 0
      ensures Valid() && fresh(slot) && slot.Length == size && contents == map[] && this.reuse == reuse
      ensures AllLive(slot[..])
    {
      hide Wf, Holds;
      this.reuse := reuse;
      slot := new Slot[size](_ => Slot(INVALID_ID, Null, -1));
      lastfree := size - 1;
      order := C.Nothing(size);
      contents := map[];
      new;
      BlankIsEmpty(slot[..]);
    }

    /** The first slot on the chain of id that bears the id, or none. */
    method Find(id: nat) returns (at: int)
      requires Valid()
      ensures -1 <= at < slot.Length
      ensures at >= 0 ==> slot[at].id == id && slot[at].obj == if id in contents then Ptr(contents[id]) else Null
      ensures at < 0 ==> id !in contents && NoneBears(slot[..], id)
    {
      hide Wf, Ahead, C.Beyond;
      ghost var s := slot[..];
      at := Main(id, slot.Length);
      AheadAtFirst(s, order, id);
      while true
        invariant 0 <= at < slot.Length && Ahead(s, order, at, id)
        decreases C.Beyond(order, at)
      {
        if slot[at].id == id {
          FirstIsLive(s, order, contents, at);
          return;
        }
        AheadNext(s, order, at, id);
        if slot[at].next < 0 {
          return -1;
        }
        assert slot[at].next < |s| by { InRange(s, order, at); }
        at := slot[at].next;
      }
    }

    method Query(id: nat) returns (obj: Ptr)
      requires Valid()
      ensures obj == if id in contents then Ptr(contents[id]) else Null
    {
      var at := Find(id);
      obj := if at < 0 then Null else slot[at].obj;
    }

    method Drop(id: nat) returns (obj: Ptr)
      requires Valid()
      modifies this, slot
      ensures Valid() && slot == old(slot) && contents == old(contents) - {id}
      ensures obj == if id in old(contents) then Ptr(old(contents)[id]) else Null
    {
      hide Wf, Holds;
      var at := Find(id);
      if at < 0 {
        return Null;
      }
      ghost var s := slot[..];
      obj := slot[at].obj;
      if obj.Ptr? {
        LiveIfHasObject(s, order, at);
      }
      OnceSame(s, s[at := s[at].(obj := Null)]);
      DropKeeps(s, order, at);
      DroppedIsGone(s, order, contents, at);
      slot[at] := slot[at].(obj := Null);
      contents := contents - {id};
      assert slot[..] == s[at := s[at].(obj := Null)];
    }

    /** map_query of aoi.c: an object that is not there is made, and one that was dropped is made anew. */
    method QueryOrMake(id: nat, made: nat) returns (obj: nat)
      requires Valid() && !reuse && id != INVALID_ID
      modifies this, slot
      ensures Valid() && (slot == old(slot) || fresh(slot))
      ensures id in old(contents) ==> contents == old(contents) && obj == contents[id]
      ensures id !in old(contents) ==> contents == old(contents)[id := made] && obj == made
    {
      hide Wf, Holds, Main, Once;
      var at := Find(id);
      if at < 0 {
        Insert(id, made);
        return made;
      }
      if slot[at].obj.Null? {
        ghost var s := slot[..];
        ReviveKeeps(s, order, at, made);
        RevivedIsHeld(s, order, contents, at, made);
        OnceSame(s, s[at := s[at].(obj := Ptr(made))]);
        slot[at] := slot[at].(obj := Ptr(made));
        contents := contents[id := made];
        assert slot[..] == s[at := s[at].(obj := Ptr(made))];
      }
      obj := slot[at].obj.obj;
    }

    /** map_insert, which its callers reach only with an id that the table does not hold */
    method Insert(id: nat, obj: nat)
      requires Valid() && id != INVALID_ID && id !in contents && (reuse || NoneBears(slot[..], id))
      modifies this, slot
      ensures Valid() && contents == old(contents)[id := obj] && (slot == old(slot) || fresh(slot))
      ensures !old(Full(slot[..])) ==> slot == old(slot)
      ensures !old(Full(slot[..])) && old(AllLive(slot[..])) ==> AllLive(slot[..])
      decreases Full(slot[..]), Used(slot[Main(id, slot.Length)]) && !AtHome(slot[..], Main(id, slot.Length)), 1
    {
      hide Wf, Holds, Main, Full, AllLive, Once;
      var h := Main(id, slot.Length);
      NotHeld(slot[..], contents, id);
      if slot[h].id == INVALID_ID || (reuse && slot[h].obj.Null?) {
        GiveMain(id, obj);
      } else if Main(slot[h].id, slot.Length) != h {
        var was := slot[h];
        if was.obj.Ptr? {
          LiveIsHeld(slot[..], contents, h);
        }
        Evict(id, obj);
        if was.obj.Ptr? {
          Insert(was.id, was.obj.obj);
        }
      } else {
        var placed := InsertAfter(id, obj);
        if !placed {
          Rehash();
          NotHeldNotBorne(slot[..], contents, id);
          Insert(id, obj);
        }
      }
    }

    /** The main position is free, or its object was dropped. */
    method GiveMain(id: nat, obj: nat)
      requires Valid() && id != INVALID_ID && id !in contents && !Live(slot[Main(id, slot.Length)])
      requires reuse || NoneBears(slot[..], id)
      modifies this, slot
      ensures Valid() && contents == old(contents)[id := obj] && slot == old(slot)
      ensures old(AllLive(slot[..])) ==> AllLive(slot[..])
    {
      hide Wf, Holds, Main;
      ghost var s := slot[..];
      var h := Main(id, slot.Length);
      NotHeld(s, contents, id);
      if Used(slot[h]) {
        TakeOverKeeps(s, order, id, obj);
      } else {
        UnusedHasNoNext(s, order, h);
        StartKeeps(s, order, id, obj);
        order := C.Begin(order, h);
      }
      GivenIsHeld(s, old(order), contents, s[h := Slot(id, Ptr(obj), s[h].next)], h, id, obj);
      if !reuse {
        OnceMore(s, s[h := Slot(id, Ptr(obj), s[h].next)], h, id);
      }
      slot[h] := slot[h].(id := id, obj := Ptr(obj));
      contents := contents[id := obj];
      assert slot[..] == s[h := Slot(id, Ptr(obj), s[h].next)];
    }

    /** The main position is taken by a stranger, which is unlinked from its chain; its predecessor is found
        by walking that chain. */
    method Evict(id: nat, obj: nat)
      requires Valid() && id != INVALID_ID && id !in contents
      requires Used(slot[Main(id, slot.Length)]) && !AtHome(slot[..], Main(id, slot.Length))
      requires reuse || NoneBears(slot[..], id)
      modifies this, slot
      ensures reuse || NoneBears(slot[..], old(slot[Main(id, slot.Length)]).id)
      ensures Valid() && slot == old(slot) && contents == Given(old(contents), old(slot[Main(id, slot.Length)]), id, obj)
      ensures old(AllLive(slot[..])) ==> AllLive(slot[..])
      ensures Full(slot[..]) ==> old(Full(slot[..]))
      ensures
        var m := Main(old(slot[Main(id, slot.Length)]).id, slot.Length);
        Used(slot[m]) && AtHome(slot[..], m)
    {
      hide Wf, Holds, Main, Leads, C.Beyond;
      ghost var s := slot[..];
      var h := Main(id, slot.Length);
      NotHeld(s, contents, id);
      var last := Main(slot[h].id, slot.Length);
      MainLeads(s, order, h);
      MainIsHome(s, order, h);
      while slot[last].next != h
        invariant 0 <= last < slot.Length && Leads(s, order, last, h)
        decreases C.Beyond(order, last)
        modifies {}
      {
        NextLeads(s, order, last, h);
        InRange(s, order, last);
        assert slot[last].next >= 0;
        last := slot[last].next;
      }
      EvictKeeps(s, order, last, id, obj);
      LeadsAhead(s, order, last, h);
      ghost var s' := s[last := s[last].(next := s[h].next)][h := Slot(id, Ptr(obj), -1)];
      GivenIsHeld(s, order, contents, s', h, id, obj);
      if !reuse {
        OnceMore(s, s', h, id);
      }
      slot[last] := slot[last].(next := slot[h].next);
      slot[h] := Slot(id, Ptr(obj), -1);
      order := C.Begin(order, h);
      contents := Given(contents, s[h], id, obj);
      assert slot[..] == s';
    }

    /** The main position is rightly taken: look for an unused slot from the end of the table. */
    method InsertAfter(id: nat, obj: nat) returns (placed: bool)
      requires Valid() && id != INVALID_ID && id !in contents
      requires Used(slot[Main(id, slot.Length)]) && AtHome(slot[..], Main(id, slot.Length))
      requires slot[Main(id, slot.Length)].id != id && (reuse || NoneBears(slot[..], id))
      modifies this, slot
      ensures Valid() && slot == old(slot)
      ensures placed ==> contents == old(contents)[id := obj] && (old(AllLive(slot[..])) ==> AllLive(slot[..]))
      ensures !placed ==> slot[..] == old(slot[..]) && contents == old(contents) && Full(slot[..])
    {
      hide Wf, Holds, Main;
      ghost var s := slot[..];
      var h := Main(id, slot.Length);
      NotHeld(s, contents, id);
      while lastfree >= 0
        invariant Valid() && slot == old(slot) && slot[..] == s && order == old(order) && contents == old(contents)
        decreases lastfree
        modifies this, slot
      {
        var t := lastfree;
        lastfree := lastfree - 1;
        if slot[t].id == INVALID_ID {
          InsertKeeps(s, order, t, id, obj);
          ghost var s' := s[t := Slot(id, Ptr(obj), s[h].next)][h := s[h].(next := t)];
          GivenIsHeld(s, order, contents, s', t, id, obj);
          if !reuse {
            OnceMore(s, s', t, id);
          }
          InRange(s, order, h);
          slot[t] := Slot(id, Ptr(obj), slot[h].next);
          slot[h] := slot[h].(next := t);
          order := C.Insert(Nexts(s), order, h, t);
          contents := contents[id := obj];
          assert slot[..] == s';
          return true;
        }
      }
      return false;
    }

    /** The table is doubled, and only the live entries come along. */
    method Rehash()
      requires Valid()
      modifies this
      ensures Valid() && contents == old(contents) && fresh(slot) && slot.Length == 2 * old(slot.Length)
      ensures AllLive(slot[..]) && !Full(slot[..])
      decreases true, false, 0
    {
      hide Wf, Holds, Main, Held;
      var was := slot;
      ghost var s, o, all := slot[..], order, contents;
      lastfree := 2 * was.Length - 1;
      slot := new Slot[2 * was.Length](_ => Slot(INVALID_ID, Null, -1));
      order := C.Nothing(slot.Length);
      contents := map[];
      BlankIsEmpty(slot[..]);
      HeldFew(s, 0);
      for i := 0 to was.Length
        invariant Valid() && fresh(slot) && slot.Length == 2 * was.Length && was[..] == s
        invariant contents == Held(s, i) && AllLive(slot[..])
        modifies this, slot
      {
        HeldFew(s, i);
        HeldNext(s, o, i);
        RoomLeft(slot[..], order, contents, i);
        if was[i].obj.Ptr? {
          LiveIfHasObject(s, o, i);
          NotHeldNotBorne(slot[..], contents, was[i].id);
          Insert(was[i].id, was[i].obj.obj);
        }
      }
      HeldFew(s, was.Length);
      HeldAll(s, o, all);
      RoomLeft(slot[..], order, contents, was.Length);
    }
  }
}
