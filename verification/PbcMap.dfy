/** The read-only map of protobuf's map.c: an array when the ids are small, and otherwise a hash table of exactly as
    many slots as entries, whose chains run into each other. */
module PbcMap {

  import opened Chains
  import opened Sets

  const TWO_32 := 0x1_0000_0000

  datatype Ptr = Null | Ptr(p: nat)
  datatype Kv = Kv(id: int, pointer: nat)

  /** `next` is one more than the index of the following slot; 0 ends the chain. */
  datatype Slot = Slot(id: int, pointer: Ptr, next: nat)

  // ---- the entries

  ghost predicate Distinct(table: seq<Kv>) {
    forall i, j | 0 <= i < j < |table| :: table[i].id != table[j].id
  }

  /** 32-bit ids */
  ghost predicate Ids(table: seq<Kv>) {
    forall i | 0 <= i < |table| :: -0x8000_0000 <= table[i].id < 0x8000_0000
  }

  function Contents(table: seq<Kv>): map<int, nat> {
    if table == [] then map[]
    else Contents(table[..|table| - 1])[table[|table| - 1].id := table[|table| - 1].pointer]
  }

  lemma {:induction false} ContentsFrom(table: seq<Kv>, id: int)
    ensures id in Contents(table) <==> exists i :: 0 <= i < |table| && table[i].id == id
  {
    if table != [] {
      var most, last := table[..|table| - 1], table[|table| - 1];
      ContentsFrom(most, id);
      if id in Contents(most) {
        var i :| 0 <= i < |most| && most[i].id == id;
        assert table[i].id == id;
      }
      if i :| 0 <= i < |table| && table[i].id == id && i < |most| {
        assert most[i].id == id;
      }
    }
  }

  lemma ContentsNext(table: seq<Kv>, n: nat)
    requires Distinct(table) && n < |table|
    ensures Contents(table[..n + 1]) == Contents(table[..n])[table[n].id := table[n].pointer]
    ensures table[n].id !in Contents(table[..n])
  {
    assert table[..n + 1][..n] == table[..n];
    ContentsFrom(table[..n], table[n].id);
  }

  // ---- the hash table

  function Hash(id: int, n: nat): (h: nat)
    requires n > 0 && id >= -TWO_32
    ensures h < n
  {
    (if id < 0 then id + TWO_32 else id) % n
  }

  function Nexts(s: seq<Slot>): (next: seq<int>)
    ensures |next| == |s| && forall i | 0 <= i < |s| :: next[i] == s[i].next as int - 1
  {
    seq(|s|, i requires 0 <= i < |s| => s[i].next as int - 1)
  }

  /** The used slots hold the contents, and each is reached from the slot its id hashes to. */
  ghost predicate Holds(s: seq<Slot>, o: Order, m: map<int, nat>): (holds: bool)
    ensures holds ==> |s| == |o.head| == |o.place| > 0
  {
    Wf(Nexts(s), o) && |s| > 0 && Marked(s, o) && Entries(s, o, m) && Covers(s, o, m)
  }

  ghost predicate Marked(s: seq<Slot>, o: Order)
    requires |s| == |o.head|
  {
    (forall i | 0 <= i < |s| :: s[i].pointer.Ptr? <==> Used(o, i)) &&
    (forall i | 0 <= i < |s| && Used(o, i) :: o.head[i] < |s| && Used(o, o.head[i])) &&
    (forall i | 0 <= i < |s| && !Used(o, i) :: s[i].id == 0)
  }

  ghost predicate Entries(s: seq<Slot>, o: Order, m: map<int, nat>)
    requires |s| == |o.head| == |o.place|
  {
    forall i | 0 <= i < |s| && Used(o, i) :: EntryOk(s, o, m, i)
  }

  ghost predicate EntryOk(s: seq<Slot>, o: Order, m: map<int, nat>, i: nat)
    requires |s| == |o.head| == |o.place| && i < |s|
  {
    -TWO_32 <= s[i].id && s[i].id in m && s[i].pointer == Ptr(m[s[i].id]) && Reaches(o, Hash(s[i].id, |s|), i)
  }

  ghost predicate Covers(s: seq<Slot>, o: Order, m: map<int, nat>)
    requires |s| == |o.head|
  {
    forall id | id in m :: exists i :: 0 <= i < |s| && Used(o, i) && s[i].id == id
  }

  /** A slot was given an entry; the others are as they were. */
  ghost predicate Given(s: seq<Slot>, o: Order, t: seq<Slot>, q: Order, at: nat, id: int, p: nat) {
    |s| == |t| == |o.head| == |q.head| == |o.place| == |q.place| && at < |s| && !Used(o, at) &&
    t[at].id == id && t[at].pointer == Ptr(p) && Used(q, at) &&
    (forall i | 0 <= i < |s| && i != at ::
       t[i].id == s[i].id && t[i].pointer == s[i].pointer && (Used(o, i) <==> Used(q, i))) &&
    forall i, k | 0 <= i < |s| && 0 <= k < |s| && Reaches(o, i, k) :: Reaches(q, i, k)
  }

  lemma GivenEntries(s: seq<Slot>, o: Order, m: map<int, nat>, t: seq<Slot>, q: Order, at: nat, id: int, p: nat)
    requires Given(s, o, t, q, at, id, p) && Entries(s, o, m) && Covers(s, o, m) && id !in m && id >= -TWO_32
    requires Reaches(q, Hash(id, |s|), at)
    ensures Entries(t, q, m[id := p]) && Covers(t, q, m[id := p])
  {
    hide Hash, Reaches;
    var m' := m[id := p];
    forall i | 0 <= i < |t| && Used(q, i)
      ensures EntryOk(t, q, m', i)
    {
      if i != at {
        assert EntryOk(s, o, m, i);
      }
    }
    forall x | x in m'
      ensures exists i :: 0 <= i < |t| && Used(q, i) && t[i].id == x
    {
      if x == id {
        assert t[at].id == x;
      } else {
        var i :| 0 <= i < |s| && Used(o, i) && s[i].id == x;
        assert Used(q, i) && t[i].id == x;
      }
    }
  }

  lemma BeginHolds(s: seq<Slot>, o: Order, m: map<int, nat>, id: int, p: nat)
    requires Holds(s, o, m) && id !in m && id >= -TWO_32 && !Used(o, Hash(id, |s|))
    ensures
      var h := Hash(id, |s|);
      Holds(s[h := s[h].(id := id, pointer := Ptr(p))], Begin(o, h), m[id := p])
  {
    hide Hash, Wf, Entries, Covers;
    var h := Hash(id, |s|);
    var t, q := s[h := s[h].(id := id, pointer := Ptr(p))], Begin(o, h);
    assert Nexts(t) == Nexts(s);
    BeginKeeps(Nexts(s), o, h);
    GivenEntries(s, o, m, t, q, h, id, p);
  }

  lemma InsertHolds(s: seq<Slot>, o: Order, m: map<int, nat>, at: nat, id: int, p: nat)
    requires Holds(s, o, m) && id !in m && id >= -TWO_32 && Used(o, Hash(id, |s|)) && at < |s| && !Used(o, at)
    ensures
      var h := Hash(id, |s|);
      Holds(s[at := Slot(id, Ptr(p), s[h].next)][h := s[h].(next := at + 1)], Insert(Nexts(s), o, h, at), m[id := p])
  {
    hide Hash, Wf, Entries, Covers, Given, Insert, Shaped;
    var h := Hash(id, |s|);
    var t, q := s[at := Slot(id, Ptr(p), s[h].next)][h := s[h].(next := at + 1)], Insert(Nexts(s), o, h, at);
    assert Nexts(t) == Nexts(s)[at := Nexts(s)[h]][h := at];
    assert q.head == o.head[at := o.head[h]] by { InsertIs(Nexts(s), o, h, at); }
    InsertKeeps(Nexts(s), o, h, at);
    InsertGiven(s, o, h, at, id, p);
    GivenEntries(s, o, m, t, q, at, id, p);
    MarkedStill(s, o, t, q, h, at, id, p);
  }

  lemma InsertIs(next: seq<int>, o: Order, h: nat, at: nat)
    requires Shaped(next, o) && h < |next| && at < |next|
    ensures Insert(next, o, h, at).head == o.head[at := o.head[h]]
  {
  }

  lemma InsertGiven(s: seq<Slot>, o: Order, h: nat, at: nat, id: int, p: nat)
    requires Wf(Nexts(s), o) && h < |s| && at < |s| && Used(o, h) && !Used(o, at)
    ensures Given(s, o, s[at := Slot(id, Ptr(p), s[h].next)][h := s[h].(next := at + 1)], Insert(Nexts(s), o, h, at), at, id, p)
  {
    hide Wf, Reaches, PlaceAfter;
    InsertKeeps(Nexts(s), o, h, at);
  }

  lemma MarkedStill(s: seq<Slot>, o: Order, t: seq<Slot>, q: Order, h: nat, at: nat, id: int, p: nat)
    requires Given(s, o, t, q, at, id, p) && Marked(s, o) && h < |s| && Used(o, h)
    requires q.head == o.head[at := o.head[h]]
    ensures Marked(t, q)
  {
    hide Reaches;
  }

  lemma NothingHolds(s: seq<Slot>)
    requires |s| > 0 && forall i | 0 <= i < |s| :: s[i] == Slot(0, Null, 0)
    ensures Holds(s, Nothing(|s|), map[])
  {
    NothingWf(Nexts(s));
  }

  /** Whatever bears this id is reached from slot i. */
  ghost predicate Ahead(s: seq<Slot>, o: Order, i: nat, id: int)
    requires i < |s| == |o.head| == |o.place|
  {
    forall k | 0 <= k < |s| && Used(o, k) && s[k].id == id :: Reaches(o, i, k)
  }

  lemma AheadFirst(s: seq<Slot>, o: Order, m: map<int, nat>, id: int)
    requires Holds(s, o, m) && id >= -TWO_32
    ensures Ahead(s, o, Hash(id, |s|), id)
  {
    hide Hash, Reaches, Wf, Marked, Covers;
    forall k | 0 <= k < |s| && Used(o, k) && s[k].id == id
      ensures Reaches(o, Hash(id, |s|), k)
    {
      assert EntryOk(s, o, m, k);
    }
  }

  lemma AheadNext(s: seq<Slot>, o: Order, m: map<int, nat>, i: nat, id: int)
    requires Holds(s, o, m) && i < |s| && Ahead(s, o, i, id) && s[i].id != id
    ensures s[i].next == 0 ==> id !in m
    ensures s[i].next > 0 ==>
              s[i].next - 1 < |s| && Ahead(s, o, s[i].next - 1, id) && Beyond(o, s[i].next - 1) < Beyond(o, i)
  {
    hide Beyond, Hash, Linked, Entries;
    if Used(o, i) {
      StepOn(Nexts(s), o, i);
    }
  }

  lemma AheadFound(s: seq<Slot>, o: Order, m: map<int, nat>, i: nat)
    requires Holds(s, o, m) && i < |s| && Ahead(s, o, i, s[i].id)
    ensures s[i].pointer == if s[i].id in m then Ptr(m[s[i].id]) else Null
  {
    hide Wf, Hash, Linked;
    if Used(o, i) {
      assert EntryOk(s, o, m, i);
    }
  }

  // ---- there is always an empty slot

  /** The used slots are as many as the entries put in. */
  ghost predicate Filled(s: seq<Slot>, filled: set<int>) {
    forall k :: k in filled <==> 0 <= k < |s| && s[k].pointer.Ptr?
  }

  lemma FullCount(s: seq<Slot>, filled: set<int>)
    requires Filled(s, filled) && forall k | 0 <= k < |s| :: s[k].pointer.Ptr?
    ensures |filled| == |s|
  {
    assert filled == Range(|s|);
  }

  lemma EmptyLeft(s: seq<Slot>, filled: set<int>, empty: nat)
    requires Filled(s, filled) && |filled| < |s| && empty <= |s|
    requires forall k | 0 <= k < empty :: s[k].pointer.Ptr?
    ensures empty < |s|
  {
    hide Filled;
    if empty == |s| {
      FullCount(s, filled);
    }
  }

  // ---- the map

  class MapIp {
    const cells: array?<Ptr>
    const slot: array<Slot>
    ghost var order: Order
    ghost var contents: map<int, nat>

    ghost predicate Valid()
      reads this, slot, cells
    {
      if cells == null then Holds(slot[..], order, contents)
      else
        (forall i | 0 <= i < cells.Length :: cells[i] == if i in contents then Ptr(contents[i]) else Null) &&
        forall id | id in contents :: 0 <= id < cells.Length
    }

    /** _pbcM_ip_query */
    method Query(id: int) returns (p: Ptr)
      requires Valid() && -TWO_32 <= id
      ensures p == if id in contents then Ptr(contents[id]) else Null
    {
      if cells != null {
        return if 0 <= id < cells.Length then cells[id] else Null;
      }
      p := Walk(id);
    }

    /** The chain from the slot that the id hashes to. */
    method Walk(id: int) returns (p: Ptr)
      requires Holds(slot[..], order, contents) && -TWO_32 <= id
      ensures p == if id in contents then Ptr(contents[id]) else Null
    {
      hide Hash, Reaches, Holds, Ahead, Beyond;
      ghost var s := slot[..];
      var at: nat := Hash(id, slot.Length);
      AheadFirst(s, order, contents, id);
      while true
        invariant at < slot.Length && Ahead(s, order, at, id)
        decreases Beyond(order, at)
      {
        var x := slot[at];
        assert x == s[at];
        if x.id == id {
          AheadFound(s, order, contents, at);
          return x.pointer;
        }
        AheadNext(s, order, contents, at, id);
        if x.next == 0 {
          return Null;
        }
        at := x.next - 1;
      }
    }

    /** The end of _pbcM_ip_new: an array that the ids index */
    constructor Indexed(table: seq<Kv>, max: nat)
      requires Distinct(table) && forall i | 0 <= i < |table| :: 0 <= table[i].id <= max
      ensures Valid() && contents == Contents(table) && cells != null && cells.Length == max + 1
    {
      cells := new Ptr[max + 1](_ => Null);
      slot := new Slot[0];
      order, contents := Nothing(0), map[];
      new;
      for i := 0 to |table|
        invariant Valid() && contents == Contents(table[..i])
      {
        ContentsNext(table, i);
        cells[table[i].id] := Ptr(table[i].pointer);
        contents := contents[table[i].id := table[i].pointer];
      }
      assert table[..|table|] == table;
    }

    /** _pbcM_ip_new_hash: an entry goes to the slot its id hashes to, or to the first empty slot. */
    constructor Hashed(table: seq<Kv>)
      requires |table| > 0 && Distinct(table) && Ids(table)
      ensures Valid() && contents == Contents(table) && cells == null && slot.Length == |table|
    {
      hide Holds, Contents, Filled;
      cells := null;
      slot := new Slot[|table|](_ => Slot(0, Null, 0));
      order, contents := Nothing(|table|), map[];
      new;
      NothingHolds(slot[..]);
      var empty: nat := 0;
      ghost var filled: set<int> := {};
      NoContents(slot[..], table);
      for i := 0 to |table|
        invariant Valid() && contents == Contents(table[..i]) && |filled| == i && Filled(slot[..], filled)
        invariant empty <= slot.Length && forall k | 0 <= k < empty :: slot[k].pointer.Ptr?
      {
        ContentsNext(table, i);
        empty, filled := Put(table[i].id, table[i].pointer, empty, filled);
      }
      assert table[..|table|] == table;
    }

    method Put(id: int, p: nat, from: nat, ghost were: set<int>) returns (empty: nat, ghost filled: set<int>)
      requires Valid() && cells == null && id !in contents && -TWO_32 <= id
      requires Filled(slot[..], were) && |were| < slot.Length
      requires from <= slot.Length && forall k | 0 <= k < from :: slot[k].pointer.Ptr?
      modifies this`order, this`contents, slot
      ensures Valid() && contents == old(contents)[id := p]
      ensures Filled(slot[..], filled) && |filled| == |were| + 1
      ensures empty <= slot.Length && forall k | 0 <= k < empty :: slot[k].pointer.Ptr?
    {
      hide Holds, Filled, Hash, Wf;
      empty := from;
      ghost var s := slot[..];
      var h := Hash(id, slot.Length);
      UsedIs(s, order, contents);
      if slot[h].pointer.Null? {
        BeginHolds(s, order, contents, id, p);
        FilledMore(s, were, h, s[h].(id := id, pointer := Ptr(p)));
        slot[h] := slot[h].(id := id, pointer := Ptr(p));
        order, filled := Begin(order, h), were + {h};
        assert slot[..] == s[h := s[h].(id := id, pointer := Ptr(p))];
      } else {
        empty := NextEmpty(from, were);
        InsertHolds(s, order, contents, empty, id, p);
        ghost var x, y := Slot(id, Ptr(p), s[h].next), s[h].(next := empty + 1);
        FilledMore(s, were, empty, x);
        FilledSame(s[empty := x], were + {empty}, h, y);
        order, filled := Insert(Nexts(s), order, h, empty), were + {empty};
        slot[empty] := Slot(id, Ptr(p), slot[h].next);
        slot[h] := slot[h].(next := empty + 1);
        assert slot[..] == s[empty := x][h := y];
      }
      contents := contents[id := p];
    }

    /** The scan for an empty slot never runs off the end. */
    method NextEmpty(from: nat, ghost filled: set<int>) returns (empty: nat)
      requires Filled(slot[..], filled) && |filled| < slot.Length
      requires from <= slot.Length && forall k | 0 <= k < from :: slot[k].pointer.Ptr?
      ensures from <= empty < slot.Length && slot[empty].pointer.Null?
      ensures forall k | 0 <= k < empty :: slot[k].pointer.Ptr?
    {
      hide Filled;
      empty := from;
      EmptyLeft(slot[..], filled, empty);
      while slot[empty].pointer.Ptr?
        invariant from <= empty < slot.Length && forall k | 0 <= k < empty :: slot[k].pointer.Ptr?
        decreases slot.Length - empty
      {
        assert forall k | 0 <= k < empty + 1 :: slot[..][k].pointer.Ptr?;
        EmptyLeft(slot[..], filled, empty + 1);
        empty := empty + 1;
      }
    }
  }

  lemma UsedIs(s: seq<Slot>, o: Order, m: map<int, nat>)
    requires Holds(s, o, m)
    ensures Wf(Nexts(s), o) && forall i | 0 <= i < |s| :: s[i].pointer.Ptr? <==> Used(o, i)
  {
  }

  lemma NoContents(s: seq<Slot>, table: seq<Kv>)
    requires forall i | 0 <= i < |s| :: s[i].pointer.Null?
    ensures Contents(table[..0]) == map[] && Filled(s, {})
  {
  }

  lemma FilledMore(s: seq<Slot>, filled: set<int>, at: nat, x: Slot)
    requires Filled(s, filled) && at < |s| && s[at].pointer.Null? && x.pointer.Ptr?
    ensures Filled(s[at := x], filled + {at}) && |filled + {at}| == |filled| + 1
  {
  }

  lemma FilledSame(s: seq<Slot>, filled: set<int>, at: nat, x: Slot)
    requires Filled(s, filled) && at < |s| && (s[at].pointer.Ptr? <==> x.pointer.Ptr?)
    ensures Filled(s[at := x], filled)
  {
  }

  /** _pbcM_ip_new: either form answers with what the entries say. */
  method New(table: seq<Kv>) returns (m: MapIp)
    requires |table| > 0 && Distinct(table) && Ids(table)
    ensures fresh(m) && m.Valid() && m.contents == Contents(table)
    // the array form is for small ids
    ensures m.cells != null <==> forall k | 0 <= k < |table| :: 0 <= table[k].id <= 2 * |table|
    ensures m.cells != null ==> exists k :: 0 <= k < |table| && m.cells.Length == table[k].id + 1
    ensures m.cells == null ==> m.slot.Length == |table|
  {
    var size := |table|;
    var max := table[0].id;
    if max > size * 2 || max < 0 {
      m := new MapIp.Hashed(table);
      return;
    }
    for i := 1 to size
      invariant forall k | 0 <= k < i :: 0 <= table[k].id <= max
      invariant max <= 2 * size && exists k :: 0 <= k < i && table[k].id == max
    {
      if table[i].id < 0 {
        m := new MapIp.Hashed(table);
        return;
      }
      if table[i].id > max {
        max := table[i].id;
        if max > size * 2 {
          m := new MapIp.Hashed(table);
          return;
        }
      }
    }
    m := new MapIp.Indexed(table, max);
  }
}
