/** The read-only tables of lua-sharedata.c: an array part, and a hash part of exactly as many slots as keys, filled
    in two passes. */
module ShareData {

  import opened Chains
  import opened Sets

  const TWO_31 := 0x8000_0000
  const TWO_32 := 0x1_0000_0000

  /** A string comes with the hash that calchash gives it. */
  datatype Key = Num(n: int) | Text(s: string, hash: nat)
  datatype Value = Nil | Value(v: nat)
  datatype Entry = Entry(key: Key, v: nat)

  /** `single` is nocolliding. */
  datatype Node = Node(key: Key, hash: nat, value: Value, next: int, single: bool)

  // ---- hashing

  function KeyHash(k: Key): nat {
    match k
    case Num(n) => if n < 0 then (if n + TWO_32 >= 0 then n + TWO_32 else 0) else n
    case Text(_, hash) => hash
  }

  function Main(k: Key, n: nat): (h: nat)
    requires n > 0
    ensures h < n
  {
    KeyHash(k) % n
  }

  // ---- the entries of a Lua table, in the order of a traversal

  ghost predicate Distinct(es: seq<Entry>) {
    forall i, j | 0 <= i < j < |es| :: es[i].key != es[j].key
  }

  /** Integer keys fit the int in which they are kept. */
  predicate Fits(k: Key) {
    k.Num? ==> -TWO_31 <= k.n < TWO_31
  }

  type IntKey = k: Key | Fits(k) witness Num(0)

  /** An integer key is cast to an int. */
  function Cast(k: Key): (c: IntKey)
    ensures c == k <==> Fits(k)
  {
    match k
    case Num(n) => Num((n + TWO_31) % TWO_32 - TWO_31)
    case Text(_, _) => k
  }

  predicate InArray(k: Key, size: nat) {
    k.Num? && 0 < k.n <= size
  }

  function CastAll(es: seq<Entry>): (cs: seq<Entry>)
    ensures AllFit(cs)
  {
    seq(|es|, i requires 0 <= i < |es| => es[i].(key := Cast(es[i].key)))
  }

  ghost predicate AllFit(es: seq<Entry>) {
    forall i | 0 <= i < |es| :: Fits(es[i].key)
  }

  /** The casts of the keys are still distinct, and those of hash keys do not become keys of the array part. */
  ghost predicate Castable(es: seq<Entry>, size: nat) {
    Distinct(CastAll(es)) && forall i | 0 <= i < |es| :: InArray(es[i].key, size) <==> InArray(Cast(es[i].key), size)
  }

  function Contents(es: seq<Entry>): map<Key, nat> {
    if es == [] then map[] else Contents(es[..|es| - 1])[es[|es| - 1].key := es[|es| - 1].v]
  }

  lemma {:induction false} ContentsFrom(es: seq<Entry>, k: Key)
    ensures k in Contents(es) <==> exists i :: 0 <= i < |es| && es[i].key == k
  {
    if es != [] {
      var most := es[..|es| - 1];
      ContentsFrom(most, k);
      if k in Contents(most) {
        var i :| 0 <= i < |most| && most[i].key == k;
        assert es[i].key == k;
      }
      if i :| 0 <= i < |es| && es[i].key == k && i < |most| {
        assert most[i].key == k;
      }
    }
  }

  lemma ContentsNext(es: seq<Entry>, n: nat)
    requires Distinct(es) && n < |es|
    ensures Contents(es[..n + 1]) == Contents(es[..n])[es[n].key := es[n].v] && es[n].key !in Contents(es[..n])
  {
    assert es[..n + 1][..n] == es[..n];
    ContentsFrom(es[..n], es[n].key);
  }

  lemma {:induction false} ContentsAt(es: seq<Entry>, n: nat)
    requires Distinct(es) && n < |es|
    ensures es[n].key in Contents(es) && Contents(es)[es[n].key] == es[n].v
  {
    if n < |es| - 1 {
      ContentsAt(es[..|es| - 1], n);
    }
  }

  lemma ContentsFit(es: seq<Entry>)
    requires AllFit(es)
    ensures forall k | k in Contents(es) :: Fits(k)
  {
    hide Fits;
    forall k | k in Contents(es)
      ensures Fits(k)
    {
      ContentsFrom(es, k);
    }
  }

  /** The entries that do not go to the array. */
  function Hashed(es: seq<Entry>, size: nat): seq<Entry> {
    if es == [] then []
    else if InArray(es[|es| - 1].key, size) then Hashed(es[..|es| - 1], size)
    else Hashed(es[..|es| - 1], size) + [es[|es| - 1]]
  }

  // ---- the hash part

  function Nexts(s: seq<Node>): (next: seq<int>)
    ensures |next| == |s| && forall i | 0 <= i < |s| :: next[i] == s[i].next
  {
    seq(|s|, i requires 0 <= i < |s| => s[i].next)
  }

  /** The used nodes hold the contents, and each is reached from the main position of its key. */
  ghost predicate Holds(s: seq<Node>, o: Order, m: map<Key, nat>): (holds: bool)
    ensures holds ==> |s| == |o.head| == |o.place| > 0
  {
    Wf(Nexts(s), o) && |s| > 0 && Marked(s, o) && Nodes(s, o, m) && Covers(s, o, m) && Unique(s, o)
  }

  /** A node is used when it has a value; a node that stands for itself has no successor. */
  ghost predicate Marked(s: seq<Node>, o: Order)
    requires |s| == |o.head|
  {
    (forall i | 0 <= i < |s| :: s[i].value.Value? <==> Used(o, i)) &&
    (forall i | 0 <= i < |s| && Used(o, i) :: o.head[i] < |s| && Used(o, o.head[i])) &&
    (forall i | 0 <= i < |s| && s[i].single :: s[i].next == -1)
  }

  ghost predicate Nodes(s: seq<Node>, o: Order, m: map<Key, nat>)
    requires |s| == |o.head| == |o.place|
  {
    forall i | 0 <= i < |s| && Used(o, i) :: NodeOk(s, o, m, i)
  }

  ghost predicate NodeOk(s: seq<Node>, o: Order, m: map<Key, nat>, i: nat)
    requires |s| == |o.head| == |o.place| && i < |s|
  {
    s[i].hash == KeyHash(s[i].key) && s[i].key in m && s[i].value == Value(m[s[i].key]) &&
    Reaches(o, Main(s[i].key, |s|), i)
  }

  ghost predicate Covers(s: seq<Node>, o: Order, m: map<Key, nat>)
    requires |s| == |o.head|
  {
    forall k | k in m :: Somewhere(s, o, k)
  }

  ghost predicate Unique(s: seq<Node>, o: Order)
    requires |s| == |o.head|
  {
    forall i, j | 0 <= i < j < |s| && Used(o, i) && Used(o, j) :: s[i].key != s[j].key
  }

  ghost predicate Somewhere(s: seq<Node>, o: Order, k: Key)
    requires |s| == |o.head|
  {
    exists i :: 0 <= i < |s| && Used(o, i) && s[i].key == k
  }

  /** A node was given an entry; the keys of the others are as they were. */
  ghost predicate Given(s: seq<Node>, o: Order, t: seq<Node>, q: Order, at: nat, k: Key, v: nat) {
    |s| == |t| == |o.head| == |q.head| == |o.place| == |q.place| && at < |s| && !Used(o, at) &&
    t[at].key == k && t[at].hash == KeyHash(k) && t[at].value == Value(v) && Used(q, at) &&
    (forall i | 0 <= i < |s| && i != at ::
       t[i].key == s[i].key && t[i].hash == s[i].hash && t[i].value == s[i].value && (Used(o, i) <==> Used(q, i))) &&
    forall i, j | 0 <= i < |s| && 0 <= j < |s| && Reaches(o, i, j) :: Reaches(q, i, j)
  }

  lemma GivenNodes(s: seq<Node>, o: Order, m: map<Key, nat>, t: seq<Node>, q: Order, at: nat, k: Key, v: nat)
    requires Given(s, o, t, q, at, k, v) && Nodes(s, o, m) && Covers(s, o, m) && Unique(s, o) && k !in m
    requires Reaches(q, Main(k, |s|), at)
    ensures Nodes(t, q, m[k := v]) && Covers(t, q, m[k := v]) && Unique(t, q)
  {
    hide Main, Reaches, KeyHash;
    var m' := m[k := v];
    forall i | 0 <= i < |t| && Used(q, i)
      ensures NodeOk(t, q, m', i)
    {
      if i != at {
        assert NodeOk(s, o, m, i);
      }
    }
    forall i | 0 <= i < |s| && Used(o, i)
      ensures s[i].key != k
    {
      assert NodeOk(s, o, m, i);
    }
    forall x | x in m'
      ensures Somewhere(t, q, x)
    {
      if x == k {
        assert t[at].key == x;
      } else {
        assert Somewhere(s, o, x);
        var i :| 0 <= i < |s| && Used(o, i) && s[i].key == x;
        assert Used(q, i) && t[i].key == x;
      }
    }
  }

  /** The first pass: a key takes its main position. */
  function FirstPass(s: seq<Node>, k: Key, v: nat): (t: seq<Node>)
    requires |s| > 0
    ensures |t| == |s|
  {
    s[Main(k, |s|) := Node(k, KeyHash(k), Value(v), -1, true)]
  }

  /** The second pass: a key goes to an empty node, right after its main position. */
  function SecondPass(s: seq<Node>, k: Key, v: nat, at: nat): (t: seq<Node>)
    requires |s| > 0 && at < |s|
    ensures |t| == |s|
  {
    var h := Main(k, |s|);
    s[at := Node(k, KeyHash(k), Value(v), s[h].next, false)][h := s[h].(next := at, single := false)]
  }

  lemma FirstHolds(s: seq<Node>, o: Order, m: map<Key, nat>, k: Key, v: nat)
    requires Holds(s, o, m) && k !in m && !Used(o, Main(k, |s|))
    ensures Holds(FirstPass(s, k, v), Begin(o, Main(k, |s|)), m[k := v])
  {
    hide Main, Wf, Nodes, Covers, Unique, Given;
    var h := Main(k, |s|);
    var t, q := FirstPass(s, k, v), Begin(o, h);
    UnusedNext(s, o, h);
    assert Nexts(t) == Nexts(s);
    BeginKeeps(Nexts(s), o, h);
    FirstGiven(s, o, k, v);
    GivenNodes(s, o, m, t, q, h, k, v);
  }

  lemma UnusedNext(s: seq<Node>, o: Order, i: nat)
    requires Wf(Nexts(s), o) && i < |s| && !Used(o, i)
    ensures s[i].next == -1
  {
    assert Nexts(s)[i] == -1;
  }

  lemma FirstGiven(s: seq<Node>, o: Order, k: Key, v: nat)
    requires Wf(Nexts(s), o) && |s| > 0 && !Used(o, Main(k, |s|))
    requires forall i | 0 <= i < |s| :: o.head[i] != Main(k, |s|)
    ensures Given(s, o, FirstPass(s, k, v), Begin(o, Main(k, |s|)), Main(k, |s|), k, v)
  {
    hide Main, Wf, Reaches;
    BeginKeeps(Nexts(s), o, Main(k, |s|));
  }

  lemma SecondHolds(s: seq<Node>, o: Order, m: map<Key, nat>, k: Key, v: nat, at: nat)
    requires Holds(s, o, m) && k !in m && at < |s| && Used(o, Main(k, |s|)) && !Used(o, at)
    ensures Holds(SecondPass(s, k, v, at), Insert(Nexts(s), o, Main(k, |s|), at), m[k := v])
  {
    hide Main, Wf, Nodes, Covers, Unique, Given, Insert, Shaped, Marked;
    var h := Main(k, |s|);
    var t, q := SecondPass(s, k, v, at), Insert(Nexts(s), o, h, at);
    assert Nexts(t) == Nexts(s)[at := Nexts(s)[h]][h := at];
    InsertIs(Nexts(s), o, h, at);
    InsertKeeps(Nexts(s), o, h, at);
    SecondGiven(s, o, k, v, at);
    GivenNodes(s, o, m, t, q, at, k, v);
    SecondMarked(s, o, q, k, v, at);
  }

  lemma InsertIs(next: seq<int>, o: Order, h: nat, at: nat)
    requires Shaped(next, o) && h < |next| && at < |next|
    ensures Insert(next, o, h, at).head == o.head[at := o.head[h]]
  {
  }

  lemma SecondGiven(s: seq<Node>, o: Order, k: Key, v: nat, at: nat)
    requires Wf(Nexts(s), o) && |s| > 0 && Used(o, Main(k, |s|)) && at < |s| && !Used(o, at)
    ensures Given(s, o, SecondPass(s, k, v, at), Insert(Nexts(s), o, Main(k, |s|), at), at, k, v)
  {
    hide Main, Wf, Reaches, PlaceAfter;
    InsertKeeps(Nexts(s), o, Main(k, |s|), at);
  }

  lemma SecondMarked(s: seq<Node>, o: Order, q: Order, k: Key, v: nat, at: nat)
    requires |s| == |o.head| && at < |s| && Marked(s, o) && Used(o, Main(k, |s|)) && !Used(o, at)
    requires q.head == o.head[at := o.head[Main(k, |s|)]]
    ensures Marked(SecondPass(s, k, v, at), q)
  {
    hide Main;
  }

  lemma NothingHolds(s: seq<Node>)
    requires |s| > 0 && forall i | 0 <= i < |s| :: s[i].value == Nil && s[i].next == -1
    ensures Holds(s, Nothing(|s|), map[])
  {
    NothingWf(Nexts(s));
  }

  lemma UsedIs(s: seq<Node>, o: Order, m: map<Key, nat>)
    requires Holds(s, o, m)
    ensures Wf(Nexts(s), o) && forall i | 0 <= i < |s| :: s[i].value.Value? <==> Used(o, i)
  {
  }

  // ---- what the passes leave

  lemma {:induction false} HashedKeys(es: seq<Entry>, size: nat, k: Key)
    ensures k in Contents(Hashed(es, size)) <==> k in Contents(es) && !InArray(k, size)
    ensures k in Contents(Hashed(es, size)) ==> Contents(Hashed(es, size))[k] == Contents(es)[k]
  {
    if es != [] {
      var most, last := es[..|es| - 1], es[|es| - 1];
      HashedKeys(most, size, k);
      if !InArray(last.key, size) {
        assert Hashed(es, size)[..|Hashed(es, size)| - 1] == Hashed(most, size);
      }
    }
  }

  lemma {:induction false} HashedSize(es: seq<Entry>, size: nat)
    requires Distinct(es)
    ensures |Contents(Hashed(es, size))| == |Hashed(es, size)|
  {
    if es != [] {
      var most, last := es[..|es| - 1], es[|es| - 1];
      HashedSize(most, size);
      if !InArray(last.key, size) {
        assert Hashed(es, size)[..|Hashed(es, size)| - 1] == Hashed(most, size);
        HashedKeys(most, size, last.key);
        ContentsFrom(most, last.key);
      }
    }
  }

  lemma HashedAt(es: seq<Entry>, size: nat, n: nat)
    requires Distinct(es) && n < |es| && !InArray(es[n].key, size)
    ensures es[n].key in Contents(Hashed(es, size)) && Contents(Hashed(es, size))[es[n].key] == es[n].v
  {
    ContentsAt(es, n);
    HashedKeys(es, size, es[n].key);
  }

  /** A part of the contents. */
  ghost predicate Part(m: map<Key, nat>, all: map<Key, nat>) {
    forall k | k in m :: k in all && m[k] == all[k]
  }

  /** After a pass over the first n entries, the main position of every hash key among them is taken. */
  ghost predicate MainsTaken(s: seq<Node>, es: seq<Entry>, size: nat, n: nat)
    requires |s| > 0 && n <= |es|
  {
    forall i | 0 <= i < n && !InArray(es[i].key, size) :: s[Main(es[i].key, |s|)].value.Value?
  }

  ghost predicate KeyAmong(es: seq<Entry>, n: nat, k: Key)
    requires n <= |es|
  {
    exists i :: 0 <= i < n && es[i].key == k
  }

  /** Every key in the table is at its main position, or the second pass has been there. */
  ghost predicate Settled(s: seq<Node>, es: seq<Entry>, n: nat)
    requires n <= |es| && |s| > 0
  {
    forall i | 0 <= i < |s| && s[i].value.Value? :: Main(s[i].key, |s|) == i || KeyAmong(es, n, s[i].key)
  }

  ghost predicate Present(m: map<Key, nat>, es: seq<Entry>, size: nat, n: nat)
    requires n <= |es|
  {
    forall i | 0 <= i < n && !InArray(es[i].key, size) :: es[i].key in m
  }

  /** A key that the second pass comes to is in the table if and only if it has its main position. */
  lemma AtMain(s: seq<Node>, o: Order, m: map<Key, nat>, es: seq<Entry>, size: nat, n: nat)
    requires Holds(s, o, m) && Distinct(es) && n < |es| && !InArray(es[n].key, size)
    requires MainsTaken(s, es, size, |es|) && Settled(s, es, n)
    ensures s[Main(es[n].key, |s|)].value.Value?
    ensures es[n].key in m <==> s[Main(es[n].key, |s|)].key == es[n].key
  {
    hide Main, Holds;
    var k := es[n].key;
    var h := Main(k, |s|);
    assert s[h].value.Value?;
    NodeIs(s, o, m, h);
    if k in m {
      NotAmong(es, n);
      var i := Find(s, o, m, k);
      assert Main(s[i].key, |s|) == i;
    }
  }

  lemma StillSettled(s: seq<Node>, es: seq<Entry>, n: nat)
    requires n < |es| && |s| > 0 && Settled(s, es, n)
    ensures Settled(s, es, n + 1)
  {
    hide Main;
    forall i | 0 <= i < |s| && s[i].value.Value?
      ensures Main(s[i].key, |s|) == i || KeyAmong(es, n + 1, s[i].key)
    {
      if KeyAmong(es, n, s[i].key) {
        var l :| 0 <= l < n && es[l].key == s[i].key;
      }
    }
  }

  /** In the first pass, a key whose main position is free is not in the table. */
  lemma NotYet(s: seq<Node>, o: Order, m: map<Key, nat>, es: seq<Entry>, k: Key)
    requires Holds(s, o, m) && Settled(s, es, 0) && !s[Main(k, |s|)].value.Value?
    ensures k !in m
  {
    hide Main, Holds;
    if k in m {
      var i := Find(s, o, m, k);
    }
  }

  lemma NotAmong(es: seq<Entry>, n: nat)
    requires Distinct(es) && n < |es|
    ensures !KeyAmong(es, n, es[n].key)
  {
  }

  lemma NodeIs(s: seq<Node>, o: Order, m: map<Key, nat>, i: nat)
    requires Holds(s, o, m) && i < |s| && s[i].value.Value?
    ensures s[i].key in m && s[i].value == Value(m[s[i].key]) && s[i].hash == KeyHash(s[i].key)
  {
    hide Wf, Reaches, Main, KeyHash, Covers;
    assert NodeOk(s, o, m, i);
  }

  lemma Find(s: seq<Node>, o: Order, m: map<Key, nat>, k: Key) returns (i: nat)
    requires Holds(s, o, m) && k in m
    ensures i < |s| && s[i].value.Value? && s[i].key == k
  {
    hide Wf, Nodes;
    assert Somewhere(s, o, k);
    i :| 0 <= i < |s| && Used(o, i) && s[i].key == k;
  }

  // ---- there is always an empty node

  ghost predicate Filled(s: seq<Node>, filled: set<int>) {
    forall k :: k in filled <==> 0 <= k < |s| && s[k].value.Value?
  }

  lemma FullCount(s: seq<Node>, filled: set<int>)
    requires Filled(s, filled)
    ensures |filled| <= |s| && (|filled| == |s| <==> forall k | 0 <= k < |s| :: s[k].value.Value?)
  {
    var r := Range(|s|);
    assert filled <= r;
    assert r == filled + (r - filled);
    if |filled| == |s| {
      assert r - filled == {};
      forall k | 0 <= k < |s|
        ensures s[k].value.Value?
      {
        assert k in r;
      }
    } else {
      assert r != filled;
    }
  }

  lemma FilledMore(s: seq<Node>, t: seq<Node>, filled: set<int>, at: nat)
    requires Filled(s, filled) && at < |s| == |t| && !s[at].value.Value? && t[at].value.Value?
    requires forall i | 0 <= i < |s| && i != at :: t[i].value == s[i].value
    ensures Filled(t, filled + {at}) && |filled + {at}| == |filled| + 1
  {
  }

  /** While a key is missing, there is room for it. */
  lemma RoomFor(m: map<Key, nat>, all: map<Key, nat>, k: Key)
    requires Part(m, all) && k in all && k !in m
    ensures |m| < |all|
  {
    assert m.Keys <= all.Keys - {k};
    SubsetSize(m.Keys, all.Keys - {k});
  }

  // ---- walking

  /** Whatever bears this key is reached from node i. */
  ghost predicate Ahead(s: seq<Node>, o: Order, i: nat, k: Key)
    requires i < |s| == |o.head| == |o.place|
  {
    forall j | 0 <= j < |s| && Used(o, j) && s[j].key == k :: Reaches(o, i, j)
  }

  lemma AheadFirst(s: seq<Node>, o: Order, m: map<Key, nat>, k: Key)
    requires Holds(s, o, m)
    ensures Ahead(s, o, Main(k, |s|), k)
  {
    hide Main, Reaches, Wf, Marked, Covers, KeyHash;
    forall j | 0 <= j < |s| && Used(o, j) && s[j].key == k
      ensures Reaches(o, Main(k, |s|), j)
    {
      assert NodeOk(s, o, m, j);
    }
  }

  lemma AheadNext(s: seq<Node>, o: Order, m: map<Key, nat>, i: nat, k: Key)
    requires Holds(s, o, m) && i < |s| && Ahead(s, o, i, k) && s[i].key != k
    ensures s[i].next < 0 || s[i].single ==> k !in m
    ensures Onward(s, o, i, k)
  {
    hide Wf, Main, KeyHash, Nodes, Nexts, Ahead, Onward;
    AheadOn(s, o, i, k);
  }

  lemma AheadOn(s: seq<Node>, o: Order, i: nat, k: Key)
    requires i < |s| == |o.head| == |o.place| && Wf(Nexts(s), o) && Ahead(s, o, i, k) && s[i].key != k
    ensures Onward(s, o, i, k)
    ensures s[i].next < 0 ==> !Somewhere(s, o, k)
  {
    hide Beyond, Linked;
    if Used(o, i) {
      StepOn(Nexts(s), o, i);
    }
  }

  /** The next node is nearer. */
  ghost predicate Onward(s: seq<Node>, o: Order, i: nat, k: Key)
    requires i < |s| == |o.head| == |o.place|
  {
    s[i].next >= 0 ==> s[i].next < |s| && Ahead(s, o, s[i].next, k) && Beyond(o, s[i].next) < Beyond(o, i)
  }

  // ---- the order of a traversal

  datatype Next = End | Then(key: Key)

  function First(keys: seq<Key>): Next {
    if keys == [] then End else Then(keys[0])
  }

  /** The keys of the cells from i on that have a value. */
  function CellKeys(cells: seq<Value>, i: nat): seq<Key>
    requires i <= |cells|
    decreases |cells| - i
  {
    if i == |cells| then []
    else if cells[i] == Nil then CellKeys(cells, i + 1)
    else [Num(i + 1)] + CellKeys(cells, i + 1)
  }

  lemma CellStep(cells: seq<Value>, i: nat)
    requires i <= |cells|
    ensures CellKeys(cells, i) ==
            if i == |cells| then []
            else if cells[i] == Nil then CellKeys(cells, i + 1)
            else [Num(i + 1)] + CellKeys(cells, i + 1)
  {
  }

  lemma {:induction false} CellAt(cells: seq<Value>, from: nat, i: nat) returns (j: nat)
    requires from <= |cells| && i < |CellKeys(cells, from)|
    ensures from <= j < |cells| && cells[j] != Nil && CellKeys(cells, from)[i] == Num(j + 1)
    ensures CellKeys(cells, from)[i + 1..] == CellKeys(cells, j + 1)
    decreases |cells| - from
  {
    if cells[from] == Nil {
      j := CellAt(cells, from + 1, i);
    } else if i == 0 {
      j := from;
    } else {
      j := CellAt(cells, from + 1, i - 1);
    }
  }

  lemma {:induction false} CellKeysAre(cells: seq<Value>, from: nat)
    requires from <= |cells|
    ensures forall k :: k in CellKeys(cells, from) <==> k.Num? && from < k.n <= |cells| && cells[k.n - 1] != Nil
    ensures forall i, j | 0 <= i < j < |CellKeys(cells, from)| :: CellKeys(cells, from)[i] != CellKeys(cells, from)[j]
    decreases |cells| - from
  {
    if from < |cells| {
      CellKeysAre(cells, from + 1);
      var rest := CellKeys(cells, from + 1);
      assert forall i | 0 <= i < |rest| :: rest[i] in rest;
    }
  }

  /** What comes after a key: later cells and the nodes, or later nodes. */
  lemma RestOf(cells: seq<Value>, s: seq<Node>, i: nat)
    requires i < |CellKeys(cells, 0) + NodeKeys(s)|
    ensures
      var keys, n := CellKeys(cells, 0) + NodeKeys(s), |CellKeys(cells, 0)|;
      if i < n then
        InArray(keys[i], |cells|) && keys[i + 1..] == CellKeys(cells, keys[i].n) + NodeKeys(s)
      else
        keys[i] == s[i - n].key && |keys[i + 1..]| == |s| - (i - n) - 1 &&
        (i - n + 1 < |s| ==> keys[i + 1] == s[i - n + 1].key)
  {
    var n := |CellKeys(cells, 0)|;
    if i < n {
      var j := CellAt(cells, 0, i);
      assert (CellKeys(cells, 0) + NodeKeys(s))[i + 1..] == CellKeys(cells, 0)[i + 1..] + NodeKeys(s);
    }
  }

  function NodeKeys(s: seq<Node>): (keys: seq<Key>)
    ensures |keys| == |s| && forall i | 0 <= i < |s| :: keys[i] == s[i].key
  {
    seq(|s|, i requires 0 <= i < |s| => s[i].key)
  }

  /** lua_rawget */
  function RawGet(es: seq<Entry>, k: Key): (v: Value)
    ensures v == if k in Contents(es) then Value(Contents(es)[k]) else Nil
  {
    if es == [] then Nil
    else if es[|es| - 1].key == k then Value(es[|es| - 1].v)
    else RawGet(es[..|es| - 1], k)
  }

  /** What a map answers for a key. */
  function Answer(m: map<Key, nat>, k: Key): Value {
    if k in m then Value(m[k]) else Nil
  }

  // ---- the table

  class Table {
    const cells: array<Value>
    const hash: array<Node>
    ghost var order: Order
    ghost var inHash: map<Key, nat>
    ghost var contents: map<Key, nat>

    ghost predicate Valid()
      reads this, cells, hash
    {
      HashOk() && CellsOk() && SplitOk() && forall k | k in contents :: Fits(k)
    }

    /** The hash part is exactly full. */
    ghost predicate HashOk()
      reads this, hash
    {
      if hash.Length == 0 then inHash == map[]
      else Holds(hash[..], order, inHash) && forall i | 0 <= i < hash.Length :: hash[i].value.Value?
    }

    ghost predicate CellsOk()
      reads this, cells
    {
      forall i | 0 <= i < cells.Length ::
        cells[i] == if Num(i + 1) in contents then Value(contents[Num(i + 1)]) else Nil
    }

    ghost predicate SplitOk()
      reads this
    {
      (forall k | k in inHash :: !InArray(k, cells.Length) && k in contents && contents[k] == inHash[k]) &&
      forall k | k in contents && !InArray(k, cells.Length) :: k in inHash
    }

    /** lookup_key */
    method LookupKey(k: IntKey) returns (at: int)
      requires Valid()
      ensures if k in inHash then 0 <= at < hash.Length && hash[at].key == k && hash[at].value == Value(inHash[k])
              else at == -1
    {
      if hash.Length == 0 {
        return -1;
      }
      hide Main, KeyHash, Holds, Ahead, Beyond, CellsOk, SplitOk, Nexts;
      ghost var s := hash[..];
      var keyhash := KeyHash(k);
      at := Main(k, hash.Length);
      AheadFirst(s, order, inHash, k);
      NodeIs(s, order, inHash, at);
      if keyhash != hash[at].hash && hash[at].single {
        AheadNext(s, order, inHash, at, k);
        return -1;
      }
      while true
        invariant 0 <= at < hash.Length && Ahead(s, order, at, k)
        decreases Beyond(order, at)
      {
        NodeIs(s, order, inHash, at);
        if keyhash == hash[at].hash && hash[at].key == k {
          return;
        }
        AheadNext(s, order, inHash, at, k);
        if hash[at].next < 0 {
          return -1;
        }
        at := hash[at].next;
      }
    }

    /** lindexconf, which casts integer keys: a key that does not fit may be taken for another one. */
    method Index(k: Key) returns (v: Value)
      requires Valid()
      ensures v == Answer(contents, Cast(k))
      ensures v == Answer(contents, k) <==> Fits(k) || Cast(k) !in contents
    {
      hide HashOk;
      var key := Cast(k);
      if InArray(key, cells.Length) {
        return cells[key.n - 1];
      }
      var at := LookupKey(key);
      v := if at < 0 then Nil else hash[at].value;
    }

    constructor (size: nat, n: nat)
      ensures fresh(cells) && fresh(hash) && cells.Length == size && hash.Length == n
      ensures forall i | 0 <= i < size :: cells[i] == Nil
      ensures forall i | 0 <= i < n :: hash[i].value == Nil && hash[i].next == -1
      ensures order == Nothing(n) && inHash == map[] && contents == map[]
    {
      cells := new Value[size](_ => Nil);
      hash := new Node[n](_ => Node(Num(0), 0, Nil, -1, false));
      order, inHash, contents := Nothing(n), map[], map[];
    }

    /** What holds of the hash part between the steps of filling it. */
    ghost predicate Filling(es: seq<Entry>, filled: set<int>)
      reads this, hash
    {
      hash.Length > 0 && Holds(hash[..], order, inHash) && Part(inHash, Contents(Hashed(es, cells.Length))) &&
      Filled(hash[..], filled) && |filled| == |inHash|
    }

    /** fillnocolliding, with setarray for the keys of the array part */
    method FillNoColliding(es: seq<Entry>) returns (ghost filled: set<int>)
      requires Distinct(es) && Filling(es, {}) && contents == map[] && inHash == map[] && CellsOk()
      requires forall i | 0 <= i < hash.Length :: hash[i].value == Nil
      modifies `order, `inHash, `contents, cells, hash
      ensures Filling(es, filled) && contents == Contents(es) && CellsOk()
      ensures MainsTaken(hash[..], es, cells.Length, |es|) && Settled(hash[..], es, 0)
    {
      hide Holds, Filled, Main, Hashed, Part;
      filled := {};
      for j := 0 to |es|
        invariant Filling(es, filled) && contents == Contents(es[..j]) && CellsOk()
        invariant MainsTaken(hash[..], es, cells.Length, j) && Settled(hash[..], es, 0)
      {
        ContentsNext(es, j);
        var k, v := es[j].key, es[j].v;
        if InArray(k, cells.Length) {
          cells[k.n - 1] := Value(v);
        } else {
          filled := PlaceFirst(es, j, filled);
        }
        contents := contents[k := v];
      }
      assert es[..|es|] == es;
    }

    method PlaceFirst(es: seq<Entry>, j: nat, ghost were: set<int>) returns (ghost filled: set<int>)
      requires Distinct(es) && Filling(es, were) && j < |es| && !InArray(es[j].key, cells.Length)
      requires MainsTaken(hash[..], es, cells.Length, j) && Settled(hash[..], es, 0)
      modifies `order, `inHash, hash
      ensures Filling(es, filled)
      ensures MainsTaken(hash[..], es, cells.Length, j + 1) && Settled(hash[..], es, 0)
    {
      hide Holds, Filled, Main, Hashed, Contents, KeyHash;
      ghost var s := hash[..];
      var k, v := es[j].key, es[j].v;
      var h := Main(k, hash.Length);
      filled := were;
      UsedIs(s, order, inHash);
      if hash[h].value == Nil {
        NotYet(s, order, inHash, es, k);
        HashedAt(es, cells.Length, j);
        FirstHolds(s, order, inHash, k, v);
        FilledMore(s, FirstPass(s, k, v), were, h);
        hash[h] := Node(k, KeyHash(k), Value(v), -1, true);
        order, inHash, filled := Begin(order, h), inHash[k := v], were + {h};
        assert hash[..] == FirstPass(s, k, v);
      }
    }

    /** fillcolliding */
    method FillColliding(es: seq<Entry>, ghost were: set<int>) returns (ghost filled: set<int>)
      requires Distinct(es) && Filling(es, were) && hash.Length == |Hashed(es, cells.Length)|
      requires MainsTaken(hash[..], es, cells.Length, |es|) && Settled(hash[..], es, 0)
      modifies `order, `inHash, hash
      ensures Filling(es, filled) && Present(inHash, es, cells.Length, |es|)
    {
      hide Holds, Filled, Main, Hashed, Part, KeyHash;
      filled := were;
      for j := 0 to |es|
        invariant Filling(es, filled) && Present(inHash, es, cells.Length, j)
        invariant MainsTaken(hash[..], es, cells.Length, |es|) && Settled(hash[..], es, j)
      {
        var k := es[j].key;
        if !InArray(k, cells.Length) {
          AtMain(hash[..], order, inHash, es, cells.Length, j);
          if hash[Main(k, hash.Length)].key != k {
            filled := PlaceSecond(es, j, filled);
          } else {
            StillSettled(hash[..], es, j);
          }
        } else {
          StillSettled(hash[..], es, j);
        }
      }
    }

    method PlaceSecond(es: seq<Entry>, j: nat, ghost were: set<int>) returns (ghost filled: set<int>)
      requires Distinct(es) && Filling(es, were) && j < |es| && !InArray(es[j].key, cells.Length)
      requires hash.Length == |Hashed(es, cells.Length)| && es[j].key !in inHash
      requires Present(inHash, es, cells.Length, j)
      requires MainsTaken(hash[..], es, cells.Length, |es|) && Settled(hash[..], es, j)
      modifies `order, `inHash, hash
      ensures Filling(es, filled) && Present(inHash, es, cells.Length, j + 1)
      ensures MainsTaken(hash[..], es, cells.Length, |es|) && Settled(hash[..], es, j + 1)
    {
      hide Holds, Filled, Main, Hashed, Contents, KeyHash;
      ghost var s := hash[..];
      var k, v := es[j].key, es[j].v;
      var h := Main(k, hash.Length);
      UsedIs(s, order, inHash);
      HashedAt(es, cells.Length, j);
      HashedSize(es, cells.Length);
      RoomFor(inHash, Contents(Hashed(es, cells.Length)), k);
      assert s[h].value.Value?;
      var at := EmptyNode(were);
      SecondHolds(s, order, inHash, k, v, at);
      FilledMore(s, SecondPass(s, k, v, at), were, at);
      SecondSettled(s, es, j, at);
      order, inHash, filled := Insert(Nexts(s), order, h, at), inHash[k := v], were + {at};
      hash[at] := Node(k, KeyHash(k), Value(v), hash[h].next, false);
      hash[h] := hash[h].(next := at, single := false);
      assert hash[..] == SecondPass(s, k, v, at);
    }

    /** The scan for an empty node finds one. */
    method EmptyNode(ghost filled: set<int>) returns (at: nat)
      requires Filled(hash[..], filled) && |filled| < hash.Length
      ensures at < hash.Length && hash[at].value == Nil
    {
      hide Filled;
      FullCount(hash[..], filled);
      for i := 0 to hash.Length
        invariant forall k | 0 <= k < i :: hash[..][k].value.Value?
      {
        if hash[i].value == Nil {
          return i;
        }
      }
      assert false;
    }

    /** When every key was placed, the hash part is exactly full. */
    lemma AllFilled(es: seq<Entry>, filled: set<int>)
      requires Distinct(es) && Filling(es, filled) && Present(inHash, es, cells.Length, |es|)
      requires hash.Length == |Hashed(es, cells.Length)| && contents == Contents(es) && CellsOk() && AllFit(es)
      ensures Valid()
    {
      hide Holds, Filled, Hashed, Contents, Fits, AllFit;
      ContentsFit(es);
      var all := Contents(Hashed(es, cells.Length));
      HashedSize(es, cells.Length);
      forall k | k in all
        ensures k in inHash
      {
        HashedKeys(es, cells.Length, k);
        ContentsFrom(es, k);
        var i :| 0 <= i < |es| && es[i].key == k;
      }
      assert inHash == all;
      FullCount(hash[..], filled);
      forall k | k in contents || k in all
        ensures k in all <==> k in contents && !InArray(k, cells.Length)
        ensures k in all ==> all[k] == contents[k]
      {
        HashedKeys(es, cells.Length, k);
      }
    }

    /** Without hash keys, the cells are read off the Lua table. */
    method FillCells(es: seq<Entry>)
      requires Distinct(es) && hash.Length == 0 == |Hashed(es, cells.Length)| && inHash == map[] && AllFit(es)
      modifies `contents, cells
      ensures Valid() && contents == Contents(es)
    {
      hide Contents, Hashed, Fits, AllFit;
      ContentsFit(es);
      ghost var all := Contents(es);
      contents := all;
      for i := 0 to cells.Length
        invariant forall k | 0 <= k < i :: cells[k] == if Num(k + 1) in all then Value(all[Num(k + 1)]) else Nil
        modifies cells
      {
        cells[i] := RawGet(es, Num(i + 1));
      }
      HashedSize(es, cells.Length);
      forall k | k in all
        ensures InArray(k, cells.Length)
      {
        HashedKeys(es, cells.Length, k);
      }
    }

    // ---- traversal

    ghost function Keys(): seq<Key>
      reads cells, hash
    {
      CellKeys(cells[..], 0) + NodeKeys(hash[..])
    }

    /** lnextkey: the keys of the array part, and then the nodes in their order. Integer keys are cast. */
    method NextKey(from: Next) returns (k: Next)
      requires Valid()
      ensures from == End ==> k == First(Keys())
      ensures forall i | 0 <= i < |Keys()| && from.Then? && Cast(from.key) == Keys()[i] :: k == First(Keys()[i + 1..])
      ensures from.Then? && InArray(Cast(from.key), cells.Length) ==>
                k == First(CellKeys(cells[..], Cast(from.key).n) + NodeKeys(hash[..]))
      ensures from.Then? && !InArray(Cast(from.key), cells.Length) && Cast(from.key) !in contents ==> k == End
    {
      hide CellsOk, CellKeys, NodeKeys, Holds;
      if from == End {
        k := FromCell(0);
        return;
      }
      var key := Cast(from.key);
      if InArray(key, cells.Length) {
        k := FromCell(key.n);
        forall i | 0 <= i < |Keys()| && key == Keys()[i]
          ensures k == First(Keys()[i + 1..])
        {
          RestOf(cells[..], hash[..], i);
          InCell(i);
        }
      } else {
        var at := LookupKey(key);
        k := if at < 0 || at + 1 == hash.Length then End else Then(hash[at + 1].key);
        forall i | 0 <= i < |Keys()| && key == Keys()[i]
          ensures k == First(Keys()[i + 1..])
        {
          RestOf(cells[..], hash[..], i);
          SameNode(at, i - |CellKeys(cells[..], 0)|, key);
        }
      }
    }

    /** The first cell with a value from i on, or the first node. */
    method FromCell(i: nat) returns (k: Next)
      requires i <= cells.Length
      ensures k == First(CellKeys(cells[..], i) + NodeKeys(hash[..]))
    {
      hide CellKeys;
      var j := i;
      CellStep(cells[..], j);
      while j < cells.Length
        invariant i <= j <= cells.Length && CellKeys(cells[..], i) == CellKeys(cells[..], j)
        decreases cells.Length - j
      {
        CellStep(cells[..], j);
        if cells[j] != Nil {
          return Then(Num(j + 1));
        }
        j := j + 1;
      }
      CellStep(cells[..], j);
      k := if hash.Length > 0 then Then(hash[0].key) else End;
    }

    lemma NodeOutside(i: int)
      requires Valid() && 0 <= i < hash.Length
      ensures !InArray(hash[i].key, cells.Length)
    {
      hide CellsOk, Wf;
      NodeIs(hash[..], order, inHash, i);
    }

    lemma InCell(i: nat)
      requires Valid() && i < |Keys()| && InArray(Keys()[i], cells.Length)
      ensures i < |CellKeys(cells[..], 0)|
    {
      hide Valid;
      var n := |CellKeys(cells[..], 0)|;
      if i >= n {
        NodeOutside(i - n);
      }
    }

    lemma SameNode(at: int, i: int, k: Key)
      requires Valid() && 0 <= i < hash.Length && hash[i].key == k
      requires if k in inHash then 0 <= at < hash.Length && hash[at].key == k else at == -1
      ensures at == i
    {
      hide CellsOk, Wf, Nodes, Covers;
      NodeIs(hash[..], order, inHash, i);
      UsedIs(hash[..], order, inHash);
    }

    /** A traversal visits every key exactly once. */
    method Traverse() returns (keys: seq<Key>)
      requires Valid()
      ensures keys == Keys()
      ensures (forall i, j | 0 <= i < j < |keys| :: keys[i] != keys[j]) && forall k :: k in keys <==> k in contents
    {
      hide Valid, Keys, Cast;
      ghost var all := Keys();
      KeysFit();
      keys := [];
      var at := NextKey(End);
      ghost var n := 0;
      assert all[0..] == all;
      while at != End
        invariant n == |keys| <= |all| && keys == all[..n] && at == First(all[n..])
        decreases |all| - n
      {
        assert all[n..][0] == all[n] && at == Then(Keys()[n]) && Cast(at.key) == Keys()[n];
        keys := keys + [at.key];
        at := NextKey(at);
        assert at == First(Keys()[n + 1..]);
        n := n + 1;
      }
      assert all[n..] == [] ==> n == |all| && all[..n] == all;
      EveryKeyOnce();
    }

    lemma EveryKeyOnce()
      requires Valid()
      ensures forall i, j | 0 <= i < j < |Keys()| :: Keys()[i] != Keys()[j]
      ensures forall k :: k in Keys() <==> k in contents
    {
      hide Holds, CellKeys;
      var c, s := cells[..], hash[..];
      CellKeysAre(c, 0);
      forall i | 0 <= i < |s|
        ensures !InArray(s[i].key, |c|) && s[i].key in inHash
      {
        NodeOutside(i);
        NodeIs(s, order, inHash, i);
      }
      NodesOnce();
      forall k | k in contents
        ensures k in Keys()
      {
        if k in inHash {
          var i := Find(s, order, inHash, k);
          assert NodeKeys(s)[i] == k;
        } else {
          assert InArray(k, |c|) && k == Num(k.n) && c[k.n - 1] != Nil;
        }
      }
      forall k | k in Keys()
        ensures k in contents
      {
        if k in CellKeys(c, 0) {
          assert c[k.n - 1] != Nil && Num(k.n - 1 + 1) == k;
        }
      }
    }

    lemma KeysFit()
      requires Valid()
      ensures forall i | 0 <= i < |Keys()| :: Cast(Keys()[i]) == Keys()[i]
    {
      hide Keys, Fits, HashOk, CellsOk, SplitOk;
      EveryKeyOnce();
      assert forall i | 0 <= i < |Keys()| :: Keys()[i] in Keys();
    }

    lemma NodesOnce()
      requires Valid()
      ensures forall i, j | 0 <= i < j < hash.Length :: hash[i].key != hash[j].key
    {
      hide Wf, Nodes, Covers, CellsOk, SplitOk;
    }
  }

  /** countsize */
  method CountSize(es: seq<Entry>, size: nat) returns (n: nat)
    ensures n == |Hashed(es, size)|
  {
    n := 0;
    for j := 0 to |es|
      invariant n == |Hashed(es[..j], size)|
    {
      assert es[..j + 1][..j] == es[..j];
      if !InArray(es[j].key, size) {
        n := n + 1;
      }
    }
    assert es[..|es|] == es;
  }

  /** convtable: the table holds exactly the entries, under their keys as cast by ishashkey. */
  method Convert(es: seq<Entry>, size: nat) returns (t: Table)
    requires size < TWO_31 && Castable(es, size)
    ensures fresh(t) && t.Valid() && t.contents == Contents(CastAll(es)) && t.cells.Length == size
  {
    hide Holds, Filled, Main, Hashed, Contents, Cast;
    var n := CountSize(es, size);
    t := new Table(size, n);
    var cs := CastAll(es);
    CountedAlike(es, size);
    if n > 0 {
      NothingHolds(t.hash[..]);
      NothingFilled(t.hash[..]);
      ghost var filled := t.FillNoColliding(cs);
      filled := t.FillColliding(cs, filled);
      t.AllFilled(cs, filled);
    } else {
      AllInArray(es, size);
      t.FillCells(es);
    }
  }

  /** A table that was built answers rightly for a key if and only if the key is in the Lua table, or its cast is not
      the cast of one that is. */
  method ConvertAndIndex(es: seq<Entry>, size: nat, k: Key) returns (v: Value)
    requires size < TWO_31 && Castable(es, size)
    ensures v == RawGet(es, k) <==> k in Contents(es) || Cast(k) !in Contents(CastAll(es))
  {
    hide Contents, Cast, Castable;
    var t := Convert(es, size);
    v := t.Index(k);
    AnswersRight(es, size, k);
  }

  /** So a key of 2^32 more than a key of the table is answered with the value of that one. */
  method WideKey() returns (v: Value)
    ensures v == Value(7) && RawGet([Entry(Num(1), 7)], Num(TWO_32 + 1)) == Nil
  {
    var es := [Entry(Num(1), 7)];
    assert CastAll(es) == es;
    var t := Convert(es, 1);
    assert es[..0] == [] && Contents(es) == map[Num(1) := 7];
    assert Cast(Num(TWO_32 + 1)) == Num(1);
    v := t.Index(Num(TWO_32 + 1));
  }

  lemma AnswersRight(es: seq<Entry>, size: nat, k: Key)
    requires Castable(es, size)
    ensures Answer(Contents(CastAll(es)), Cast(k)) == RawGet(es, k) <==> k in Contents(es) || Cast(k) !in Contents(CastAll(es))
  {
    hide Contents, Cast, RawGet;
    ContentsFrom(es, k);
    if i :| 0 <= i < |es| && es[i].key == k {
      assert Distinct(es) by { DistinctCasts(es); }
      ContentsAt(es, i);
      ContentsAt(CastAll(es), i);
    }
  }

  lemma DistinctCasts(es: seq<Entry>)
    requires Distinct(CastAll(es))
    ensures Distinct(es)
  {
    hide Cast;
    var cs := CastAll(es);
    forall i, j | 0 <= i < j < |es|
      ensures es[i].key != es[j].key
    {
      assert cs[i].key != cs[j].key;
    }
  }

  /** Whatever is answered by the cast alone is wrong for one of two keys that are cast alike, unless they agree. */
  lemma CastAlike(es: seq<Entry>, i: nat, j: nat, answer: Key -> Value)
    requires Distinct(es) && i < |es| && j < |es| && Cast(es[i].key) == Cast(es[j].key) && es[i].v != es[j].v
    ensures exists k :: k in Contents(es) && answer(Cast(k)) != RawGet(es, k)
  {
    ContentsAt(es, i);
    ContentsAt(es, j);
    var k := if answer(Cast(es[i].key)) != Value(es[i].v) then es[i].key else es[j].key;
    assert k in Contents(es) && answer(Cast(k)) != RawGet(es, k);
  }

  lemma {:induction false} CountedAlike(es: seq<Entry>, size: nat)
    requires forall i | 0 <= i < |es| :: InArray(es[i].key, size) <==> InArray(Cast(es[i].key), size)
    ensures |Hashed(es, size)| == |Hashed(CastAll(es), size)|
  {
    hide Cast;
    if es != [] {
      var most := es[..|es| - 1];
      CountedAlike(most, size);
      assert CastAll(es)[..|es| - 1] == CastAll(most);
    }
  }

  lemma {:induction false} AllInArray(es: seq<Entry>, size: nat)
    requires |Hashed(es, size)| == 0 && size < TWO_31
    ensures CastAll(es) == es
  {
    if es != [] {
      var most := es[..|es| - 1];
      AllInArray(most, size);
      assert forall i | 0 <= i < |most| :: CastAll(most)[i] == CastAll(es)[i];
    }
  }

  lemma NothingFilled(s: seq<Node>)
    requires forall i | 0 <= i < |s| :: s[i].value == Nil
    ensures Filled(s, {})
  {
  }

  lemma SecondSettled(s: seq<Node>, es: seq<Entry>, j: nat, at: nat)
    requires |s| > 0 && j < |es| && Settled(s, es, j) && at < |s| && s[Main(es[j].key, |s|)].value.Value?
    ensures Settled(SecondPass(s, es[j].key, es[j].v, at), es, j + 1)
  {
    hide Main, KeyHash;
    StillSettled(s, es, j);
    var t := SecondPass(s, es[j].key, es[j].v, at);
    forall i | 0 <= i < |t| && t[i].value.Value?
      ensures Main(t[i].key, |t|) == i || KeyAmong(es, j + 1, t[i].key)
    {
      if t[i].key == es[j].key {
        assert KeyAmong(es, j + 1, es[j].key);
      }
    }
  }
}
