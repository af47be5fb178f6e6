/** The table of handles and names of skynet_handle.c. Each operation holds the lock from end to end, and giving
    a context the handle it was registered under is part of registering it. */
module Handles {

  const HANDLE_MASK: nat := 0xff_ffff
  const TWO_24: nat := 0x100_0000
  const DEFAULT_SLOT_SIZE := 4

  datatype Slot = Empty | Taken(context: nat, handle: nat)
  datatype Grabbed = Missing | Found(context: nat)
  datatype Registered = TooMany | As(handle: nat)
  datatype Name = Name(text: string, handle: nat)

  // ---- remainders

  function Times(a: nat, b: nat): nat {
    a * b
  }

  lemma {:induction false} Apart(p: nat, q: nat, m: nat)
    requires p < q
    ensures Times(p, m) + m <= Times(q, m)
  {
    OneMore(q - 1, m);
    if p < q - 1 {
      Apart(p, q - 1, m);
    }
  }

  lemma OneMore(q: nat, m: nat)
    ensures Times(q + 1, m) == Times(q, m) + m
  {
  }

  lemma Parts(h: nat, m: nat)
    requires m > 0
    ensures h == Times(h / m, m) + h % m && h % m < m
  {
  }

  lemma RemainderIs(h: nat, m: nat, q: nat, r: nat)
    requires h == Times(q, m) + r && r < m
    ensures h % m == r
  {
    hide Times;
    Parts(h, m);
    if q < h / m {
      Apart(q, h / m, m);
    } else if h / m < q {
      Apart(h / m, q, m);
    }
  }

  /** The size of the table divides the number of handles; it can be doubled this many times. */
  ghost predicate Divides(n: nat, doublings: nat) {
    n > 0 && Times(Power2(doublings), n) == TWO_24
  }

  /** The slot of a handle in a table of n. */
  function At(h: nat, n: nat): (t: nat)
    requires n > 0
    ensures t < n
  {
    h % n
  }

  /** A handle of 24 bits, as a handle of its harbor. */
  function Whole(low: nat, harbor: nat): (h: nat)
    ensures low < TWO_24 ==> h / TWO_24 == harbor && h % TWO_24 == low
  {
    low + harbor * TWO_24
  }

  /** A handle and its low 24 bits fall into the same slot. */
  lemma MaskedSlot(h: nat, n: nat, doublings: nat)
    requires Divides(n, doublings)
    ensures At(h % TWO_24, n) == At(h, n)
  {
    hide Power2;
    var q, k, r := h / TWO_24, Power2(doublings), h % TWO_24;
    Parts(r, n);
    assert q * (k * n) == (q * k) * n;
    assert Times(q * k + r / n, n) == (q * k) * n + (r / n) * n;
    RemainderIs(h, n, q * k + r / n, r % n);
  }

  /** In a table of twice the size, a handle stays, or goes as far up as the table was long. */
  lemma DoubledSlot(h: nat, n: nat)
    requires n > 0
    ensures At(h, 2 * n) == At(h, n) || At(h, 2 * n) == At(h, n) + n
  {
    var q, r := h / n, h % n;
    var p := q / 2;
    Parts(h, n);
    if q % 2 == 0 {
      assert Times(q, n) == (2 * p) * n == Times(p, 2 * n);
      RemainderIs(h, 2 * n, p, r);
    } else {
      assert Times(q, n) == (2 * p + 1) * n == Times(p, 2 * n) + n;
      RemainderIs(h, 2 * n, p, r + n);
    }
  }

  /** Consecutive handles visit every slot. */
  lemma Visits(index: nat, n: nat, t: nat) returns (i: nat)
    requires t < n
    ensures i < n && At(i + index, n) == t
  {
    var q, r := index / n, index % n;
    i := if t >= r then t - r else t + n - r;
    Parts(index, n);
    if t >= r {
      RemainderIs(i + index, n, q, t);
    } else {
      assert Times(q + 1, n) == q * n + n;
      RemainderIs(i + index, n, q + 1, t);
    }
  }

  function Power2(k: nat): (p: nat)
    ensures p > 0
  {
    if k == 0 then 1 else 2 * Power2(k - 1)
  }

  lemma CanDouble(n: nat, doublings: nat)
    requires Divides(n, doublings)
    ensures n <= TWO_24 && (2 * n <= TWO_24 <==> doublings > 0)
    ensures doublings > 0 ==> Divides(2 * n, doublings - 1)
  {
    if doublings > 0 {
      var k := Power2(doublings - 1);
      assert Times(2 * k, n) == 2 * Times(k, n) == Times(k, 2 * n);
      assert k * n >= n;
    }
  }

  // ---- names

  /** strcmp */
  function Compare(a: string, b: string): int {
    if a == [] then (if b == [] then 0 else -1)
    else if b == [] then 1
    else if a[0] < b[0] then -1
    else if a[0] > b[0] then 1
    else Compare(a[1..], b[1..])
  }

  predicate Before(a: string, b: string) {
    Compare(a, b) < 0
  }

  lemma {:induction false} CompareEqual(a: string, b: string)
    ensures Compare(a, b) == 0 <==> a == b
  {
    if a != [] && b != [] && a[0] == b[0] {
      CompareEqual(a[1..], b[1..]);
      assert a == [a[0]] + a[1..] && b == [b[0]] + b[1..];
    }
  }

  lemma {:induction false} CompareBack(a: string, b: string)
    ensures Compare(a, b) < 0 <==> Compare(b, a) > 0
  {
    if a != [] && b != [] && a[0] == b[0] {
      CompareBack(a[1..], b[1..]);
    }
  }

  lemma {:induction false} CompareOn(a: string, b: string, c: string)
    requires Before(a, b) && Before(b, c)
    ensures Before(a, c)
  {
    if a != [] && b != [] && c != [] && a[0] == b[0] == c[0] {
      CompareOn(a[1..], b[1..], c[1..]);
    }
  }

  ghost predicate Sorted(names: seq<Name>) {
    forall i, j | 0 <= i < j < |names| :: Before(names[i].text, names[j].text)
  }

  function Without(names: seq<Name>, handle: nat): seq<Name> {
    if names == [] then []
    else if names[|names| - 1].handle == handle then Without(names[..|names| - 1], handle)
    else Without(names[..|names| - 1], handle) + [names[|names| - 1]]
  }

  lemma {:induction false} WithoutIs(names: seq<Name>, handle: nat)
    ensures forall x | x in Without(names, handle) :: x in names && x.handle != handle
    ensures forall x | x in names && x.handle != handle :: x in Without(names, handle)
  {
    if names != [] {
      WithoutIs(names[..|names| - 1], handle);
      assert names == names[..|names| - 1] + [names[|names| - 1]];
    }
  }

  lemma {:induction false} WithoutSorted(names: seq<Name>, handle: nat)
    requires Sorted(names)
    ensures Sorted(Without(names, handle))
  {
    hide Before;
    if names != [] {
      var most := names[..|names| - 1];
      WithoutSorted(most, handle);
      WithoutIs(most, handle);
      forall i | 0 <= i < |Without(most, handle)|
        ensures Before(Without(most, handle)[i].text, names[|names| - 1].text)
      {
        assert Without(most, handle)[i] in most;
      }
    }
  }

  lemma InsertedSorted(names: seq<Name>, at: nat, x: Name)
    requires Sorted(names) && at <= |names|
    requires forall i | 0 <= i < at :: Before(names[i].text, x.text)
    requires forall i | at <= i < |names| :: Before(x.text, names[i].text)
    ensures Sorted(names[..at] + [x] + names[at..])
  {
    hide Before;
  }

  // ---- the table

  class Table {
    const harbor: nat
    var slot: array<Slot>
    var index: nat
    var name: array<Name>
    var count: nat
    ghost var doublings: nat
    ghost var live: map<nat, nat>

    /** Every live handle sits in the slot of its low bits, and nothing else does. */
    ghost predicate SlotsOk()
      reads `slot, `index, `doublings, `live, slot
    {
      index <= TWO_24 && Divides(slot.Length, doublings) && Placed(slot[..], live, harbor)
    }

    ghost predicate NamesOk()
      reads `name, `count, name
    {
      name.Length > 0 && count <= name.Length && Sorted(name[..count])
    }

    ghost predicate Valid()
      reads this, slot, name
    {
      SlotsOk() && NamesOk()
    }

    ghost function Names(): seq<Name>
      requires NamesOk()
      reads `name, `count, name
    {
      name[..count]
    }

    /** No name is left of a handle that was retired. */
    ghost predicate NamesLive()
      requires NamesOk()
      reads `name, `count, `live, name
    {
      forall x | x in Names() :: x.handle in live
    }

    constructor (harbor: nat)
      ensures Valid() && live == map[] && Names() == [] && fresh(slot) && fresh(name)
      ensures this.harbor == harbor % 256 && index == 1
    {
      hide Placed;
      this.harbor := harbor % 256;
      slot := new Slot[DEFAULT_SLOT_SIZE](_ => Empty);
      index, doublings, live := 1, 22, map[];
      name, count := new Name[2](_ => Name("", 0)), 0;
      new;
      EmptyPlaced(slot[..], this.harbor);
      assert Power2(11) == 2048 && Power2(22) == 0x40_0000;
    }

    /** skynet_handle_register, which gives up when all the handles of the harbor are live */
    method Register(context: nat) returns (r: Registered)
      requires Valid()
      modifies `slot, `index, `doublings, `live, slot
      ensures Valid() && Names() == old(Names()) && (old(NamesLive()) ==> NamesLive())
      ensures slot == old(slot) || fresh(slot)
      ensures r.As? ==> r.handle !in old(live) && r.handle / TWO_24 == harbor && live == old(live)[r.handle := context]
      ensures r.As? ==> exists i :: FirstFree(slot[..], old(index), i, r.handle)
      ensures r.As? ==> index == r.handle % TWO_24 + 1
      ensures r.As? && old(index) + slot.Length <= TWO_24 ==> r.handle % TWO_24 >= old(index)
      ensures r.TooMany? ==> live == old(live) && index == old(index) && forall low: nat | low < TWO_24 :: Whole(low, harbor) in live
    {
      hide Divides, Placed, At, Whole, Sorted;
      while true
        invariant SlotsOk() && live == old(live) && index == old(index) && (slot == old(slot) || fresh(slot))
        decreases doublings
      {
        var n := slot.Length;
        SizeIs();
        ghost var s, from, d := slot, index, doublings;
        for i := 0 to n
          invariant SlotsOk() && slot == s && index == from && live == old(live) && doublings == d
          invariant forall k | 0 <= k < i :: Visited(slot[..], index, k)
        {
          var handle := (i + index) % TWO_24;
          MaskedSlot(i + index, n, doublings);
          if slot[At(handle, n)].Empty? {
            ghost var before := slot[..];
            Take(context, handle);
            FoundFirst(before, slot[..], from, i, Whole(handle, harbor));
            return As(Whole(handle, harbor));
          }
        }
        AllTaken(slot[..], index);
        CanDouble(n, doublings);
        if 2 * n - 1 > HANDLE_MASK {
          EveryHandle(slot[..], live, harbor, doublings);
          return TooMany;
        }
        Grow();
      }
    }

    lemma SizeIs()
      requires SlotsOk()
      ensures slot.Length > 0
    {
    }

    /** A free slot is given to a context under a handle that falls into it. */
    method Take(context: nat, handle: nat)
      requires SlotsOk() && slot.Length > 0 && handle < TWO_24 && slot[At(handle, slot.Length)].Empty?
      modifies `index, `live, slot
      ensures SlotsOk() && Whole(handle, harbor) !in old(live) && live == old(live)[Whole(handle, harbor) := context]
      ensures index == handle + 1
      ensures forall t | 0 <= t < slot.Length && old(slot[t]).Taken? :: slot[t] == old(slot[t])
    {
      hide Divides, Placed, At, Whole;
      ghost var s := slot[..];
      TakenPlaced(s, live, harbor, doublings, context, handle);
      var at := At(handle, slot.Length);
      slot[at] := Taken(context, Whole(handle, harbor));
      index := handle + 1;
      live := live[Whole(handle, harbor) := context];
      assert slot[..] == s[at := slot[at]];
    }

    /** The table is doubled: no two of its contexts meet. */
    method Grow()
      requires SlotsOk() && doublings > 0 && AllFull(slot[..])
      modifies `slot, `doublings
      ensures SlotsOk() && fresh(slot) && doublings == old(doublings) - 1
    {
      hide Divides, Placed, At;
      SizeIs();
      var n := slot.Length;
      CanDouble(n, doublings);
      ghost var s := slot[..];
      var newSlot := new Slot[2 * n](_ => Empty);
      for i := 0 to n
        invariant Moved(s, live, harbor, newSlot[..], i)
        modifies newSlot
      {
        assert s[i] == slot[i];
        var hash := At(slot[i].handle, 2 * n);
        ghost var before := newSlot[..];
        MovesOne(s, live, harbor, before, i);
        assert before[hash] == newSlot[hash];
        assert newSlot[hash].Empty?;
        newSlot[hash] := slot[i];
        assert newSlot[..] == before[hash := s[i]];
      }
      AllMoved(s, live, harbor, newSlot[..]);
      slot := newSlot;
      doublings := doublings - 1;
    }

    /** skynet_handle_grab */
    method Grab(handle: nat) returns (g: Grabbed)
      requires Valid()
      ensures g == if handle in live then Found(live[handle]) else Missing
    {
      hide NamesOk, At, Divides;
      SizeIs();
      var s := slot[At(handle, slot.Length)];
      g := if s.Taken? && s.handle == handle then Found(s.context) else Missing;
    }

    /** skynet_handle_retire: the handle and its names go. */
    method Retire(handle: nat) returns (retired: bool)
      requires Valid()
      modifies `live, `count, slot, name
      ensures Valid() && (retired <==> handle in old(live)) && live == old(live) - {handle}
      ensures Names() == if retired then Without(old(Names()), handle) else old(Names())
      ensures old(NamesLive()) ==> NamesLive()
    {
      hide NamesOk, Divides, Placed, At;
      SizeIs();
      ghost var s := slot[..];
      RetiredPlaced(s, live, harbor, handle);
      var hash := At(handle, slot.Length);
      if slot[hash].Taken? && slot[hash].handle == handle {
        WithoutIs(Names(), handle);
        Unname(handle);
        slot[hash] := Empty;
        live := live - {handle};
        assert slot[..] == s[hash := Empty];
        retired := true;
      } else {
        assert live - {handle} == live;
        retired := false;
      }
    }

    method Unname(handle: nat)
      requires NamesOk()
      modifies `count, name
      ensures NamesOk() && Names() == Without(old(Names()), handle)
    {
      hide Sorted, Without;
      ghost var names := Names();
      var j := 0;
      WithoutNext(names, 0, handle);
      for i := 0 to count
        invariant j <= i && count == old(count) && name[..j] == Without(names[..i], handle)
        invariant forall k | i <= k < count :: name[k] == names[k]
        modifies name
      {
        WithoutNext(names, i, handle);
        if name[i].handle != handle {
          name[j] := name[i];
          j := j + 1;
          assert name[..j] == name[..j - 1] + [names[i]];
        }
      }
      assert names[..count] == names;
      WithoutSorted(names, handle);
      count := j;
    }

    /** The binary search of findname and _insert_name: where a name is, or where it would go. */
    method Search(text: string) returns (found: bool, at: nat)
      requires NamesOk()
      ensures found ==> at < count && name[at].text == text
      ensures !found ==>
                at <= count && (forall i | 0 <= i < at :: Before(name[i].text, text)) &&
                forall i | at <= i < count :: Before(text, name[i].text)
    {
      hide Before;
      ghost var names := Names();
      at := 0;
      var end := count - 1;
      while at <= end
        invariant at <= end + 1 <= count
        invariant forall i | 0 <= i < at :: Before(names[i].text, text)
        invariant forall i | end < i < count :: Before(text, names[i].text)
        decreases end - at
      {
        var mid := (at + end) / 2;
        var c := Compare(name[mid].text, text);
        assert name[mid] == names[mid];
        Outside(names, mid, text);
        if c == 0 {
          CompareEqual(name[mid].text, text);
          return true, mid;
        }
        if c < 0 {
          at := mid + 1;
        } else {
          end := mid - 1;
        }
      }
      found := false;
    }

    /** skynet_handle_findname: 0 stands for no handle. */
    method FindName(text: string) returns (handle: nat)
      requires Valid()
      ensures (forall x | x in Names() :: x.text != text) ==> handle == 0
      ensures forall x | x in Names() && x.text == text :: handle == x.handle
    {
      hide SlotsOk, Before, Sorted;
      var found, at := Search(text);
      NamedOnce(Names(), text);
      if found {
        assert name[at] == Names()[at];
        return name[at].handle;
      }
      forall i | 0 <= i < count
        ensures name[i].text != text
      {
        NotBeforeItself(text);
      }
      handle := 0;
    }

    /** skynet_handle_namehandle: refused when the name is taken. */
    method NameHandle(handle: nat, text: string) returns (ok: bool)
      requires Valid()
      modifies `name, `count, name
      ensures Valid() && (name == old(name) || fresh(name)) && (ok <==> forall x | x in old(Names()) :: x.text != text)
      ensures if ok then exists at :: 0 <= at <= |old(Names())| &&
                                      Names() == old(Names())[..at] + [Name(text, handle)] + old(Names())[at..]
              else Names() == old(Names())
      ensures old(NamesLive()) && handle in live ==> NamesLive()
    {
      hide SlotsOk, Before, Sorted;
      var found, at := Search(text);
      if found {
        assert name[at] == Names()[at];
        return false;
      }
      ghost var names := Names();
      forall i | 0 <= i < |names|
        ensures names[i].text != text
      {
        NotBeforeItself(text);
      }
      InsertedSorted(names, at, Name(text, handle));
      InsertBefore(Name(text, handle), at);
      return true;
    }

    /** _insert_name_before */
    method InsertBefore(x: Name, before: nat)
      requires name.Length > 0 && before <= count <= name.Length
      modifies `name, `count, name
      ensures name.Length > 0 && count == old(count) + 1 <= name.Length && (name == old(name) || fresh(name))
      ensures name[..count] == old(name[..count])[..before] + [x] + old(name[..count])[before..]
    {
      ghost var was := name[..count];
      if count >= name.Length {
        CopyAround(x, before);
      } else {
        ShiftUp(before);
      }
      name[before] := x;
      count := count + 1;
      assert name[..count] == was[..before] + [x] + was[before..];
    }

    /** A longer array, with a gap. */
    method CopyAround(x: Name, before: nat)
      requires name.Length > 0 && before <= count <= name.Length
      modifies `name
      ensures fresh(name) && count < name.Length
      ensures forall k | 0 <= k < before :: name[k] == old(name[k])
      ensures forall k | before < k <= count :: name[k] == old(name[k - 1])
    {
      var n := new Name[2 * name.Length](_ => x);
      for i := 0 to before
        invariant forall k | 0 <= k < i :: n[k] == name[k]
        modifies n
      {
        n[i] := name[i];
      }
      for i := before to count
        invariant forall k | 0 <= k < before :: n[k] == name[k]
        invariant forall k | before < k <= i :: n[k] == name[k - 1]
        modifies n
      {
        n[i + 1] := name[i];
      }
      name := n;
    }

    /** A gap in the same array. */
    method ShiftUp(before: nat)
      requires before <= count < name.Length
      modifies name
      ensures forall k | 0 <= k < before :: name[k] == old(name[k])
      ensures forall k | before < k <= count :: name[k] == old(name[k - 1])
    {
      var i := count;
      while i > before
        invariant before <= i <= count
        invariant forall k | 0 <= k < i :: name[k] == old(name[k])
        invariant forall k | i < k <= count :: name[k] == old(name[k - 1])
      {
        name[i] := name[i - 1];
        i := i - 1;
      }
    }
  }

  lemma WithoutNext(names: seq<Name>, i: nat, handle: nat)
    ensures Without([], handle) == []
    ensures i < |names| ==>
              Without(names[..i + 1], handle) ==
              if names[i].handle == handle then Without(names[..i], handle) else Without(names[..i], handle) + [names[i]]
  {
    if i < |names| {
      assert names[..i + 1][..i] == names[..i];
    }
  }

  /** Names before a smaller one are smaller, those after a greater one greater. */
  lemma Outside(names: seq<Name>, mid: nat, text: string)
    requires Sorted(names) && mid < |names|
    ensures Compare(names[mid].text, text) < 0 ==> forall i | 0 <= i <= mid :: Before(names[i].text, text)
    ensures Compare(names[mid].text, text) > 0 ==> forall i | mid <= i < |names| :: Before(text, names[i].text)
  {
    hide Compare;
    CompareBack(text, names[mid].text);
    forall i | 0 <= i < |names|
      ensures i < mid && Before(names[mid].text, text) ==> Before(names[i].text, text)
      ensures i > mid && Before(text, names[mid].text) ==> Before(text, names[i].text)
    {
      if i < mid && Before(names[mid].text, text) {
        CompareOn(names[i].text, names[mid].text, text);
      }
      if i > mid && Before(text, names[mid].text) {
        CompareOn(text, names[mid].text, names[i].text);
      }
    }
  }

  lemma NotBeforeItself(a: string)
    ensures !Before(a, a)
  {
    CompareEqual(a, a);
  }

  lemma NamedOnce(names: seq<Name>, text: string)
    requires Sorted(names)
    ensures forall i, j | 0 <= i < |names| && 0 <= j < |names| && names[i].text == text == names[j].text :: i == j
  {
    hide Compare;
    NotBeforeItself(text);
  }

  // ---- where handles are

  ghost predicate Placed(s: seq<Slot>, live: map<nat, nat>, harbor: nat)
    requires |s| > 0
  {
    (forall i | 0 <= i < |s| && s[i].Taken? ::
      At(s[i].handle, |s|) == i && s[i].handle in live && live[s[i].handle] == s[i].context) &&
    (forall h | h in live :: h / TWO_24 == harbor && s[At(h, |s|)] == Taken(live[h], h))
  }

  ghost predicate AllFull(s: seq<Slot>) {
    forall t | 0 <= t < |s| :: s[t].Taken?
  }

  lemma EmptyPlaced(s: seq<Slot>, harbor: nat)
    requires |s| > 0 && forall i | 0 <= i < |s| :: s[i].Empty?
    ensures Placed(s, map[], harbor)
  {
  }

  predicate Visited(s: seq<Slot>, index: nat, k: nat)
    requires |s| > 0
  {
    s[At(k + index, |s|)].Taken?
  }

  /** The handle is the i-th one from `from` on; the slots of those before it are taken. */
  ghost predicate FirstFree(s: seq<Slot>, from: nat, i: nat, handle: nat) {
    i < |s| && handle % TWO_24 == (i + from) % TWO_24 && forall k | 0 <= k < i :: Visited(s, from, k)
  }

  lemma FoundFirst(before: seq<Slot>, after: seq<Slot>, from: nat, i: nat, handle: nat)
    requires i < |before| == |after| && handle % TWO_24 == (i + from) % TWO_24
    requires forall t | 0 <= t < |before| && before[t].Taken? :: after[t] == before[t]
    requires forall k | 0 <= k < i :: Visited(before, from, k)
    ensures FirstFree(after, from, i, handle)
  {
    hide At;
    forall k | 0 <= k < i
      ensures Visited(after, from, k)
    {
      assert Visited(before, from, k);
    }
  }

  lemma AllTaken(s: seq<Slot>, index: nat)
    requires |s| > 0 && forall k | 0 <= k < |s| :: Visited(s, index, k)
    ensures AllFull(s)
  {
    hide At;
    forall t | 0 <= t < |s|
      ensures s[t].Taken?
    {
      var k := Visits(index, |s|, t);
      assert Visited(s, index, k);
    }
  }

  lemma EveryHandle(s: seq<Slot>, live: map<nat, nat>, harbor: nat, doublings: nat)
    requires Divides(|s|, doublings) && Placed(s, live, harbor) && 2 * |s| > TWO_24 && AllFull(s)
    ensures forall low: nat | low < TWO_24 :: Whole(low, harbor) in live
  {
    CanDouble(|s|, doublings);
    assert |s| == TWO_24;
    forall low: nat | low < TWO_24
      ensures Whole(low, harbor) in live
    {
      assert s[low].handle in live;
    }
  }

  lemma TakenPlaced(s: seq<Slot>, live: map<nat, nat>, harbor: nat, doublings: nat, context: nat, low: nat)
    requires Divides(|s|, doublings) && Placed(s, live, harbor) && low < TWO_24 && s[At(low, |s|)].Empty?
    ensures
      var h := Whole(low, harbor);
      h !in live && Placed(s[At(low, |s|) := Taken(context, h)], live[h := context], harbor)
  {
    hide At, Divides;
    var h := Whole(low, harbor);
    assert |s| > 0;
    MaskedSlot(h, |s|, doublings);
  }

  lemma RetiredPlaced(s: seq<Slot>, live: map<nat, nat>, harbor: nat, handle: nat)
    requires |s| > 0 && Placed(s, live, harbor)
    ensures
      var x := s[At(handle, |s|)];
      (handle in live <==> x.Taken? && x.handle == handle) &&
      (handle in live ==> Placed(s[At(handle, |s|) := Empty], live - {handle}, harbor))
  {
    hide At;
  }

  /** The first i contexts were moved to the table of twice the size. */
  ghost predicate Moved(s: seq<Slot>, live: map<nat, nat>, harbor: nat, t: seq<Slot>, i: nat)
    requires |t| == 2 * |s| > 0
  {
    (forall k | 0 <= k < |t| && t[k].Taken? ::
      At(t[k].handle, |t|) == k && At(t[k].handle, |s|) < i && t[k] == s[At(t[k].handle, |s|)]) &&
    (forall k | 0 <= k < i && k < |s| && s[k].Taken? :: t[At(s[k].handle, |t|)] == s[k])
  }

  lemma MovesOne(s: seq<Slot>, live: map<nat, nat>, harbor: nat, t: seq<Slot>, i: nat)
    requires |t| == 2 * |s| > 0 && Placed(s, live, harbor) && AllFull(s) && Moved(s, live, harbor, t, i) && i < |s|
    ensures
      var to := At(s[i].handle, |t|);
      t[to].Empty? && Moved(s, live, harbor, t[to := s[i]], i + 1)
  {
    hide At;
    var to := At(s[i].handle, |t|);
    DoubledSlot(s[i].handle, |s|);
    if t[to].Taken? {
      DoubledSlot(t[to].handle, |s|);
      assert false;
    }
  }

  lemma AllMoved(s: seq<Slot>, live: map<nat, nat>, harbor: nat, t: seq<Slot>)
    requires |t| == 2 * |s| > 0 && Placed(s, live, harbor) && AllFull(s) && Moved(s, live, harbor, t, |s|)
    ensures Placed(t, live, harbor)
  {
    hide At;
  }

  // ---- runs

  datatype Op = Register(context: nat) | Retire(handle: nat)

  /** A handle that was given out, the index before that, and the size of the table after it. */
  datatype Mark = Mark(handle: nat, index: nat, size: nat)

  /** The index has not come near the end of the 24 bits. */
  ghost predicate Unwrapped(marks: seq<Mark>) {
    forall k | 0 <= k < |marks| :: marks[k].index + marks[k].size <= TWO_24
  }

  ghost predicate Increasing(marks: seq<Mark>) {
    (forall j | 0 <= j < |marks| :: marks[j].handle % TWO_24 > 0) &&
    forall i, j | 0 <= i < j < |marks| :: marks[i].handle % TWO_24 < marks[j].handle % TWO_24
  }

  /** Until the index wraps, the handles that are given out increase, so that none is given out twice, whatever is
      retired in between, and none is 0. */
  method Run(harbor: nat, ops: seq<Op>) returns (t: Table, ghost marks: seq<Mark>)
    ensures fresh(t) && t.Valid()
    ensures forall n | 0 <= n <= |marks| && Unwrapped(marks[..n]) :: Increasing(marks[..n])
    ensures forall k | 0 <= k < |marks| :: marks[k].handle / TWO_24 == harbor % 256
    ensures forall h | h in t.live :: exists k :: 0 <= k < |marks| && marks[k].handle == h
  {
    hide Table.Valid, Unwrapped, Increasing;
    t := new Table(harbor);
    marks := [];
    NoMarks();
    for n := 0 to |ops|
      invariant fresh(t) && fresh(t.slot) && fresh(t.name) && t.Valid() && t.harbor == harbor % 256
      invariant MarksOk(marks, t.index)
      invariant forall k | 0 <= k < |marks| :: marks[k].handle / TWO_24 == harbor % 256
      invariant forall h | h in t.live :: exists k :: 0 <= k < |marks| && marks[k].handle == h
    {
      match ops[n]
      case Register(context) =>
        ghost var from, was := t.index, marks;
        var r := t.Register(context);
        if r.As? {
          marks := marks + [Mark(r.handle, from, t.slot.Length)];
          MarksNext(was, from, marks[|was|]);
          assert marks[|was|].handle == r.handle && forall k | 0 <= k < |was| :: marks[k] == was[k];
        }
      case Retire(handle) => var retired := t.Retire(handle);
    }
  }

  ghost predicate MarksOk(marks: seq<Mark>, index: nat) {
    (forall n | 0 <= n <= |marks| && Unwrapped(marks[..n]) :: Increasing(marks[..n])) &&
    (Unwrapped(marks) ==> index > 0 && forall k | 0 <= k < |marks| :: marks[k].handle % TWO_24 < index)
  }

  lemma NoMarks()
    ensures MarksOk([], 1)
  {
  }

  lemma MarksNext(marks: seq<Mark>, index: nat, m: Mark)
    requires MarksOk(marks, index) && m.index == index
    requires index + m.size <= TWO_24 ==> m.handle % TWO_24 >= index
    ensures MarksOk(marks + [m], m.handle % TWO_24 + 1)
  {
    var more := marks + [m];
    assert Unwrapped(more) ==> more[|marks|].index + more[|marks|].size <= TWO_24;
    assert Unwrapped(more) ==> Unwrapped(marks) by {
      assert forall k | 0 <= k < |marks| :: marks[k] == more[k];
    }
    assert marks[..|marks|] == marks;
    forall n | 0 <= n <= |more| && Unwrapped(more[..n])
      ensures Increasing(more[..n])
    {
      if n <= |marks| {
        assert more[..n] == marks[..n];
      } else {
        assert more[..n] == more;
      }
    }
  }
}
