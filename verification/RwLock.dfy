/** The lock of rwlock.h, one atomic operation at a time, for any number of threads. */
module RwLock {

  /** Where a thread is: a reader looks at `write`, counts itself in, looks again, and may have to back out; a
      writer takes `write` and waits for the readers. */
  datatype Pc = Out | Looked | Counted | Backing | Reading | Draining | Writing

  datatype Lock = Lock(write: bool, read: int, pcs: seq<Pc>)

  predicate IsReader(pc: Pc) {
    pc == Counted || pc == Backing || pc == Reading
  }

  predicate IsWriter(pc: Pc) {
    pc == Draining || pc == Writing
  }

  function Readers(pcs: seq<Pc>): nat {
    if pcs == [] then 0
    else Readers(pcs[..|pcs| - 1]) + (if IsReader(pcs[|pcs| - 1]) then 1 else 0)
  }

  ghost predicate Inv(l: Lock) {
    l.read == Readers(l.pcs) &&
    (l.write <==> exists i :: 0 <= i < |l.pcs| && IsWriter(l.pcs[i])) &&
    (forall i, j | 0 <= i < j < |l.pcs| :: !(IsWriter(l.pcs[i]) && IsWriter(l.pcs[j]))) &&
    (forall i, j | 0 <= i < |l.pcs| && 0 <= j < |l.pcs| :: !(l.pcs[i] == Writing && l.pcs[j] == Reading))
  }

  /** What a thread that is out may begin. */
  datatype Wish = ToRead | ToWrite

  /** One atomic operation of a thread; a thread that spins stays where it is. */
  function Step(l: Lock, i: nat, wish: Wish): Lock
    requires i < |l.pcs|
  {
    match l.pcs[i]
    case Out =>
      if wish == ToRead then (if l.write then l else l.(pcs := l.pcs[i := Looked]))
      else if l.write then l
      else Lock(true, l.read, l.pcs[i := Draining])
    case Looked => Lock(l.write, l.read + 1, l.pcs[i := Counted])
    case Counted => l.(pcs := l.pcs[i := if l.write then Backing else Reading])
    case Backing => Lock(l.write, l.read - 1, l.pcs[i := Out])
    case Reading => Lock(l.write, l.read - 1, l.pcs[i := Out])
    case Draining => if l.read != 0 then l else l.(pcs := l.pcs[i := Writing])
    case Writing => Lock(false, l.read, l.pcs[i := Out])
  }

  lemma {:induction false} ReadersUpdated(pcs: seq<Pc>, i: nat, pc: Pc)
    requires i < |pcs|
    ensures Readers(pcs[i := pc]) + (if IsReader(pcs[i]) then 1 else 0) == Readers(pcs) + (if IsReader(pc) then 1 else 0)
  {
    var n := |pcs| - 1;
    if i == n {
      assert pcs[i := pc][..n] == pcs[..n];
    } else {
      assert pcs[i := pc][..n] == pcs[..n][i := pc];
      ReadersUpdated(pcs[..n], i, pc);
    }
  }

  lemma {:induction false} ReaderCounts(pcs: seq<Pc>, i: nat)
    requires i < |pcs| && IsReader(pcs[i])
    ensures Readers(pcs) > 0
  {
    if i < |pcs| - 1 {
      ReaderCounts(pcs[..|pcs| - 1], i);
    }
  }

  lemma StepKeeps(l: Lock, i: nat, wish: Wish)
    requires Inv(l) && i < |l.pcs|
    ensures Inv(Step(l, i, wish))
  {
    var m := Step(l, i, wish);
    ReadersUpdated(l.pcs, i, m.pcs[i]);
    if l.pcs[i] == Draining {
      forall j | 0 <= j < |l.pcs|
        ensures m.pcs[i] == Writing ==> l.pcs[j] != Reading
      {
        if l.pcs[j] == Reading {
          ReaderCounts(l.pcs, j);
        }
      }
      assert IsWriter(m.pcs[i]);
    } else if m.pcs[i] == Draining {
      assert IsWriter(m.pcs[i]);
    } else {
      WriterKept(l, m, i);
    }
  }

  /** The writer stays unless it is the one that moves. */
  lemma WriterKept(l: Lock, m: Lock, i: nat)
    requires Inv(l) && i < |l.pcs| == |m.pcs| && m.pcs == l.pcs[i := m.pcs[i]] && !IsWriter(m.pcs[i])
    requires m.write == (l.write && !IsWriter(l.pcs[i]))
    ensures m.write <==> exists j :: 0 <= j < |m.pcs| && IsWriter(m.pcs[j])
  {
    if m.write {
      var j :| 0 <= j < |l.pcs| && IsWriter(l.pcs[j]);
      assert IsWriter(m.pcs[j]);
    }
    if j :| 0 <= j < |m.pcs| && IsWriter(m.pcs[j]) {
      assert IsWriter(l.pcs[j]);
    }
  }

  ghost predicate Start(l: Lock) {
    !l.write && l.read == 0 && forall i | 0 <= i < |l.pcs| :: l.pcs[i] == Out
  }

  ghost predicate Follows(l: Lock, m: Lock) {
    exists i: nat, wish :: i < |l.pcs| && m == Step(l, i, wish)
  }

  ghost predicate IsRun(run: seq<Lock>) {
    run != [] && Start(run[0]) && forall n | 0 <= n < |run| - 1 :: Follows(run[n], run[n + 1])
  }

  lemma {:induction false} NoReaders(pcs: seq<Pc>)
    requires forall i | 0 <= i < |pcs| :: pcs[i] == Out
    ensures Readers(pcs) == 0
  {
    if pcs != [] {
      NoReaders(pcs[..|pcs| - 1]);
    }
  }

  lemma {:induction false} RunKeeps(run: seq<Lock>, n: nat)
    requires IsRun(run) && n < |run|
    ensures Inv(run[n])
  {
    if n == 0 {
      NoReaders(run[0].pcs);
    } else {
      RunKeeps(run, n - 1);
      var l, m := run[n - 1], run[n];
      assert Follows(run[n - 1], run[(n - 1) + 1]);
      var i: nat, wish :| i < |l.pcs| && m == Step(l, i, wish);
      StepKeeps(l, i, wish);
    }
  }

  /** A writer is never inside together with a reader or another writer. */
  lemma Exclusion(run: seq<Lock>, n: nat, i: nat, j: nat)
    requires IsRun(run) && n < |run| && i < |run[n].pcs| && j < |run[n].pcs| && i != j
    requires run[n].pcs[i] == Writing
    ensures run[n].pcs[j] != Reading && run[n].pcs[j] != Writing
  {
    RunKeeps(run, n);
    assert IsWriter(run[n].pcs[i]);
  }

  /** When everyone is out, both fields are as they were at first. */
  lemma AllOut(run: seq<Lock>, n: nat)
    requires IsRun(run) && n < |run| && forall i | 0 <= i < |run[n].pcs| :: run[n].pcs[i] == Out
    ensures !run[n].write && run[n].read == 0
  {
    RunKeeps(run, n);
    NoReaders(run[n].pcs);
  }

  /** A reader that no writer disturbs gets in, and leaves the lock as it was. */
  lemma ReaderGetsIn(l: Lock, i: nat, w: Wish)
    requires i < |l.pcs| && l.pcs[i] == Out && !l.write
    ensures
      var inside := Step(Step(Step(l, i, ToRead), i, w), i, w);
      inside == Lock(false, l.read + 1, l.pcs[i := Reading]) && Step(inside, i, w) == l
  {
    var looked := Step(l, i, ToRead);
    var counted := Step(looked, i, w);
    var inside := Step(counted, i, w);
    assert inside.pcs == l.pcs[i := Reading];
    assert Step(inside, i, w).pcs == l.pcs;
  }

  /** A writer that nobody disturbs gets in, and leaves the lock as it was. */
  lemma WriterGetsIn(l: Lock, i: nat, w: Wish)
    requires i < |l.pcs| && l.pcs[i] == Out && !l.write && l.read == 0
    ensures
      var inside := Step(Step(l, i, ToWrite), i, w);
      inside == Lock(true, 0, l.pcs[i := Writing]) && Step(inside, i, w) == l
  {
    var draining := Step(l, i, ToWrite);
    var inside := Step(draining, i, w);
    assert inside.pcs == l.pcs[i := Writing];
    assert Step(inside, i, w).pcs == l.pcs;
  }
}
