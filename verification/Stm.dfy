/** The shared copies of lua-stm.c: one writer, any number of readers, every lock and counter operation a step.
    The lock lets readers in together, or the writer alone. */
module Stm {

  datatype Option = None | Some(copy: nat)

  /** `freed` counts how often the copy was freed. */
  datatype Copy = Copy(reference: int, freed: nat)

  /** lread: under the lock, the copy is looked up and counted; after it, one of two copies is given back. */
  datatype ReaderPc = Idle | Locked | Found(found: nat) | Counted(mine: Option) | Holding(got: Option) | Gone

  datatype Reader = Reader(pc: ReaderPc, last: Option)

  /** lupdate makes a copy, swaps it in under the lock, and gives the old one back after it; the release of the
      object gives the last copy back under the lock. */
  datatype WriterPc =
    | Ready | Made(made: nat) | InLock(ready: nat) | Swapped(was: Option) | Released(out: Option)
    | Closing | Cleared | Closed

  datatype State = State(copies: seq<Copy>, current: Option, writer: WriterPc, readers: seq<Reader>)

  predicate ReaderInside(pc: ReaderPc) {
    pc.Locked? || pc.Found? || pc.Counted?
  }

  predicate WriterInside(pc: WriterPc) {
    pc.InLock? || pc.Swapped? || pc.Closing? || pc.Cleared?
  }

  // ---- steps

  /** stm_releasecopy: the last one frees it. */
  function Release(copies: seq<Copy>, c: Option): (r: seq<Copy>)
    requires c.Some? ==> c.copy < |copies|
    ensures |r| == |copies|
  {
    if c.None? then copies
    else
      var x := copies[c.copy];
      copies[c.copy := Copy(x.reference - 1, if x.reference - 1 == 0 then x.freed + 1 else x.freed)]
  }

  function Count(copies: seq<Copy>, c: nat): (r: seq<Copy>)
    requires c < |copies|
    ensures |r| == |copies|
  {
    copies[c := copies[c].(reference := copies[c].reference + 1)]
  }

  predicate Known(s: State, c: Option) {
    c.Some? ==> c.copy < |s.copies|
  }

  predicate AnyReaderInside(readers: seq<Reader>) {
    exists i :: 0 <= i < |readers| && ReaderInside(readers[i].pc)
  }

  datatype Act = ReaderStep(i: nat, read: bool) | WriterStep(update: bool) | NewReader

  predicate Sane(s: State) {
    Known(s, s.current) &&
    (forall i | 0 <= i < |s.readers| ::
       Known(s, s.readers[i].last) &&
       match s.readers[i].pc
       case Found(c) => c < |s.copies|
       case Counted(c) => Known(s, c)
       case Holding(c) => Known(s, c)
       case _ => true) &&
    match s.writer
    case Made(c) => c < |s.copies|
    case InLock(c) => c < |s.copies|
    case Swapped(c) => Known(s, c)
    case Released(c) => Known(s, c)
    case _ => true
  }

  function ReaderMoves(s: State, i: nat, read: bool): State
    requires Sane(s) && i < |s.readers|
  {
    var r := s.readers[i];
    match r.pc
    case Idle =>
      if !read then s.(copies := Release(s.copies, r.last), readers := s.readers[i := Reader(Gone, None)])
      else if WriterInside(s.writer) then s
      else s.(readers := s.readers[i := r.(pc := Locked)])
    case Locked =>
      s.(readers := s.readers[i := r.(pc := if s.current.Some? then Found(s.current.copy) else Counted(None))])
    case Found(c) => s.(copies := Count(s.copies, c), readers := s.readers[i := r.(pc := Counted(Some(c)))])
    case Counted(c) => s.(readers := s.readers[i := r.(pc := Holding(c))])
    case Holding(c) =>
      if c == r.last then s.(copies := Release(s.copies, c), readers := s.readers[i := r.(pc := Idle)])
      else s.(copies := Release(s.copies, r.last), readers := s.readers[i := Reader(Idle, c)])
    case Gone => s
  }

  function WriterMoves(s: State, update: bool): State
    requires Sane(s)
  {
    match s.writer
    case Ready =>
      if update then s.(copies := s.copies + [Copy(1, 0)], writer := Made(|s.copies|))
      else if AnyReaderInside(s.readers) then s
      else s.(writer := Closing)
    case Made(c) => if AnyReaderInside(s.readers) then s else s.(writer := InLock(c))
    case InLock(c) => s.(current := Some(c), writer := Swapped(s.current))
    case Swapped(c) => s.(writer := Released(c))
    case Released(c) => s.(copies := Release(s.copies, c), writer := Ready)
    case Closing => s.(copies := Release(s.copies, s.current), current := None, writer := Cleared)
    case Cleared => s.(writer := Closed)
    case Closed => s
  }

  function Step(s: State, a: Act): State
    requires Sane(s)
  {
    match a
    case ReaderStep(i, read) => if i < |s.readers| then ReaderMoves(s, i, read) else s
    case WriterStep(update) => WriterMoves(s, update)
    case NewReader => s.(readers := s.readers + [Reader(Idle, None)])
  }

  // ---- who holds a copy

  function One(b: bool): nat {
    if b then 1 else 0
  }

  function HeldByReader(r: Reader, c: nat): nat {
    One(r.last == Some(c)) + One(r.pc == Counted(Some(c)) || r.pc == Holding(Some(c)))
  }

  function HeldByReaders(readers: seq<Reader>, c: nat): nat {
    if readers == [] then 0
    else HeldByReaders(readers[..|readers| - 1], c) + HeldByReader(readers[|readers| - 1], c)
  }

  function HeldByWriter(w: WriterPc, c: nat): nat {
    One(w == Made(c) || w == InLock(c) || w == Swapped(Some(c)) || w == Released(Some(c)))
  }

  function Holders(s: State, c: nat): nat {
    One(s.current == Some(c)) + HeldByWriter(s.writer, c) + HeldByReaders(s.readers, c)
  }

  /** A copy is counted by its holders, and freed, once, when there are none. */
  ghost predicate CopyOk(s: State, c: nat)
    requires c < |s.copies|
  {
    s.copies[c] == Copy(Holders(s, c), One(Holders(s, c) == 0))
  }

  ghost predicate Inv(s: State) {
    Sane(s) && LockOk(s) && forall c | 0 <= c < |s.copies| :: CopyOk(s, c)
  }

  /** The lock, and what a reader found under it. */
  ghost predicate LockOk(s: State) {
    (WriterInside(s.writer) ==> !AnyReaderInside(s.readers)) &&
    (forall i | 0 <= i < |s.readers| && s.readers[i].pc.Found? :: s.current == Some(s.readers[i].pc.found)) &&
    (s.current.None? <==> s.writer == Cleared || s.writer == Closed)
  }

  lemma {:induction false} HeldUpdated(readers: seq<Reader>, i: nat, r: Reader, c: nat)
    requires i < |readers|
    ensures HeldByReaders(readers[i := r], c) + HeldByReader(readers[i], c) == HeldByReaders(readers, c) + HeldByReader(r, c)
  {
    hide HeldByReader;
    var n := |readers| - 1;
    if i == n {
      assert readers[i := r][..n] == readers[..n];
    } else {
      assert readers[i := r][..n] == readers[..n][i := r];
      HeldUpdated(readers[..n], i, r, c);
    }
  }

  lemma {:induction false} HeldCounts(readers: seq<Reader>, i: nat, c: nat)
    requires i < |readers|
    ensures HeldByReaders(readers, c) >= HeldByReader(readers[i], c)
  {
    hide HeldByReader;
    if i < |readers| - 1 {
      HeldCounts(readers[..|readers| - 1], i, c);
    }
  }

  lemma ReaderKeeps(s: State, i: nat, read: bool)
    requires Inv(s) && i < |s.readers|
    ensures Inv(ReaderMoves(s, i, read))
  {
    var t := ReaderMoves(s, i, read);
    assert Sane(t);
    assert LockOk(t);
    forall c | 0 <= c < |t.copies|
      ensures CopyOk(t, c)
    {
      ReaderKeepsCopy(s, i, read, c);
    }
  }

  lemma ReaderKeepsCopy(s: State, i: nat, read: bool, c: nat)
    requires Inv(s) && i < |s.readers| && c < |s.copies|
    ensures CopyOk(ReaderMoves(s, i, read), c)
  {
    hide HeldByReaders, HeldByWriter, AnyReaderInside;
    var t := ReaderMoves(s, i, read);
    assert CopyOk(s, c);
    HeldUpdated(s.readers, i, t.readers[i], c);
    HeldCounts(s.readers, i, c);
  }

  lemma WriterKeeps(s: State, update: bool)
    requires Inv(s)
    ensures Inv(WriterMoves(s, update))
  {
    var t := WriterMoves(s, update);
    assert Sane(t);
    assert LockOk(t);
    forall c | 0 <= c < |t.copies|
      ensures CopyOk(t, c)
    {
      WriterKeepsCopy(s, update, c);
    }
  }

  lemma WriterKeepsCopy(s: State, update: bool, c: nat)
    requires Inv(s) && c < |WriterMoves(s, update).copies|
    ensures CopyOk(WriterMoves(s, update), c)
  {
    if c < |s.copies| {
      assert CopyOk(s, c);
    } else {
      NobodyHolds(s, s.readers, c);
    }
  }

  /** Nobody holds a copy that was not made yet. */
  lemma {:induction false} NobodyHolds(s: State, readers: seq<Reader>, c: nat)
    requires Sane(s) && c >= |s.copies| && readers <= s.readers
    ensures HeldByReaders(readers, c) == 0
  {
    if readers != [] {
      assert readers[|readers| - 1] == s.readers[|readers| - 1];
      NobodyHolds(s, readers[..|readers| - 1], c);
    }
  }

  lemma NewReaderKeeps(s: State)
    requires Inv(s)
    ensures Inv(Step(s, NewReader))
  {
    var t := Step(s, NewReader);
    assert Sane(t);
    assert LockOk(t);
    forall c | 0 <= c < |t.copies|
      ensures CopyOk(t, c)
    {
      assert CopyOk(s, c);
      assert t.readers[..|t.readers| - 1] == s.readers;
    }
  }

  lemma StepKeeps(s: State, a: Act)
    requires Inv(s)
    ensures Inv(Step(s, a))
  {
    hide Inv;
    match a
    case ReaderStep(i, read) =>
      if i < |s.readers| {
        ReaderKeeps(s, i, read);
      }
    case WriterStep(update) => WriterKeeps(s, update);
    case NewReader => NewReaderKeeps(s);
  }

  // ---- runs

  /** An object is made with its first copy. */
  const START := State([Copy(1, 0)], Some(0), Ready, [])

  /** The states that a list of steps goes through. */
  function Run(acts: seq<Act>): (s: State)
    ensures Inv(s)
  {
    if acts == [] then
      StartOk();
      START
    else
      StepKeeps(Run(acts[..|acts| - 1]), acts[|acts| - 1]);
      Step(Run(acts[..|acts| - 1]), acts[|acts| - 1])
  }

  lemma StartOk()
    ensures Inv(START)
  {
    assert CopyOk(START, 0);
  }

  /** In every run a copy is freed at most once, and exactly when nobody holds it any more: not the object, not the
      writer that is about to give it back, and no reader. */
  lemma FreedWhenReleased(acts: seq<Act>, c: nat)
    requires c < |Run(acts).copies|
    ensures
      var s := Run(acts);
      s.copies[c].freed <= 1 && (s.copies[c].freed == 1 <==> Holders(s, c) == 0)
  {
    assert CopyOk(Run(acts), c);
  }

  /** What a reader looks at was not freed, from the moment it finds it to the moment it gives it back. */
  lemma ReadersAreSafe(acts: seq<Act>, i: nat)
    requires i < |Run(acts).readers|
    ensures
      var s := Run(acts);
      var r := s.readers[i];
      (r.last.Some? ==> s.copies[r.last.copy].freed == 0) &&
      (r.pc.Found? ==> s.copies[r.pc.found].freed == 0) &&
      (r.pc.Holding? && r.pc.got.Some? ==> s.copies[r.pc.got.copy].freed == 0)
  {
    var s := Run(acts);
    var r := s.readers[i];
    forall c: nat | c < |s.copies|
      ensures HeldByReader(r, c) > 0 || (r.pc.Found? && r.pc.found == c) ==> s.copies[c].freed == 0
    {
      assert CopyOk(s, c);
      HeldCounts(s.readers, i, c);
    }
  }

  /** A copy that nobody holds is not taken up again. */
  lemma NotRegained(s: State, a: Act, c: nat)
    requires Inv(s) && c < |s.copies| && Holders(s, c) == 0
    ensures Holders(Step(s, a), c) == 0
  {
    match a
    case ReaderStep(i, read) =>
      if i < |s.readers| {
        ReaderNotRegained(s, i, read, c);
      }
    case WriterStep(update) => WriterNotRegained(s, update, c);
    case NewReader => assert Step(s, a).readers[..|s.readers|] == s.readers;
  }

  lemma ReaderNotRegained(s: State, i: nat, read: bool, c: nat)
    requires Inv(s) && c < |s.copies| && Holders(s, c) == 0 && i < |s.readers|
    ensures Holders(ReaderMoves(s, i, read), c) == 0
  {
    hide HeldByReaders, HeldByWriter, AnyReaderInside, CopyOk;
    var t := ReaderMoves(s, i, read);
    HeldUpdated(s.readers, i, t.readers[i], c);
    HeldCounts(s.readers, i, c);
  }

  lemma WriterNotRegained(s: State, update: bool, c: nat)
    requires Inv(s) && c < |s.copies| && Holders(s, c) == 0
    ensures Holders(WriterMoves(s, update), c) == 0
  {
    hide HeldByReaders, AnyReaderInside, CopyOk;
  }

  /** A copy that was freed is never the current one again, nor freed again. */
  lemma FreedStays(acts: seq<Act>, a: Act, c: nat)
    requires c < |Run(acts).copies| && Run(acts).copies[c].freed == 1
    ensures
      var t := Run(acts + [a]);
      c < |t.copies| && t.copies[c] == Run(acts).copies[c] && t.current != Some(c)
  {
    hide Step, Sane, LockOk, HeldByReaders, HeldByWriter;
    var s := Run(acts);
    assert (acts + [a])[..|acts + [a]| - 1] == acts;
    var t := Step(s, a);
    assert CopyOk(s, c);
    NotRegained(s, a, c);
    StepKeeps(s, a);
    CopiesStay(s, a);
    assert CopyOk(t, c);
  }

  lemma CopiesStay(s: State, a: Act)
    requires Sane(s)
    ensures |Step(s, a).copies| >= |s.copies|
  {
  }

  // ---- what a read gives

  /** The state after the first n steps. */
  function After(acts: seq<Act>, n: nat): State
    requires n <= |acts|
  {
    Run(acts[..n])
  }

  /** After n steps the reader is in the middle of a read. */
  predicate InRead(acts: seq<Act>, i: nat, n: nat)
    requires n <= |acts|
  {
    i < |After(acts, n).readers| && !After(acts, n).readers[i].pc.Idle? && !After(acts, n).readers[i].pc.Gone?
  }

  /** At moment k of its read that is still going on after n steps, the reader was inside the lock and the current copy
      was c. */
  ghost predicate SeenAt(acts: seq<Act>, i: nat, n: nat, c: Option, k: nat)
    requires n <= |acts|
  {
    k <= n && InRead(acts, i, k) && (forall j | k <= j <= n :: InRead(acts, i, j)) &&
    ReaderInside(After(acts, k).readers[i].pc) && After(acts, k).current == c
  }

  ghost predicate Seen(acts: seq<Act>, i: nat, n: nat, c: Option)
    requires n <= |acts|
  {
    exists k :: SeenAt(acts, i, n, c, k)
  }

  lemma AfterNext(acts: seq<Act>, n: nat)
    requires n < |acts|
    ensures After(acts, n + 1) == Step(After(acts, n), acts[n]) && Inv(After(acts, n))
  {
    assert acts[..n + 1][..n] == acts[..n];
  }

  lemma SeenOn(acts: seq<Act>, i: nat, n: nat, c: Option)
    requires n < |acts| && Seen(acts, i, n, c) && InRead(acts, i, n + 1)
    ensures Seen(acts, i, n + 1, c)
  {
    hide InRead, ReaderInside, Run;
    var k :| SeenAt(acts, i, n, c, k);
    assert SeenAt(acts, i, n + 1, c, k);
  }

  /** What a reader has taken was the current copy while it was inside the lock. */
  lemma {:induction false} TakenWasCurrent(acts: seq<Act>, i: nat, n: nat)
    requires n <= |acts| && i < |After(acts, n).readers|
    ensures
      var pc := After(acts, n).readers[i].pc;
      (pc.Counted? ==> Seen(acts, i, n, pc.mine)) && (pc.Holding? ==> Seen(acts, i, n, pc.got))
  {
    hide Run, Inv, Seen;
    if n > 0 {
      AfterNext(acts, n - 1);
      var s, a := After(acts, n - 1), acts[n - 1];
      if i < |s.readers| {
        TakenWasCurrent(acts, i, n - 1);
        TakenNext(acts, i, n - 1);
      }
    } else {
      StartHasNoReaders(acts);
    }
  }

  lemma StartHasNoReaders(acts: seq<Act>)
    ensures After(acts, 0) == START
  {
  }

  lemma TakenNext(acts: seq<Act>, i: nat, n: nat)
    requires n < |acts| && Sane(After(acts, n)) && After(acts, n + 1) == Step(After(acts, n), acts[n]) && Inv(After(acts, n))
    requires i < |After(acts, n).readers|
    requires
      var pc := After(acts, n).readers[i].pc;
      (pc.Counted? ==> Seen(acts, i, n, pc.mine)) && (pc.Holding? ==> Seen(acts, i, n, pc.got))
    ensures i < |After(acts, n + 1).readers|
    ensures
      var pc := After(acts, n + 1).readers[i].pc;
      (pc.Counted? ==> Seen(acts, i, n + 1, pc.mine)) && (pc.Holding? ==> Seen(acts, i, n + 1, pc.got))
  {
    hide Run, HeldByReaders, HeldByWriter, CopyOk;
    var s, t := After(acts, n), After(acts, n + 1);
    var pc, pc' := s.readers[i].pc, t.readers[i].pc;
    if pc'.Counted? || pc'.Holding? {
      var c := if pc'.Counted? then pc'.mine else pc'.got;
      assert InRead(acts, i, n) && InRead(acts, i, n + 1);
      if pc.Locked? || pc.Found? {
        assert SeenAt(acts, i, n, c, n);
      }
      SeenOn(acts, i, n, c);
    }
  }

  /** When a reader comes back from a read, it has what was the current copy at some moment while it was inside the
      lock. */
  lemma ReadsWereCurrent(acts: seq<Act>, i: nat, n: nat)
    requires n < |acts| && InRead(acts, i, n) && !InRead(acts, i, n + 1)
    ensures i < |After(acts, n + 1).readers| && After(acts, n + 1).readers[i].pc.Idle?
    ensures Seen(acts, i, n, After(acts, n + 1).readers[i].last)
  {
    hide Seen, Run, Inv;
    AfterNext(acts, n);
    TakenWasCurrent(acts, i, n);
    assert Sane(After(acts, n)) by { SaneIfInv(After(acts, n)); }
  }

  lemma SaneIfInv(s: State)
    requires Inv(s)
    ensures Sane(s)
  {
  }

  /** A run that goes on with the same step, n times. */
  function Again(acts: seq<Act>, a: Act, n: nat): seq<Act> {
    if n == 0 then acts else Again(acts, a, n - 1) + [a]
  }

  lemma AgainStep(acts: seq<Act>, a: Act, n: nat)
    ensures Run(Again(acts, a, n + 1)) == Step(Run(Again(acts, a, n)), a)
  {
    hide Inv, Step;
    var all := Again(acts, a, n + 1);
    assert all[..|all| - 1] == Again(acts, a, n);
  }

  /** A read that nobody disturbs gives the current copy, and is over after four steps, or five if there is a copy. */
  lemma UndisturbedRead(acts: seq<Act>, i: nat)
    requires i < |Run(acts).readers| && Run(acts).readers[i].pc.Idle? && !WriterInside(Run(acts).writer)
    ensures
      var s := Run(acts);
      var t := Run(Again(acts, ReaderStep(i, true), if s.current.Some? then 5 else 4));
      t.current == s.current && t.readers == s.readers[i := Reader(Idle, s.current)]
  {
    hide Run, Step, Inv, Again, WriterInside;
    AgainNothing(acts, ReaderStep(i, true));
    AloneStep(acts, i, 0);
    AloneStep(acts, i, 1);
    AloneStep(acts, i, 2);
    AloneStep(acts, i, 3);
    AloneStep(acts, i, 4);
  }

  /** One step of a reader that is alone. */
  lemma AloneStep(acts: seq<Act>, i: nat, n: nat)
    requires i < |Run(Again(acts, ReaderStep(i, true), n)).readers|
    requires !WriterInside(Run(Again(acts, ReaderStep(i, true), n)).writer)
    ensures
      var s, t := Run(Again(acts, ReaderStep(i, true), n)), Run(Again(acts, ReaderStep(i, true), n + 1));
      var r := s.readers[i];
      t.current == s.current && t.writer == s.writer &&
      t.readers == s.readers[i := match r.pc
                                  case Idle => r.(pc := Locked)
                                  case Locked => r.(pc := if s.current.Some? then Found(s.current.copy) else Counted(None))
                                  case Found(c) => r.(pc := Counted(Some(c)))
                                  case Counted(c) => r.(pc := Holding(c))
                                  case Holding(c) => Reader(Idle, c)
                                  case Gone => r]
  {
    hide Run, LockOk, CopyOk, Again;
    AgainStep(acts, ReaderStep(i, true), n);
  }

  /** An update that nobody disturbs makes a new copy the current one. */
  lemma UndisturbedUpdate(acts: seq<Act>)
    requires Run(acts).writer == Ready && !AnyReaderInside(Run(acts).readers)
    ensures
      var s := Run(acts);
      var t := Run(Again(acts, WriterStep(true), 5));
      t.current == Some(|s.copies|) && |t.copies| == |s.copies| + 1 && t.writer == Ready && t.readers == s.readers
  {
    hide Run, Step, Inv, Again, AnyReaderInside;
    AgainNothing(acts, WriterStep(true));
    AloneWrites(acts, 0);
    AloneWrites(acts, 1);
    AloneWrites(acts, 2);
    AloneWrites(acts, 3);
    AloneWrites(acts, 4);
  }

  /** One step of an update that nobody disturbs. */
  lemma AloneWrites(acts: seq<Act>, n: nat)
    requires !AnyReaderInside(Run(Again(acts, WriterStep(true), n)).readers)
    ensures
      var s, t := Run(Again(acts, WriterStep(true), n)), Run(Again(acts, WriterStep(true), n + 1));
      var w := s.writer;
      t.readers == s.readers && |t.copies| == |s.copies| + (if w == Ready then 1 else 0) &&
      (w == Ready ==> t.writer == Made(|s.copies|)) && (w.Made? ==> t.writer == InLock(w.made)) &&
      (w.InLock? ==> t.writer == Swapped(s.current)) && (w.Swapped? ==> t.writer == Released(w.was)) &&
      (w.Released? ==> t.writer == Ready) &&
      (if w.InLock? then t.current == Some(w.ready) else w == Closing || t.current == s.current)
  {
    hide Run, LockOk, CopyOk, ReaderMoves, Again, AnyReaderInside;
    AgainStep(acts, WriterStep(true), n);
  }

  lemma AgainNothing(acts: seq<Act>, a: Act)
    ensures Again(acts, a, 0) == acts
  {
  }
}
