/** The packet reader of lua-netpack.c: a ring of complete packets, and hash chains of the packets that
    connections have begun. */
module Netpack {

  import opened Bytes
  import opened Framing

  const QUEUESIZE := 1024
  const HASHSIZE := 4096

  datatype Pack = Pack(fd: nat, data: seq<Byte>)
  datatype Uncomplete = Uncomplete(fd: nat, partial: Partial)
  datatype Found = Nothing | OnePacket(data: seq<Byte>) | More
  datatype Popped = NoPack | SomePack(pack: Pack)

  /** hash_fd */
  function HashFd(fd: nat): (h: nat)
    ensures h < HASHSIZE
  {
    (fd / 0x100_0000 + fd / 0x1000 + fd) % HASHSIZE
  }

  function Tagged(fd: nat, packets: seq<seq<Byte>>): (packs: seq<Pack>)
    ensures |packs| == |packets|
    ensures forall i | 0 <= i < |packets| :: packs[i] == Pack(fd, packets[i])
  {
    seq(|packets|, i requires 0 <= i < |packets| => Pack(fd, packets[i]))
  }

  // ---- a chain

  function Lookup(chain: seq<Uncomplete>, fd: nat): Partial {
    if chain == [] then Idle
    else if chain[0].fd == fd then chain[0].partial
    else Lookup(chain[1..], fd)
  }

  /** Every connection is on its chain, once, with a packet that it has begun. */
  ghost predicate ChainOk(chain: seq<Uncomplete>, h: nat) {
    (forall i | 0 <= i < |chain| :: HashFd(chain[i].fd) == h && chain[i].partial != Idle && Sound(chain[i].partial)) &&
    (forall i, j | 0 <= i < j < |chain| :: chain[i].fd != chain[j].fd)
  }

  lemma {:induction false} LookupAt(chain: seq<Uncomplete>, i: nat, h: nat)
    requires i < |chain| && ChainOk(chain, h)
    ensures Lookup(chain, chain[i].fd) == chain[i].partial
  {
    if i > 0 {
      assert chain[i] == chain[1..][i - 1];
      LookupAt(chain[1..], i - 1, h);
    }
  }

  lemma {:induction false} LookupNone(chain: seq<Uncomplete>, fd: nat)
    requires forall i | 0 <= i < |chain| :: chain[i].fd != fd
    ensures Lookup(chain, fd) == Idle
  {
    if chain != [] {
      LookupNone(chain[1..], fd);
    }
  }

  lemma {:induction false} LookupSplit(a: seq<Uncomplete>, b: seq<Uncomplete>, fd: nat)
    ensures Lookup(a + b, fd) == if Lookup(a, fd) != Idle || (exists x :: x in a && x.fd == fd) then Lookup(a, fd) else Lookup(b, fd)
  {
    if a == [] {
      assert a + b == b;
    } else {
      assert (a + b)[1..] == a[1..] + b;
      assert a[0] in a;
      LookupSplit(a[1..], b, fd);
    }
  }

  /** Without one connection, the others are found as before. */
  lemma Unlinked(chain: seq<Uncomplete>, i: nat, h: nat)
    requires i < |chain| && ChainOk(chain, h)
    ensures
      var less := chain[..i] + chain[i + 1..];
      ChainOk(less, h) && Lookup(less, chain[i].fd) == Idle &&
      forall fd: nat | fd != chain[i].fd :: Lookup(less, fd) == Lookup(chain, fd)
  {
    var a, x, b := chain[..i], chain[i], chain[i + 1..];
    var less := a + b;
    assert chain == a + ([x] + b);
    assert forall k | 0 <= k < |less| :: less[k] == chain[if k < i then k else k + 1];
    LookupNone(less, x.fd);
    forall fd: nat | fd != x.fd
      ensures Lookup(less, fd) == Lookup(chain, fd)
    {
      LookupSplit(a, b, fd);
      LookupSplit(a, [x] + b, fd);
      assert ([x] + b)[1..] == b;
    }
  }

  lemma Linked(chain: seq<Uncomplete>, u: Uncomplete, h: nat)
    requires ChainOk(chain, h) && HashFd(u.fd) == h && Sound(u.partial) && u.partial != Idle && Lookup(chain, u.fd) == Idle
    ensures ChainOk([u] + chain, h) && Lookup([u] + chain, u.fd) == u.partial
    ensures forall fd: nat | fd != u.fd :: Lookup([u] + chain, fd) == Lookup(chain, fd)
  {
    assert ([u] + chain)[1..] == chain;
    forall i | 0 <= i < |chain|
      ensures chain[i].fd != u.fd
    {
      LookupAt(chain, i, h);
    }
  }

  // ---- the reader

  class Reader {
    var queue: array<Pack>
    var head: nat
    var tail: nat
    const hash: array<seq<Uncomplete>>

    ghost predicate Valid()
      reads this, queue, hash
    {
      RingOk() && queue as object != hash && hash.Length == HASHSIZE && forall h | 0 <= h < HASHSIZE :: ChainOk(hash[h], h)
    }

    ghost predicate RingOk()
      reads this
    {
      head < queue.Length && tail < queue.Length
    }

    ghost function Waiting(): seq<Pack>
      requires RingOk()
      reads this, queue
    {
      if head <= tail then queue[head..tail] else queue[head..] + queue[..tail]
    }

    function PartialOf(fd: nat): Partial
      requires hash.Length == HASHSIZE
      reads hash
    {
      Lookup(hash[HashFd(fd)], fd)
    }

    constructor ()
      ensures Valid() && Waiting() == [] && fresh(queue) && fresh(hash)
      ensures forall fd: nat :: PartialOf(fd) == Idle
    {
      queue := new Pack[QUEUESIZE](_ => Pack(0, []));
      head, tail := 0, 0;
      hash := new seq<Uncomplete>[HASHSIZE](_ => []);
    }

    /** find_uncomplete, which takes what it finds off the chain */
    method FindUncomplete(fd: nat) returns (p: Partial)
      requires Valid()
      modifies hash
      ensures Valid() && p == old(PartialOf(fd)) && PartialOf(fd) == Idle
      ensures forall other: nat | other != fd :: PartialOf(other) == old(PartialOf(other))
    {
      hide ChainOk, HashFd;
      var h := HashFd(fd);
      var chain := hash[h];
      for i := 0 to |chain|
        invariant forall k | 0 <= k < i :: chain[k].fd != fd
        invariant Valid() && hash[h] == chain && forall other: nat :: PartialOf(other) == old(PartialOf(other))
      {
        if chain[i].fd == fd {
          LookupAt(chain, i, h);
          Unlinked(chain, i, h);
          p := chain[i].partial;
          hash[h] := chain[..i] + chain[i + 1..];
          return;
        }
      }
      LookupNone(chain, fd);
      p := Idle;
    }

    /** save_uncomplete */
    method SaveUncomplete(fd: nat, p: Partial)
      requires Valid() && PartialOf(fd) == Idle && p != Idle && Sound(p)
      modifies hash
      ensures Valid() && PartialOf(fd) == p
      ensures forall other: nat | other != fd :: PartialOf(other) == old(PartialOf(other))
    {
      hide ChainOk, HashFd;
      var h := HashFd(fd);
      Linked(hash[h], Uncomplete(fd, p), h);
      hash[h] := [Uncomplete(fd, p)] + hash[h];
    }

    /** expand_queue, when the ring has become full */
    method ExpandQueue()
      requires RingOk() && head == tail
      modifies this`queue, this`head, this`tail
      ensures RingOk() && Waiting() == old(queue[head..] + queue[..tail]) && fresh(queue)
    {
      var cap := queue.Length;
      var more := new Pack[cap + QUEUESIZE](_ => Pack(0, []));
      ghost var was := queue[head..] + queue[..tail];
      for i := 0 to cap
        invariant more[..i] == was[..i]
        modifies more
      {
        var at := if head + i < cap then head + i else head + i - cap;
        more[i] := queue[at];
        assert was[i] == queue[at];
        assert more[..i + 1] == more[..i] + [was[i]] && was[..i + 1] == was[..i] + [was[i]];
      }
      queue, head, tail := more, 0, cap;
    }

    /** push_data */
    method PushData(fd: nat, data: seq<Byte>)
      requires Valid()
      modifies this`queue, this`head, this`tail, queue
      ensures Valid() && Waiting() == old(Waiting()) + [Pack(fd, data)]
      ensures queue == old(queue) || fresh(queue)
    {
      ghost var was := Waiting();
      var at := tail;
      queue[at] := Pack(fd, data);
      tail := if at + 1 >= queue.Length then 0 else at + 1;
      if head == tail {
        assert queue[head..] + queue[..tail] == was + [Pack(fd, data)];
        ExpandQueue();
      } else {
        assert Waiting() == was + [Pack(fd, data)];
      }
    }

    /** lpop */
    method Pop() returns (p: Popped)
      requires Valid()
      modifies this`head
      ensures Valid()
      ensures if old(Waiting()) == [] then p == NoPack && Waiting() == []
              else p == SomePack(old(Waiting())[0]) && Waiting() == old(Waiting())[1..]
    {
      if head == tail {
        return NoPack;
      }
      p := SomePack(queue[head]);
      head := if head + 1 >= queue.Length then 0 else head + 1;
    }

    /** push_more: what a chunk holds after its first packet */
    method PushMore(fd: nat, buffer: seq<Byte>)
      requires Valid() && buffer != [] && PartialOf(fd) == Idle
      modifies this`queue, this`head, this`tail, queue, hash
      ensures Valid() && (queue == old(queue) || fresh(queue))
      ensures
        var f := Feed(Idle, buffer);
        Waiting() == old(Waiting()) + Tagged(fd, f.packets) && PartialOf(fd) == f.partial
      ensures forall other: nat | other != fd :: PartialOf(other) == old(PartialOf(other))
      decreases |buffer|
    {
      hide ChainOk, HashFd, Feed, Lookup;
      Announced(buffer);
      if |buffer| == 1 {
        SaveUncomplete(fd, HalfHeader(buffer[0]));
        return;
      }
      var size := buffer[0] as nat * 256 + buffer[1] as nat;
      var rest := buffer[2..];
      if |rest| < size {
        SaveUncomplete(fd, Body(size, rest));
        return;
      }
      FeedNothing(Idle);
      assert |rest| == size ==> rest[size..] == [];
      ghost var before, more := Waiting(), Feed(Idle, rest[size..]).packets;
      QueuedFirst(fd, rest[..size], more);
      hide Waiting, Tagged, RingOk;
      PushData(fd, rest[..size]);
      ghost var first := [Pack(fd, rest[..size])];
      assert (before + first) + Tagged(fd, more) == before + (first + Tagged(fd, more));
      if |rest| > size {
        PushMore(fd, rest[size..]);
      } else {
        NothingTagged(fd, before + first);
      }
    }

    /** filter_data: the only packet that a chunk completes is returned; more of them are queued. */
    method Filter(fd: nat, chunk: seq<Byte>) returns (found: Found)
      requires Valid() && chunk != []
      modifies this`queue, this`head, this`tail, queue, hash
      ensures Valid() && (queue == old(queue) || fresh(queue))
      ensures
        var f := Feed(old(PartialOf(fd)), chunk);
        PartialOf(fd) == f.partial && Agrees(found, fd, f.packets, old(Waiting()))
      ensures forall other: nat | other != fd :: PartialOf(other) == old(PartialOf(other))
    {
      hide ChainOk, HashFd, Feed, Lookup, Agrees;
      LookupSound(hash[HashFd(fd)], fd, HashFd(fd));
      var p := FindUncomplete(fd);
      match p
      case Idle =>
        Announced(chunk);
        if |chunk| == 1 {
          SaveUncomplete(fd, HalfHeader(chunk[0]));
          found := Nothing;
          NothingAgrees(fd);
        } else {
          NothingBefore(chunk[2..], chunk[0] as nat * 256 + chunk[1] as nat);
          found := Fill(fd, chunk[0] as nat * 256 + chunk[1] as nat, [], chunk[2..]);
        }
      case HalfHeader(high) =>
        Sized(high, chunk);
        NothingBefore(chunk[1..], high as nat * 256 + chunk[0] as nat);
        found := Fill(fd, high as nat * 256 + chunk[0] as nat, [], chunk[1..]);
      case Body(size, got) =>
        Filled(size, got, chunk);
        found := Fill(fd, size, got, chunk);
    }

    /** The packet of the given size is completed if the chunk reaches that far. */
    method Fill(fd: nat, size: nat, got: seq<Byte>, buffer: seq<Byte>) returns (found: Found)
      requires Valid() && PartialOf(fd) == Idle
      requires |got| <= size < 0x1_0000
      modifies this`queue, this`head, this`tail, queue, hash
      ensures Valid() && (queue == old(queue) || fresh(queue))
      ensures
        var need := size - |got|;
        if |buffer| < need then PartialOf(fd) == Body(size, got + buffer) && Agrees(found, fd, [], old(Waiting()))
        else
          var h := Feed(Idle, buffer[need..]);
          PartialOf(fd) == h.partial && Agrees(found, fd, [got + buffer[..need]] + h.packets, old(Waiting()))
      ensures forall other: nat | other != fd :: PartialOf(other) == old(PartialOf(other))
    {
      hide ChainOk, HashFd, Feed, Lookup;
      var need := size - |got|;
      if |buffer| < need {
        SaveUncomplete(fd, Body(size, got + buffer));
        return Nothing;
      }
      var data, rest := got + buffer[..need], buffer[need..];
      ghost var before := Waiting();
      if rest == [] {
        FeedNothing(Idle);
        return OnePacket(data);
      }
      hide Waiting, Tagged, Agrees, RingOk;
      PushData(fd, data);
      PushMore(fd, rest);
      MoreAgrees(fd, data, Feed(Idle, rest).packets, before);
      return More;
    }

    lemma MoreAgrees(fd: nat, data: seq<Byte>, packets: seq<seq<Byte>>, before: seq<Pack>)
      requires RingOk() && Waiting() == (before + [Pack(fd, data)]) + Tagged(fd, packets)
      ensures Agrees(More, fd, [data] + packets, before)
    {
      hide Tagged;
      QueuedFirst(fd, data, packets);
    }

    /** What was found is the packets, given directly or through the queue. */
    ghost predicate Agrees(found: Found, fd: nat, packets: seq<seq<Byte>>, before: seq<Pack>)
      requires RingOk()
      reads this, queue
    {
      match found
      case Nothing => packets == [] && Waiting() == before
      case OnePacket(data) => packets == [data] && Waiting() == before
      case More => Waiting() == before + Tagged(fd, packets)
    }

    lemma NothingAgrees(fd: nat)
      requires RingOk()
      ensures Agrees(Nothing, fd, [], Waiting())
    {
    }

    /** close_uncomplete */
    method CloseUncomplete(fd: nat)
      requires Valid()
      modifies hash
      ensures Valid() && PartialOf(fd) == Idle
      ensures forall other: nat | other != fd :: PartialOf(other) == old(PartialOf(other))
    {
      var p := FindUncomplete(fd);
    }

    /** One event; after a "more", the queue is popped until it is empty. */
    method Handle(e: Event) returns (log: seq<Pack>)
      requires Valid() && Waiting() == [] && (e.Data? ==> e.chunk != [])
      modifies this`queue, this`head, this`tail, queue, hash
      ensures Valid() && Waiting() == [] && (queue == old(queue) || fresh(queue))
      ensures
        var f := if e.Data? then Feed(old(PartialOf(e.fd)), e.chunk) else Fed(Idle, []);
        PartialOf(e.fd) == f.partial && log == Tagged(e.fd, f.packets)
      ensures forall other: nat | other != e.fd :: PartialOf(other) == old(PartialOf(other))
    {
      hide ChainOk, HashFd, Feed, Lookup;
      log := [];
      match e
      case Close(fd) => CloseUncomplete(fd);
      case Data(fd, chunk) =>
        ghost var packets := Feed(PartialOf(fd), chunk).packets;
        var found := Filter(fd, chunk);
        if found.OnePacket? {
          log := [Pack(fd, found.data)];
        } else if found.More? {
          log := Drain();
        }
    }

    method Drain() returns (log: seq<Pack>)
      requires Valid()
      modifies this`head
      ensures Valid() && Waiting() == [] && log == old(Waiting())
    {
      hide ChainOk, Waiting;
      log := [];
      ghost var left := Waiting();
      while true
        invariant Valid() && left == Waiting() && log + left == old(Waiting())
        decreases |left|
      {
        var p := Pop();
        if p == NoPack {
          return;
        }
        left := left[1..];
        log := log + [p.pack];
      }
    }
  }

  /** What a chunk amounts to when a packet starts with it. */
  lemma Announced(s: seq<Byte>)
    requires s != []
    ensures |s| == 1 ==> Feed(Idle, s) == Fed(HalfHeader(s[0]), [])
    ensures |s| > 1 ==>
              var size, rest := s[0] as nat * 256 + s[1] as nat, s[2..];
              size < 0x1_0000 &&
              Feed(Idle, s) ==
              if |rest| < size then Fed(Body(size, rest), [])
              else
                var h := Feed(Idle, rest[size..]);
                Fed(h.partial, [rest[..size]] + h.packets)
  {
    hide Feed;
    FeedFirst(Idle, s);
    if |s| == 1 {
      FeedNothing(HalfHeader(s[0]));
      assert s[1..] == [];
    } else {
      Sized(s[0], s[1..]);
    }
  }

  lemma Sized(high: Byte, s: seq<Byte>)
    requires s != []
    ensures
      var size, rest := high as nat * 256 + s[0] as nat, s[1..];
      Feed(HalfHeader(high), s) ==
      if |rest| < size then Fed(Body(size, rest), [])
      else
        var h := Feed(Idle, rest[size..]);
        Fed(h.partial, [rest[..size]] + h.packets)
  {
    hide Feed;
    var size, rest := high as nat * 256 + s[0] as nat, s[1..];
    FeedFirst(HalfHeader(high), s);
    if |rest| < size {
      FeedShort(size, [], rest);
      assert [] + rest == rest;
    } else {
      FeedEnough(size, [], rest);
      assert [] + rest[..size] == rest[..size];
    }
  }

  lemma Filled(size: nat, got: seq<Byte>, s: seq<Byte>)
    requires |got| < size
    ensures
      Feed(Body(size, got), s) ==
      if |got| + |s| < size then Fed(Body(size, got + s), [])
      else
        var h := Feed(Idle, s[size - |got|..]);
        Fed(h.partial, [got + s[..size - |got|]] + h.packets)
  {
    hide Feed;
    if |got| + |s| < size {
      FeedShort(size, got, s);
    } else {
      FeedEnough(size, got, s);
    }
  }

  lemma NothingBefore(s: seq<Byte>, n: nat)
    ensures [] + s == s && (n <= |s| ==> [] + s[..n] == s[..n])
  {
  }

  lemma NothingTagged(fd: nat, before: seq<Pack>)
    ensures before + Tagged(fd, []) == before
  {
  }

  lemma QueuedFirst(fd: nat, data: seq<Byte>, packets: seq<seq<Byte>>)
    ensures Tagged(fd, [data] + packets) == [Pack(fd, data)] + Tagged(fd, packets)
  {
  }

  lemma {:induction false} LookupSound(chain: seq<Uncomplete>, fd: nat, h: nat)
    requires ChainOk(chain, h)
    ensures Sound(Lookup(chain, fd))
  {
    if chain != [] {
      assert forall i | 1 <= i < |chain| :: chain[1..][i - 1] == chain[i];
      LookupSound(chain[1..], fd, h);
    }
  }

  // ---- whole runs

  function PacketsOf(log: seq<Pack>, fd: nat): seq<seq<Byte>> {
    if log == [] then []
    else if log[|log| - 1].fd == fd then PacketsOf(log[..|log| - 1], fd) + [log[|log| - 1].data]
    else PacketsOf(log[..|log| - 1], fd)
  }

  lemma {:induction false} PacketsTagged(log: seq<Pack>, from: nat, packets: seq<seq<Byte>>, fd: nat)
    ensures PacketsOf(log + Tagged(from, packets), fd) == PacketsOf(log, fd) + (if from == fd then packets else [])
  {
    if packets == [] {
      NothingTagged(from, log);
    } else {
      hide PacketsOf, Tagged;
      var most, last := packets[..|packets| - 1], packets[|packets| - 1];
      PacketsTagged(log, from, most, fd);
      TaggedSnoc(log, from, packets);
      PacketsSnoc(log + Tagged(from, most), Pack(from, last), fd);
      LastOf(PacketsOf(log, fd), packets);
    }
  }

  lemma LastOf(before: seq<seq<Byte>>, packets: seq<seq<Byte>>)
    requires packets != []
    ensures (before + packets[..|packets| - 1]) + [packets[|packets| - 1]] == before + packets
  {
  }

  lemma TaggedSnoc(log: seq<Pack>, fd: nat, packets: seq<seq<Byte>>)
    requires packets != []
    ensures
      var most, last := packets[..|packets| - 1], packets[|packets| - 1];
      log + Tagged(fd, packets) == (log + Tagged(fd, most)) + [Pack(fd, last)]
  {
  }

  lemma PacketsSnoc(log: seq<Pack>, p: Pack, fd: nat)
    ensures PacketsOf(log + [p], fd) == if p.fd == fd then PacketsOf(log, fd) + [p.data] else PacketsOf(log, fd)
  {
    assert (log + [p])[..|log|] == log;
  }

  /** A reader hands out, for every connection, the packets that its bytes are. */
  method Run(events: seq<Event>) returns (log: seq<Pack>)
    requires forall i | 0 <= i < |events| :: events[i].Data? ==> events[i].chunk != []
    ensures forall fd: nat :: PacketsOf(log, fd) == Heard(events, fd).packets
  {
    hide Feed, PacketsOf, Lookup, HashFd, ChainOk;
    var r := new Reader();
    log := [];
    assert events[..0] == [] && forall fd: nat :: PacketsOf([], fd) == [] by { NothingYet(); }
    for n := 0 to |events|
      invariant r.Valid() && r.Waiting() == [] && fresh(r) && fresh(r.queue) && fresh(r.hash)
      invariant forall fd: nat :: r.PartialOf(fd) == Heard(events[..n], fd).partial
      invariant forall fd: nat :: PacketsOf(log, fd) == Heard(events[..n], fd).packets
    {
      var e := events[n];
      var more := r.Handle(e);
      ghost var before := log;
      log := log + more;
      ghost var f := if e.Data? then Feed(Heard(events[..n], e.fd).partial, e.chunk) else Fed(Idle, []);
      assert events[..n + 1][..n] == events[..n];
      forall fd: nat
        ensures PacketsOf(log, fd) == Heard(events[..n + 1], fd).packets
        ensures r.PartialOf(fd) == Heard(events[..n + 1], fd).partial
      {
        PacketsTagged(before, e.fd, f.packets, fd);
      }
    }
    assert events[..|events|] == events;
  }

  lemma NothingYet()
    ensures forall fd: nat :: PacketsOf([], fd) == []
  {
  }
}
