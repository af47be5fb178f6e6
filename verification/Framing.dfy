/** How the packets of a stream are told apart, one byte at a time (lua-netpack.c): two bytes of size, most
    significant first, and then the data. */
module Framing {

  import opened Bytes

  /** What has been read of the packet that comes next. */
  datatype Partial = Idle | HalfHeader(high: Byte) | Body(size: nat, got: seq<Byte>)

  /** What a stream of bytes leaves behind: the packets it completes, and the one it begins. */
  datatype Fed = Fed(partial: Partial, packets: seq<seq<Byte>>)

  predicate Sound(p: Partial) {
    p.Body? ==> |p.got| < p.size < 0x1_0000
  }

  function Step(p: Partial, b: Byte): (f: Fed)
    ensures Sound(p) ==> Sound(f.partial)
  {
    match p
    case Idle => Fed(HalfHeader(b), [])
    case HalfHeader(h) => Begin(h as nat * 256 + b as nat)
    case Body(size, got) => Complete(size, got + [b])
  }

  /** A size was read. */
  function Begin(size: nat): Fed {
    Complete(size, [])
  }

  function Complete(size: nat, got: seq<Byte>): Fed {
    if |got| < size then Fed(Body(size, got), []) else Fed(Idle, [got])
  }

  function Feed(p: Partial, s: seq<Byte>): (f: Fed)
    ensures Sound(p) ==> Sound(f.partial)
  {
    if s == [] then Fed(p, [])
    else
      var f := Feed(p, s[..|s| - 1]);
      var g := Step(f.partial, s[|s| - 1]);
      Fed(g.partial, f.packets + g.packets)
  }

  /** However a stream is cut in two, it leaves the same behind. */
  lemma {:induction false} FeedJoined(p: Partial, a: seq<Byte>, b: seq<Byte>)
    ensures
      var f := Feed(p, a);
      var g := Feed(f.partial, b);
      Feed(p, a + b) == Fed(g.partial, f.packets + g.packets)
  {
    hide Step;
    if b == [] {
      assert a + b == a;
    } else {
      var most, last := b[..|b| - 1], b[|b| - 1];
      FeedJoined(p, a, most);
      assert (a + b)[..|a + b| - 1] == a + most && (a + b)[|a + b| - 1] == last;
    }
  }

  // ---- a chunk, all at once

  /** As long as a packet is not complete, its bytes are collected. */
  lemma {:induction false} FeedBody(size: nat, got: seq<Byte>, s: seq<Byte>)
    requires |got| + |s| <= size && |got| < size
    ensures Feed(Body(size, got), s) == Complete(size, got + s)
  {
    if s == [] {
      assert got + s == got;
    } else {
      var most, last := s[..|s| - 1], s[|s| - 1];
      FeedBody(size, got, most);
      assert (got + most) + [last] == got + s;
    }
  }

  lemma FeedFirst(p: Partial, s: seq<Byte>)
    requires s != []
    ensures
      var f := Step(p, s[0]);
      var g := Feed(f.partial, s[1..]);
      Feed(p, s) == Fed(g.partial, f.packets + g.packets)
  {
    hide Step;
    assert s == s[..1] + s[1..] && s[..1] == [s[0]] && [s[0]][..0] == [];
    FeedJoined(p, s[..1], s[1..]);
    assert Feed(p, [s[0]]) == Step(p, s[0]);
  }

  /** With a size just read, a chunk that is long enough fills the packet, and what is over starts another. */
  lemma FeedEnough(size: nat, got: seq<Byte>, s: seq<Byte>)
    requires |got| < size || (size == 0 && got == [])
    requires |s| >= size - |got|
    ensures
      var f := Complete(size, got);
      var g, h := Feed(f.partial, s), Feed(Idle, s[size - |got|..]);
      g.partial == h.partial && f.packets + g.packets == [got + s[..size - |got|]] + h.packets
  {
    hide Feed;
    var a, b := s[..size - |got|], s[size - |got|..];
    assert s == a + b;
    if size == 0 {
      assert b == s && got + a == [];
    } else {
      FeedJoined(Body(size, got), a, b);
      FeedBody(size, got, a);
    }
  }

  /** Otherwise it is collected. */
  lemma FeedShort(size: nat, got: seq<Byte>, s: seq<Byte>)
    requires |got| + |s| < size
    ensures Complete(size, got) == Fed(Body(size, got), []) && Feed(Body(size, got), s) == Fed(Body(size, got + s), [])
  {
    hide Feed;
    FeedBody(size, got, s);
  }

  // ---- packing

  /** lpack: longer packets are refused. */
  function Frame(packet: seq<Byte>): seq<Byte>
    requires |packet| < 0x1_0000
  {
    [(|packet| / 256) as Byte, (|packet| % 256) as Byte] + packet
  }

  /** The size is read back from the first two bytes, and the packet is behind them. */
  lemma FrameSize(packet: seq<Byte>)
    requires |packet| < 0x1_0000
    ensures |Frame(packet)| == 2 + |packet| && Frame(packet)[2..] == packet
    ensures 256 * Frame(packet)[0] as nat + Frame(packet)[1] as nat == |packet|
  {
  }

  predicate Fits(packets: seq<seq<Byte>>) {
    forall i | 0 <= i < |packets| :: |packets[i]| < 0x1_0000
  }

  function Stream(packets: seq<seq<Byte>>): seq<Byte>
    requires Fits(packets)
  {
    if packets == [] then [] else Stream(packets[..|packets| - 1]) + Frame(packets[|packets| - 1])
  }

  lemma FrameRead(packet: seq<Byte>)
    requires |packet| < 0x1_0000
    ensures Feed(Idle, Frame(packet)) == Fed(Idle, [packet])
  {
    hide Feed;
    var s := Frame(packet);
    FeedFirst(Idle, s);
    FeedFirst(HalfHeader(s[0]), s[1..]);
    assert s[1..][1..] == packet;
    FeedEnough(|packet|, [], packet);
    FeedNothing(Idle);
    assert packet[..|packet|] == packet && [] + packet == packet && packet[|packet|..] == [];
  }

  lemma FeedNothing(p: Partial)
    ensures Feed(p, []) == Fed(p, [])
  {
  }

  /** Packed packets are read back. */
  lemma {:induction false} StreamRead(packets: seq<seq<Byte>>)
    requires Fits(packets)
    ensures Feed(Idle, Stream(packets)) == Fed(Idle, packets)
  {
    hide Frame, Feed;
    if packets == [] {
      FeedNothing(Idle);
    } else {
      var most, last := packets[..|packets| - 1], packets[|packets| - 1];
      StreamRead(most);
      FeedJoined(Idle, Stream(most), Frame(last));
      FrameRead(last);
      assert most + [last] == packets;
    }
  }

  // ---- events on many connections

  datatype Event = Data(fd: nat, chunk: seq<Byte>) | Close(fd: nat)

  /** What the packets of one connection are, when events of many come in. A connection that closes is started anew. */
  function Heard(events: seq<Event>, fd: nat): (f: Fed)
    ensures Sound(f.partial)
  {
    if events == [] then Fed(Idle, [])
    else
      var f := Heard(events[..|events| - 1], fd);
      var e := events[|events| - 1];
      if e.fd != fd then f
      else if e.Close? then Fed(Idle, f.packets)
      else
        var g := Feed(f.partial, e.chunk);
        Fed(g.partial, f.packets + g.packets)
  }

  /** The bytes of one connection. */
  function Received(events: seq<Event>, fd: nat): seq<Byte> {
    if events == [] then []
    else
      var s := Received(events[..|events| - 1], fd);
      var e := events[|events| - 1];
      if e.fd == fd && e.Data? then s + e.chunk else s
  }

  /** A connection's packets depend on its bytes only: not on how they were cut, nor on the other connections. */
  lemma {:induction false} HeardIsStream(events: seq<Event>, fd: nat)
    requires forall i | 0 <= i < |events| :: events[i].fd == fd ==> events[i].Data?
    ensures Heard(events, fd) == Feed(Idle, Received(events, fd))
  {
    hide Feed;
    if events == [] {
      FeedNothing(Idle);
    } else {
      var most, e := events[..|events| - 1], events[|events| - 1];
      HeardIsStream(most, fd);
      if e.fd == fd {
        FeedJoined(Idle, Received(most, fd), e.chunk);
      }
    }
  }

  /** Packets that were packed arrive as they were, however the stream is cut. */
  lemma PacketsArrive(events: seq<Event>, fd: nat, packets: seq<seq<Byte>>)
    requires forall i | 0 <= i < |events| :: events[i].fd == fd ==> events[i].Data?
    requires Fits(packets) && Received(events, fd) == Stream(packets)
    ensures Heard(events, fd) == Fed(Idle, packets)
  {
    HeardIsStream(events, fd);
    StreamRead(packets);
  }
}
