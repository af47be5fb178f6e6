/** The stream between two harbors (service_harbor.c): one byte of handshake, then messages behind four bytes of
    length, each with a header of twelve bytes at its end. */
module Harbor {

  import opened Bytes

  const COOKIE := 12
  const TWO_24 := 0x100_0000
  const TWO_32 := 0x1_0000_0000

  datatype Header = Header(source: nat, destination: nat, session: nat)
  datatype Message = Message(data: seq<Byte>, header: Header)

  predicate Sendable(m: Message) {
    m.header.source < TWO_32 && m.header.destination < TWO_32 && m.header.session < TWO_32
  }

  // ---- what is sent

  /** header_to_message */
  function HeaderBytes(h: Header): (s: seq<Byte>)
    ensures |s| == COOKIE
  {
    Big(h.source, 4) + Big(h.destination, 4) + Big(h.session, 4)
  }

  /** message_to_header */
  function ReadHeader(s: seq<Byte>): Header
    requires |s| == COOKIE
  {
    Header(FromBig(s[..4]), FromBig(s[4..8]), FromBig(s[8..]))
  }

  function Content(m: Message): seq<Byte> {
    m.data + HeaderBytes(m.header)
  }

  /** send_remote: nothing is sent when the length does not fit 32 bits. */
  function Sent(m: Message): seq<Byte> {
    if |Content(m)| >= TWO_32 then [] else Big(|Content(m)|, 4) + Content(m)
  }

  /** forward_local_message */
  function Unpacked(content: seq<Byte>): Message
    requires |content| >= COOKIE
  {
    var n := |content| - COOKIE;
    Message(content[..n], ReadHeader(content[n..]))
  }

  lemma Word()
    ensures Power256(3) == TWO_24 && Power256(4) == TWO_32
  {
    assert Power256(1) == 0x100 && Power256(2) == 0x1_0000;
  }

  lemma HeaderReads(h: Header)
    requires h.source < TWO_32 && h.destination < TWO_32 && h.session < TWO_32
    ensures ReadHeader(HeaderBytes(h)) == h
  {
    hide Big, FromBig, Power256;
    Word();
    BigReads(h.source, 4);
    BigReads(h.destination, 4);
    BigReads(h.session, 4);
    var s := HeaderBytes(h);
    assert s[..4] == Big(h.source, 4) && s[4..8] == Big(h.destination, 4) && s[8..] == Big(h.session, 4);
  }

  lemma UnpackedIsMessage(m: Message)
    requires Sendable(m)
    ensures Unpacked(Content(m)) == m
  {
    hide HeaderBytes, ReadHeader;
    HeaderReads(m.header);
    var n := |m.data|;
    assert Content(m)[..n] == m.data && Content(m)[n..] == HeaderBytes(m.header);
  }

  /** The destination on the way: its harbor gives place to the type of the message. */
  function Outward(destination: nat, kind: nat): (d: nat)
    ensures d < TWO_32
  {
    destination % TWO_24 + (kind % 256) * TWO_24
  }

  /** The harbor that received it puts its own number there. */
  function Inward(id: nat, destination: nat): nat {
    destination % TWO_24 + id * TWO_24
  }

  /** A message reaches the handle it was sent to, with its type, when that handle is of the receiving harbor. */
  lemma Arrives(id: nat, destination: nat, kind: nat)
    requires destination < TWO_32 && kind < 256
    ensures Outward(destination, kind) / TWO_24 == kind
    ensures Inward(id, Outward(destination, kind)) == destination <==> destination / TWO_24 == id
  {
  }

  // ---- what is received

  /** The state of a link. Of a message without content, the end is noticed with the next byte. */
  datatype Link = Handshake | Length(got: seq<Byte>) | Reading(size: nat, got: seq<Byte>) | Down
  datatype Fed = Fed(link: Link, contents: seq<seq<Byte>>)

  predicate Sound(l: Link) {
    match l
    case Length(got) => |got| < 4
    case Reading(size, got) => |got| < size || (size == 0 && got == [])
    case _ => true
  }

  /** Four bytes of length, of which the first must be 0. */
  function Sized(got: seq<Byte>): (l: Link)
    requires |got| == 4
    ensures Sound(l)
  {
    if got[0] != 0 then Down else Reading(FromBig(got[1..]), [])
  }

  function Step(id: nat, l: Link, b: Byte): (f: Fed)
    requires Sound(l)
    ensures Sound(f.link)
  {
    match l
    case Down => Fed(Down, [])
    case Handshake => Fed(if b as nat == id then Length([]) else Down, [])
    case Length(got) => Fed(if |got| < 3 then Length(got + [b]) else Sized(got + [b]), [])
    case Reading(size, got) =>
      if size == 0 then Fed(Length([b]), [[]])
      else if |got| + 1 < size then Fed(Reading(size, got + [b]), [])
      else Fed(Length([]), [got + [b]])
  }

  function Feed(id: nat, l: Link, s: seq<Byte>): (f: Fed)
    requires Sound(l)
    ensures Sound(f.link)
  {
    if s == [] then Fed(l, [])
    else
      var f := Feed(id, l, s[..|s| - 1]);
      var g := Step(id, f.link, s[|s| - 1]);
      Fed(g.link, f.contents + g.contents)
  }

  lemma {:induction false} FeedJoined(id: nat, l: Link, a: seq<Byte>, b: seq<Byte>)
    requires Sound(l)
    ensures
      var f := Feed(id, l, a);
      var g := Feed(id, f.link, b);
      Feed(id, l, a + b) == Fed(g.link, f.contents + g.contents)
  {
    hide Step, Sound;
    if b == [] {
      assert a + b == a;
    } else {
      var most, last := b[..|b| - 1], b[|b| - 1];
      FeedJoined(id, l, a, most);
      assert (a + b)[..|a + b| - 1] == a + most && (a + b)[|a + b| - 1] == last;
    }
  }

  lemma FeedNothing(id: nat, l: Link)
    requires Sound(l)
    ensures Feed(id, l, []) == Fed(l, [])
  {
  }

  lemma FeedFirst(id: nat, l: Link, s: seq<Byte>)
    requires Sound(l) && s != []
    ensures
      var f := Step(id, l, s[0]);
      var g := Feed(id, f.link, s[1..]);
      Feed(id, l, s) == Fed(g.link, f.contents + g.contents)
  {
    hide Step, Sound;
    assert s == s[..1] + s[1..] && s[..1] == [s[0]] && [s[0]][..0] == [];
    FeedJoined(id, l, s[..1], s[1..]);
    FeedNothing(id, l);
  }

  lemma {:induction false} FeedDown(id: nat, s: seq<Byte>)
    ensures Feed(id, Down, s) == Fed(Down, [])
  {
    if s != [] {
      FeedDown(id, s[..|s| - 1]);
    }
  }

  /** The bytes of a length are collected. */
  lemma {:induction false} FeedLength(id: nat, got: seq<Byte>, s: seq<Byte>)
    requires |got| < 4 && |got| + |s| <= 4
    ensures Feed(id, Length(got), s) == Fed(if |got| + |s| < 4 then Length(got + s) else Sized(got + s), [])
  {
    if s == [] {
      assert got + s == got;
    } else {
      var most, last := s[..|s| - 1], s[|s| - 1];
      FeedLength(id, got, most);
      assert (got + most) + [last] == got + s;
    }
  }

  /** The bytes of a content are collected. */
  lemma {:induction false} FeedReading(id: nat, size: nat, got: seq<Byte>, s: seq<Byte>)
    requires |got| < size && |got| + |s| <= size
    ensures Feed(id, Reading(size, got), s) ==
            if |got| + |s| < size then Fed(Reading(size, got + s), []) else Fed(Length([]), [got + s])
  {
    if s == [] {
      assert got + s == got;
    } else {
      var most, last := s[..|s| - 1], s[|s| - 1];
      FeedReading(id, size, got, most);
      assert (got + most) + [last] == got + s;
    }
  }

  // ---- streams of messages

  function Stream(messages: seq<Message>): seq<Byte> {
    if messages == [] then [] else Stream(messages[..|messages| - 1]) + Sent(messages[|messages| - 1])
  }

  function Contents(messages: seq<Message>): (cs: seq<seq<Byte>>)
    ensures |cs| == |messages|
    ensures forall i | 0 <= i < |messages| :: cs[i] == Content(messages[i])
  {
    seq(|messages|, i requires 0 <= i < |messages| => Content(messages[i]))
  }

  /** A message that was sent is read if and only if its length fits 24 bits; a longer one that is sent brings the
      link down. */
  lemma SentRead(id: nat, m: Message)
    ensures Feed(id, Length([]), Sent(m)) ==
            if |Content(m)| < TWO_24 then Fed(Length([]), [Content(m)])
            else if |Content(m)| < TWO_32 then Fed(Down, [])
            else Fed(Length([]), [])
  {
    hide Feed, Big, FromBig, Power256;
    var c := Content(m);
    if |c| >= TWO_32 {
      FeedNothing(id, Length([]));
    } else {
      Word();
      var l := Big(|c|, 4);
      BigReads(|c|, 4);
      FeedJoined(id, Length([]), l, c);
      FeedLength(id, [], l);
      assert [] + l == l;
      LengthReads(l);
      if |c| < TWO_24 {
        FeedReading(id, |c|, [], c);
        assert [] + c == c;
      } else {
        FeedDown(id, c);
      }
    }
  }

  lemma LengthReads(l: seq<Byte>)
    requires |l| == 4
    ensures FromBig(l) < TWO_24 <==> l[0] == 0
    ensures l[0] == 0 ==> FromBig(l[1..]) == FromBig(l)
  {
    assert l[..3][..2][..1] == l[..1] && l[..3][..2] == l[..2] && l[..1][..0] == [];
    var r := l[1..];
    assert r[..2][..1] == r[..1] && r[..1][..0] == [];
    assert FromBig(l[..1]) == l[0] as nat;
    assert FromBig(l[..2]) == l[0] as nat * 256 + l[1] as nat;
    assert FromBig(r[..1]) == l[1] as nat;
    assert FromBig(r[..2]) == l[1] as nat * 256 + l[2] as nat;
  }

  /** Messages arrive as they were sent, however the stream is cut. */
  lemma {:induction false} StreamRead(id: nat, messages: seq<Message>)
    requires forall i | 0 <= i < |messages| :: |Content(messages[i])| < TWO_24
    ensures Feed(id, Length([]), Stream(messages)) == Fed(Length([]), Contents(messages))
  {
    hide Feed, Content, Sent;
    if messages == [] {
      FeedNothing(id, Length([]));
    } else {
      var most, last := messages[..|messages| - 1], messages[|messages| - 1];
      StreamRead(id, most);
      SentRead(id, last);
      FeedJoined(id, Length([]), Stream(most), Sent(last));
      assert Contents(messages) == Contents(most) + [Content(last)];
    }
  }

  // ---- one peer

  datatype Status = Wait | InHandshake | InHeader | InContent | IsDown

  method CopyTo(a: array<Byte>, at: nat, s: seq<Byte>)
    requires at + |s| <= a.Length
    modifies a
    ensures a[..at + |s|] == old(a[..at]) + s
  {
    for i := 0 to |s|
      invariant a[..at + i] == old(a[..at]) + s[..i]
    {
      a[at + i] := s[i];
      assert a[..at + i + 1] == a[..at + i] + [s[i]];
    }
  }

  class Slave {
    const id: nat
    var status: Status
    // the bytes read of the length, or of the content
    var read: nat
    const size: array<Byte>
    var length: nat
    var recv: array<Byte>
    // messages that wait for the connection
    var queue: seq<Message>
    ghost var wire: seq<Message>
    ghost var accepted: seq<Message>

    ghost predicate Valid()
      reads this, size, recv
    {
      size.Length == 4 && size != recv &&
      (status == InHeader ==> read < 4) &&
      (status == InContent ==> recv.Length == length && (read < length || read == length == 0)) &&
      (status == InHandshake || status == Wait ==> read == 0) &&
      (status != IsDown ==> accepted == wire + queue) &&
      (queue != [] ==> status == Wait || status == InHandshake)
    }

    /** What the fields say about the stream. */
    ghost function State(): (l: Link)
      requires Valid()
      reads this, size, recv
      ensures Sound(l)
    {
      match status
      case IsDown => Down
      case InHeader => Length(size[..read])
      case InContent => Reading(length, recv[..read])
      case _ => Handshake
    }

    constructor (id: nat)
      ensures Valid() && status == Wait && wire == [] && accepted == [] && fresh(size) && fresh(recv) && this.id == id
    {
      this.id := id;
      status, read, length := Wait, 0, 0;
      size := new Byte[4];
      recv := new Byte[0];
      queue, wire, accepted := [], [], [];
    }

    /** The commands that bring a connection: the other side shakes hands, or has done so. */
    method Connect(shakes: bool)
      requires Valid() && status == Wait
      modifies this`status, this`queue, this`wire
      ensures Valid() && status != Wait && State() == if shakes then Handshake else Length([])
      ensures accepted == wire + queue && (!shakes ==> queue == [])
    {
      if shakes {
        status := InHandshake;
      } else {
        DispatchQueue();
        status := InHeader;
      }
    }

    /** dispatch_queue */
    method DispatchQueue()
      modifies this`queue, this`wire
      ensures queue == [] && wire == old(wire + queue)
    {
      while queue != []
        invariant wire + queue == old(wire + queue)
        decreases |queue|
      {
        wire := wire + [queue[0]];
        queue := queue[1..];
      }
    }

    /** remote_send_handle: before the link is up, messages are queued. A link that is down keeps the number of its
        socket, which was closed, so that what is sent there gets nowhere. */
    method Send(m: Message)
      requires Valid()
      modifies this`queue, this`wire, this`accepted
      ensures Valid() && accepted == (if status == IsDown then old(accepted) else old(accepted) + [m])
      ensures queue == (if status == Wait || status == InHandshake then old(queue) + [m] else old(queue))
      ensures status == IsDown ==> wire == old(wire)
    {
      if status == IsDown {
        return;
      }
      if status == Wait || status == InHandshake {
        queue := queue + [m];
      } else {
        wire := wire + [m];
      }
      accepted := accepted + [m];
    }

    /** push_socket_data: the contents that a chunk completes */
    method Receive(chunk: seq<Byte>) returns (contents: seq<seq<Byte>>)
      requires Valid() && status != Wait && chunk != []
      modifies this`status, this`read, this`length, this`recv, this`queue, this`wire, size, recv
      ensures Valid() && status != Wait && (recv == old(recv) || fresh(recv))
      ensures Fed(State(), contents) == Feed(id, old(State()), chunk)
    {
      hide Feed, Valid, State;
      contents := [];
      var buffer, content := chunk, [];
      BeginOnto(Feed(id, State(), chunk));
      while buffer != [] && status != IsDown
        invariant Valid() && status != Wait && (recv == old(recv) || fresh(recv))
        invariant Feed(id, old(State()), chunk) == Onto(contents, Feed(id, State(), buffer))
        decreases |buffer|, if status == InContent then 1 else 0
      {
        if status == InHandshake {
          buffer := ReadHandshake(buffer);
        } else if status == InHeader {
          buffer := ReadLength(buffer);
        } else {
          var done;
          ghost var before := contents;
          buffer, done, content := ReadContent(buffer);
          if done {
            contents := contents + [content];
            OntoNext(before, content, Feed(id, State(), buffer));
          }
        }
      }
      if status == IsDown {
        DownState();
        FeedDown(id, buffer);
      } else {
        FeedNothing(id, State());
      }
    }

    lemma DownState()
      requires Valid() && status == IsDown
      ensures State() == Down
    {
    }

    method ReadHandshake(buffer: seq<Byte>) returns (rest: seq<Byte>)
      requires Valid() && status == InHandshake && buffer != []
      modifies this`status, this`queue, this`wire
      ensures Valid() && status != Wait && status != InContent && |rest| < |buffer|
      ensures Feed(id, old(State()), buffer) == Feed(id, State(), rest)
    {
      hide Feed;
      FeedFirst(id, State(), buffer);
      if buffer[0] as nat != id {
        CloseHarbor();
      } else {
        status := InHeader;
        DispatchQueue();
      }
      rest := buffer[1..];
    }

    /** close_harbor */
    method CloseHarbor()
      requires Valid()
      modifies this`status, this`queue
      ensures Valid() && status == IsDown && State() == Down
    {
      status, queue := IsDown, [];
    }

    method ReadLength(buffer: seq<Byte>) returns (rest: seq<Byte>)
      requires Valid() && status == InHeader && buffer != []
      modifies this`status, this`read, this`length, this`recv, this`queue, size
      ensures Valid() && status != Wait && |rest| < |buffer| && (recv == old(recv) || fresh(recv))
      ensures Feed(id, old(State()), buffer) == Feed(id, State(), rest)
    {
      hide Feed;
      var need := 4 - read;
      ghost var got := size[..read];
      if |buffer| < need {
        FeedLength(id, got, buffer);
        FeedNothing(id, Length(got + buffer));
        CopyTo(size, read, buffer);
        read := read + |buffer|;
        return [];
      }
      var first := buffer[..need];
      rest := buffer[need..];
      assert buffer == first + rest;
      FeedJoined(id, Length(got), first, rest);
      FeedLength(id, got, first);
      CopyTo(size, read, first);
      assert size[..] == got + first;
      if size[0] != 0 {
        CloseHarbor();
        return;
      }
      length := FromBig(size[1..]);
      assert size[1..] == size[..][1..];
      read := 0;
      recv := new Byte[length];
      status := InContent;
    }

    method ReadContent(buffer: seq<Byte>) returns (rest: seq<Byte>, done: bool, content: seq<Byte>)
      requires Valid() && status == InContent && buffer != []
      modifies this`status, this`read, this`length, recv
      ensures Valid() && status != Wait && |rest| <= |buffer| && (|rest| == |buffer| ==> status == InHeader)
      ensures
        var f := Feed(id, State(), rest);
        Feed(id, old(State()), buffer) == if done then Onto([content], f) else f
    {
      hide Feed, Onto, Step;
      var need := length - read;
      ghost var got := recv[..read];
      assert State() == Reading(length, got);
      hide State;
      if |buffer| < need {
        FeedReading(id, length, got, buffer);
        FeedNothing(id, Reading(length, got + buffer));
        ExtendContent(buffer);
        return [], false, [];
      }
      FeedContent(id, length, got, buffer);
      rest, done := buffer[need..], true;
      content := CompleteContent(buffer[..need]);
    }

    method ExtendContent(part: seq<Byte>)
      requires Valid() && status == InContent && |part| < length - read
      modifies this`read, recv
      ensures Valid() && State() == Reading(length, old(recv[..read]) + part)
    {
      CopyTo(recv, read, part);
      read := read + |part|;
    }

    method CompleteContent(part: seq<Byte>) returns (content: seq<Byte>)
      requires Valid() && status == InContent && |part| == length - read
      modifies this`status, this`read, this`length, recv
      ensures Valid() && status == InHeader && State() == Length([])
      ensures content == old(recv[..read]) + part
    {
      CopyTo(recv, read, part);
      content := recv[..];
      length, read, status := 0, 0, InHeader;
      assert size[..0] == [];
    }
  }

  /** The bytes that a content lacks complete it. */
  lemma FeedContent(id: nat, length: nat, got: seq<Byte>, buffer: seq<Byte>)
    requires Sound(Reading(length, got)) && length - |got| <= |buffer| && buffer != []
    ensures
      var need := length - |got|;
      Feed(id, Reading(length, got), buffer) == Onto([got + buffer[..need]], Feed(id, Length([]), buffer[need..]))
  {
    hide Feed;
    var need := length - |got|;
    var first, rest := buffer[..need], buffer[need..];
    assert buffer == first + rest;
    if length == 0 {
      FeedFirst(id, Reading(0, []), buffer);
      FeedFirst(id, Length([]), buffer);
      assert [] + [buffer[0]] == [buffer[0]] && rest == buffer && got + first == [];
    } else {
      FeedJoined(id, Reading(length, got), first, rest);
      FeedReading(id, length, got, first);
    }
  }

  /** Contents that are already complete go first. */
  function Onto(contents: seq<seq<Byte>>, f: Fed): Fed {
    Fed(f.link, contents + f.contents)
  }

  lemma BeginOnto(f: Fed)
    ensures Onto([], f) == f
  {
  }

  lemma OntoNext(contents: seq<seq<Byte>>, c: seq<Byte>, f: Fed)
    ensures Onto(contents, Onto([c], f)) == Onto(contents + [c], f)
  {
    assert contents + ([c] + f.contents) == (contents + [c]) + f.contents;
  }

  // ---- whole runs

  function Joined(chunks: seq<seq<Byte>>): seq<Byte> {
    if chunks == [] then [] else Joined(chunks[..|chunks| - 1]) + chunks[|chunks| - 1]
  }

  /** Messages sent by one harbor arrive at the other as they were, in order, however the stream is cut. */
  method Run(id: nat, chunks: seq<seq<Byte>>, messages: seq<Message>) returns (arrived: seq<Message>)
    requires id < 256 && forall i | 0 <= i < |chunks| :: chunks[i] != []
    requires forall i | 0 <= i < |messages| :: Sendable(messages[i]) && |Content(messages[i])| < TWO_24
    requires Joined(chunks) == [id as Byte] + Stream(messages)
    ensures arrived == messages
  {
    hide Feed, Content, Stream, Joined;
    var contents := ReceiveAll(id, chunks);
    FeedFirst(id, Handshake, Joined(chunks));
    assert Joined(chunks)[1..] == Stream(messages);
    StreamRead(id, messages);
    arrived := [];
    for n := 0 to |messages|
      invariant arrived == messages[..n]
    {
      UnpackedIsMessage(messages[n]);
      assert Contents(messages)[n] == Content(messages[n]);
      LongEnough(messages[n]);
      arrived := arrived + [Unpacked(contents[n])];
    }
  }

  /** The contents that the chunks of a new connection bring. */
  method ReceiveAll(id: nat, chunks: seq<seq<Byte>>) returns (contents: seq<seq<Byte>>)
    requires id < 256 && forall i | 0 <= i < |chunks| :: chunks[i] != []
    ensures contents == Feed(id, Handshake, Joined(chunks)).contents
  {
    hide Feed, Slave.Valid, Slave.State;
    var s := new Slave(id);
    s.Connect(true);
    contents := [];
    FeedNothing(id, Handshake);
    for n := 0 to |chunks|
      invariant s.Valid() && s.status != Wait && fresh(s) && fresh(s.size) && fresh(s.recv) && s.id == id
      invariant Feed(id, Handshake, Joined(chunks[..n])) == Fed(s.State(), contents)
    {
      FeedJoined(id, Handshake, Joined(chunks[..n]), chunks[n]);
      assert chunks[..n + 1][..n] == chunks[..n];
      var more := s.Receive(chunks[n]);
      contents := contents + more;
    }
    assert chunks[..|chunks|] == chunks;
  }

  lemma LongEnough(m: Message)
    ensures |Content(m)| >= COOKIE
  {
  }
}
