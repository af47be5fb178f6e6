/** The frame reader of a gate (databuffer.h): received pieces are kept as they are, in a list whose nodes come
    from a pool, and frames are read across them. */
module DataBuffer {

  import opened Bytes

  const MESSAGEPOOL := 1023
  const TOO_LONG := 0x100_0000

  // ---- frames of a stream

  /** The frames that a stream holds, and the bytes after them; or a frame that is too long. */
  datatype Cutting = Cutting(frames: seq<seq<Byte>>, rest: seq<Byte>, tooLong: bool)

  predicate HeaderSize(n: nat) {
    n == 2 || n == 4
  }

  /** A length in two bytes, or in the four bytes of a signed int. */
  function LengthOf(h: seq<Byte>): (n: int)
    requires HeaderSize(|h|)
    ensures n < 0x8000_0000
  {
    Word();
    if FromBig(h) >= 0x8000_0000 then FromBig(h) - 0x1_0000_0000 else FromBig(h)
  }

  lemma Word()
    ensures Power256(2) == 0x1_0000 && Power256(4) == 0x1_0000_0000
  {
    assert Power256(1) == 0x100 && Power256(3) == 0x100_0000;
  }

  function Cut(h: nat, s: seq<Byte>): (c: Cutting)
    requires HeaderSize(h)
    ensures |c.rest| <= |s|
  {
    if |s| < h then Cutting([], s, false)
    else
      var n := LengthOf(s[..h]);
      if n == 0 then Cut(h, s[h..])
      else if n < 0 || |s| - h < n then Cutting([], s, false)
      else if n >= TOO_LONG then Cutting([], s, true)
      else
        var c := Cut(h, s[h + n..]);
        c.(frames := [s[h..h + n]] + c.frames)
  }

  /** A stream that is cut in two has the same frames. */
  lemma {:induction false} CutJoined(h: nat, a: seq<Byte>, b: seq<Byte>)
    requires HeaderSize(h)
    ensures
      var c := Cut(h, a);
      var d := Cut(h, c.rest + b);
      Cut(h, a + b) ==
      if c.tooLong then Cutting(c.frames, c.rest + b, true)
      else Cutting(c.frames + d.frames, d.rest, d.tooLong)
    decreases |a|
  {
    hide LengthOf, Cut;
    CutStep(h, a);
    CutStep(h, a + b);
    if |a| >= h {
      var n := LengthOf(a[..h]);
      assert (a + b)[..h] == a[..h];
      if n == 0 {
        CutJoined(h, a[h..], b);
        assert (a + b)[h..] == a[h..] + b;
      } else if n > 0 && |a| - h >= n {
        assert (a + b)[h + n..] == a[h + n..] + b && (a + b)[h..h + n] == a[h..h + n];
        if n < TOO_LONG {
          CutJoined(h, a[h + n..], b);
          var c := Cut(h, a[h + n..]);
          FirstOf(a[h..h + n], c.frames, Cut(h, c.rest + b).frames);
        }
      }
    }
  }

  lemma FirstOf(x: seq<Byte>, a: seq<seq<Byte>>, b: seq<seq<Byte>>)
    ensures [x] + (a + b) == ([x] + a) + b
  {
  }

  lemma CutStep(h: nat, s: seq<Byte>)
    requires HeaderSize(h)
    ensures
      var n := if |s| < h then 0 else LengthOf(s[..h]);
      Cut(h, s) ==
      if |s| < h || n < 0 || |s| - h < n then Cutting([], s, false)
      else if n == 0 then Cut(h, s[h..])
      else if n >= TOO_LONG then Cutting([], s, true)
      else Cut(h, s[h + n..]).(frames := [s[h..h + n]] + Cut(h, s[h + n..]).frames)
  {
    hide LengthOf;
  }

  // ---- framed streams

  predicate Fits(h: nat, packet: seq<Byte>) {
    |packet| < if h == 2 then 0x1_0000 else TOO_LONG
  }

  function Stream(h: nat, packets: seq<seq<Byte>>): seq<Byte> {
    if packets == [] then [] else Big(|packets[0]|, h) + packets[0] + Stream(h, packets[1..])
  }

  function NonEmpty(packets: seq<seq<Byte>>): seq<seq<Byte>> {
    if packets == [] then []
    else if packets[0] == [] then NonEmpty(packets[1..])
    else [packets[0]] + NonEmpty(packets[1..])
  }

  /** Framed packets are read back, but for the empty ones. */
  lemma {:induction false} StreamRead(h: nat, packets: seq<seq<Byte>>)
    requires HeaderSize(h) && forall i | 0 <= i < |packets| :: Fits(h, packets[i])
    ensures Cut(h, Stream(h, packets)) == Cutting(NonEmpty(packets), [], false)
  {
    hide Big, FromBig, Power256;
    if packets != [] {
      var p, more := packets[0], Stream(h, packets[1..]);
      var l := Big(|p|, h);
      var s := Stream(h, packets);
      StreamRead(h, packets[1..]);
      Word();
      BigReads(|p|, h);
      assert s[..h] == l && s[h..h + |p|] == p && s[h + |p|..] == more;
    }
  }

  // ---- the list of pieces

  class Node {
    var data: seq<Byte>
    var next: Node?

    constructor (next: Node?)
      ensures data == [] && this.next == next
    {
      data, this.next := [], next;
    }
  }

  /** The nodes are linked in this order, from `first` on. */
  ghost predicate Chained(nodes: seq<Node>, first: Node?)
    reads nodes
  {
    if nodes == [] then first == null
    else
      first == nodes[0] && nodes[|nodes| - 1].next == null &&
      forall i | 0 <= i < |nodes| - 1 :: nodes[i].next == nodes[i + 1]
  }

  ghost predicate Distinct(nodes: seq<Node>) {
    forall i, j | 0 <= i < j < |nodes| :: nodes[i] != nodes[j]
  }

  ghost predicate Apart(a: seq<Node>, b: seq<Node>) {
    forall i, j | 0 <= i < |a| && 0 <= j < |b| :: a[i] != b[j]
  }

  function Flat(pieces: seq<seq<Byte>>): seq<Byte> {
    if pieces == [] then [] else pieces[0] + Flat(pieces[1..])
  }

  /** The first piece was read up to the offset. */
  ghost predicate Sized(pieces: seq<seq<Byte>>, offset: nat, size: nat) {
    (if pieces == [] then offset == 0 else offset <= |pieces[0]|) && offset + size == |Flat(pieces)|
  }

  function Unread(pieces: seq<seq<Byte>>, offset: nat): seq<Byte>
    requires offset <= |Flat(pieces)|
  {
    Flat(pieces)[offset..]
  }

  lemma OneMore(pieces: seq<seq<Byte>>, offset: nat, size: nat, data: seq<Byte>)
    requires Sized(pieces, offset, size)
    ensures Sized(pieces + [data], offset, size + |data|)
    ensures Unread(pieces + [data], offset) == Unread(pieces, offset) + data
  {
    FlatSnoc(pieces, data);
  }

  lemma OneLess(pieces: seq<seq<Byte>>, offset: nat, size: nat)
    requires Sized(pieces, offset, size) && pieces != [] && offset == |pieces[0]|
    ensures Sized(pieces[1..], 0, size) && Unread(pieces[1..], 0) == Unread(pieces, offset)
  {
  }

  lemma {:induction false} FlatSnoc(pieces: seq<seq<Byte>>, p: seq<Byte>)
    ensures Flat(pieces + [p]) == Flat(pieces) + p
  {
    if pieces == [] {
      assert pieces + [p] == [p];
    } else {
      FlatSnoc(pieces[1..], p);
      assert (pieces + [p])[1..] == pieces[1..] + [p];
    }
  }

  class Pieces {
    var head: Node?
    var tail: Node?
    var offset: nat
    var size: nat
    // the nodes that wait to be used again
    var freelist: Node?
    ghost var nodes: seq<Node>
    ghost var free: seq<Node>
    ghost var pieces: seq<seq<Byte>>

    ghost predicate Valid()
      reads this, nodes, free
    {
      Shaped() && Held()
    }

    ghost predicate Shaped()
      reads `head, `tail, `freelist, `nodes, `free, nodes, free
    {
      Chained(nodes, head) && Chained(free, freelist) && Distinct(nodes) && Distinct(free) && Apart(nodes, free) &&
      tail == if nodes == [] then null else nodes[|nodes| - 1]
    }

    ghost predicate Held()
      reads this, nodes
    {
      |pieces| == |nodes| && (forall i | 0 <= i < |nodes| :: nodes[i].data == pieces[i]) && Sized(pieces, offset, size)
    }

    /** The bytes that were received and not read. */
    ghost function Pending(): (s: seq<Byte>)
      requires Valid()
      reads this, nodes, free
      ensures |s| == size
    {
      Unread(pieces, offset)
    }

    ghost function Repr(): set<Node>
      reads `nodes, `free
    {
      (set n | n in nodes) + (set n | n in free)
    }

    constructor ()
      ensures Valid() && Pending() == [] && Repr() == {}
    {
      head, tail, offset, size, freelist := null, null, 0, 0, null;
      nodes, free, pieces := [], [], [];
    }

    /** A node of the pool, which makes more of them when none is free. */
    method TakeNode() returns (m: Node)
      requires Shaped()
      modifies this`freelist, this`free
      ensures Shaped() && fresh(Repr() + {m} - old(Repr())) && m !in nodes && m !in free
    {
      if freelist == null {
        MakeNodes();
      }
      m := freelist;
      assert m == free[0];
      freelist, free := m.next, free[1..];
    }

    method MakeNodes()
      requires Shaped() && freelist == null
      modifies this`freelist, this`free
      ensures Shaped() && freelist != null && fresh(Repr() - old(Repr()))
    {
      for i := 0 to MESSAGEPOOL
        invariant Shaped() && |free| == i && fresh(Repr() - old(Repr()))
      {
        var n := new Node(freelist);
        freelist, free := n, [n] + free;
      }
    }

    /** databuffer_push */
    method Push(data: seq<Byte>)
      requires Valid()
      modifies this, Repr()
      ensures Valid() && fresh(Repr() - old(Repr()))
      ensures Pending() == old(Pending()) + data
    {
      hide Sized, Unread, Shaped, Repr;
      AddNode(data);
      OneMore(pieces, offset, size, data);
      size, pieces := size + |data|, pieces + [data];
    }

    method AddNode(data: seq<Byte>)
      requires Shaped()
      modifies `head, `tail, `freelist, `nodes, `free, Repr()
      ensures Shaped() && fresh(Repr() - old(Repr())) && |nodes| == |old(nodes)| + 1
      ensures nodes[..|old(nodes)|] == old(nodes) && nodes[|old(nodes)|].data == data
      ensures forall i | 0 <= i < |old(nodes)| :: nodes[i].data == old(nodes[i].data)
    {
      hide Shaped;
      var m := TakeNode();
      ghost var repr := Repr() + {m};
      m.data, m.next := data, null;
      Link(m);
      assert Repr() == repr;
    }

    method Link(m: Node)
      requires Shaped() && m.next == null && m !in nodes && m !in free
      modifies this`head, this`tail, this`nodes, (set n | n in nodes)`next
      ensures Shaped() && nodes == old(nodes) + [m]
    {
      if head == null {
        head, tail := m, m;
      } else {
        tail.next := m;
        tail := m;
      }
      nodes := nodes + [m];
    }

    /** _return_message: the first node goes back to the pool. */
    method ReturnMessage()
      requires Valid() && nodes != [] && offset == |pieces[0]|
      modifies this, Repr()
      ensures Valid() && Pending() == old(Pending()) && Repr() == old(Repr()) && pieces == old(pieces)[1..] && offset == 0
      ensures size == old(size)
    {
      hide Sized, Unread, Chained, Distinct, Apart;
      OneLess(pieces, offset, size);
      ghost var repr := Repr();
      FirstIs();
      Recycle();
      assert Repr() == repr;
      offset, pieces := 0, pieces[1..];
    }

    lemma FirstIs()
      requires Shaped() && nodes != []
      ensures head == nodes[0] && nodes[0] !in nodes[1..] && nodes[0] !in free
    {
    }

    /** The first node goes to the pool. */
    method Recycle()
      requires Shaped() && nodes != []
      modifies this`head, this`tail, this`freelist, this`nodes, this`free, head
      ensures Shaped() && nodes == old(nodes)[1..] && free == [old(nodes)[0]] + old(free) && old(nodes)[0] == old(head)
      ensures old(head) !in nodes
    {
      var m := head;
      if m.next == null {
        head, tail := null, null;
      } else {
        head := m.next;
      }
      m.data, m.next := [], freelist;
      freelist := m;
      nodes, free := nodes[1..], [m] + free;
    }

    /** databuffer_read */
    method Read(count: nat) returns (buffer: seq<Byte>)
      requires Valid() && 0 < count <= size
      modifies this, Repr()
      ensures Valid() && Repr() == old(Repr())
      ensures buffer == old(Pending())[..count] && Pending() == old(Pending())[count..]
      // a piece that was read to its end went back to the pool
      ensures offset == 0 || (pieces != [] && offset < |pieces[0]|)
    {
      hide Sized, Unread, Shaped, Repr;
      buffer := [];
      while true
        invariant Valid() && Repr() == old(Repr()) && |buffer| < count <= |buffer| + size
        invariant buffer + Pending() == old(Pending())
        decreases count - |buffer|, |nodes|
      {
        var need := count - |buffer|;
        NotEmpty();
        var left := |head.data| - offset;
        if left > need {
          buffer := Advance(buffer, need);
          break;
        }
        buffer := Advance(buffer, left);
        ReturnMessage();
        if left == need {
          break;
        }
      }
    }

    lemma NotEmpty()
      requires Valid() && size > 0
      ensures nodes != [] && head == nodes[0] && head.data == pieces[0] && offset <= |pieces[0]|
    {
    }

    /** Some bytes of the first piece are copied. */
    method Advance(before: seq<Byte>, count: nat) returns (buffer: seq<Byte>)
      requires Valid() && head != null && nodes != [] && head.data == pieces[0] && offset + count <= |pieces[0]|
      modifies `offset, `size
      ensures Valid() && offset == old(offset) + count && |buffer| == |before| + count && size == old(size) - count
      ensures buffer + Pending() == before + old(Pending())
    {
      hide Sized, Unread, Shaped;
      FirstPiece(pieces, offset, size, count);
      buffer := before + head.data[offset..offset + count];
      offset, size := offset + count, size - count;
    }
  }

  lemma FirstPiece(pieces: seq<seq<Byte>>, offset: nat, size: nat, count: nat)
    requires Sized(pieces, offset, size) && pieces != [] && offset + count <= |pieces[0]|
    ensures count <= size && Sized(pieces, offset + count, size - count)
    ensures pieces[0][offset..offset + count] + Unread(pieces, offset + count) == Unread(pieces, offset)
  {
  }

  // ---- the frames of a connection

  class Connection {
    const headerSize: nat
    const buffer: Pieces
    // the length of the frame that comes next, when it was read already
    var header: int
    ghost var raw: seq<Byte>

    ghost predicate Valid()
      reads this, buffer, buffer.Repr()
    {
      buffer.Valid() && HeaderSize(headerSize) &&
      if raw == [] then header == 0 else |raw| == headerSize && header == LengthOf(raw) && header != 0
    }

    /** The bytes that do not belong to a frame that was handed out. */
    ghost function Left(): seq<Byte>
      requires Valid()
      reads this, buffer, buffer.Repr()
    {
      raw + buffer.Pending()
    }

    constructor (headerSize: nat)
      requires HeaderSize(headerSize)
      ensures Valid() && Left() == [] && fresh(buffer) && fresh(buffer.Repr()) && this.headerSize == headerSize
    {
      this.headerSize := headerSize;
      buffer := new Pieces();
      header, raw := 0, [];
    }

    /** databuffer_readheader, with header_size in two or four bytes */
    method ReadHeader() returns (n: int)
      requires Valid()
      modifies this`header, this`raw, buffer, buffer.Repr()
      ensures Valid() && buffer.Repr() == old(buffer.Repr())
      ensures
        var s := old(Left());
        if |s| < headerSize then n == -1 && Left() == s
        else if LengthOf(s[..headerSize]) == 0 then n == 0 && header == 0 && Left() == s[headerSize..]
        else if |s| - headerSize < LengthOf(s[..headerSize]) then n == -1 && Left() == s
        else n == LengthOf(s[..headerSize]) == header && Left() == s
    {
      hide LengthOf, Pieces.Valid, Pieces.Pending, Pieces.Repr;
      ghost var s := Left();
      assert |buffer.Pending()| == buffer.size;
      if header == 0 {
        if buffer.size < headerSize {
          return -1;
        }
        assert s == buffer.Pending();
        var plen := buffer.Read(headerSize);
        assert plen + buffer.Pending() == s;
        header := LengthOf(plen);
        raw := if header == 0 then [] else plen;
        assert raw == [] ==> Left() == s[headerSize..];
      }
      assert raw != [] ==> raw == s[..headerSize];
      assert |buffer.Pending()| == buffer.size;
      n := if buffer.size < header then -1 else header;
    }

    /** The loop of the gate: every complete frame is forwarded; a frame that is too long ends it. */
    method Dispatch(data: seq<Byte>) returns (frames: seq<seq<Byte>>, tooLong: bool)
      requires Valid()
      modifies this`header, this`raw, buffer, buffer.Repr()
      ensures Valid() && fresh(buffer.Repr() - old(buffer.Repr()))
      ensures Cut(headerSize, old(Left()) + data) == Cutting(frames, Left(), tooLong)
    {
      hide LengthOf, Pieces.Valid, Pieces.Pending, Pieces.Repr, Cut;
      ghost var s := Left() + data;
      buffer.Push(data);
      assert Left() == s;
      frames := [];
      while true
        invariant Valid() && fresh(buffer.Repr() - old(buffer.Repr()))
        invariant Cut(headerSize, s) == Prepend(frames, Cut(headerSize, Left()))
        decreases |Left()|
      {
        ghost var left := Left();
        CutStep(headerSize, left);
        var n := ReadHeader();
        if n < 0 {
          return frames, false;
        } else if n > 0 {
          if n >= TOO_LONG {
            return frames, true;
          }
          assert left == raw + buffer.Pending();
          var frame := buffer.Read(n);
          header, raw := 0, [];
          assert frame == left[headerSize..headerSize + n] && Left() == left[headerSize + n..];
          PrependNext(frames, frame, Cut(headerSize, Left()));
          frames := frames + [frame];
        }
      }
    }
  }

  lemma PrependNext(frames: seq<seq<Byte>>, f: seq<Byte>, c: Cutting)
    ensures Prepend(frames, c.(frames := [f] + c.frames)) == Prepend(frames + [f], c)
  {
    assert frames + ([f] + c.frames) == (frames + [f]) + c.frames;
  }

  function Prepend(frames: seq<seq<Byte>>, c: Cutting): Cutting {
    c.(frames := frames + c.frames)
  }

  // ---- whole runs

  function Joined(chunks: seq<seq<Byte>>): seq<Byte> {
    if chunks == [] then [] else Joined(chunks[..|chunks| - 1]) + chunks[|chunks| - 1]
  }

  /** The frames of a connection depend on its bytes only, and framed packets arrive as they were, but for the
      empty ones. */
  method Run(headerSize: nat, chunks: seq<seq<Byte>>, ghost packets: seq<seq<Byte>>) returns (frames: seq<seq<Byte>>, tooLong: bool)
    requires HeaderSize(headerSize)
    ensures frames == Cut(headerSize, Joined(chunks)).frames && (tooLong <==> Cut(headerSize, Joined(chunks)).tooLong)
    ensures (forall i | 0 <= i < |packets| :: Fits(headerSize, packets[i])) && Joined(chunks) == Stream(headerSize, packets) ==>
              frames == NonEmpty(packets) && !tooLong
  {
    hide Cut, Pieces.Valid, Pieces.Pending;
    var c := new Connection(headerSize);
    frames, tooLong := [], false;
    CutStep(headerSize, []);
    for n := 0 to |chunks|
      invariant c.Valid() && c.headerSize == headerSize && fresh(c) && fresh(c.buffer) && fresh(c.buffer.Repr())
      invariant
        var d := Cut(headerSize, Joined(chunks[..n]));
        frames == d.frames && tooLong == d.tooLong && (!tooLong ==> d.rest == c.Left())
    {
      ghost var before := Cut(headerSize, Joined(chunks[..n]));
      CutJoined(headerSize, Joined(chunks[..n]), chunks[n]);
      assert chunks[..n + 1][..n] == chunks[..n];
      if !tooLong {
        var more;
        more, tooLong := c.Dispatch(chunks[n]);
        frames := frames + more;
      }
    }
    assert chunks[..|chunks|] == chunks;
    if (forall i | 0 <= i < |packets| :: Fits(headerSize, packets[i])) && Joined(chunks) == Stream(headerSize, packets) {
      StreamRead(headerSize, packets);
    }
  }
}
