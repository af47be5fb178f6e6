/** The sending side of one TCP socket of socket_server.c.

    The socket thread owns the two write lists; a worker may write directly while it holds the lock. A step
    of the model is what one thread does without another being able to see the middle of it: the socket
    thread appends without the lock, and between a worker's second check and its write the socket thread
    may append, decide to close, and free the lists. */
module SocketSend {

  import opened Bytes

  /** How a packet got to the socket: written by a worker, or through the pipe with either priority. */
  datatype Via = Direct | High | Low

  datatype Packet = Packet(body: seq<Byte>, via: Via)

  /** `off` is ptr - buffer: the number of bytes already written. */
  datatype WriteBuffer = WriteBuffer(packet: Packet, off: nat)

  datatype Option<T> = None | Some(value: T)

  /** What write may do: take some bytes, be interrupted, refuse for now, or fail. */
  datatype Outcome = Took(n: nat) | Interrupted | Again | Failed

  datatype Kind = PAccept | Listening | Connecting | Connected | HalfClose | Invalid

  // ---- buffers

  predicate Sound(b: WriteBuffer) {
    b.off == 0 || b.off < |b.packet.body|
  }

  function Rest(b: WriteBuffer): seq<Byte>
    requires Sound(b)
  {
    b.packet.body[b.off..]
  }

  function Written(b: WriteBuffer): seq<Byte>
    requires Sound(b)
  {
    b.packet.body[..b.off]
  }

  ghost predicate AllSound(list: seq<WriteBuffer>) {
    forall i | 0 <= i < |list| :: Sound(list[i])
  }

  ghost predicate Untouched(list: seq<WriteBuffer>) {
    forall i | 0 <= i < |list| :: list[i].off == 0
  }

  /** Only the first buffer of a list may be half written. */
  ghost predicate HeadOnly(list: seq<WriteBuffer>) {
    AllSound(list) && (list != [] ==> Untouched(list[1..]))
  }

  /** What is on the wire of the first buffer of a list. */
  ghost function Begun(list: seq<WriteBuffer>): seq<Byte>
    requires AllSound(list)
  {
    if list == [] then [] else Written(list[0])
  }

  ghost function Size(list: seq<WriteBuffer>): int
    requires AllSound(list)
  {
    if list == [] then 0 else |Rest(list[0])| + Size(list[1..])
  }

  ghost function Packets(list: seq<WriteBuffer>): (ps: seq<Packet>)
    ensures |ps| == |list|
    ensures forall i | 0 <= i < |list| :: ps[i] == list[i].packet
  {
    seq(|list|, i requires 0 <= i < |list| => list[i].packet)
  }

  ghost function Flat(ps: seq<Packet>): seq<Byte> {
    if ps == [] then [] else Flat(ps[..|ps| - 1]) + ps[|ps| - 1].body
  }

  /** The packets that came one way, in order. */
  ghost function Of(v: Via, ps: seq<Packet>): (qs: seq<Packet>)
    ensures (forall i | 0 <= i < |ps| :: ps[i].via != v) ==> qs == []
  {
    if ps == [] then []
    else if ps[|ps| - 1].via == v then Of(v, ps[..|ps| - 1]) + [ps[|ps| - 1]]
    else Of(v, ps[..|ps| - 1])
  }

  lemma {:induction false} OfConcat(v: Via, a: seq<Packet>, b: seq<Packet>)
    ensures Of(v, a + b) == Of(v, a) + Of(v, b)
  {
    if b == [] {
      assert a + b == a;
    } else {
      OfConcat(v, a, b[..|b| - 1]);
      assert (a + b)[..|a + b| - 1] == a + b[..|b| - 1];
    }
  }

  lemma {:induction false} SizeConcat(a: seq<WriteBuffer>, b: seq<WriteBuffer>)
    requires AllSound(a) && AllSound(b)
    ensures AllSound(a + b) && Size(a + b) == Size(a) + Size(b)
  {
    if a == [] {
      assert a + b == b;
    } else {
      SizeConcat(a[1..], b);
      assert (a + b)[1..] == a[1..] + b;
    }
  }

  // ---- writing out a list

  /** What a run of writes does to a list. */
  datatype Drain = Drain(left: seq<WriteBuffer>, sent: seq<Packet>, bytes: seq<Byte>, rest: seq<Outcome>, failed: bool)

  /** The number of bytes of a buffer that a write takes. */
  function Taken(n: nat, b: WriteBuffer): (k: nat)
    requires Sound(b)
    ensures k <= |Rest(b)|
  {
    if n < |Rest(b)| then n else |Rest(b)|
  }

  ghost function Drained(list: seq<WriteBuffer>, out: seq<Outcome>): (d: Drain)
    requires AllSound(list)
    ensures AllSound(d.left) && (d.failed ==> d.left != [])
    ensures list != [] && d.sent == [] ==> d.left != [] && d.left[0].off >= list[0].off
    decreases |out|
  {
    if list == [] || out == [] || out[0].Again? then Drain(list, [], [], if out == [] || list == [] then out else out[1..], false)
    else if out[0].Interrupted? then Drained(list, out[1..])
    else if out[0].Failed? then Drain(list, [], [], out[1..], true)
    else
      var b, k := list[0], Taken(out[0].n, list[0]);
      if k < |Rest(b)| then Drain([b.(off := b.off + k)] + list[1..], [], Rest(b)[..k], out[1..], false)
      else
        var d := Drained(list[1..], out[1..]);
        d.(sent := [b.packet] + d.sent, bytes := Rest(b) + d.bytes)
  }

  lemma {:induction false} FlatCons(p: Packet, ps: seq<Packet>)
    ensures Flat([p] + ps) == p.body + Flat(ps)
  {
    if ps == [] {
      assert [p] + ps == [] + [p];
      FlatSnoc([], p);
    } else {
      var most, last := ps[..|ps| - 1], ps[|ps| - 1];
      FlatCons(p, most);
      FlatSnoc([p] + most, last);
      FlatSnoc(most, last);
      assert ([p] + most) + [last] == [p] + ps && most + [last] == ps;
    }
  }

  lemma EmptyIsFlat()
    ensures Flat([]) == []
  {
  }

  lemma FlatSnoc(ps: seq<Packet>, p: Packet)
    ensures Flat(ps + [p]) == Flat(ps) + p.body
  {
    assert (ps + [p])[..|ps|] == ps;
  }

  lemma {:induction false} FlatConcat(a: seq<Packet>, b: seq<Packet>)
    ensures Flat(a + b) == Flat(a) + Flat(b)
  {
    if b == [] {
      assert a + b == a;
    } else {
      hide Flat;
      var most, last := b[..|b| - 1], b[|b| - 1];
      FlatConcat(a, most);
      FlatSnoc(a + most, last);
      FlatSnoc(most, last);
      assert (a + most) + [last] == a + b && most + [last] == b;
      Joined(Flat(a), Flat(most), last.body);
    }
  }

  lemma Joined(a: seq<Byte>, b: seq<Byte>, c: seq<Byte>)
    ensures (a + b) + c == a + (b + c)
  {
  }

  /** The bytes written are the next bytes of the list: they complete what was begun, then whole packets,
      then the beginning of the one that is left half written. No packet is lost, and the sizes agree. */
  ghost predicate Follows(list: seq<WriteBuffer>, d: Drain) {
    HeadOnly(list) && HeadOnly(d.left) &&
    Packets(list) == d.sent + Packets(d.left) &&
    Begun(list) + d.bytes == Flat(d.sent) + Begun(d.left) &&
    Size(list) == |d.bytes| + Size(d.left)
  }

  lemma {:induction false} DrainFollows(list: seq<WriteBuffer>, out: seq<Outcome>)
    requires HeadOnly(list)
    ensures Follows(list, Drained(list, out))
    decreases |out|
  {
    var d := Drained(list, out);
    if list == [] || out == [] || out[0].Again? || out[0].Failed? {
    } else if out[0].Interrupted? {
      DrainFollows(list, out[1..]);
    } else {
      var b, k := list[0], Taken(out[0].n, list[0]);
      if k < |Rest(b)| {
        AdvanceFollows(list, k);
      } else {
        var e := Drained(list[1..], out[1..]);
        DrainFollows(list[1..], out[1..]);
        WholeFollows(list, e);
      }
    }
  }

  lemma AdvanceFollows(list: seq<WriteBuffer>, k: nat)
    requires HeadOnly(list) && list != [] && k < |Rest(list[0])|
    ensures
      var b := list[0];
      Follows(list, Drain([b.(off := b.off + k)] + list[1..], [], Rest(b)[..k], [], false))
  {
    var b := list[0];
    var left := [b.(off := b.off + k)] + list[1..];
    assert left[1..] == list[1..];
    assert Packets(list) == [] + Packets(left);
    assert Written(b) + Rest(b)[..k] == b.packet.body[..b.off + k];
  }

  lemma WholeBytes(b: WriteBuffer, bytes: seq<Byte>, flat: seq<Byte>, begun: seq<Byte>)
    requires Sound(b) && bytes == flat + begun
    ensures Written(b) + (Rest(b) + bytes) == b.packet.body + flat + begun
  {
    assert Written(b) + Rest(b) == b.packet.body;
  }

  lemma WholeFollows(list: seq<WriteBuffer>, e: Drain)
    requires HeadOnly(list) && list != [] && HeadOnly(list[1..]) && Follows(list[1..], e)
    ensures Follows(list, e.(sent := [list[0].packet] + e.sent, bytes := Rest(list[0]) + e.bytes))
  {
    hide Flat, Size, Packets, Begun;
    var b := list[0];
    HeadIs(list);
    FlatCons(b.packet, e.sent);
    WholeBytes(b, e.bytes, Flat(e.sent), Begun(e.left));
    assert [b.packet] + e.sent + Packets(e.left) == [b.packet] + (e.sent + Packets(e.left));
  }

  lemma HeadIs(list: seq<WriteBuffer>)
    requires HeadOnly(list) && list != []
    ensures AllSound(list) && Sound(list[0]) && AllSound(list[1..])
    ensures Size(list) == |Rest(list[0])| + Size(list[1..]) && Packets(list) == [list[0].packet] + Packets(list[1..])
    ensures Begun(list) == Written(list[0]) && Begun(list[1..]) == []
  {
    hide Packets;
    assert Packets(list) == [list[0].packet] + Packets(list[1..]);
  }

  /** What is still to be drained, seen from the beginning. */
  ghost predicate Continued(d: Drain, wireBefore: seq<Byte>, e: Drain, wire: seq<Byte>, sent: seq<Packet>) {
    d.left == e.left && d.rest == e.rest && d.failed == e.failed && d.sent == sent + e.sent &&
    wireBefore + d.bytes == wire + e.bytes
  }

  lemma BeginsHere(d: Drain, wire: seq<Byte>)
    ensures Continued(d, wire, d, wire, [])
  {
  }

  lemma Proceeds(d: Drain, wireBefore: seq<Byte>, e: Drain, wire: seq<Byte>, sent: seq<Packet>, more: seq<Packet>,
                 bytes: seq<Byte>)
    requires Continued(d, wireBefore, e.(sent := more + e.sent, bytes := bytes + e.bytes), wire, sent)
    ensures Continued(d, wireBefore, e, wire + bytes, sent + more)
  {
    assert sent + (more + e.sent) == (sent + more) + e.sent;
    Joined(wire, bytes, e.bytes);
  }

  lemma StopsHere(d: Drain, wireBefore: seq<Byte>, e: Drain, wire: seq<Byte>, sent: seq<Packet>)
    requires Continued(d, wireBefore, e, wire, sent) && e.sent == []
    ensures d.left == e.left && d.rest == e.rest && d.failed == e.failed && d.sent == sent
    ensures wire + e.bytes == wireBefore + d.bytes
  {
    assert sent + [] == sent;
  }

  lemma EndsHere(d: Drain, wireBefore: seq<Byte>, e: Drain, wire: seq<Byte>, sent: seq<Packet>)
    requires Continued(d, wireBefore, e, wire, sent) && e.sent == [] && e.bytes == []
    ensures d.left == e.left && d.rest == e.rest && d.failed == e.failed && d.sent == sent && wire == wireBefore + d.bytes
  {
    assert sent + [] == sent && wire + [] == wire;
  }

  lemma DrainStep(list: seq<WriteBuffer>, out: seq<Outcome>)
    requires AllSound(list) && list != [] && out != []
    ensures Sound(list[0]) && AllSound(list[1..])
    ensures
      var b, o, d := list[0], out[0], Drained(list, out);
      match o
      case Interrupted => d == Drained(list, out[1..])
      case Again => d == Drain(list, [], [], out[1..], false)
      case Failed => d == Drain(list, [], [], out[1..], true)
      case Took(n) =>
        var k := Taken(n, b);
        if k < |Rest(b)| then d == Drain([b.(off := b.off + k)] + list[1..], [], Rest(b)[..k], out[1..], false)
        else
          var e := Drained(list[1..], out[1..]);
          d == e.(sent := [b.packet] + e.sent, bytes := Rest(b) + e.bytes)
  {
  }

  lemma DrainEnds(list: seq<WriteBuffer>, out: seq<Outcome>)
    requires AllSound(list) && (list == [] || out == [])
    ensures Drained(list, out) == Drain(list, [], [], out, false)
  {
  }

  /** Draining one list and then another is draining them joined. */
  lemma {:induction false} DrainJoined(a: seq<WriteBuffer>, b: seq<WriteBuffer>, out: seq<Outcome>)
    requires AllSound(a) && AllSound(b) && AllSound(a + b)
    ensures
      var d := Drained(a, out);
      if d.failed || d.left != [] then Drained(a + b, out) == d.(left := d.left + b)
      else
        var e := Drained(b, d.rest);
        Drained(a + b, out) == e.(sent := d.sent + e.sent, bytes := d.bytes + e.bytes)
    decreases |out|, 1
  {
    hide Drained, AllSound, Sound;
    if a == [] {
      assert a + b == b;
      DrainEnds(a, out);
    } else if out == [] {
      DrainEnds(a, out);
      DrainEnds(a + b, out);
    } else {
      DrainStep(a, out);
      DrainStep(a + b, out);
      assert (a + b)[0] == a[0] && (a + b)[1..] == a[1..] + b;
      match out[0]
      case Interrupted => DrainJoined(a, b, out[1..]);
      case Took(n) =>
        if Taken(n, a[0]) == |Rest(a[0])| {
          TakenJoined(a, b, out);
        } else {
          var c := a[0].(off := a[0].off + Taken(n, a[0]));
          assert [c] + (a[1..] + b) == ([c] + a[1..]) + b;
        }
      case _ =>
    }
  }

  /** The case that the first buffer is taken whole. */
  lemma {:induction false} TakenJoined(a: seq<WriteBuffer>, b: seq<WriteBuffer>, out: seq<Outcome>)
    requires AllSound(a) && AllSound(b) && AllSound(a + b) && a != [] && out != [] && out[0].Took?
    requires AllSound(a[1..]) && AllSound(a[1..] + b) && Sound(a[0]) && Taken(out[0].n, a[0]) == |Rest(a[0])|
    requires (a + b)[0] == a[0] && (a + b)[1..] == a[1..] + b
    ensures
      var d := Drained(a, out);
      if d.failed || d.left != [] then Drained(a + b, out) == d.(left := d.left + b)
      else
        var e := Drained(b, d.rest);
        Drained(a + b, out) == e.(sent := d.sent + e.sent, bytes := d.bytes + e.bytes)
    decreases |out|, 0
  {
    hide Drained, AllSound, Sound;
    DrainStep(a, out);
    DrainStep(a + b, out);
    DrainJoined(a[1..], b, out[1..]);
    var d := Drained(a[1..], out[1..]);
    if !d.failed && d.left == [] {
      var e := Drained(b, d.rest);
      assert [a[0].packet] + (d.sent + e.sent) == ([a[0].packet] + d.sent) + e.sent;
      Joined(Rest(a[0]), d.bytes, e.bytes);
    }
  }

  /** A packet that nothing of its own way stands behind may as well come last. */
  lemma InsertedIsLast(v: Via, a: seq<Packet>, p: Packet, b: seq<Packet>)
    requires p.via == v ==> Of(v, b) == []
    ensures Of(v, a + [p] + b) == Of(v, a + b) + Of(v, [p])
  {
    OfConcat(v, a + [p], b);
    OfConcat(v, a, [p]);
    OfConcat(v, a, b);
    assert [p][..0] == [];
  }

  /** Per way, what was accepted is what is done followed by what is pending. */
  ghost predicate InOrder(accepted: seq<Packet>, done: seq<Packet>, pending: seq<Packet>) {
    forall v: Via :: Of(v, accepted) == Of(v, done) + Of(v, pending)
  }

  lemma SentInOrder(accepted: seq<Packet>, done: seq<Packet>, pending: seq<Packet>, sent: seq<Packet>, left: seq<Packet>)
    requires InOrder(accepted, done, pending) && pending == sent + left
    ensures InOrder(accepted, done + sent, left)
  {
    hide Of;
    forall v: Via
      ensures Of(v, accepted) == Of(v, done + sent) + Of(v, left)
    {
      OfConcat(v, sent, left);
      OfConcat(v, done, sent);
      assert Of(v, accepted) == Of(v, done) + (Of(v, sent) + Of(v, left));
    }
  }

  lemma AddedInOrder(accepted: seq<Packet>, done: seq<Packet>, a: seq<Packet>, b: seq<Packet>, p: Packet)
    requires InOrder(accepted, done, a + b) && forall i | 0 <= i < |b| :: b[i].via != p.via
    ensures InOrder(accepted + [p], done, a + [p] + b)
  {
    hide Of;
    forall v: Via
      ensures Of(v, accepted + [p]) == Of(v, done) + Of(v, a + [p] + b)
    {
      OfConcat(v, accepted, [p]);
      InsertedIsLast(v, a, p, b);
      assert Of(v, accepted) == Of(v, done) + Of(v, a + b);
    }
  }

  /** A packet written directly goes before everything pending, if that came another way. */
  lemma DirectInOrder(accepted: seq<Packet>, done: seq<Packet>, pending: seq<Packet>, p: Packet)
    requires InOrder(accepted, done, pending) && forall i | 0 <= i < |pending| :: pending[i].via != p.via
    ensures InOrder(accepted + [p], done, [p] + pending)
    ensures InOrder(accepted + [p], done + [p], pending)
  {
    hide InOrder, Of;
    assert [] + pending == pending && [] + [p] + pending == [p] + pending;
    AddedInOrder(accepted, done, [], pending, p);
    SentInOrder(accepted + [p], done, [p] + pending, [p], pending);
  }

  /** At most one packet is partly on the wire, the first one pending. */
  ghost predicate FramedBy(wire: seq<Byte>, done: seq<Packet>, pending: seq<WriteBuffer>) {
    HeadOnly(pending) && wire == Flat(done) + Begun(pending)
  }

  /** After the lists were freed: what was begun then is cut short, and whole packets may follow. */
  ghost predicate FramedLate(wire: seq<Byte>, done: seq<Packet>, torn: seq<Byte>, late: seq<Packet>, tail: seq<Byte>,
                             pending: seq<WriteBuffer>)
  {
    HeadOnly(pending) && wire == Flat(done) + torn + Flat(late) + tail + Begun(pending)
  }

  ghost predicate Sized(size: int, high: seq<WriteBuffer>, low: seq<WriteBuffer>) {
    AllSound(high) && AllSound(low) && size == Size(high) + Size(low)
  }

  lemma DirectFrames(wire: seq<Byte>, done: seq<Packet>, pending: seq<WriteBuffer>, p: Packet, k: nat)
    requires FramedBy(wire, done, pending) && Untouched(pending) && k <= |p.body|
    ensures k == |p.body| ==> FramedBy(wire + p.body[..k], done + [p], pending)
    ensures k < |p.body| ==> FramedBy(wire + p.body[..k], done, [WriteBuffer(p, k)] + pending)
  {
    hide Flat;
    FlatSnoc(done, p);
    assert Begun(pending) == [];
    assert ([WriteBuffer(p, k)] + pending)[1..] == pending;
  }

  lemma DirectSourced(accepted: seq<Packet>, done: seq<Packet>, late: seq<Packet>, torn: seq<Byte>, p: Packet, k: nat)
    requires Sourced(accepted, done, late, torn, [], [])
    ensures Sourced(accepted + [p], done, late + [p], torn, [], [])
    ensures Sourced(accepted + [p], done, late, torn, [], [WriteBuffer(p, k)])
  {
  }

  lemma DirectFramesLate(wire: seq<Byte>, done: seq<Packet>, torn: seq<Byte>, late: seq<Packet>, p: Packet, k: nat)
    requires FramedLate(wire, done, torn, late, [], []) && k <= |p.body|
    ensures k == |p.body| ==> FramedLate(wire + p.body[..k], done, torn, late + [p], [], [])
    ensures k < |p.body| ==> FramedLate(wire + p.body[..k], done, torn, late, [], [WriteBuffer(p, k)])
  {
    hide Flat;
    FlatSnoc(late, p);
    assert Begun([]) == [];
  }

  ghost predicate AllLow(list: seq<WriteBuffer>) {
    forall i | 0 <= i < |list| :: list[i].packet.via == Low
  }

  ghost predicate NoDirect(list: seq<WriteBuffer>) {
    forall i | 0 <= i < |list| :: list[i].packet.via != Direct
  }

  // ---- what can be seen of a run

  datatype Step =
    | TryDirect(body: seq<Byte>) | DirectWrite(outcome: Outcome)
    | Send(body: seq<Byte>, lowPriority: bool) | Writable(out: seq<Outcome>)
    | Start | Report(success: bool) | Close(shutdown: bool, out: seq<Outcome>) | Decide | ReadFailed | EndClose

  /** `busy` is dw_buffer != NULL. */
  datatype Moment =
    Moment(wire: seq<Byte>, accepted: seq<Packet>, done: seq<Packet>, begun: Option<Packet>, busy: bool, open: bool)

  function BegunOf(list: seq<WriteBuffer>): Option<Packet> {
    if list != [] && list[0].off > 0 then Some(list[0].packet) else None
  }

  /** The wire and the finished packets only grow, and a begun packet is the next to be finished. */
  ghost predicate Continues(a: Moment, b: Moment) {
    a.wire <= b.wire && a.accepted <= b.accepted && a.done <= b.done && (b.open ==> a.open) &&
    (b.open && a.begun.Some? ==> if b.done == a.done then b.begun == a.begun else b.done[|a.done|] == a.begun.value)
  }

  /** A row of whole packets, followed by the beginning of at most one, all of them accepted. */
  ghost predicate Whole(wire: seq<Byte>, accepted: seq<Packet>) {
    exists row, part :: RowOf(wire, accepted, row, part)
  }

  ghost predicate RowOf(wire: seq<Byte>, accepted: seq<Packet>, row: seq<Packet>, part: seq<Byte>) {
    (forall p | p in row :: p in accepted) && PartOf(part, accepted) && wire == Flat(row) + part
  }

  ghost predicate PartOf(part: seq<Byte>, accepted: seq<Packet>) {
    part == [] || exists p :: p in accepted && part <= p.body
  }

  /** The lists were freed with a packet begun that no worker had left in dw_buffer. */
  predicate Freed(a: Moment, b: Moment) {
    a.open && !b.open && a.begun.Some? && !a.busy && b.wire == a.wire
  }

  /** Whatever is on the wire, or still to come, was accepted. */
  ghost predicate Sourced(accepted: seq<Packet>, done: seq<Packet>, late: seq<Packet>, torn: seq<Byte>, tail: seq<Byte>,
                          pending: seq<WriteBuffer>)
  {
    (forall p | p in done || p in late :: p in accepted) && (forall b | b in pending :: b.packet in accepted) &&
    PartOf(torn, accepted) && PartOf(tail, accepted)
  }

  lemma OpenSourced(accepted: seq<Packet>, done: seq<Packet>, pending: seq<WriteBuffer>)
    requires InOrder(accepted, done, Packets(pending))
    ensures Sourced(accepted, done, [], [], [], pending)
  {
    var all := done + Packets(pending);
    forall p | p in all
      ensures p in accepted
    {
      OfHas(all, p);
      OfHas(accepted, p);
      OfConcat(p.via, done, Packets(pending));
    }
    forall i | 0 <= i < |pending|
      ensures pending[i].packet in all
    {
      assert Packets(pending)[i] in Packets(pending);
    }
  }

  lemma {:induction false} OfHas(ps: seq<Packet>, p: Packet)
    ensures p in ps <==> p in Of(p.via, ps)
  {
    if ps != [] {
      OfHas(ps[..|ps| - 1], p);
    }
  }

  /** What is begun of pending packets is a part of an accepted one. */
  lemma BegunIsPart(accepted: seq<Packet>, list: seq<WriteBuffer>)
    requires AllSound(list) && forall b | b in list :: b.packet in accepted
    ensures PartOf(Begun(list), accepted)
  {
    if list != [] {
      assert list[0].packet in accepted && Begun(list) <= list[0].packet.body;
    }
  }

  // ---- the socket

  class Socket {
    var high: seq<WriteBuffer>
    var low: seq<WriteBuffer>
    var wbSize: int
    var kind: Kind
    // what a worker could not write directly
    var dw: Option<WriteBuffer>
    // the packet of the worker that has the lock and is about to write
    var checked: Option<Packet>
    // force_close has freed the lists and waits for the lock
    var closing: bool
    // close_socket has sent what it could, and is about to decide how to close
    var deciding: Option<bool>
    // the assertion of send_buffer_ failed
    var aborted: bool

    ghost var accepted: seq<Packet>
    ghost var done: seq<Packet>
    ghost var wire: seq<Byte>
    // the begun part of a packet freed with the lists, what workers wrote whole after that, and the begun part
    // of a packet freed last
    ghost var torn: seq<Byte>
    ghost var late: seq<Packet>
    ghost var tail: seq<Byte>

    ghost function Pending(): seq<WriteBuffer>
      reads this
    {
      Unsent() + high + low
    }

    ghost function Unsent(): seq<WriteBuffer>
      reads this
    {
      if dw.Some? then [dw.value] else []
    }

    predicate Open()
      reads this
    {
      !closing && kind != Invalid
    }

    ghost predicate Framed()
      reads this
    {
      (kind != Invalid ==> tail == []) &&
      if Open() then FramedBy(wire, done, Pending()) && Untouched(low) && torn == [] && late == []
      else high == [] && low == [] && FramedLate(wire, done, torn, late, tail, Pending())
    }

    ghost predicate Accounted()
      reads this
    {
      Open() ==> Sized(wbSize, high, low) && InOrder(accepted, done, Packets(Pending()))
    }

    ghost predicate Valid()
      reads this
    {
      Framed() && Accounted() && (!Open() ==> Sourced(accepted, done, late, torn, tail, Pending())) &&
      (deciding.Some? ==> Open() && !aborted) &&
      AllLow(low) &&
      (kind == Invalid ==> !closing && checked.None? && dw.None?) &&
      (checked.Some? ==> dw.None? && Untouched(high) && NoDirect(high) && checked.value.via == Direct)
    }

    /** While a worker is about to write, nothing is begun, and everything pending came through the pipe. */
    lemma WhileChecked()
      requires Valid() && checked.Some?
      ensures Pending() == high + low && Untouched(Pending()) && NoDirect(Pending())
    {
      hide FramedBy, FramedLate, InOrder, Sized;
    }

    constructor (kind: Kind)
      requires kind == PAccept || kind == Listening || kind == Connecting
      ensures Valid() && Open() && !aborted && this.kind == kind && NoMoreSendData() && checked.None? && deciding.None?
      ensures wire == [] && accepted == [] && done == [] && torn == []
    {
      high, low, wbSize, dw, checked, closing, deciding, aborted := [], [], 0, None, None, false, None, false;
      accepted, done, wire, torn, late, tail := [], [], [], [], [], [];
      this.kind := kind;
    }

    predicate NoMoreSendData()
      reads this
    {
      high == [] && low == [] && dw.None?
    }

    predicate CanDirectWrite()
      reads this
    {
      NoMoreSendData() && kind == Connected
    }

    /** A worker takes the lock and checks again. */
    method TryDirect(body: seq<Byte>) returns (ok: bool)
      requires Valid()
      modifies this`checked
      ensures Valid() && ok == old(checked.None? && CanDirectWrite())
      ensures checked == if ok then Some(Packet(body, Direct)) else old(checked)
      ensures Continues(old(Now()), Now())
    {
      ok := checked.None? && CanDirectWrite();
      if ok {
        checked := Some(Packet(body, Direct));
      }
    }

    /** The worker writes what the kernel takes, leaves the rest to the socket thread, and unlocks. */
    method DirectWrite(outcome: Outcome)
      requires Valid() && checked.Some?
      modifies `checked, `accepted, `wire, `done, `late, `dw
      ensures Valid() && checked.None?
      ensures
        var p := old(checked).value;
        var k := if outcome.Took? then Taken(outcome.n, WriteBuffer(p, 0)) else 0;
        wire == old(wire) + p.body[..k] && accepted == old(accepted) + [p] &&
        dw == (if k == |p.body| then None else Some(WriteBuffer(p, k))) &&
        done == (if k == |p.body| && Open() then old(done) + [p] else old(done)) &&
        late == (if k == |p.body| && !Open() then old(late) + [p] else old(late))
    {
      hide FramedBy, FramedLate, InOrder, Sized, Untouched, NoDirect, AllLow, Packets, Sourced;
      var p := checked.value;
      var k := if outcome.Took? then Taken(outcome.n, WriteBuffer(p, 0)) else 0;
      WhileChecked();
      ghost var was := Pending();
      if Open() {
        DirectFrames(wire, done, was, p, k);
        DirectFirst(accepted, done, was, WriteBuffer(p, k));
      } else {
        assert was == [];
        DirectFramesLate(wire, done, torn, late, p, k);
        DirectSourced(accepted, done, late, torn, p, k);
      }
      checked := None;
      accepted := accepted + [p];
      wire := wire + p.body[..k];
      if k == |p.body| {
        if Open() {
          done := done + [p];
        } else {
          late := late + [p];
        }
      } else {
        dw := Some(WriteBuffer(p, k));
        assert Pending() == [dw.value] + was;
        assert was == [] ==> Pending() == [dw.value];
      }
    }

    /** The socket thread takes a send request from the pipe; it holds no lock. */
    method SendSocket(body: seq<Byte>, lowPriority: bool) returns (ok: bool)
      requires Valid() && !closing && !aborted
      modifies this`high, this`low, this`wbSize, this`accepted
      ensures Valid() && ok == (kind == Connecting || kind == Connected)
      ensures !ok ==> high == old(high) && low == old(low) && wbSize == old(wbSize) && accepted == old(accepted)
      ensures Continues(old(Now()), Now())
      ensures
        var p := Packet(body, if lowPriority then Low else High);
        var toHigh := (old(high == [] && low == []) && kind == Connected) || !lowPriority;
        ok ==>
          accepted == old(accepted) + [p] &&
          high == (if toHigh then old(high) + [WriteBuffer(p, 0)] else old(high)) &&
          low == (if toHigh then old(low) else old(low) + [WriteBuffer(p, 0)])
    {
      if kind == Invalid || kind == HalfClose || kind == PAccept || kind == Listening {
        return false;
      }
      var p := Packet(body, if lowPriority then Low else High);
      if high == [] && low == [] && kind == Connected {
        AppendSendBuffer(p);
      } else if lowPriority {
        AppendSendBufferLow(p);
      } else {
        AppendSendBuffer(p);
      }
      return true;
    }

    method AppendSendBuffer(p: Packet)
      requires Valid() && Open() && (p.via == High || (p.via == Low && low == []))
      modifies this`high, this`wbSize, this`accepted
      ensures Valid() && high == old(high) + [WriteBuffer(p, 0)] && accepted == old(accepted) + [p]
    {
      hide FramedBy, FramedLate, InOrder, Sized, Packets;
      var b := WriteBuffer(p, 0);
      AppendFrames(wire, done, Unsent() + high, b, low);
      AppendSizes(wbSize, high, low, b);
      AppendInOrder(accepted, done, Unsent() + high, b, low);
      high := high + [b];
      assert Pending() == (Unsent() + old(high)) + [b] + low;
      accepted := accepted + [p];
      wbSize := wbSize + |p.body|;
    }

    method AppendSendBufferLow(p: Packet)
      requires Valid() && Open() && p.via == Low
      modifies this`low, this`wbSize, this`accepted
      ensures Valid() && low == old(low) + [WriteBuffer(p, 0)] && accepted == old(accepted) + [p]
    {
      hide FramedBy, FramedLate, InOrder, Sized, Packets;
      var b := WriteBuffer(p, 0);
      ghost var was := Pending();
      assert was + [] == was;
      AppendFrames(wire, done, was, b, []);
      AppendSizes(wbSize, high, low, b);
      AppendInOrder(accepted, done, was, b, []);
      low := low + [b];
      assert Pending() == was + [b] + [];
      accepted := accepted + [p];
      wbSize := wbSize + |p.body|;
    }

    /** send_list_tcp, on either list */
    method SendList(list: seq<WriteBuffer>, out: seq<Outcome>)
      returns (left: seq<WriteBuffer>, rest: seq<Outcome>, failed: bool, ghost sent: seq<Packet>)
      requires AllSound(list)
      modifies this`wbSize, this`wire
      ensures
        var d := Drained(list, out);
        left == d.left && rest == d.rest && failed == d.failed && sent == d.sent &&
        wire == old(wire) + d.bytes && wbSize == old(wbSize) - |d.bytes|
    {
      hide Drained, AllSound, Continued;
      left, rest, failed, sent := list, out, false, [];
      ghost var d, from := Drained(list, out), wire;
      BeginsHere(d, from);
      while left != [] && rest != []
        invariant AllSound(left)
        invariant !failed && Continued(d, from, Drained(left, rest), wire, sent)
        invariant wbSize == old(wbSize) - (|wire| - |from|)
        decreases |rest|
      {
        DrainStep(left, rest);
        ghost var e := Drained(left, rest);
        var o := rest[0];
        var b := left[0];
        rest := rest[1..];
        if o.Failed? {
          failed := true;
          EndsHere(d, from, e, wire, sent);
          return;
        } else if o.Again? {
          EndsHere(d, from, e, wire, sent);
          return;
        } else if o.Took? {
          var k := Taken(o.n, b);
          wbSize := wbSize - k;
          if k != |Rest(b)| {
            left := [b.(off := b.off + k)] + left[1..];
            StopsHere(d, from, e, wire, sent);
            wire := wire + Rest(b)[..k];
            return;
          }
          left := left[1..];
          Proceeds(d, from, Drained(left, rest), wire, sent, [b.packet], Rest(b));
          wire := wire + Rest(b);
          sent := sent + [b.packet];
        }
      }
      DrainEnds(left, rest);
      EndsHere(d, from, Drained(left, rest), wire, sent);
    }

    /** send_buffer: nothing is sent while a worker has the lock; what a worker left goes first. */
    method SendBuffer(out: seq<Outcome>) returns (closed: bool)
      requires Valid() && Open() && !aborted && deciding.None?
      modifies `high, `low, `wbSize, `wire, `done, `dw, `kind, `tail, `aborted
      ensures Valid()
      ensures if closed then kind == Invalid else kind == old(kind) && !closing
      ensures old(checked).Some? ==>
                !closed && high == old(high) && low == old(low) && dw == old(dw) && wire == old(wire) && done == old(done) &&
                kind == old(kind) && !aborted
      ensures old(checked).None? ==>
                Flushed(old(Pending()), |old(Unsent() + high)|, old(kind), old(wire), old(done), out, closed)
      ensures Continues(old(Now()), Now())
    {
      hide FramedBy, FramedLate, Sized, InOrder, Untouched, AllLow, Packets, Drained, Begun, Sourced, NoDirect, HeadOnly;
      if checked.Some? {
        return false;
      }
      hide Continues, BegunOf;
      ghost var pending, before := Pending(), Now();
      if dw.Some? {
        PutBack();
      }
      FlushContinues(wire, done, pending, out);
      closed := SendBothLists(out);
      DrainContinues(before, Now(), pending, Drained(pending, out));
    }

    /** What sending leaves behind: the pending packets, in their order, were written as far as the kernel took
        them. The first n come before the low list. */
    ghost predicate Flushed(pending: seq<WriteBuffer>, n: nat, kindBefore: Kind, wireBefore: seq<Byte>,
                            doneBefore: seq<Packet>, out: seq<Outcome>, closed: bool)
      requires AllSound(pending)
      reads this
    {
      var d := Drained(pending, out);
      dw.None? && !closing &&
      wire == wireBefore + d.bytes && done == doneBefore + d.sent &&
      (closed <==> d.failed || (d.left == [] && kindBefore == HalfClose)) &&
      (if closed then kind == Invalid && tail == Begun(d.left) else kind == kindBefore && Pending() == d.left) &&
      (aborted <==> !d.failed && n <= |d.sent| && d.left != [] && Untouched(d.left))
    }

    method PutBack()
      requires Valid() && Open() && dw.Some?
      modifies this`high, this`dw, this`wbSize
      ensures Valid() && dw.None? && high == [old(dw).value] + old(high) && Pending() == old(Pending())
    {
      hide FramedBy, FramedLate, InOrder, Packets, Untouched, AllLow, NoDirect;
      ghost var was := Pending();
      var b := dw.value;
      assert Sound(b) by { PendingIsSound(wire, done, was, 0); }
      SizeConcat([b], high);
      wbSize := wbSize + |Rest(b)|;
      high := [b] + high;
      dw := None;
      assert Pending() == was;
    }

    /** force_close by the thread that has the lock: what was not written is freed. */
    method ForceClose(ghost left: seq<WriteBuffer>)
      requires Open() && checked.None? && dw.None? && deciding.None? && torn == [] && late == [] && tail == []
      requires FramedBy(wire, done, left) && InOrder(accepted, done, Packets(left))
      modifies `high, `low, `kind, `tail
      ensures Valid() && kind == Invalid && tail == Begun(left)
    {
      hide Flat, InOrder;
      OpenSourced(accepted, done, left);
      BegunIsPart(accepted, left);
      high, low, kind, tail := [], [], Invalid, Begun(left);
      assert Pending() == [] && Flat(late) == [] by { EmptyIsFlat(); }
    }

    /** send_buffer_ */
    method SendBothLists(out: seq<Outcome>) returns (closed: bool)
      requires Valid() && Open() && !aborted && dw.None? && checked.None? && deciding.None?
      modifies `high, `low, `wbSize, `wire, `done, `kind, `tail, `aborted
      ensures Valid()
      ensures Flushed(old(Pending()), |old(high)|, old(kind), old(wire), old(done), out, closed)
    {
      hide FramedBy, FramedLate, Sized, InOrder, Drained, Untouched, AllLow, HeadOnly, Packets, Begun;
      ghost var pending := Pending();
      assert pending == high + low;
      FlushFrames(wire, done, accepted, pending, out);
      ghost var d := Drained(pending, out);
      var failed := SendLists(out);
      if failed {
        ForceClose(d.left);
        return true;
      }
      assert Pending() == d.left;
      AboutSizes(wbSize, high, low);
      AboutUntouched(d.left);
      if high == [] {
        if !(low == [] && wbSize == 0) {
          aborted := true;
        } else if kind == HalfClose {
          ForceClose([]);
          return true;
        }
      }
      return false;
    }

    /** The first three steps of send_buffer_: the high list, the low list once that is empty, and the head of the
        low list that was half written goes to the high list. */
    method SendLists(out: seq<Outcome>) returns (failed: bool)
      requires HeadOnly(high + low) && Sized(wbSize, high, low) && Untouched(low) && AllLow(low)
      modifies this`high, this`low, this`wbSize, this`wire, this`done
      ensures
        var d := Drained(old(high + low), out);
        wire == old(wire) + d.bytes && done == old(done) + d.sent && failed == d.failed &&
        (!failed ==>
           high + low == d.left && Sized(wbSize, high, low) && Untouched(low) && AllLow(low) &&
           (high == [] && low != [] <==> |old(high)| <= |d.sent| && d.left != [] && Untouched(d.left)))
    {
      hide Sized, Drained, Untouched, AllLow, HeadOnly, Packets, Begun;
      JoinedLists(wbSize, high, low, out);
      AboutUntouched(low);
      assert low == [] || low[0].off == 0;
      var rest;
      ghost var sent, sentLow;
      high, rest, failed, sent := SendList(high, out);
      done := done + sent;
      if !failed && high == [] && low != [] {
        low, rest, failed, sentLow := SendList(low, rest);
        done := done + sentLow;
        AboutTheHead(wbSize, low);
        if !failed && low != [] && low[0].off != 0 {
          AboutUntouched(low);
          RaiseUncomplete();
        }
      }
    }

    /** A low packet that was begun goes to the empty high list: what is to be sent, and in which order, stays the same,
        and no packet of the low list is begun any more. */
    method RaiseUncomplete()
      requires high == [] && low != [] && HeadOnly(low) && AllLow(low) && Sized(wbSize, [], low)
      modifies `high, `low
      ensures high != [] && high + low == old(low) && Untouched(low) && AllLow(low) && Sized(wbSize, high, low)
    {
      hide HeadOnly, AllLow, Sized, Untouched;
      AboutTheHead(wbSize, low);
      high, low := [low[0]], low[1..];
    }

    /** start_socket */
    method Start()
      requires Valid() && !closing && !aborted
      modifies this`kind
      ensures Valid() && kind == if old(kind) == PAccept then Connected else old(kind)
      ensures Continues(old(Now()), Now())
    {
      hide FramedBy, FramedLate, Sized, InOrder, Packets, Untouched, AllLow, NoDirect;
      if kind == PAccept {
        kind := Connected;
      }
    }

    /** report_connect */
    method ReportConnect(ok: bool)
      requires Valid() && !closing && !aborted && deciding.None? && kind == Connecting
      modifies `kind, `high, `low, `closing, `torn
      ensures Valid()
      ensures if ok then kind == Connected && high == old(high) && low == old(low) && !closing else closing && kind == old(kind)
      ensures torn != [] ==> !ok && Freed(old(Now()), Now()) && wire == Flat(done) + torn
      ensures Continues(old(Now()), Now())
    {
      hide FramedBy, FramedLate, Sized, InOrder, Packets, Untouched, AllLow, NoDirect;
      if ok {
        kind := Connected;
      } else {
        BeginClose();
      }
    }

    /** force_close without the lock: the lists are freed before the lock is taken. */
    method BeginClose()
      requires Valid() && Open() && !aborted && deciding.None?
      modifies `high, `low, `closing, `torn
      ensures Valid() && closing && high == [] && low == []
      ensures torn == if dw.Some? then [] else old(Begun(high))
      ensures torn == [] <==> dw.Some? || old(high) == [] || old(high[0]).off == 0
      ensures torn != [] ==> Freed(old(Now()), Now()) && wire == Flat(done) + torn
      ensures Continues(old(Now()), Now())
    {
      hide FramedBy, FramedLate, Sized, InOrder, Packets, Begun, Sourced;
      FreedFrames(wire, done, Unsent(), high, low);
      FreedSourced(accepted, done, Unsent(), high, low);
      FreedHead(wire, done, Unsent(), high, low);
      torn := if dw.Some? then [] else Begun(high);
      high, low, closing := [], [], true;
      assert Pending() == Unsent();
    }

    /** force_close once it has the lock */
    method EndClose()
      requires Valid() && closing && checked.None?
      modifies this`kind, this`closing, this`dw, this`tail
      ensures Valid() && kind == Invalid && tail == old(Begun(Pending()))
      ensures Continues(old(Now()), Now())
    {
      hide Flat, Begun, HeadOnly, FramedBy, FramedLate, Sized, InOrder, Packets, Untouched, AllLow, NoDirect;
      assert AllSound(Pending()) by { LastFrame(wire, done, torn, late, Pending()); }
      BegunIsPart(accepted, Pending());
      LastFrame(wire, done, torn, late, Pending());
      tail := Begun(Pending());
      kind, closing, dw := Invalid, false, None;
      assert Pending() == [];
    }

    /** close_socket, up to the unlock of send_buffer: what is pending is sent first. */
    method CloseSocket(shutdown: bool, out: seq<Outcome>)
      requires Valid() && Open() && !aborted && deciding.None?
      modifies `high, `low, `wbSize, `wire, `done, `dw, `kind, `tail, `aborted, `deciding
      ensures Valid()
      ensures deciding == if kind == Invalid || aborted then None else Some(shutdown)
      ensures old(NoMoreSendData() || checked.Some?) ==>
                deciding.Some? && high == old(high) && low == old(low) && dw == old(dw) && wire == old(wire) &&
                done == old(done) && kind == old(kind)
      ensures !old(NoMoreSendData()) && checked.None? ==>
                Flushed(old(Pending()), |old(Unsent() + high)|, old(kind), old(wire), old(done), out, kind == Invalid)
      ensures Continues(old(Now()), Now())
    {
      hide FramedBy, FramedLate, Sized, InOrder, Untouched, AllLow, NoDirect, Packets, Continues, Drained, Begun, Sourced;
      SameContinues(Now());
      if !NoMoreSendData() {
        var closed := SendBuffer(out);
        if closed || aborted {
          return;
        }
      }
      deciding := Some(shutdown);
    }

    /** The rest of close_socket, without the lock: a socket that has to wait for its packets is closed by halves. */
    method Decide()
      requires Valid() && deciding.Some?
      modifies `high, `low, `closing, `torn, `kind, `deciding
      ensures Valid() && deciding.None? && closing == old(deciding.value || NoMoreSendData())
      ensures if closing then kind == old(kind) else kind == HalfClose && high == old(high) && low == old(low)
      ensures torn != [] ==> old(deciding.value) && Freed(old(Now()), Now()) && wire == Flat(done) + torn
      ensures Continues(old(Now()), Now())
    {
      hide FramedBy, FramedLate, Sized, InOrder, Untouched, AllLow, NoDirect, Packets, Begun, Sourced;
      var shutdown := deciding.value;
      deciding := None;
      if shutdown || NoMoreSendData() {
        BeginClose();
      } else {
        kind := HalfClose;
      }
    }

    /** What an observer of the wire can tell. */
    ghost function Now(): (m: Moment)
      ensures m.open == Open() && m.wire == wire && m.accepted == accepted
      reads this
    {
      Moment(wire, accepted, done, BegunOf(Pending()), dw.Some?, Open())
    }

    /** Nothing is begun when a worker writes. */
    method WriteUnobserved(outcome: Outcome)
      requires Valid() && checked.Some?
      modifies `checked, `accepted, `wire, `done, `late, `dw
      ensures Valid() && Continues(old(Now()), Now()) && (!Open() ==> done == old(done))
      ensures checked.None? && accepted == old(accepted) + [old(checked).value]
    {
      hide Valid, Continues, Untouched;
      WhileChecked();
      AboutUntouched(Pending());
      ghost var before := Now();
      DirectWrite(outcome);
      NothingBegunContinues(before, Now());
    }

    /** One step of one thread, if it can be taken. */
    method Take(step: Step)
      requires Valid()
      modifies this
      ensures Valid() && Continues(old(Now()), Now())
      ensures old(torn) != [] ==> torn == old(torn) && done == old(done)
      ensures old(torn) == [] && torn != [] ==> Freed(old(Now()), Now()) && wire == Flat(done) + torn
      ensures accepted == old(accepted) + old(Given(step)) && checked == old(CheckedAfter(step))
      ensures step.Writable? && old(Ready() && checked.None?) ==>
                Flushed(old(Pending()), |old(Unsent() + high)|, old(kind), old(wire), old(done), step.out, kind == Invalid)
    {
      hide Valid, Now, Continues, Flushed, Freed, Flat;
      SameContinues(Now());
      TornIsClosed();
      var ok;
      match step
      case DirectWrite(outcome) =>
        if checked.Some? {
          WriteUnobserved(outcome);
        }
      case TryDirect(body) => ok := TryDirect(body);
      case EndClose =>
        if closing && checked.None? {
          EndClose();
        }
      case Decide =>
        if deciding.Some? {
          Decide();
        }
      case Send(body, lowPriority) =>
        if Ready() {
          ok := SendSocket(body, lowPriority);
        }
      case Writable(out) =>
        if Ready() {
          ok := SendBuffer(out);
        }
      case Start =>
        if Ready() {
          Start();
        }
      case Report(success) =>
        if Ready() && kind == Connecting {
          ReportConnect(success);
        }
      case Close(shutdown, out) =>
        if Ready() {
          CloseSocket(shutdown, out);
        }
      case ReadFailed =>
        if Ready() {
          BeginClose();
        }
    }

    /** The packet that a step brings: a worker's write, or a send request for a socket that can still send. */
    function Given(step: Step): seq<Packet>
      reads this
    {
      match step
      case DirectWrite(_) => if checked.Some? then [checked.value] else []
      case Send(body, lowPriority) =>
        if Ready() && (kind == Connecting || kind == Connected) then [Packet(body, if lowPriority then Low else High)] else []
      case _ => []
    }

    /** A worker takes the lock for a packet when nothing is pending, and gives it back when it has written. */
    function CheckedAfter(step: Step): Option<Packet>
      reads this
    {
      match step
      case TryDirect(body) => if checked.None? && CanDirectWrite() then Some(Packet(body, Direct)) else checked
      case DirectWrite(_) => None
      case _ => checked
    }

    /** The socket thread can take up this socket. */
    predicate Ready()
      reads this
    {
      Open() && !aborted && deciding.None?
    }

    lemma TornIsClosed()
      requires Valid()
      ensures torn != [] ==> !Open() && deciding.None?
    {
      hide FramedBy, FramedLate, InOrder, Sized, Packets, Sourced, Untouched, AllLow, NoDirect;
    }
  }

  lemma PendingIsSound(wire: seq<Byte>, done: seq<Packet>, pending: seq<WriteBuffer>, i: nat)
    requires FramedBy(wire, done, pending) && i < |pending|
    ensures Sound(pending[i])
  {
  }

  /** Sending keeps the frame and the order. */
  lemma FlushFrames(wire: seq<Byte>, done: seq<Packet>, accepted: seq<Packet>, pending: seq<WriteBuffer>, out: seq<Outcome>)
    requires FramedBy(wire, done, pending) && InOrder(accepted, done, Packets(pending))
    ensures HeadOnly(pending) && AllSound(pending)
    ensures
      var d := Drained(pending, out);
      FramedBy(wire + d.bytes, done + d.sent, d.left) && InOrder(accepted, done + d.sent, Packets(d.left))
  {
    hide InOrder, Flat, Drained, Packets, Begun;
    var d := Drained(pending, out);
    DrainFollows(pending, out);
    FlatConcat(done, d.sent);
    SentInOrder(accepted, done, Packets(pending), d.sent, Packets(d.left));
    assert (Flat(done) + Begun(pending)) + d.bytes == Flat(done) + (Begun(pending) + d.bytes);
  }

  /** Sending the high list, and the low list once that is empty, is sending them joined. */
  lemma JoinedLists(size: int, high: seq<WriteBuffer>, low: seq<WriteBuffer>, out: seq<Outcome>)
    requires Sized(size, high, low) && HeadOnly(high + low) && Untouched(low)
    ensures AllSound(high) && AllSound(low)
    ensures
      var d, h := Drained(high + low, out), Drained(high, out);
      var l := Drained(low, h.rest);
      if h.failed || h.left != [] || low == [] then
        d.left == h.left + low && d.sent == h.sent && d.bytes == h.bytes && d.failed == h.failed &&
        Sized(size - |d.bytes|, h.left, low) && (|d.sent| < |high| <==> h.left != [])
      else
        d.left == l.left && d.sent == h.sent + l.sent && d.bytes == h.bytes + l.bytes && d.failed == l.failed &&
        |high| <= |d.sent| && Sized(size - |d.bytes|, [], l.left) && HeadOnly(l.left) && (AllLow(low) ==> AllLow(l.left))
  {
    hide Drained, Begun, Flat, Packets, AllLow, Sound;
    HeadOfJoined(high, low);
    DrainJoined(high, low, out);
    DrainFollows(high, out);
    DrainFollows(low, Drained(high, out).rest);
    StillLow(low, Drained(low, Drained(high, out).rest));
    DrainedEmpty(Drained(high, out).rest);
  }

  lemma DrainedEmpty(out: seq<Outcome>)
    ensures Drained([], out) == Drain([], [], [], out, false)
  {
  }

  lemma StillLow(list: seq<WriteBuffer>, d: Drain)
    requires Follows(list, d)
    ensures AllLow(list) ==> AllLow(d.left)
  {
    forall i | 0 <= i < |d.left|
      ensures d.left[i].packet == list[|d.sent| + i].packet
    {
      assert Packets(d.left)[i] == Packets(list)[|d.sent| + i];
    }
  }

  lemma AboutTheHead(size: int, list: seq<WriteBuffer>)
    requires Sized(size, [], list) && HeadOnly(list) && AllLow(list)
    ensures list != [] ==> Sized(size, [list[0]], list[1..]) && Untouched(list[1..]) && AllLow(list[1..])
    ensures list == [] || list[0].off == 0 ==> Untouched(list)
  {
    if list != [] {
      assert [list[0]] + list[1..] == list;
      SizeConcat([list[0]], list[1..]);
      forall i | 0 < i < |list|
        ensures list[i].off == 0
      {
        assert list[i] == list[1..][i - 1];
      }
    }
  }

  lemma AboutUntouched(list: seq<WriteBuffer>)
    ensures Untouched(list) && list != [] ==> list[0].off == 0
  {
  }

  lemma AboutSizes(size: int, high: seq<WriteBuffer>, low: seq<WriteBuffer>)
    requires Sized(size, high, low)
    ensures high == [] && low == [] ==> size == 0
  {
  }

  lemma HeadOfJoined(high: seq<WriteBuffer>, low: seq<WriteBuffer>)
    requires HeadOnly(high + low) && Untouched(low)
    ensures HeadOnly(high) && HeadOnly(low) && AllSound(high + low)
  {
    assert forall i | 0 <= i < |high| :: high[i] == (high + low)[i];
    assert high != [] ==> (high + low)[1..] == high[1..] + low;
    assert high != [] ==> forall i | 0 <= i < |high[1..]| :: high[1..][i] == (high[1..] + low)[i];
    assert forall i | 0 <= i < |low| :: low[i] == (high + low)[|high| + i];
  }

  /** What was begun when the sending started is finished first, or begun still. */
  lemma FlushContinues(wire: seq<Byte>, done: seq<Packet>, pending: seq<WriteBuffer>, out: seq<Outcome>)
    requires FramedBy(wire, done, pending)
    ensures AllSound(pending)
    ensures
      var d := Drained(pending, out);
      pending != [] ==>
        if d.sent == [] then d.left != [] && d.left[0].packet == pending[0].packet && d.left[0].off >= pending[0].off
        else d.sent[0] == pending[0].packet
  {
    hide Drained, Begun;
    var d := Drained(pending, out);
    DrainFollows(pending, out);
    assert pending != [] ==> Packets(pending)[0] == (d.sent + Packets(d.left))[0];
  }

  lemma DrainContinues(a: Moment, b: Moment, pending: seq<WriteBuffer>, d: Drain)
    requires b.wire == a.wire + d.bytes && b.done == a.done + d.sent && b.accepted == a.accepted && (b.open ==> a.open)
    requires a.begun == BegunOf(pending) && (b.open ==> b.begun == BegunOf(d.left))
    requires pending != [] ==>
               if d.sent == [] then d.left != [] && d.left[0].packet == pending[0].packet && d.left[0].off >= pending[0].off
               else d.sent[0] == pending[0].packet
    ensures Continues(a, b)
  {
  }

  lemma BegunIsHead(unsent: seq<WriteBuffer>, high: seq<WriteBuffer>, low: seq<WriteBuffer>)
    requires HeadOnly(unsent + high + low) && Untouched(low) && |unsent| <= 1
    ensures AllSound(high) && HeadOnly(unsent)
    ensures Begun(unsent + high + low) == if unsent == [] then Begun(high) else Begun(unsent)
  {
    var all := unsent + high + low;
    assert forall i | 0 <= i < |high| :: high[i] == all[|unsent| + i];
    assert forall i | 0 <= i < |unsent| :: unsent[i] == all[i];
    assert unsent == [] && high == [] && low != [] ==> all[0] == low[0];
  }

  lemma FreedFrames(wire: seq<Byte>, done: seq<Packet>, unsent: seq<WriteBuffer>, high: seq<WriteBuffer>, low: seq<WriteBuffer>)
    requires FramedBy(wire, done, unsent + high + low) && Untouched(low) && |unsent| <= 1
    ensures AllSound(high) && FramedLate(wire, done, if unsent == [] then Begun(high) else [], [], [], unsent)
  {
    hide Begun;
    BegunIsHead(unsent, high, low);
    EmptyIsFlat();
    assert Begun([]) == [] by { NothingBegun(); }
  }

  lemma FreedSourced(accepted: seq<Packet>, done: seq<Packet>, unsent: seq<WriteBuffer>, high: seq<WriteBuffer>,
                     low: seq<WriteBuffer>)
    requires InOrder(accepted, done, Packets(unsent + high + low)) && AllSound(high)
    ensures Sourced(accepted, done, [], if unsent == [] then Begun(high) else [], [], unsent)
  {
    hide InOrder, Packets, Begun;
    var all := unsent + high + low;
    OpenSourced(accepted, done, all);
    assert forall b | b in unsent || b in high :: b in all;
    BegunIsPart(accepted, high);
  }

  /** What was begun when the lists are freed is the head of the high list, unless a worker has left it. */
  lemma FreedHead(wire: seq<Byte>, done: seq<Packet>, unsent: seq<WriteBuffer>, high: seq<WriteBuffer>, low: seq<WriteBuffer>)
    requires FramedBy(wire, done, unsent + high + low) && Untouched(low) && |unsent| <= 1
    ensures AllSound(high) && (Begun(high) == [] <==> high == [] || high[0].off == 0)
    ensures unsent == [] ==> wire == Flat(done) + Begun(high) && (high != [] ==> (unsent + high + low)[0] == high[0])
  {
    BegunIsHead(unsent, high, low);
    assert high != [] ==> Sound(high[0]) && |Begun(high)| == high[0].off;
  }

  lemma LastFrame(wire: seq<Byte>, done: seq<Packet>, torn: seq<Byte>, late: seq<Packet>, pending: seq<WriteBuffer>)
    requires FramedLate(wire, done, torn, late, [], pending)
    ensures AllSound(pending) && FramedLate(wire, done, torn, late, Begun(pending), [])
  {
    hide Flat, Begun;
    NothingBegun();
  }

  lemma NothingBegun()
    ensures Begun([]) == []
  {
  }

  lemma DirectFirst(accepted: seq<Packet>, done: seq<Packet>, pending: seq<WriteBuffer>, b: WriteBuffer)
    requires InOrder(accepted, done, Packets(pending)) && NoDirect(pending) && b.packet.via == Direct
    ensures InOrder(accepted + [b.packet], done, Packets([b] + pending))
    ensures InOrder(accepted + [b.packet], done + [b.packet], Packets(pending))
  {
    hide InOrder;
    assert Packets([b] + pending) == [b.packet] + Packets(pending);
    DirectInOrder(accepted, done, Packets(pending), b.packet);
  }

  lemma AppendFrames(wire: seq<Byte>, done: seq<Packet>, a: seq<WriteBuffer>, b: WriteBuffer, c: seq<WriteBuffer>)
    requires FramedBy(wire, done, a + c) && b.off == 0 && Untouched(c)
    ensures FramedBy(wire, done, a + [b] + c)
  {
    var x, y := a + c, a + [b] + c;
    forall i | 0 <= i < |y|
      ensures Sound(y[i]) && (i > 0 ==> y[i].off == 0)
    {
      if i < |a| {
        assert x[i] == y[i] && (i > 0 ==> y[i] == x[1..][i - 1]);
      } else if i > |a| {
        assert y[i] == c[i - |a| - 1];
      }
    }
    assert a == [] ==> Begun(x) == [];
    assert a != [] ==> x[0] == y[0];
  }

  lemma AppendSizes(size: int, high: seq<WriteBuffer>, low: seq<WriteBuffer>, b: WriteBuffer)
    requires Sized(size, high, low) && b.off == 0
    ensures Sized(size + |b.packet.body|, high + [b], low) && Sized(size + |b.packet.body|, high, low + [b])
  {
    SizeConcat(high, [b]);
    SizeConcat(low, [b]);
  }

  lemma AppendInOrder(accepted: seq<Packet>, done: seq<Packet>, a: seq<WriteBuffer>, b: WriteBuffer, c: seq<WriteBuffer>)
    requires InOrder(accepted, done, Packets(a + c)) && forall i | 0 <= i < |c| :: c[i].packet.via != b.packet.via
    ensures InOrder(accepted + [b.packet], done, Packets(a + [b] + c))
  {
    hide InOrder;
    assert Packets(a + c) == Packets(a) + Packets(c);
    assert Packets(a + [b] + c) == Packets(a) + [b.packet] + Packets(c);
    AddedInOrder(accepted, done, Packets(a), Packets(c), b.packet);
  }

  lemma SameContinues(a: Moment)
    ensures Continues(a, a)
  {
  }

  lemma NothingBegunContinues(a: Moment, b: Moment)
    requires a.wire <= b.wire && a.accepted <= b.accepted && a.done <= b.done && (b.open ==> a.open) && a.begun.None?
    ensures Continues(a, b)
  {
  }

  lemma ContinuesOn(a: Moment, b: Moment, c: Moment)
    requires Continues(a, b) && Continues(b, c)
    ensures Continues(a, c)
  {
  }

  /** A packet that is partly on the wire is finished before any other is begun, and the wire is whole at every moment,
      unless something was written after the lists were freed with a packet begun that no worker had left in
      dw_buffer. */
  ghost predicate Behaves(log: seq<Moment>) {
    (forall i, j | 0 <= i < j < |log| :: Continues(log[i], log[j])) &&
    forall j | 0 <= j < |log| :: Whole(log[j].wire, log[j].accepted) || WrittenBehind(log, j)
  }

  /** At moment j there is something on the wire that was written after a packet was cut short. */
  ghost predicate WrittenBehind(log: seq<Moment>, j: nat)
    requires j < |log|
  {
    exists i | 0 <= i < j :: Freed(log[i], log[i + 1]) && log[i + 1].wire != log[j].wire
  }

  lemma BehavesOn(log: seq<Moment>, m: Moment)
    requires log != [] && Behaves(log) && Continues(log[|log| - 1], m)
    requires Whole(m.wire, m.accepted) || WrittenBehind(log + [m], |log|)
    ensures Behaves(log + [m])
  {
    hide Continues, Whole, Freed;
    var more := log + [m];
    forall i, j | 0 <= i < j < |more|
      ensures Continues(more[i], more[j])
    {
      if j == |log| && i < |log| - 1 {
        ContinuesOn(log[i], log[|log| - 1], m);
      }
    }
    forall j | 0 <= j < |log|
      ensures Whole(more[j].wire, more[j].accepted) || WrittenBehind(more, j)
    {
      if i :| 0 <= i < j && Freed(log[i], log[i + 1]) && log[i + 1].wire != log[j].wire {
        assert Freed(more[i], more[i + 1]) && more[i + 1].wire != more[j].wire;
      }
    }
  }

  /** The threads may be interleaved in any way. */
  method Run(kind: Kind, steps: seq<Step>) returns (s: Socket, ghost log: seq<Moment>)
    requires kind == PAccept || kind == Listening || kind == Connecting
    ensures fresh(s) && s.Valid() && |log| == |steps| + 1 && log[|steps|] == s.Now()
    ensures Behaves(log)
  {
    hide Socket.Valid, Socket.Now, Continues, Freed, Whole, Flat;
    s := new Socket(kind);
    log := [s.Now()];
    WholeNow(s);
    ghost var cut := 0;
    hide Behaves;
    for n := 0 to |steps|
      invariant fresh(s) && s.Valid() && |log| == n + 1 && log[n] == s.Now() && Behaves(log)
      invariant s.torn != [] ==> 0 <= cut < n && Freed(log[cut], log[cut + 1]) && log[cut + 1].wire == Flat(s.done) + s.torn
    {
      if s.torn == [] {
        cut := n;
      }
      s.Take(steps[n]);
      ghost var more := log + [s.Now()];
      assert s.torn != [] ==> Freed(more[cut], more[cut + 1]) && more[cut + 1].wire == Flat(s.done) + s.torn;
      if s.torn == [] || s.wire == Flat(s.done) + s.torn {
        WholeNow(s);
      } else {
        assert more[cut + 1].wire != more[n + 1].wire;
      }
      BehavesOn(log, s.Now());
      log := more;
    }
  }

  lemma HalfDrained(a: Byte, b: Byte)
    ensures
      var p := Packet([a, b], High);
      AllSound([WriteBuffer(p, 0)]) &&
      Drained([WriteBuffer(p, 0)], [Took(1)]) == Drain([WriteBuffer(p, 1)], [], [a], [], false)
  {
    hide Drained;
    var p := Packet([a, b], High);
    DrainStep([WriteBuffer(p, 0)], [Took(1)]);
  }

  /** A connected socket with one packet, which came while it was connecting. */
  method OnePending(body: seq<Byte>, lowPriority: bool) returns (s: Socket)
    ensures fresh(s) && s.Valid() && s.kind == Connected && s.Ready() && s.checked.None? && s.dw.None?
    ensures
      var p := Packet(body, if lowPriority then Low else High);
      s.Pending() == [WriteBuffer(p, 0)] && s.accepted == [p] && s.wire == [] && s.done == [] &&
      |s.Unsent() + s.high| == if lowPriority then 0 else 1
  {
    hide Socket.Valid, Socket.Now, Continues;
    s := new Socket(Connecting);
    var ok := s.SendSocket(body, lowPriority);
    s.ReportConnect(true);
  }

  /** A packet of two bytes, of which the kernel takes one. */
  method HalfWritten(a: Byte, b: Byte) returns (s: Socket)
    ensures fresh(s) && s.Valid() && s.kind == Connected && s.Ready() && s.checked.None? && s.dw.None?
    ensures s.done == [] && s.wire == [a] && s.accepted == [Packet([a, b], High)]
  {
    hide Socket.Valid, Socket.Now, Continues, Drained, Begun, AllSound, Untouched, Socket.Pending, Socket.Unsent;
    s := OnePending([a, b], false);
    HalfDrained(a, b);
    var closed := s.SendBuffer([Took(1)]);
  }

  /** The assertion of send_buffer_ fails when the low list stops on a packet of which nothing was written. */
  method AssertionFails(a: Byte) returns (s: Socket)
    ensures s.Valid() && s.aborted
  {
    hide Socket.Valid, Socket.Now, Continues, Drained, Begun, AllSound, Socket.Pending, Socket.Unsent;
    s := OnePending([a], true);
    NothingDrained(s.Pending());
    var closed := s.SendBuffer([Again]);
  }

  lemma NothingDrained(list: seq<WriteBuffer>)
    requires list != [] && Untouched(list)
    ensures AllSound(list) && Drained(list, [Again]) == Drain(list, [], [], [], false)
  {
  }

  /** Once the lists were freed with a packet begun, a worker may write another behind the torn one, and then the wire
      is not whole any more. */
  method TornFrame(a: Byte, b: Byte, c: Byte) returns (s: Socket)
    requires c != a && c != b
    ensures s.Valid() && s.closing && s.done == [] && s.wire == [a, c]
    ensures s.accepted == [Packet([a, b], High), Packet([c], Direct)]
    ensures !Whole(s.wire, s.accepted)
  {
    hide Socket.Valid, Socket.Now, Continues, Begun, Whole;
    s := HalfWritten(a, b);
    s.BeginClose();
    var ok := s.TryDirect([c]);
    s.DirectWrite(Took(1));
    NotWhole(a, b, c);
  }

  lemma NotWhole(a: Byte, b: Byte, c: Byte)
    requires c != a && c != b
    ensures !Whole([a, c], [Packet([a, b], High), Packet([c], Direct)])
  {
    var wire, accepted := [a, c], [Packet([a, b], High), Packet([c], Direct)];
    forall row: seq<Packet>, part: seq<Byte>
      ensures !RowOf(wire, accepted, row, part)
    {
      hide Flat;
      EmptyIsFlat();
      if row != [] {
        var first, others := row[0], Flat(row[1..]) + part;
        FlatCons(first, row[1..]);
        assert row == [first] + row[1..] && first in row;
        Joined(first.body, Flat(row[1..]), part);
        NotBehind(wire, accepted, first, others);
      } else {
        assert part == wire ==> !PartOf(part, accepted) by { NotPart(wire, accepted); }
      }
    }
  }

  lemma NotPart(wire: seq<Byte>, accepted: seq<Packet>)
    requires wire != [] && forall p | p in accepted :: |p.body| < |wire| || p.body[|wire| - 1] != wire[|wire| - 1]
    ensures !PartOf(wire, accepted)
  {
    forall p | p in accepted
      ensures !(wire <= p.body)
    {
    }
  }

  lemma NotBehind(wire: seq<Byte>, accepted: seq<Packet>, first: Packet, others: seq<Byte>)
    requires |wire| == 2
    requires forall p | p in accepted :: |p.body| > 0 && (p.body[0] != wire[0] || (|p.body| > 1 && p.body[1] != wire[1]))
    ensures first in accepted ==> first.body + others != wire
  {
    var t := first.body + others;
    assert forall i | 0 <= i < |first.body| :: t[i] == first.body[i];
  }

  /** While nothing is torn, or nothing was written behind it, the wire is whole. */
  lemma WholeNow(s: Socket)
    requires s.Valid() && (s.torn == [] || s.wire == Flat(s.done) + s.torn)
    ensures Whole(s.wire, s.accepted)
  {
    hide FramedBy, FramedLate, Flat, Sized, InOrder, Packets, Untouched, AllLow, NoDirect, Begun;
    if s.torn != [] {
      assert RowOf(s.wire, s.accepted, s.done, s.torn);
    } else if s.Open() {
      OpenSourced(s.accepted, s.done, s.Pending());
      OpenIsWhole(s.wire, s.done, s.Pending());
      BegunIsPart(s.accepted, s.Pending());
      assert RowOf(s.wire, s.accepted, s.done, Begun(s.Pending()));
    } else {
      LateIsWhole(s.wire, s.done, s.late, s.tail, s.Pending());
      BegunIsPart(s.accepted, s.Pending());
      NothingBegun();
      var part := s.tail + Begun(s.Pending());
      assert part == if s.tail == [] then Begun(s.Pending()) else s.tail;
      assert RowOf(s.wire, s.accepted, s.done + s.late, part);
    }
  }

  lemma OpenIsWhole(wire: seq<Byte>, done: seq<Packet>, pending: seq<WriteBuffer>)
    requires FramedBy(wire, done, pending)
    ensures AllSound(pending) && wire == Flat(done) + Begun(pending)
  {
  }

  lemma LateIsWhole(wire: seq<Byte>, done: seq<Packet>, late: seq<Packet>, tail: seq<Byte>, pending: seq<WriteBuffer>)
    requires FramedLate(wire, done, [], late, tail, pending)
    ensures AllSound(pending) && wire == Flat(done + late) + (tail + Begun(pending))
  {
    hide Flat, Begun;
    FlatConcat(done, late);
    Joined(Flat(done) + Flat(late), tail, Begun(pending));
  }
}
