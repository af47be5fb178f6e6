/** The buffers of lua-seri.c: a chain of blocks that is written value by value, and a cursor that reads a
    packed buffer. */
module SeriBlocks {

  import opened Bytes
  import opened Seri

  const BLOCK_SIZE := 128

  class WriteBlock {
    // the chain; the last block is the current one
    var blocks: seq<array<Byte>>
    var len: nat
    var ptr: nat
    ghost var contents: seq<Byte>
    ghost var repr: set<array<Byte>>

    ghost predicate Valid(): (valid: bool)
      reads this, repr
      ensures valid ==> |blocks| > 0 && blocks[|blocks| - 1] in repr
    {
      |blocks| > 0 && (forall i | 0 <= i < |blocks| :: blocks[i] in repr) && ptr <= BLOCK_SIZE && len == |contents| == BLOCK_SIZE * (|blocks| - 1) + ptr &&
      (forall i | 0 <= i < |blocks| :: blocks[i].Length == BLOCK_SIZE) &&
      (forall i, j | 0 <= i < j < |blocks| :: blocks[i] != blocks[j]) &&
      (forall i | 0 <= i < |blocks| - 1 :: blocks[i][..] == contents[BLOCK_SIZE * i..BLOCK_SIZE * i + BLOCK_SIZE]) &&
      blocks[|blocks| - 1][..ptr] == contents[BLOCK_SIZE * (|blocks| - 1)..]
    }

    constructor ()
      ensures Valid() && contents == [] && fresh(repr)
    {
      var b := new Byte[BLOCK_SIZE];
      blocks, len, ptr, contents, repr := [b], 0, 0, [], {b};
    }

    /** blk_alloc */
    method Grow()
      requires Valid() && ptr == BLOCK_SIZE
      modifies this`blocks, this`ptr, this`repr
      ensures Valid() && ptr == 0 && |blocks| == |old(blocks)| + 1
      ensures contents == old(contents)
      ensures fresh(repr - old(repr))
    {
      var b := new Byte[BLOCK_SIZE];
      assert BLOCK_SIZE * |blocks| == |contents|;
      var last := blocks[|blocks| - 1];
      assert last[..] == last[..ptr] && contents[|contents|..] == b[..0];
      blocks, ptr, repr := blocks + [b], 0, repr + {b};
    }

    /** A copy into the current block, which has room for it. */
    method Copy(buf: seq<Byte>)
      requires Valid() && |buf| <= BLOCK_SIZE - ptr
      modifies this`len, this`ptr, this`contents, blocks[|blocks| - 1]
      ensures Valid() && contents == old(contents) + buf && ptr == old(ptr) + |buf|
    {
      var current := blocks[|blocks| - 1];
      ghost var full := blocks[..|blocks| - 1];
      for i := 0 to |buf|
        invariant current[..ptr + i] == old(current[..ptr]) + buf[..i]
        invariant forall k | 0 <= k < |full| :: full[k][..] == old(full[k][..])
        modifies current
      {
        current[ptr + i] := buf[i];
        assert current[..ptr + i + 1] == current[..ptr + i] + [buf[i]];
      }
      Extended(contents, buf, |full|);
      len, ptr, contents := len + |buf|, ptr + |buf|, contents + buf;
    }

    /** wb_push: what does not fit goes to further blocks. */
    method Push(buf: seq<Byte>)
      requires Valid()
      modifies this, repr
      ensures Valid() && contents == old(contents) + buf
      ensures fresh(repr - old(repr))
    {
      hide Valid;
      var rest := buf;
      var room := Room();
      if room == 0 {
        Grow();
        room := BLOCK_SIZE;
      }
      while room < |rest|
        invariant Valid() && 0 < room == BLOCK_SIZE - ptr && |rest| <= |buf|
        invariant contents + rest == old(contents) + buf
        invariant fresh(repr - old(repr))
        decreases |rest|
      {
        Copy(rest[..room]);
        rest := rest[room..];
        Grow();
        room := BLOCK_SIZE;
      }
      Copy(rest);
    }

    method Room() returns (room: nat)
      requires Valid()
      ensures room + ptr == BLOCK_SIZE
    {
      room := BLOCK_SIZE - ptr;
    }

    /** seri: the blocks, laid out in one buffer */
    method Seri() returns (buffer: seq<Byte>)
      requires Valid()
      ensures buffer == contents
    {
      buffer := [];
      var left := len;
      var b := 0;
      while left > 0
        invariant b <= |blocks| && left == len - |buffer| && |buffer| <= len && buffer == contents[..|buffer|]
        invariant if left == 0 then true else |buffer| == BLOCK_SIZE * b && b < |blocks|
        decreases left
      {
        if left >= BLOCK_SIZE {
          BlockHolds(b);
          buffer := buffer + blocks[b][..];
          left := left - BLOCK_SIZE;
          b := b + 1;
        } else {
          BlockHolds(b);
          buffer := buffer + blocks[b][..left];
          return;
        }
      }
    }

    lemma BlockHolds(b: nat)
      requires Valid() && b < |blocks|
      ensures
        var at := BLOCK_SIZE * b;
        if at + BLOCK_SIZE <= len then blocks[b][..] == contents[at..at + BLOCK_SIZE]
        else at <= len && blocks[b][..len - at] == contents[at..]
    {
    }

    // ---- values

    /** wb_integer */
    method WriteInteger(x: int)
      requires Valid() && -TWO_63 <= x < TWO_63
      modifies this, repr
      ensures Valid() && contents == old(contents) + IntegerBytes(x)
      ensures fresh(repr - old(repr))
    {
      hide Valid, Little, Head, Power256;
      Sizes();
      ghost var before := contents;
      if x == 0 {
        Push(Head(TYPE_NUMBER, NUMBER_ZERO));
      } else if x < -TWO_31 || x >= TWO_31 {
        Push(Head(TYPE_NUMBER, NUMBER_QWORD));
        Push(Little(if x < 0 then x + 2 * TWO_63 else x, 8));
      } else if x < 0 {
        Push(Head(TYPE_NUMBER, NUMBER_DWORD));
        Push(Little(x + 2 * TWO_31, 4));
      } else if x < 0x100 {
        Push(Head(TYPE_NUMBER, NUMBER_BYTE));
        Push(Little(x, 1));
      } else if x < 0x1_0000 {
        Push(Head(TYPE_NUMBER, NUMBER_WORD));
        Push(Little(x, 2));
      } else {
        Push(Head(TYPE_NUMBER, NUMBER_DWORD));
        Push(Little(x, 4));
      }
      assert contents == before + (Head(TYPE_NUMBER, Cookie(x)) + Digits(x));
    }

    /** wb_string */
    method WriteString(x: seq<Byte>)
      requires Valid() && |x| < TWO_31
      modifies this, repr
      ensures Valid() && contents == old(contents) + StringBytes(x)
      ensures fresh(repr - old(repr))
    {
      hide Valid, Little, Head;
      ghost var before := contents;
      if |x| < MAX_COOKIE {
        Push(Head(TYPE_SHORT_STRING, |x|));
        if |x| > 0 {
          Push(x);
          Regrouped(before, Head(TYPE_SHORT_STRING, |x|), x);
        } else {
          assert Head(TYPE_SHORT_STRING, |x|) + x == Head(TYPE_SHORT_STRING, |x|);
        }
      } else {
        if |x| < 0x1_0000 {
          Push(Head(TYPE_LONG_STRING, 2));
          Push(Little(|x|, 2));
        } else {
          Push(Head(TYPE_LONG_STRING, 4));
          Push(Little(|x|, 4));
        }
        Push(x);
        ghost var n := if |x| < 0x1_0000 then 2 else 4;
        Regrouped(before, Head(TYPE_LONG_STRING, n), Little(|x|, n));
        Regrouped(before, Head(TYPE_LONG_STRING, n) + Little(|x|, n), x);
      }
    }

    /** pack_one: false for a value that stands in too many tables */
    method PackOne(v: Value, depth: nat) returns (ok: bool)
      requires Valid() && Packable(v)
      modifies this, repr
      ensures Valid() && ok == Fits(v, depth) && (ok ==> contents == old(contents) + Packed(v))
      ensures fresh(repr - old(repr))
      decreases v
    {
      hide Valid, IntegerBytes, StringBytes, Head, PackedAll, PackedPairs;
      if depth > MAX_DEPTH {
        return false;
      }
      ok := true;
      ghost var before := contents;
      match v
      case Nil => Push(Head(TYPE_NIL, 0));
      case Boolean(b) => Push(Head(TYPE_BOOLEAN, if b then 1 else 0));
      case Integer(i) => WriteInteger(i);
      case Real(bits) =>
        Push(Head(TYPE_NUMBER, NUMBER_REAL));
        Push(bits);
        assert contents == before + Packed(v);
      case Pointer(address) =>
        Push(Head(TYPE_USERDATA, 0));
        Push(address);
        assert contents == before + Packed(v);
      case Str(x) => WriteString(x);
      case Table(items, pairs) =>
        ok := PackArray(v, depth + 1);
        if ok {
          ok := PackHash(v, depth + 1);
          if ok {
            Push(Head(TYPE_NIL, 0));
            assert contents == before + Packed(v);
          }
        }
    }

    /** wb_table_array */
    method PackArray(v: Value, depth: nat) returns (ok: bool)
      requires Valid() && Packable(v) && v.Table?
      modifies this, repr
      ensures Valid() && ok == forall i | 0 <= i < |v.items| :: Fits(v.items[i], depth)
      ensures ok ==> contents == old(contents) + (TableHead(|v.items|) + PackedAll(v.items))
      ensures fresh(repr - old(repr))
      decreases v, 0
    {
      hide Valid, TableHead, Packed, PackedAll, Fits;
      var n := |v.items|;
      ghost var before := contents;
      WriteTableHead(n);
      ghost var start := contents;
      PackedNone(start, v.items);
      for i := 0 to n
        invariant Valid() && fresh(repr - old(repr))
        invariant forall k | 0 <= k < i :: Fits(v.items[k], depth)
        invariant contents == start + PackedAll(v.items[..i])
      {
        ok := PackOne(v.items[i], depth);
        if !ok {
          return;
        }
        PackedNext(start, v.items, i);
      }
      assert v.items[..n] == v.items;
      Regrouped(before, TableHead(n), PackedAll(v.items));
      ok := true;
    }

    method WriteTableHead(n: nat)
      requires Valid() && n < TWO_31
      modifies this, repr
      ensures Valid() && contents == old(contents) + TableHead(n)
      ensures fresh(repr - old(repr))
    {
      hide Valid, IntegerBytes, Head;
      if n >= MAX_COOKIE - 1 {
        ghost var before := contents;
        Push(Head(TYPE_TABLE, MAX_COOKIE - 1));
        WriteInteger(n);
        Regrouped(before, Head(TYPE_TABLE, MAX_COOKIE - 1), IntegerBytes(n));
      } else {
        Push(Head(TYPE_TABLE, n));
      }
    }

    /** wb_table_hash, up to its end mark */
    method PackHash(v: Value, depth: nat) returns (ok: bool)
      requires Valid() && Packable(v) && v.Table?
      modifies this, repr
      ensures Valid() && ok == forall i | 0 <= i < |v.pairs| :: FitsPair(v.pairs[i], depth)
      ensures ok ==> contents == old(contents) + PackedPairs(v.pairs)
      ensures fresh(repr - old(repr))
      decreases v, 0
    {
      hide Valid, Packed, PackedPairs, Fits;
      var n := |v.pairs|;
      ghost var before := contents;
      PackedNoPairs(before, v.pairs);
      for i := 0 to n
        invariant Valid() && fresh(repr - old(repr))
        invariant forall k | 0 <= k < i :: FitsPair(v.pairs[k], depth)
        invariant contents == before + PackedPairs(v.pairs[..i])
      {
        var p := v.pairs[i];
        ok := PackOne(p.key, depth);
        if ok {
          ok := PackOne(p.value, depth);
        }
        if !ok {
          return;
        }
        PackedPairsNext(before, v.pairs, i);
      }
      assert v.pairs[..n] == v.pairs;
      ok := true;
    }

    /** pack_from: the arguments, one after the other */
    method PackFrom(vs: seq<Value>) returns (ok: bool)
      requires Valid() && forall i | 0 <= i < |vs| :: Packable(vs[i])
      modifies this, repr
      ensures Valid() && ok == forall i | 0 <= i < |vs| :: Fits(vs[i], 0)
      ensures ok ==> contents == old(contents) + PackedAll(vs)
    {
      hide Valid, Packed, PackedAll, Fits;
      ghost var before := contents;
      PackedNone(before, vs);
      for i := 0 to |vs|
        invariant Valid() && fresh(repr - old(repr))
        invariant forall k | 0 <= k < i :: Fits(vs[k], 0)
        invariant contents == before + PackedAll(vs[..i])
      {
        ok := PackOne(vs[i], 0);
        if !ok {
          return;
        }
        PackedNext(before, vs, i);
      }
      assert vs[..|vs|] == vs;
      ok := true;
    }
  }

  class ReadBlock {
    const buffer: seq<Byte>
    var ptr: nat
    var len: nat

    ghost predicate Valid()
      reads this
    {
      ptr + len == |buffer|
    }

    function Rest(): seq<Byte>
      requires Valid()
      reads this
    {
      buffer[ptr..]
    }

    constructor (buffer: seq<Byte>)
      ensures Valid() && Rest() == buffer
    {
      this.buffer, ptr, len := buffer, 0, |buffer|;
    }

    /** rb_read */
    method Read(size: nat) returns (ok: bool, piece: seq<Byte>)
      requires Valid()
      modifies this
      ensures Valid() && ok == (size <= |old(Rest())|)
      ensures if ok then piece == old(Rest())[..size] && Rest() == old(Rest())[size..] else Rest() == old(Rest())
    {
      if len < size {
        return false, [];
      }
      piece := buffer[ptr..ptr + size];
      ptr, len := ptr + size, len - size;
      ok := true;
    }

    /** get_integer */
    method ReadInteger(cookie: nat) returns (ok: bool, x: int)
      requires Valid()
      modifies this
      ensures
        var p := GetInteger(cookie, old(Rest()));
        Valid() && ok == p.ParsedInt? && (ok ==> x == p.x && Rest() == p.after)
    {
      hide FromLittle;
      var piece;
      x := 0;
      match cookie
      case 0 =>
        ok := true;
      case 1 =>
        ok, piece := Read(1);
        if ok { x := FromLittle(piece); }
      case 2 =>
        ok, piece := Read(2);
        if ok { x := FromLittle(piece); }
      case 4 =>
        ok, piece := Read(4);
        if ok { x := Signed(FromLittle(piece), 4); }
      case 6 =>
        ok, piece := Read(8);
        if ok { x := Signed(FromLittle(piece), 8); }
      case _ =>
        ok := false;
    }

    /** get_buffer */
    method ReadString(n: nat) returns (ok: bool, v: Value)
      requires Valid()
      modifies this
      ensures Valid() && Agrees(GetString(n, old(Rest())), ok, v)
    {
      v := Nil;
      if n >= TWO_31 {
        return false, v;
      }
      var piece;
      ok, piece := Read(n);
      if ok {
        v := Str(piece);
      }
    }

    ghost predicate Agrees(p: Parsed, ok: bool, v: Value)
      requires Valid()
      reads this
    {
      ok == p.Parsed? && (ok ==> v == p.v && Rest() == p.rest)
    }

    /** unpack_one */
    method ReadOne() returns (ok: bool, v: Value)
      requires Valid()
      modifies this
      ensures Valid() && Agrees(Unpack(old(Rest())), ok, v)
      decreases |Rest()|, 1
    {
      hide PushValue;
      var piece;
      v := Nil;
      ok, piece := Read(1);
      if ok {
        ok, v := ReadValue(piece[0] as nat % 8, piece[0] as nat / 8);
      }
    }

    /** push_value */
    method ReadValue(kind: nat, cookie: nat) returns (ok: bool, v: Value)
      requires Valid()
      modifies this
      ensures Valid() && Agrees(PushValue(kind, cookie, old(Rest())), ok, v)
      decreases |Rest()|, 4
    {
      hide GetInteger, UnpackTable, GetString, FromLittle;
      v := Nil;
      ok := true;
      var piece;
      if kind == TYPE_BOOLEAN {
        v := Boolean(cookie != 0);
      } else if kind == TYPE_NUMBER && cookie != NUMBER_REAL {
        var x;
        ok, x := ReadInteger(cookie);
        v := Integer(x);
      } else if kind == TYPE_NUMBER || kind == TYPE_USERDATA {
        ok, piece := Read(8);
        v := if kind == TYPE_NUMBER then Real(piece) else Pointer(piece);
      } else if kind == TYPE_SHORT_STRING {
        ok, v := ReadString(cookie);
      } else if kind == TYPE_LONG_STRING {
        ok := cookie == 2 || cookie == 4;
        if ok {
          ok, piece := Read(cookie);
          if ok {
            ok, v := ReadString(FromLittle(piece));
          }
        }
      } else if kind == TYPE_TABLE {
        ok, v := ReadTable(cookie);
      } else if kind != TYPE_NIL {
        ok := false;
      }
    }

    /** unpack_table */
    method ReadTable(cookie: nat) returns (ok: bool, v: Value)
      requires Valid()
      modifies this
      ensures Valid() && Agrees(UnpackTable(cookie, old(Rest())), ok, v)
      decreases |Rest()|, 3
    {
      hide UnpackArray, UnpackPairs, GetCount;
      v := Nil;
      var n, items, pairs;
      ok, n := ReadCount(cookie);
      if ok {
        ok, items := ReadArray(n);
        if ok {
          ok, pairs := ReadPairs();
          if ok {
            v := Table(items, pairs);
          }
        }
      }
    }

    method ReadCount(cookie: nat) returns (ok: bool, n: int)
      requires Valid()
      modifies this
      ensures
        var p := GetCount(cookie, old(Rest()));
        Valid() && ok == p.ParsedInt? && (ok ==> n == p.x && Rest() == p.after)
    {
      hide GetInteger;
      if cookie != MAX_COOKIE - 1 {
        return true, cookie;
      }
      n := 0;
      var piece;
      ok, piece := Read(1);
      if ok {
        var kind, number := piece[0] as nat % 8, piece[0] as nat / 8;
        if kind != TYPE_NUMBER || number == NUMBER_REAL {
          return false, n;
        }
        ok, n := ReadInteger(number);
        n := ToInt(n);
      }
    }

    method ReadArray(n: int) returns (ok: bool, items: seq<Value>)
      requires Valid()
      modifies this
      ensures
        var p := UnpackArray(n, old(Rest()));
        Valid() && ok == p.ParsedMany? && (ok ==> items == p.vs && Rest() == p.left)
      decreases |Rest()|, 2
    {
      hide Unpack, UnpackArray;
      items := [];
      var i, item := 0, Nil;
      while i < n
        invariant Valid() && |Rest()| <= |old(Rest())|
        invariant UnpackArray(n, old(Rest())) == After(items, UnpackArray(n - i, Rest()))
        decreases n - i
      {
        ArrayStep(items, n - i, Rest());
        ok, item := ReadOne();
        if !ok {
          return;
        }
        items := items + [item];
        i := i + 1;
      }
      ArrayStep(items, n - i, Rest());
      ok := true;
    }

    method ReadPairs() returns (ok: bool, pairs: seq<Pair>)
      requires Valid()
      modifies this
      ensures
        var p := UnpackPairs(old(Rest()));
        Valid() && ok == p.ParsedPairs? && (ok ==> pairs == p.pairs && Rest() == p.over)
      decreases |Rest()|, 2
    {
      hide Unpack, UnpackPairs;
      pairs := [];
      var key, value := Nil, Nil;
      while true
        invariant Valid() && |Rest()| <= |old(Rest())|
        invariant UnpackPairs(old(Rest())) == AfterPairs(pairs, UnpackPairs(Rest()))
        decreases |Rest()|
      {
        PairsStep(pairs, Rest());
        ok, key := ReadOne();
        if !ok || key == Nil {
          return;
        }
        ok, value := ReadOne();
        if !ok {
          return;
        }
        pairs := pairs + [Pair(key, value)];
      }
    }

    /** luaseri_unpack */
    method ReadAll() returns (ok: bool, vs: seq<Value>)
      requires Valid()
      modifies this
      ensures
        var p := UnpackAll(old(Rest()));
        ok == p.ParsedMany? && (ok ==> vs == p.vs)
    {
      hide Unpack, UnpackAll, PushValue;
      vs := [];
      var piece, v := [], Nil;
      while true
        invariant Valid() && UnpackAll(old(Rest())) == After(vs, UnpackAll(Rest()))
        decreases |Rest()|
      {
        AllStep(vs, Rest());
        ok, piece := Read(1);
        if !ok {
          return true, vs;
        }
        ok, v := ReadValue(piece[0] as nat % 8, piece[0] as nat / 8);
        if !ok {
          return;
        }
        vs := vs + [v];
      }
    }
  }

  /** Values that were read already go before the others. */
  function After(vs: seq<Value>, p: ParsedMany): ParsedMany {
    if p.InvalidMany? then p else ParsedMany(vs + p.vs, p.left)
  }

  function AfterPairs(pairs: seq<Pair>, p: ParsedPairs): ParsedPairs {
    if p.InvalidPairs? then p else ParsedPairs(pairs + p.pairs, p.over)
  }

  lemma ArrayStep(vs: seq<Value>, n: int, s: seq<Byte>)
    ensures
      var x := Unpack(s);
      After(vs, UnpackArray(n, s)) ==
      if n <= 0 then ParsedMany(vs, s)
      else if x.Invalid? then InvalidMany
      else After(vs + [x.v], UnpackArray(n - 1, x.rest))
  {
    hide Unpack;
  }

  lemma PairsStep(pairs: seq<Pair>, s: seq<Byte>)
    ensures
      var k := Unpack(s);
      AfterPairs(pairs, UnpackPairs(s)) ==
      if k.Invalid? then InvalidPairs
      else if k.v == Nil then ParsedPairs(pairs, k.rest)
      else
        var x := Unpack(k.rest);
        if x.Invalid? then InvalidPairs else AfterPairs(pairs + [Pair(k.v, x.v)], UnpackPairs(x.rest))
  {
    hide Unpack;
  }

  lemma AllStep(vs: seq<Value>, s: seq<Byte>)
    ensures
      After(vs, UnpackAll(s)) ==
      if s == [] then ParsedMany(vs, [])
      else
        var x := PushValue(s[0] as nat % 8, s[0] as nat / 8, s[1..]);
        if x.Invalid? then InvalidMany else After(vs + [x.v], UnpackAll(x.rest))
  {
    hide PushValue;
  }

  /** Packing and unpacking gives the same values back, as long as none of them stands in more than 32 tables. */
  method PackAndUnpack(vs: seq<Value>) returns (ok: bool, back: seq<Value>)
    requires forall i | 0 <= i < |vs| :: Packable(vs[i])
    ensures ok <==> forall i | 0 <= i < |vs| :: Height(vs[i]) <= MAX_DEPTH
    ensures ok ==> back == vs
  {
    hide Fits, Height;
    back := [];
    var w := new WriteBlock();
    ok := w.PackFrom(vs);
    forall i | 0 <= i < |vs|
      ensures Fits(vs[i], 0) <==> Height(vs[i]) <= MAX_DEPTH
    {
      FitsExactly(vs[i], 0);
    }
    if ok {
      var buffer := w.Seri();
      var r := new ReadBlock(buffer);
      ok, back := r.ReadAll();
      UnpackPackedList(vs);
      assert [] + PackedAll(vs) == PackedAll(vs);
    }
  }

  /** Appending leaves the full blocks as they are. */
  lemma Extended(s: seq<Byte>, buf: seq<Byte>, n: nat)
    requires BLOCK_SIZE * n <= |s|
    ensures (s + buf)[BLOCK_SIZE * n..] == s[BLOCK_SIZE * n..] + buf
    ensures forall i | 0 <= i < n :: BLOCK_SIZE * i + BLOCK_SIZE <= |s| &&
              (s + buf)[BLOCK_SIZE * i..BLOCK_SIZE * i + BLOCK_SIZE] == s[BLOCK_SIZE * i..BLOCK_SIZE * i + BLOCK_SIZE]
  {
  }

  lemma PackedNone(start: seq<Byte>, vs: seq<Value>)
    ensures start + PackedAll(vs[..0]) == start
  {
  }

  lemma PackedNext(start: seq<Byte>, vs: seq<Value>, i: nat)
    requires i < |vs| && forall k | 0 <= k < |vs| :: Packable(vs[k])
    ensures start + PackedAll(vs[..i]) + Packed(vs[i]) == start + PackedAll(vs[..i + 1])
  {
    hide Packed, PackedAll, Packable;
    assert vs[..i] + [vs[i]] == vs[..i + 1];
    PackedSnoc(vs[..i], vs[i]);
    Regrouped(start, PackedAll(vs[..i]), Packed(vs[i]));
  }

  lemma PackedNoPairs(start: seq<Byte>, ps: seq<Pair>)
    ensures start + PackedPairs(ps[..0]) == start
  {
  }

  lemma PackedPairsNext(start: seq<Byte>, ps: seq<Pair>, i: nat)
    requires i < |ps| && PackablePair(ps[i]) && forall k | 0 <= k < |ps| :: PackablePair(ps[k])
    ensures start + PackedPairs(ps[..i]) + Packed(ps[i].key) + Packed(ps[i].value) == start + PackedPairs(ps[..i + 1])
  {
    hide Packed, PackedPairs;
    assert ps[..i] + [ps[i]] == ps[..i + 1];
    PackedPairsSnoc(ps[..i], ps[i]);
    Regrouped(start, PackedPairs(ps[..i]), PackedPair(ps[i]));
    Regrouped(start + PackedPairs(ps[..i]), Packed(ps[i].key), Packed(ps[i].value));
  }

  lemma {:induction false} PackedSnoc(vs: seq<Value>, v: Value)
    requires Packable(v) && forall i | 0 <= i < |vs| :: Packable(vs[i])
    ensures PackedAll(vs + [v]) == PackedAll(vs) + Packed(v)
  {
    hide Packed, Packable;
    if vs == [] {
      assert vs + [v] == [v];
    } else {
      PackedSnoc(vs[1..], v);
      assert (vs + [v])[1..] == vs[1..] + [v];
    }
  }

  lemma {:induction false} PackedPairsSnoc(ps: seq<Pair>, p: Pair)
    requires PackablePair(p) && forall i | 0 <= i < |ps| :: PackablePair(ps[i])
    ensures PackedPairs(ps + [p]) == PackedPairs(ps) + PackedPair(p)
  {
    hide PackedPair, PackablePair;
    if ps == [] {
      assert ps + [p] == [p];
    } else {
      PackedPairsSnoc(ps[1..], p);
      assert (ps + [p])[1..] == ps[1..] + [p];
    }
  }
}
