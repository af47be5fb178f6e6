/** The packed form of Lua values, and the stream that reads them back (lua-seri.c). */
module Seri {

  import opened Bytes

  const TYPE_NIL := 0
  const TYPE_BOOLEAN := 1
  const TYPE_NUMBER := 2
  const TYPE_USERDATA := 3
  const TYPE_SHORT_STRING := 4
  const TYPE_LONG_STRING := 5
  const TYPE_TABLE := 6

  const NUMBER_ZERO := 0
  const NUMBER_BYTE := 1
  const NUMBER_WORD := 2
  const NUMBER_DWORD := 4
  const NUMBER_QWORD := 6
  const NUMBER_REAL := 8

  const MAX_COOKIE := 32
  const MAX_DEPTH := 32

  const TWO_31: int := 0x8000_0000
  const TWO_63: int := 0x8000_0000_0000_0000

  /** A table has an array part, and the rest of its fields in the order in which they are visited. Floats and
      pointers are their eight bytes. */
  datatype Value =
    | Nil
    | Boolean(b: bool)
    | Integer(i: int)
    | Real(bits: seq<Byte>)
    | Pointer(address: seq<Byte>)
    | Str(s: seq<Byte>)
    | Table(items: seq<Value>, pairs: seq<Pair>)

  datatype Pair = Pair(key: Value, value: Value)

  /** COMBINE_TYPE */
  function Head(kind: nat, cookie: nat): (h: seq<Byte>)
    requires kind < 8 && cookie < 32
    ensures |h| == 1
  {
    [(kind + 8 * cookie) as Byte]
  }

  function TwosComplement(x: int, n: nat): (u: nat)
    requires 0 - Power256(n) as int <= x < Power256(n)
    ensures u < Power256(n)
  {
    if x < 0 then x + Power256(n) else x
  }

  /** The form that wb_integer chooses for a number. */
  function Cookie(x: int): nat {
    if x == 0 then NUMBER_ZERO
    else if x < -TWO_31 || x >= TWO_31 then NUMBER_QWORD
    else if x < 0 then NUMBER_DWORD
    else if x < 0x100 then NUMBER_BYTE
    else if x < 0x1_0000 then NUMBER_WORD
    else NUMBER_DWORD
  }

  /** The number of bytes of a form. */
  function Width(cookie: nat): nat {
    if cookie == NUMBER_ZERO then 0
    else if cookie == NUMBER_BYTE then 1
    else if cookie == NUMBER_WORD then 2
    else if cookie == NUMBER_DWORD then 4
    else 8
  }

  function IntegerBytes(x: int): seq<Byte>
    requires -TWO_63 <= x < TWO_63
  {
    Head(TYPE_NUMBER, Cookie(x)) + Digits(x)
  }

  /** A number in the bytes of its form, negative ones in two's complement. */
  function Digits(x: int): (s: seq<Byte>)
    requires -TWO_63 <= x < TWO_63
    ensures |s| == Width(Cookie(x))
  {
    Sizes();
    var n := Width(Cookie(x));
    Little(TwosComplement(x, n), n)
  }

  lemma Sizes()
    ensures Power256(0) == 1 && Power256(1) == 0x100 && Power256(2) == 0x1_0000 && Power256(4) == 2 * TWO_31 && Power256(8) == 2 * TWO_63
  {
    assert Power256(3) == 0x100_0000;
    assert Power256(6) == 0x1_0000_0000_0000;
  }

  function StringBytes(s: seq<Byte>): seq<Byte> {
    if |s| < MAX_COOKIE then Head(TYPE_SHORT_STRING, |s|) + s
    else if |s| < 0x1_0000 then Head(TYPE_LONG_STRING, 2) + Little(|s|, 2) + s
    else Head(TYPE_LONG_STRING, 4) + Little(|s|, 4) + s
  }

  /** What a program can put into a table: integers of 64 bits, lengths of an int, and no nil keys. */
  predicate Packable(v: Value)
    decreases v
  {
    match v
    case Integer(i) => -TWO_63 <= i < TWO_63
    case Real(bits) => |bits| == 8
    case Pointer(address) => |address| == 8
    case Str(s) => |s| < TWO_31
    case Table(items, pairs) =>
      |items| < TWO_31 &&
      (forall i | 0 <= i < |items| :: Packable(items[i])) &&
      (forall i | 0 <= i < |pairs| :: PackablePair(pairs[i]))
    case _ => true
  }

  predicate PackablePair(p: Pair)
    decreases p
  {
    p.key != Nil && Packable(p.key) && Packable(p.value)
  }

  // ---- packing

  function Packed(v: Value): seq<Byte>
    requires Packable(v)
    decreases v
  {
    match v
    case Nil => Head(TYPE_NIL, 0)
    case Boolean(b) => Head(TYPE_BOOLEAN, if b then 1 else 0)
    case Integer(i) => IntegerBytes(i)
    case Real(bits) => Head(TYPE_NUMBER, NUMBER_REAL) + bits
    case Pointer(address) => Head(TYPE_USERDATA, 0) + address
    case Str(s) => StringBytes(s)
    case Table(items, pairs) => TableHead(|items|) + PackedAll(items) + PackedPairs(pairs) + Head(TYPE_NIL, 0)
  }

  function TableHead(n: nat): (s: seq<Byte>)
    requires n < TWO_31
    ensures |s| >= 1
  {
    if n >= MAX_COOKIE - 1 then Head(TYPE_TABLE, MAX_COOKIE - 1) + IntegerBytes(n) else Head(TYPE_TABLE, n)
  }

  function PackedAll(vs: seq<Value>): seq<Byte>
    requires forall i | 0 <= i < |vs| :: Packable(vs[i])
    decreases vs
  {
    if vs == [] then [] else Packed(vs[0]) + PackedAll(vs[1..])
  }

  function PackedPair(p: Pair): seq<Byte>
    requires PackablePair(p)
    decreases p
  {
    Packed(p.key) + Packed(p.value)
  }

  function PackedPairs(ps: seq<Pair>): seq<Byte>
    requires forall i | 0 <= i < |ps| :: PackablePair(ps[i])
    decreases ps
  {
    if ps == [] then [] else PackedPair(ps[0]) + PackedPairs(ps[1..])
  }

  /** The types in the low three bits of the first byte. */
  function TypeBits(v: Value): nat {
    match v
    case Nil => 0
    case Boolean(_) => 1
    case Integer(_) => 2
    case Real(_) => 2
    case Pointer(_) => 3
    case Str(s) => if |s| <= 31 then 4 else 5
    case Table(_, _) => 6
  }

  /** The high five bits: the truth value, the form of a number, the length of a short string, the number of length
      bytes of a long one, or the number of array elements up to 30. */
  function HighBits(v: Value): nat {
    match v
    case Nil => 0
    case Boolean(b) => if b then 1 else 0
    case Integer(x) =>
      if x == 0 then 0
      else if 0 < x < 0x100 then 1
      else if 0 < x < 0x1_0000 then 2
      else if -0x8000_0000 <= x < 0x8000_0000 then 4
      else 6
    case Real(_) => 8
    case Pointer(_) => 0
    case Str(s) => if |s| <= 31 then |s| else if |s| < 0x1_0000 then 2 else 4
    case Table(items, _) => if |items| <= 30 then |items| else 31
  }

  lemma FirstByte(v: Value)
    requires Packable(v)
    ensures Packed(v) != [] && Packed(v)[0] as nat == TypeBits(v) + 8 * HighBits(v)
  {
    hide PackedAll, PackedPairs, Digits, Little;
  }

  // ---- unpacking

  datatype Parsed = Parsed(v: Value, rest: seq<Byte>) | Invalid
  datatype ParsedMany = ParsedMany(vs: seq<Value>, left: seq<Byte>) | InvalidMany
  datatype ParsedPairs = ParsedPairs(pairs: seq<Pair>, over: seq<Byte>) | InvalidPairs
  datatype ParsedInt = ParsedInt(x: int, after: seq<Byte>) | InvalidInt

  function Signed(u: nat, n: nat): int {
    if 2 * u >= Power256(n) then u - Power256(n) else u
  }

  /** get_integer */
  function GetInteger(cookie: nat, s: seq<Byte>): (p: ParsedInt)
    ensures p.ParsedInt? ==> |p.after| <= |s|
  {
    if cookie == NUMBER_ZERO then ParsedInt(0, s)
    else if cookie == NUMBER_BYTE && |s| >= 1 then ParsedInt(FromLittle(s[..1]), s[1..])
    else if cookie == NUMBER_WORD && |s| >= 2 then ParsedInt(FromLittle(s[..2]), s[2..])
    else if cookie == NUMBER_DWORD && |s| >= 4 then ParsedInt(Signed(FromLittle(s[..4]), 4), s[4..])
    else if cookie == NUMBER_QWORD && |s| >= 8 then ParsedInt(Signed(FromLittle(s[..8]), 8), s[8..])
    else InvalidInt
  }

  /** get_buffer */
  function GetString(n: nat, s: seq<Byte>): (p: Parsed)
    ensures p.Parsed? ==> |p.rest| <= |s|
  {
    if n < TWO_31 && |s| >= n then Parsed(Str(s[..n]), s[n..]) else Invalid
  }

  /** A 64-bit count that is stored in an int. */
  function ToInt(x: int): (n: int)
    ensures -TWO_31 <= n < TWO_31 && (x - n) % (2 * TWO_31) == 0
  {
    var u := x % (2 * TWO_31);
    if u >= TWO_31 then u - 2 * TWO_31 else u
  }

  /** The number of elements that an announced array has. */
  function GetCount(cookie: nat, s: seq<Byte>): (p: ParsedInt)
    ensures p.ParsedInt? ==> |p.after| <= |s|
  {
    if cookie != MAX_COOKIE - 1 then ParsedInt(cookie, s)
    else if s == [] then InvalidInt
    else
      var kind, number := s[0] as nat % 8, s[0] as nat / 8;
      if kind != TYPE_NUMBER || number == NUMBER_REAL then InvalidInt
      else
        var p := GetInteger(number, s[1..]);
        if p.ParsedInt? then ParsedInt(ToInt(p.x), p.after) else InvalidInt
  }

  /** unpack_one */
  function Unpack(s: seq<Byte>): (p: Parsed)
    ensures p.Parsed? ==> |p.rest| < |s|
    decreases |s|, 1
  {
    if s == [] then Invalid else PushValue(s[0] as nat % 8, s[0] as nat / 8, s[1..])
  }

  /** push_value */
  function PushValue(kind: nat, cookie: nat, s: seq<Byte>): (p: Parsed)
    ensures p.Parsed? ==> |p.rest| <= |s|
    decreases |s|, 4
  {
    if kind == TYPE_NIL then Parsed(Nil, s)
    else if kind == TYPE_BOOLEAN then Parsed(Boolean(cookie != 0), s)
    else if kind == TYPE_NUMBER && cookie == NUMBER_REAL then
      if |s| >= 8 then Parsed(Real(s[..8]), s[8..]) else Invalid
    else if kind == TYPE_NUMBER then
      var p := GetInteger(cookie, s);
      if p.ParsedInt? then Parsed(Integer(p.x), p.after) else Invalid
    else if kind == TYPE_USERDATA then
      if |s| >= 8 then Parsed(Pointer(s[..8]), s[8..]) else Invalid
    else if kind == TYPE_SHORT_STRING then GetString(cookie, s)
    else if kind == TYPE_LONG_STRING then
      if (cookie == 2 || cookie == 4) && |s| >= cookie then GetString(FromLittle(s[..cookie]), s[cookie..]) else Invalid
    else if kind == TYPE_TABLE then UnpackTable(cookie, s)
    else Invalid
  }

  /** unpack_table */
  function UnpackTable(cookie: nat, s: seq<Byte>): (p: Parsed)
    ensures p.Parsed? ==> |p.rest| <= |s|
    decreases |s|, 3
  {
    var n := GetCount(cookie, s);
    if n.InvalidInt? then Invalid
    else
      var a := UnpackArray(n.x, n.after);
      if a.InvalidMany? then Invalid
      else
        var h := UnpackPairs(a.left);
        if h.InvalidPairs? then Invalid else Parsed(Table(a.vs, h.pairs), h.over)
  }

  function UnpackArray(n: int, s: seq<Byte>): (p: ParsedMany)
    ensures p.ParsedMany? ==> |p.left| <= |s|
    decreases |s|, 2, n
  {
    if n <= 0 then ParsedMany([], s)
    else
      var x := Unpack(s);
      if x.Invalid? then InvalidMany
      else
        var more := UnpackArray(n - 1, x.rest);
        if more.InvalidMany? then InvalidMany else ParsedMany([x.v] + more.vs, more.left)
  }

  function UnpackPairs(s: seq<Byte>): (p: ParsedPairs)
    ensures p.ParsedPairs? ==> |p.over| < |s|
    decreases |s|, 2
  {
    var k := Unpack(s);
    if k.Invalid? then InvalidPairs
    else if k.v == Nil then ParsedPairs([], k.rest)
    else
      var x := Unpack(k.rest);
      if x.Invalid? then InvalidPairs
      else
        var more := UnpackPairs(x.rest);
        if more.InvalidPairs? then InvalidPairs else ParsedPairs([Pair(k.v, x.v)] + more.pairs, more.over)
  }

  /** luaseri_unpack: every value to the end of the buffer */
  function UnpackAll(s: seq<Byte>): (p: ParsedMany)
    decreases |s|
  {
    if s == [] then ParsedMany([], [])
    else
      var x := Unpack(s);
      if x.Invalid? then InvalidMany
      else
        var more := UnpackAll(x.rest);
        if more.InvalidMany? then InvalidMany else ParsedMany([x.v] + more.vs, [])
  }

  // ---- what is packed is unpacked

  lemma ReadsHead(kind: nat, cookie: nat, rest: seq<Byte>)
    requires kind < 8 && cookie < 32
    ensures Unpack(Head(kind, cookie) + rest) == PushValue(kind, cookie, rest)
  {
    hide PushValue;
    assert (Head(kind, cookie) + rest)[1..] == rest;
  }

  lemma Splits(a: seq<Byte>, b: seq<Byte>)
    ensures (a + b)[..|a|] == a && (a + b)[|a|..] == b
  {
  }

  lemma ReadsInteger(x: int, rest: seq<Byte>)
    requires -TWO_63 <= x < TWO_63
    ensures GetInteger(Cookie(x), Digits(x) + rest) == ParsedInt(x, rest)
  {
    hide Little, FromLittle, Power256;
    Sizes();
    var n := Width(Cookie(x));
    var u := TwosComplement(x, n);
    LittleReads(u, n);
    Splits(Little(u, n), rest);
  }

  lemma ReadsString(x: seq<Byte>, rest: seq<Byte>)
    requires |x| < TWO_31
    ensures Unpack(StringBytes(x) + rest) == Parsed(Str(x), rest)
  {
    hide Unpack, PushValue, Head, Little, FromLittle, Power256;
    if |x| < MAX_COOKIE {
      var head := Head(TYPE_SHORT_STRING, |x|);
      ReadsHead(TYPE_SHORT_STRING, |x|, x + rest);
      ReadsShort(x, rest);
      Regrouped(head, x, rest);
    } else {
      var n := if |x| < 0x1_0000 then 2 else 4;
      var head, l := Head(TYPE_LONG_STRING, n), Little(|x|, n);
      ReadsHead(TYPE_LONG_STRING, n, l + (x + rest));
      ReadsLong(x, n, rest);
      Regrouped(head, l, x);
      Regrouped(head, l + x, rest);
      Regrouped(l, x, rest);
    }
  }

  lemma ReadsShort(x: seq<Byte>, rest: seq<Byte>)
    requires |x| < MAX_COOKIE
    ensures PushValue(TYPE_SHORT_STRING, |x|, x + rest) == Parsed(Str(x), rest)
  {
    hide Unpack, UnpackTable;
    Splits(x, rest);
  }

  lemma ReadsLong(x: seq<Byte>, n: nat, rest: seq<Byte>)
    requires n == if |x| < 0x1_0000 then 2 else 4
    requires |x| < TWO_31
    ensures PushValue(TYPE_LONG_STRING, n, Little(|x|, n) + (x + rest)) == Parsed(Str(x), rest)
  {
    hide Unpack, UnpackTable, Little, FromLittle, Power256;
    Sizes();
    LittleReads(|x|, n);
    Splits(Little(|x|, n), x + rest);
    Splits(x, rest);
  }

  lemma Regrouped(a: seq<Byte>, b: seq<Byte>, c: seq<Byte>)
    ensures (a + b) + c == a + (b + c)
  {
  }

  lemma ReadsCount(n: nat, rest: seq<Byte>)
    requires n < TWO_31
    ensures
      var cookie := if n >= MAX_COOKIE - 1 then MAX_COOKIE - 1 else n;
      TableHead(n)[..1] == Head(TYPE_TABLE, cookie) && GetCount(cookie, TableHead(n)[1..] + rest) == ParsedInt(n, rest)
  {
    hide GetInteger, Digits;
    if n >= MAX_COOKIE - 1 {
      var l := Digits(n);
      var s := TableHead(n)[1..] + rest;
      ReadsInteger(n, rest);
      assert TableHead(n)[1..] == IntegerBytes(n) == Head(TYPE_NUMBER, Cookie(n)) + l;
      assert s[1..] == l + rest && s[0] == Head(TYPE_NUMBER, Cookie(n))[0];
    }
  }

  /** A packed value is read back, and nothing after it is touched. */
  lemma {:induction false} UnpackPacked(v: Value, rest: seq<Byte>)
    requires Packable(v)
    ensures Unpack(Packed(v) + rest) == Parsed(v, rest)
    decreases v
  {
    hide Unpack, PushValue, Head, IntegerBytes, StringBytes;
    match v
    case Nil =>
      ReadsHead(TYPE_NIL, 0, rest);
      NilIsNil(rest);
    case Boolean(b) =>
      ReadsHead(TYPE_BOOLEAN, if b then 1 else 0, rest);
      BooleanIsBoolean(b, rest);
    case Integer(i) => ReadsNumber(i, rest);
    case Real(bits) => ReadsEight(TYPE_NUMBER, NUMBER_REAL, bits, rest);
    case Pointer(address) => ReadsEight(TYPE_USERDATA, 0, address, rest);
    case Str(x) => ReadsString(x, rest);
    case Table(items, pairs) => UnpackPackedTable(items, pairs, rest);
  }

  lemma NilIsNil(rest: seq<Byte>)
    ensures PushValue(TYPE_NIL, 0, rest) == Parsed(Nil, rest)
  {
  }

  lemma BooleanIsBoolean(b: bool, rest: seq<Byte>)
    ensures PushValue(TYPE_BOOLEAN, if b then 1 else 0, rest) == Parsed(Boolean(b), rest)
  {
  }

  lemma ReadsEight(kind: nat, cookie: nat, bits: seq<Byte>, rest: seq<Byte>)
    requires |bits| == 8 && (kind == TYPE_USERDATA || kind == TYPE_NUMBER)
    requires cookie == if kind == TYPE_NUMBER then NUMBER_REAL else 0
    ensures Unpack(Head(kind, cookie) + bits + rest) ==
            Parsed(if kind == TYPE_NUMBER then Real(bits) else Pointer(bits), rest)
  {
    hide Unpack, Head;
    ReadsHead(kind, cookie, bits + rest);
    Splits(bits, rest);
    assert Head(kind, cookie) + bits + rest == Head(kind, cookie) + (bits + rest);
  }

  lemma ReadsNumber(x: int, rest: seq<Byte>)
    requires -TWO_63 <= x < TWO_63
    ensures Unpack(IntegerBytes(x) + rest) == Parsed(Integer(x), rest)
  {
    hide Unpack, Head, Digits, GetInteger;
    ReadsInteger(x, rest);
    ReadsHead(TYPE_NUMBER, Cookie(x), Digits(x) + rest);
    assert IntegerBytes(x) + rest == Head(TYPE_NUMBER, Cookie(x)) + (Digits(x) + rest);
  }

  lemma {:induction false} UnpackPackedTable(items: seq<Value>, pairs: seq<Pair>, rest: seq<Byte>)
    requires Packable(Table(items, pairs))
    ensures Unpack(Packed(Table(items, pairs)) + rest) == Parsed(Table(items, pairs), rest)
    decreases Table(items, pairs), 0
  {
    hide Unpack, GetCount, UnpackArray, UnpackPairs, PackedAll, PackedPairs, Packed, Head, TableHead;
    var n := |items|;
    var cookie := if n >= MAX_COOKIE - 1 then MAX_COOKIE - 1 else n;
    var ends := PackedPairs(pairs) + Head(TYPE_NIL, 0) + rest;
    var more := PackedAll(items) + ends;
    ReadsCount(n, more);
    UnpackPackedArray(items, ends);
    UnpackPackedPairs(pairs, rest);
    var counted := TableHead(n)[1..] + more;
    ReadsHead(TYPE_TABLE, cookie, counted);
    TableBytes(items, pairs, rest, cookie);
  }

  lemma TableBytes(items: seq<Value>, pairs: seq<Pair>, rest: seq<Byte>, cookie: nat)
    requires Packable(Table(items, pairs)) && cookie < 32 && TableHead(|items|)[..1] == Head(TYPE_TABLE, cookie)
    ensures
      var ends := PackedPairs(pairs) + Head(TYPE_NIL, 0) + rest;
      Packed(Table(items, pairs)) + rest ==
      Head(TYPE_TABLE, cookie) + (TableHead(|items|)[1..] + (PackedAll(items) + ends))
  {
    hide Packed, TableHead, Head, PackedAll, PackedPairs;
    TablePacked(items, pairs);
    Joined(TableHead(|items|), PackedAll(items), PackedPairs(pairs), Head(TYPE_NIL, 0), rest);
    Prefixed(Head(TYPE_TABLE, cookie), TableHead(|items|), PackedAll(items) + (PackedPairs(pairs) + Head(TYPE_NIL, 0) + rest));
  }

  lemma TablePacked(items: seq<Value>, pairs: seq<Pair>)
    requires Packable(Table(items, pairs))
    ensures
      Packed(Table(items, pairs)) == TableHead(|items|) + PackedAll(items) + PackedPairs(pairs) + Head(TYPE_NIL, 0)
  {
  }

  lemma Prefixed(a: seq<Byte>, b: seq<Byte>, c: seq<Byte>)
    requires |b| >= 1 && a == b[..1]
    ensures b + c == a + (b[1..] + c)
  {
  }

  lemma Joined(a: seq<Byte>, b: seq<Byte>, c: seq<Byte>, d: seq<Byte>, e: seq<Byte>)
    ensures a + b + c + d + e == a + (b + (c + d + e))
  {
  }

  lemma {:induction false} UnpackPackedArray(vs: seq<Value>, rest: seq<Byte>)
    requires forall i | 0 <= i < |vs| :: Packable(vs[i])
    ensures UnpackArray(|vs|, PackedAll(vs) + rest) == ParsedMany(vs, rest)
    decreases vs
  {
    hide Unpack, Packed;
    if vs == [] {
      assert PackedAll(vs) + rest == rest;
    } else {
      var more := PackedAll(vs[1..]) + rest;
      assert PackedAll(vs) + rest == Packed(vs[0]) + more;
      UnpackPacked(vs[0], more);
      UnpackPackedArray(vs[1..], rest);
    }
  }

  lemma {:induction false} UnpackPackedPairs(ps: seq<Pair>, rest: seq<Byte>)
    requires forall i | 0 <= i < |ps| :: PackablePair(ps[i])
    ensures UnpackPairs(PackedPairs(ps) + Head(TYPE_NIL, 0) + rest) == ParsedPairs(ps, rest)
    decreases ps
  {
    hide Unpack, Packed, PackedPair, Head, PushValue;
    if ps == [] {
      ReadsHead(TYPE_NIL, 0, rest);
      assert PackedPairs(ps) + Head(TYPE_NIL, 0) + rest == Head(TYPE_NIL, 0) + rest;
      NilIsNil(rest);
    } else {
      var end, others := Head(TYPE_NIL, 0), PackedPairs(ps[1..]);
      var more := others + end + rest;
      Regrouped(PackedPair(ps[0]), others, end);
      Regrouped(PackedPair(ps[0]), others + end, rest);
      UnpackPackedPair(ps[0], more);
      UnpackPackedPairs(ps[1..], rest);
    }
  }

  lemma {:induction false} UnpackPackedPair(p: Pair, rest: seq<Byte>)
    requires PackablePair(p)
    ensures Unpack(PackedPair(p) + rest) == Parsed(p.key, Packed(p.value) + rest)
    ensures Unpack(Packed(p.value) + rest) == Parsed(p.value, rest)
    decreases p
  {
    hide Unpack, Packed;
    UnpackPacked(p.key, Packed(p.value) + rest);
    UnpackPacked(p.value, rest);
    assert PackedPair(p) + rest == Packed(p.key) + (Packed(p.value) + rest);
  }

  lemma {:induction false} UnpackPackedList(vs: seq<Value>)
    requires forall i | 0 <= i < |vs| :: Packable(vs[i])
    ensures UnpackAll(PackedAll(vs)) == ParsedMany(vs, [])
  {
    hide Unpack, Packed;
    if vs != [] {
      UnpackPackedList(vs[1..]);
      UnpackPacked(vs[0], PackedAll(vs[1..]));
      assert PackedAll(vs) != [];
    }
  }

  // ---- the depth limit

  predicate Fits(v: Value, depth: nat)
    decreases v
  {
    depth <= MAX_DEPTH &&
    (v.Table? ==>
       (forall i | 0 <= i < |v.items| :: Fits(v.items[i], depth + 1)) &&
       (forall i | 0 <= i < |v.pairs| :: FitsPair(v.pairs[i], depth + 1)))
  }

  predicate FitsPair(p: Pair, depth: nat)
    decreases p
  {
    Fits(p.key, depth) && Fits(p.value, depth)
  }

  function Max(a: nat, b: nat): nat {
    if a < b then b else a
  }

  /** How many tables stand around the innermost value. */
  function Height(v: Value): nat
    decreases v
  {
    if !v.Table? || (v.items == [] && v.pairs == []) then 0
    else 1 + Max(HeightAll(v.items), HeightPairs(v.pairs))
  }

  function HeightAll(vs: seq<Value>): nat
    decreases vs
  {
    if vs == [] then 0 else Max(Height(vs[0]), HeightAll(vs[1..]))
  }

  function HeightPair(p: Pair): nat
    decreases p
  {
    Max(Height(p.key), Height(p.value))
  }

  function HeightPairs(ps: seq<Pair>): nat
    decreases ps
  {
    if ps == [] then 0 else Max(HeightPair(ps[0]), HeightPairs(ps[1..]))
  }

  /** A value can be packed if and only if its innermost value stands in at most 32 tables. */
  lemma {:induction false} FitsExactly(v: Value, depth: nat)
    ensures Fits(v, depth) <==> depth + Height(v) <= MAX_DEPTH
    decreases v
  {
    if v.Table? {
      FitsAllExactly(v.items, depth + 1);
      FitsPairsExactly(v.pairs, depth + 1);
      assert v.items != [] ==> !(Fits(v, depth) && !Fits(v.items[0], depth + 1));
      assert v.pairs != [] ==> !(Fits(v, depth) && !FitsPair(v.pairs[0], depth + 1));
    }
  }

  lemma {:induction false} FitsAllExactly(vs: seq<Value>, depth: nat)
    ensures (forall i | 0 <= i < |vs| :: Fits(vs[i], depth)) <==> (vs == [] || depth + HeightAll(vs) <= MAX_DEPTH)
    decreases vs
  {
    hide Fits, Height;
    if vs != [] {
      FitsExactly(vs[0], depth);
      FitsAllExactly(vs[1..], depth);
      assert forall i | 1 <= i < |vs| :: vs[i] == vs[1..][i - 1];
    }
  }

  lemma {:induction false} FitsPairsExactly(ps: seq<Pair>, depth: nat)
    ensures (forall i | 0 <= i < |ps| :: FitsPair(ps[i], depth)) <==> (ps == [] || depth + HeightPairs(ps) <= MAX_DEPTH)
    decreases ps
  {
    hide Fits, Height;
    if ps != [] {
      FitsPairExactly(ps[0], depth);
      FitsPairsExactly(ps[1..], depth);
      assert forall i | 1 <= i < |ps| :: ps[i] == ps[1..][i - 1];
    }
  }

  lemma {:induction false} FitsPairExactly(p: Pair, depth: nat)
    ensures FitsPair(p, depth) <==> depth + HeightPair(p) <= MAX_DEPTH
    decreases p
  {
    hide Fits, Height;
    FitsExactly(p.key, depth);
    FitsExactly(p.value, depth);
  }
}
