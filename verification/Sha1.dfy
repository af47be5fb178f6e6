/** The bookkeeping of SHA-1 around its transformation of one block (lsha1.c), which may be any function, and HMAC. */
module Sha1 {

  import opened Octets

  type Words = w: seq<bv32> | |w| == 5 witness [0, 0, 0, 0, 0]
  type Transform = (Words, Text) -> Words

  const TWO_29 := 0x2000_0000
  const TWO_32 := 0x1_0000_0000
  const TWO_61 := 0x2000_0000_0000_0000
  const TWO_64 := 0x1_0000_0000_0000_0000
  const BLOCK := 64

  const INIT: Words := [0x67452301, 0xEFCDAB89, 0x98BADCFE, 0x10325476, 0xC3D2E1F0]

  // ---- what the digest is

  /** The blocks of a text, transformed one after the other. */
  function Compress(f: Transform, text: Text): Words
    requires |text| % BLOCK == 0
  {
    if text == [] then INIT else f(Compress(f, text[..|text| - BLOCK]), text[|text| - BLOCK..])
  }

  /** `n >> 8 * k` */
  function Shifted(n: nat, k: nat): nat
    requires k < 8
  {
    n / [1, 0x100, 0x1_0000, 0x100_0000, 0x1_0000_0000, 0x100_0000_0000, 0x1_0000_0000_0000, 0x100_0000_0000_0000][k]
  }

  function Low(n: nat): Octet {
    (n % 256) as bv8
  }

  /** The low eight bytes of a number, most significant first. */
  function Length(n: nat): (s: Text)
    ensures |s| == 8
  {
    seq(8, i requires 0 <= i < 8 => Low(Shifted(n, 7 - i)))
  }

  /** The fewest zeros that bring n bytes, a mark and a length to whole blocks. */
  function Fill(n: nat): (k: nat)
    ensures k < BLOCK && (n + 1 + k + 8) % BLOCK == 0
  {
    if n % BLOCK < 56 then 55 - n % BLOCK else 119 - n % BLOCK
  }

  /** Section 5.1.1 of FIPS 180-4: a one bit, zeros, and the length in bits, to whole blocks. */
  function Pad(text: Text): (p: Text)
    ensures |p| % BLOCK == 0
  {
    text + [0x80] + Zeros(Fill(|text|)) + Length(8 * |text|)
  }

  function OctetOf(w: bv32, i: nat): Octet {
    var n: bv32 := if i == 0 then w >> 24 else if i == 1 then w >> 16 else if i == 2 then w >> 8 else w;
    (n & 255) as bv8
  }

  /** The words of the state, most significant byte first. */
  function Digest(w: Words): (d: Text)
    ensures |d| == 20
  {
    seq(20, i requires 0 <= i < 20 => OctetOf(w[i / 4], i % 4))
  }

  /** Four bytes, the most significant first. */
  function Word(a: Octet, b: Octet, c: Octet, d: Octet): bv32 {
    ((a as bv32) << 24) | ((b as bv32) << 16) | ((c as bv32) << 8) | (d as bv32)
  }

  lemma WordReads(w: bv32)
    ensures w == Word(OctetOf(w, 0), OctetOf(w, 1), OctetOf(w, 2), OctetOf(w, 3))
  {
  }

  /** Every word of the state is read back from four bytes of the digest. */
  lemma DigestReads(w: Words, i: nat)
    requires i < 5
    ensures w[i] == Word(Digest(w)[4 * i], Digest(w)[4 * i + 1], Digest(w)[4 * i + 2], Digest(w)[4 * i + 3])
  {
    hide OctetOf, Word;
    var d := Digest(w);
    assert d[4 * i] == OctetOf(w[i], 0) && d[4 * i + 1] == OctetOf(w[i], 1);
    assert d[4 * i + 2] == OctetOf(w[i], 2) && d[4 * i + 3] == OctetOf(w[i], 3);
    WordReads(w[i]);
  }

  /** The initial words of section 5.3.1 of FIPS 180-4: in little-endian order they count the hexadecimal digits up,
      then down, and then swap them. */
  lemma InitCounts()
    ensures
      var d := Digest(INIT);
      (forall i | 0 <= i < 8 :: d[i / 4 * 4 + 3 - i % 4] == [0x01, 0x23, 0x45, 0x67, 0x89, 0xAB, 0xCD, 0xEF][i]) &&
      (forall i | 8 <= i < 16 :: d[i / 4 * 4 + 3 - i % 4] == [0xFE, 0xDC, 0xBA, 0x98, 0x76, 0x54, 0x32, 0x10][i - 8]) &&
      (forall i | 16 <= i < 20 :: d[i / 4 * 4 + 3 - i % 4] == [0xF0, 0xE1, 0xD2, 0xC3][i - 16])
  {
    var d := Digest(INIT);
  }

  function Hash(f: Transform, text: Text): (d: Text)
    ensures |d| == 20
  {
    Digest(Compress(f, Pad(text)))
  }

  lemma CompressMore(f: Transform, a: Text, b: Text)
    requires |a| % BLOCK == 0 && |b| == BLOCK
    ensures Compress(f, a + b) == f(Compress(f, a), b)
  {
    assert (a + b)[..|a + b| - BLOCK] == a && (a + b)[|a + b| - BLOCK..] == b;
  }

  // ---- the count of bits, in two words

  datatype Count = Count(low: nat, high: nat)

  /** The carry is noticed by comparing the low word with all the added bits. */
  function Counted(c: Count, len: nat): (d: Count)
    ensures d.low < TWO_32 && d.high < TWO_32
  {
    var low := (c.low + 8 * len) % TWO_32;
    var carry := if low < 8 * len % TWO_64 then 1 else 0;
    Count(low, (c.high + carry + len / TWO_29) % TWO_32)
  }

  function BitsOf(n: nat): Count {
    Count(8 * n % TWO_32, 8 * n / TWO_32 % TWO_32)
  }

  /** Long pieces are counted wrong, unless the low word did overflow. */
  lemma CountedExactly(n: nat, len: nat)
    requires len < TWO_61
    ensures
      var c := Counted(BitsOf(n), len);
      c.low == BitsOf(n + len).low &&
      (c == BitsOf(n + len) <==> len < TWO_29 || BitsOf(n).low + 8 * len % TWO_32 >= TWO_32)
  {
    hide BitsOf, Counted;
    var q, r := 8 * n / TWO_32, len / TWO_29;
    var over := if BitsOf(n).low + 8 * len % TWO_32 >= TWO_32 then 1 else 0;
    BitsAdded(n, len, over);
    CarryNoticed(BitsOf(n), len, over);
    High(q, r, over);
    High(q, r, 1);
    NextDiffers(q + r);
  }

  lemma BitsAdded(n: nat, len: nat, over: nat)
    requires over == if BitsOf(n).low + 8 * len % TWO_32 >= TWO_32 then 1 else 0
    ensures BitsOf(n).low < TWO_32 && BitsOf(n).high == 8 * n / TWO_32 % TWO_32
    ensures BitsOf(n + len) ==
            Count(BitsOf(n).low + 8 * len % TWO_32 - over * TWO_32, (8 * n / TWO_32 + len / TWO_29 + over) % TWO_32)
  {
    var low, bits := 8 * n % TWO_32, 8 * len % TWO_32;
    assert 8 * len / TWO_32 == len / TWO_29;
    Division(8 * (n + len), 8 * n / TWO_32 + 8 * len / TWO_32 + over, low + bits - over * TWO_32);
  }

  /** For short pieces the carry is the overflow of the low word; for long ones there always is one. */
  lemma CarryNoticed(c: Count, len: nat, over: nat)
    requires len < TWO_61 && c.low < TWO_32 && over == if c.low + 8 * len % TWO_32 >= TWO_32 then 1 else 0
    ensures
      var carry := if len < TWO_29 then over else 1;
      Counted(c, len) ==
      Count(c.low + 8 * len % TWO_32 - over * TWO_32, (c.high + carry + len / TWO_29) % TWO_32)
  {
    var sum := c.low + 8 * len % TWO_32 - over * TWO_32;
    Division(c.low + 8 * len, 8 * len / TWO_32 + over, sum);
    assert 8 * len < TWO_64;
  }

  lemma Division(x: nat, q: nat, r: nat)
    requires x == q * TWO_32 + r && r < TWO_32
    ensures x / TWO_32 == q && x % TWO_32 == r
  {
  }

  lemma High(q: nat, r: nat, over: nat)
    ensures (q % TWO_32 + over + r) % TWO_32 == (q + r + over) % TWO_32
  {
  }

  lemma NextDiffers(x: nat)
    ensures x % TWO_32 != (x + 1) % TWO_32
  {
  }

  // ---- the streaming state

  class Context {
    const f: Transform
    var state: Words
    var count: Count
    const buffer: array<Octet>
    ghost var message: Text
    // how many bytes of the message went through the transformation
    ghost var done: nat

    ghost predicate Valid()
      reads this, buffer
    {
      Absorbed() && count.low == BitsOf(|message|).low && count.high < TWO_32
    }

    /** Whole blocks went through the transformation, and the rest is in the buffer. */
    ghost predicate Absorbed()
      reads `state, `message, `done, buffer
    {
      buffer.Length == BLOCK && done % BLOCK == 0 && done <= |message| < done + BLOCK &&
      state == Compress(f, message[..done]) && buffer[..|message| - done] == message[done..]
    }

    /** The count is right in both words. */
    ghost predicate Counts()
      reads this
    {
      count == BitsOf(|message|)
    }

    constructor (f: Transform)
      ensures Valid() && Counts() && message == [] && fresh(buffer) && this.f == f
    {
      this.f := f;
      state, count, message, done := INIT, Count(0, 0), [], 0;
      buffer := new Octet[BLOCK];
    }

    method CopyIn(at: nat, s: Text)
      requires buffer.Length == BLOCK && at + |s| <= BLOCK
      modifies buffer
      ensures buffer[..at + |s|] == old(buffer[..at]) + s
    {
      for i := 0 to |s|
        invariant buffer[..at + i] == old(buffer[..at]) + s[..i]
      {
        buffer[at + i] := s[i];
        assert buffer[..at + i + 1] == buffer[..at + i] + [s[i]];
      }
    }

    /** sat_SHA1_Update */
    method Update(data: Text)
      requires Valid() && |data| < TWO_61
      modifies this`state, this`count, this`message, this`done, buffer
      ensures Valid() && message == old(message) + data
      ensures old(Counts()) ==>
                (Counts() <==> |data| < TWO_29 || old(count).low + 8 * |data| % TWO_32 >= TWO_32)
    {
      hide Counted, Absorbed;
      var j := count.low / 8 % 64;
      Unread();
      InBuffer(|message|, done, count.low);
      CountedLow(count, |message|, |data|);
      count := Counted(count, |data|);
      Absorb(j, data);
    }

    lemma Unread()
      requires Absorbed()
      ensures done % BLOCK == 0 && done <= |message| < done + BLOCK
    {
    }

    method Absorb(at: nat, data: Text)
      requires Absorbed() && at == |message| - done
      modifies this`state, this`message, this`done, buffer
      ensures Absorbed() && message == old(message) + data
    {
      hide Compress;
      ghost var before := message;
      var j, i := at, 0;
      message := message + data;
      if j + |data| > 63 {
        i := 64 - j;
        CopyIn(j, data[..i]);
        assert buffer[..] == before[done..] + data[..i];
        Transforms(before[..done], buffer[..]);
        assert message[..done + 64] == before[..done] + buffer[..];
        state := f(state, buffer[..]);
        done := done + 64;
        i := TransformBlocks(data, i);
        j := 0;
      }
      CopyIn(j, data[i..]);
      assert message[done..] == (if i == 0 then before[done..] else []) + data[i..];
      assert i == 0 ==> message[..done] == before[..done];
    }

    /** Whole blocks are transformed where they are. */
    method TransformBlocks(data: Text, from: nat) returns (i: nat)
      requires from <= |data| <= |message| && data == message[|message| - |data|..] && |message| - |data| + from == done
      requires done % BLOCK == 0 && state == Compress(f, message[..done])
      modifies `state, `done
      ensures from <= i <= |data| < i + 64 && |message| - |data| + i == done && done % BLOCK == 0
      ensures state == Compress(f, message[..done])
    {
      hide Compress;
      i := from;
      while i + 63 < |data|
        invariant from <= i <= |data| && |message| - |data| + i == done && done % BLOCK == 0
        invariant state == Compress(f, message[..done])
        decreases |data| - i
      {
        Transforms(message[..done], data[i..i + 64]);
        assert message[..done + 64] == message[..done] + data[i..i + 64];
        state := f(state, data[i..i + 64]);
        done := done + 64;
        i := i + 64;
      }
    }

    lemma Transforms(a: Text, block: Text)
      requires |a| % BLOCK == 0 && |block| == BLOCK
      ensures Compress(f, a + block) == f(Compress(f, a), block)
    {
      CompressMore(f, a, block);
    }

    /** sat_SHA1_Final */
    method Final() returns (digest: Text)
      requires Valid()
      modifies this`state, this`count, this`message, this`done, buffer
      ensures |digest| == 20 && (old(Counts()) ==> digest == Hash(f, old(message)))
    {
      hide Absorbed, Compress, BitsOf, Length, Zeros, Digest, Fill;
      ghost var text, right := message, Counts();
      var finalcount := CountBytes();
      Update([0x80]);
      ghost var zeros := 0;
      assert message == text + [0x80] + Zeros(zeros);
      Position(|message|, count.low);
      FillIs(|text|, zeros);
      while count.low / 8 % 64 != 56
        invariant Valid() && zeros <= Fill(|text|) && message == text + [0x80] + Zeros(zeros)
        invariant count.low / 8 % 64 == 56 <==> zeros == Fill(|text|)
        decreases Fill(|text|) - zeros
      {
        Update([0]);
        zeros := zeros + 1;
        assert Zeros(zeros) == Zeros(zeros - 1) + [0];
        Position(|message|, count.low);
        FillIs(|text|, zeros);
      }
      Update(finalcount);
      AllAbsorbed();
      assert message == text + [0x80] + Zeros(Fill(|text|)) + finalcount;
      digest := Digest(state);
    }

    lemma AllAbsorbed()
      requires Absorbed()
      ensures |message| % BLOCK == 0 ==> state == Compress(f, message)
    {
      assert |message| % BLOCK == 0 ==> message[..done] == message;
    }

    method CountBytes() returns (bytes: Text)
      ensures |bytes| == 8 && (Counts() ==> bytes == Length(8 * |message|))
    {
      hide CountByte, BitsOf, Length;
      bytes := [];
      for i := 0 to 8
        invariant |bytes| == i && forall k | 0 <= k < i :: bytes[k] == CountByte(count, k)
      {
        bytes := bytes + [CountByte(count, i)];
      }
      if Counts() {
        forall k | 0 <= k < 8
          ensures bytes[k] == Length(8 * |message|)[k]
        {
          LengthByte(|message|, k);
        }
      }
    }
  }

  /** One of the bytes of the count, high word first, most significant byte first. */
  function CountByte(c: Count, k: nat): Octet
    requires k < 8
  {
    Low(Shifted(if k >= 4 then c.low else c.high, 3 - k % 4))
  }

  /** The bytes of a length are those of its two words. */
  lemma LengthByte(n: nat, k: nat)
    requires k < 8
    ensures CountByte(BitsOf(n), k) == Length(8 * n)[k]
  {
    hide Shifted, BitsOf, Low;
    WordsOf(n);
    if k < 4 {
      WordByte(8 * n / TWO_32, 3 - k);
      HighByte(8 * n, 3 - k);
    } else {
      WordByte(8 * n, 7 - k);
    }
  }

  lemma WordsOf(n: nat)
    ensures BitsOf(n).low == 8 * n % TWO_32 && BitsOf(n).high == 8 * n / TWO_32 % TWO_32
  {
  }

  lemma WordByte(m: nat, j: nat)
    requires j < 4
    ensures Low(Shifted(m % TWO_32, j)) == Low(Shifted(m, j))
  {
    var q, w := m / TWO_32, m % TWO_32;
    if j == 0 {
      Same256(m, w, q * 0x100_0000);
    } else if j == 1 {
      assert m == 0x100 * (q * 0x100_0000) + w;
      Same256(m / 0x100, w / 0x100, q * 0x1_0000);
    } else if j == 2 {
      assert m == 0x1_0000 * (q * 0x1_0000) + w;
      Same256(m / 0x1_0000, w / 0x1_0000, q * 0x100);
    } else {
      assert m == 0x100_0000 * (q * 0x100) + w;
      Same256(m / 0x100_0000, w / 0x100_0000, q);
    }
  }

  lemma Same256(x: nat, y: nat, k: nat)
    requires x == 256 * k + y
    ensures x % 256 == y % 256
  {
  }

  lemma HighByte(n: nat, j: nat)
    requires j < 4
    ensures Shifted(n / TWO_32, j) == Shifted(n, j + 4)
  {
  }

  lemma Position(n: nat, low: nat)
    requires low == BitsOf(n).low
    ensures low / 8 % 64 == n % BLOCK
  {
    var done := n - n % BLOCK;
    InBuffer(n, done, low);
  }

  lemma FillIs(n: nat, zeros: nat)
    requires zeros <= Fill(n)
    ensures (n + 1 + zeros) % BLOCK == 56 <==> zeros == Fill(n)
  {
    var r := n % BLOCK;
    Remainder64(n + 1 + zeros, if r + 1 + zeros < 64 then n / BLOCK else n / BLOCK + 1,
                if r + 1 + zeros < 64 then r + 1 + zeros else r + 1 + zeros - 64);
  }

  lemma InBuffer(n: nat, done: nat, low: nat)
    requires low == BitsOf(n).low && done % BLOCK == 0 && done <= n < done + BLOCK
    ensures low / 8 % 64 == n - done
  {
    var q := 8 * n / TWO_32;
    assert low == 8 * (n - q * TWO_29);
    Remainder64(low / 8, done / BLOCK - q * (TWO_29 / 64), n - done);
  }

  lemma Remainder64(x: nat, k: int, r: nat)
    requires x == 64 * k + r && r < 64
    ensures x % 64 == r
  {
  }

  lemma CountedLow(c: Count, n: nat, len: nat)
    requires c.low == BitsOf(n).low && len < TWO_61
    ensures Counted(c, len).low == BitsOf(n + len).low && Counted(c, len).high < TWO_32
    ensures c == BitsOf(n) ==>
              (Counted(c, len) == BitsOf(n + len) <==> len < TWO_29 || c.low + 8 * len % TWO_32 >= TWO_32)
  {
    hide BitsOf, Counted;
    CountedExactly(n, len);
    LowIsLow(c, BitsOf(n), len);
  }

  lemma LowIsLow(c: Count, d: Count, len: nat)
    requires c.low == d.low
    ensures Counted(c, len).low == Counted(d, len).low
  {
  }

  // ---- digests

  function Joined(parts: seq<Text>): Text {
    if parts == [] then [] else Joined(parts[..|parts| - 1]) + parts[|parts| - 1]
  }

  /** A text given in short pieces has the digest of the text, however it is split. */
  method DigestOf(f: Transform, parts: seq<Text>) returns (digest: Text)
    requires forall i | 0 <= i < |parts| :: |parts[i]| < TWO_29
    ensures digest == Hash(f, Joined(parts))
  {
    hide Context.Valid, Hash;
    var c := new Context(f);
    for n := 0 to |parts|
      invariant c.Valid() && c.Counts() && c.f == f && c.message == Joined(parts[..n]) && fresh(c) && fresh(c.buffer)
    {
      assert parts[..n + 1][..n] == parts[..n];
      c.Update(parts[n]);
    }
    assert parts[..|parts|] == parts;
    digest := c.Final();
  }

  // ---- HMAC

  function Xored(key: Text, x: Octet): (r: Text)
    ensures |r| == |key|
  {
    if key == [] then [] else Xored(key[..|key| - 1], x) + [key[|key| - 1] ^ x]
  }

  /** Section 2 of RFC 2104, with the keys of more than a block hashed first */
  function Hmac(f: Transform, key: Text, text: Text): Text {
    var k := if |key| > BLOCK then Hash(f, key) else key;
    var block := k + Zeros(BLOCK - |k|);
    Hash(f, Xored(block, 0x5c) + Hash(f, Xored(block, 0x36) + text))
  }

  lemma {:induction false} XoredTwice(key: Text, x: Octet, y: Octet)
    ensures Xored(Xored(key, x), x ^ y) == Xored(key, y)
  {
    if key != [] {
      var n := |key| - 1;
      XoredTwice(key[..n], x, y);
      assert Xored(key, x)[..n] == Xored(key[..n], x);
      XorTwice(key[n], x, y);
    }
  }

  lemma XorTwice(a: Octet, x: Octet, y: Octet)
    ensures (a ^ x) ^ (x ^ y) == a ^ y
  {
  }

  /** xor_key */
  method XorKey(key: Text, x: Octet) returns (r: Text)
    ensures r == Xored(key, x)
  {
    r := [];
    for i := 0 to |key|
      invariant r == Xored(key[..i], x)
    {
      assert key[..i + 1][..i] == key[..i];
      r := r + [key[i] ^ x];
    }
    assert key[..|key|] == key;
  }

  /** A key of more than a block is hashed. */
  method ShortKey(f: Transform, key: Text) returns (k: Text)
    requires |key| < TWO_61
    ensures |k| <= BLOCK && (|key| < TWO_29 ==> k == if |key| > BLOCK then Hash(f, key) else key)
  {
    hide Context.Valid, Hash;
    k := key;
    if |key| > BLOCK {
      var ctx := new Context(f);
      ctx.Update(key);
      assert ctx.message == key;
      k := ctx.Final();
    }
  }

  /** The inner hash: the masked key, and the text. */
  method InnerHash(f: Transform, rkey: Text, text: Text) returns (digest: Text)
    requires |rkey| == BLOCK && |text| < TWO_61
    ensures |digest| == 20
    ensures |text| < TWO_29 || 8 * BLOCK + 8 * |text| % TWO_32 >= TWO_32 ==> digest == Hash(f, rkey + text)
  {
    hide Context.Valid, Hash;
    var ctx2 := new Context(f);
    ctx2.Update(rkey);
    ctx2.Update(text);
    assert ctx2.message == rkey + text;
    digest := ctx2.Final();
  }

  /** lhmac_sha1. Key and text are one update each, which have to be counted right. */
  method HmacSha1(f: Transform, key: Text, text: Text) returns (digest: Text)
    requires |key| < TWO_61 && |text| < TWO_61
    ensures |digest| == 20
    ensures |key| < TWO_29 && (|text| < TWO_29 || 8 * BLOCK + 8 * |text| % TWO_32 >= TWO_32) ==> digest == Hmac(f, key, text)
  {
    hide Context.Valid, Hash, Xored;
    var k := ShortKey(f, key);
    var rkey := k + Zeros(BLOCK - |k|);
    ghost var block := rkey;
    rkey := XorKey(rkey, 0x5c);
    var ctx1 := new Context(f);
    ctx1.Update(rkey);
    rkey := XorKey(rkey, 0x5c ^ 0x36);
    XoredTwice(block, 0x5c, 0x36);
    var digest2 := InnerHash(f, rkey, text);
    ctx1.Update(digest2);
    assert ctx1.message == Xored(block, 0x5c) + digest2;
    digest := ctx1.Final();
  }
}
