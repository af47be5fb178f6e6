/** The cipher of lua-crypt.c: the structure of DES, for any S-boxes and any subkeys, and the padding of texts. */
module Des {

  import opened Octets

  datatype Two = Two(x: bv32, y: bv32)

  /** The two words of a round's key. */
  datatype Subkey = Subkey(a: bv32, b: bv32)

  type Boxes = b: seq<seq<bv32>> | |b| == 8 && forall i | 0 <= i < 8 :: |b[i]| == 64
    ghost witness seq(8, _ => seq(64, _ => 0))

  // ---- words and octets

  /** GET_UINT32 */
  function Get(b: Text): bv32
    requires |b| == 4
  {
    ((b[0] as bv32) << 24) | ((b[1] as bv32) << 16) | ((b[2] as bv32) << 8) | (b[3] as bv32)
  }

  /** PUT_UINT32 */
  function Put(n: bv32): (b: Text)
    ensures |b| == 4
  {
    [((n >> 24) & 0xFF) as bv8, ((n >> 16) & 0xFF) as bv8, ((n >> 8) & 0xFF) as bv8, (n & 0xFF) as bv8]
  }

  lemma GetPut(n: bv32)
    ensures Get(Put(n)) == n
  {
  }

  lemma PutGet(b: Text)
    requires |b| == 4
    ensures Put(Get(b)) == b
  {
  }

  // ---- the permutations

  /** Bits of x, shifted by n, change places with bits of y. */
  function Exchange(p: Two, n: bv32, mask: bv32): Two
    requires n < 32
  {
    var t := ((p.x >> n) ^ p.y) & mask;
    Two(p.x ^ (t << n), p.y ^ t)
  }

  function Flip(p: Two): Two {
    Two(p.y, p.x)
  }

  function RotateLeft(x: bv32): bv32 {
    (x << 1) | (x >> 31)
  }

  function RotateRight(x: bv32): bv32 {
    (x << 31) | (x >> 1)
  }

  /** DES_IP */
  function Initial(p: Two): Two {
    var p1 := Exchange(p, 4, 0x0F0F0F0F);
    var p2 := Exchange(p1, 16, 0x0000FFFF);
    var p3 := Flip(Exchange(Flip(p2), 2, 0x33333333));
    var p4 := Flip(Exchange(Flip(p3), 8, 0x00FF00FF));
    var p5 := Two(p4.x, RotateLeft(p4.y));
    var p6 := Exchange(p5, 0, 0xAAAAAAAA);
    Two(RotateLeft(p6.x), p6.y)
  }

  /** DES_FP */
  function Final(p: Two): Two {
    var p1 := Two(RotateRight(p.x), p.y);
    var p2 := Exchange(p1, 0, 0xAAAAAAAA);
    var p3 := Two(p2.x, RotateRight(p2.y));
    var p4 := Flip(Exchange(Flip(p3), 8, 0x00FF00FF));
    var p5 := Flip(Exchange(Flip(p4), 2, 0x33333333));
    var p6 := Exchange(p5, 16, 0x0000FFFF);
    Exchange(p6, 4, 0x0F0F0F0F)
  }

  lemma ExchangeTwice4(p: Two)
    ensures Exchange(Exchange(p, 4, 0x0F0F0F0F), 4, 0x0F0F0F0F) == p
  {
  }

  lemma ExchangeTwice16(p: Two)
    ensures Exchange(Exchange(p, 16, 0x0000FFFF), 16, 0x0000FFFF) == p
  {
  }

  lemma ExchangeTwice2(p: Two)
    ensures Exchange(Exchange(p, 2, 0x33333333), 2, 0x33333333) == p
  {
  }

  lemma ExchangeTwice8(p: Two)
    ensures Exchange(Exchange(p, 8, 0x00FF00FF), 8, 0x00FF00FF) == p
  {
  }

  lemma ExchangeTwice0(p: Two)
    ensures Exchange(Exchange(p, 0, 0xAAAAAAAA), 0, 0xAAAAAAAA) == p
  {
  }

  lemma RotateBack(x: bv32)
    ensures RotateRight(RotateLeft(x)) == x && RotateLeft(RotateRight(x)) == x
  {
  }

  /** The final permutation undoes the initial one. */
  lemma FinalUndoesInitial(p: Two)
    ensures Final(Initial(p)) == p
  {
    hide Exchange, RotateLeft, RotateRight;
    var p1 := Exchange(p, 4, 0x0F0F0F0F);
    var p2 := Exchange(p1, 16, 0x0000FFFF);
    var p3 := Flip(Exchange(Flip(p2), 2, 0x33333333));
    var p4 := Flip(Exchange(Flip(p3), 8, 0x00FF00FF));
    var p5 := Two(p4.x, RotateLeft(p4.y));
    var p6 := Exchange(p5, 0, 0xAAAAAAAA);
    RotateBack(p6.x);
    ExchangeTwice0(p5);
    RotateBack(p4.y);
    ExchangeTwice8(Flip(p3));
    ExchangeTwice2(Flip(p2));
    ExchangeTwice16(p1);
    ExchangeTwice4(p);
  }

  /** And the initial permutation undoes the final one. */
  lemma InitialUndoesFinal(p: Two)
    ensures Initial(Final(p)) == p
  {
    hide Exchange, RotateLeft, RotateRight;
    var p1 := Two(RotateRight(p.x), p.y);
    var p2 := Exchange(p1, 0, 0xAAAAAAAA);
    var p3 := Two(p2.x, RotateRight(p2.y));
    var p4 := Flip(Exchange(Flip(p3), 8, 0x00FF00FF));
    var p5 := Flip(Exchange(Flip(p4), 2, 0x33333333));
    var p6 := Exchange(p5, 16, 0x0000FFFF);
    ExchangeTwice4(p6);
    ExchangeTwice16(p5);
    ExchangeTwice2(Flip(p4));
    ExchangeTwice8(Flip(p3));
    RotateBack(p2.y);
    ExchangeTwice0(p1);
    RotateBack(p.x);
  }

  // ---- the rounds

  /** The S-box entry for six bits of t. */
  function Entry(box: seq<bv32>, t: bv32, n: bv32): bv32
    requires |box| == 64 && n < 32
  {
    box[((t >> n) & 0x3F) as int]
  }

  function Xor(a: bv32, b: bv32): bv32 {
    a ^ b
  }

  function Xor4(a: bv32, b: bv32, c: bv32, d: bv32): bv32 {
    a ^ b ^ c ^ d
  }

  function EvenWord(k: Subkey, x: bv32): bv32 {
    k.a ^ x
  }

  function OddWord(k: Subkey, x: bv32): bv32 {
    k.b ^ ((x << 28) | (x >> 4))
  }

  /** DES_ROUND: what one half adds to the other */
  function Mix(sb: Boxes, k: Subkey, x: bv32): bv32 {
    var t := EvenWord(k, x);
    var u := OddWord(k, x);
    Xor(Xor4(Entry(sb[7], t, 0), Entry(sb[5], t, 8), Entry(sb[3], t, 16), Entry(sb[1], t, 24)),
        Xor4(Entry(sb[6], u, 0), Entry(sb[4], u, 8), Entry(sb[2], u, 16), Entry(sb[0], u, 24)))
  }

  /** y is mixed into x, and they change roles. */
  function Round(sb: Boxes, k: Subkey, p: Two): Two {
    Two(p.y, Xor(p.x, Mix(sb, k, p.y)))
  }

  lemma MixedTwice(x: bv32, m: bv32)
    ensures Xor(Xor(x, m), m) == x
  {
  }

  lemma RoundUndone(sb: Boxes, k: Subkey, p: Two)
    ensures Round(sb, k, Flip(Round(sb, k, p))) == Flip(p)
  {
    hide Mix, Xor;
    MixedTwice(p.x, Mix(sb, k, p.y));
  }

  function Rounds(sb: Boxes, keys: seq<Subkey>, p: Two): Two {
    if keys == [] then p else Rounds(sb, keys[1..], Round(sb, keys[0], p))
  }

  function Reversed(keys: seq<Subkey>): (r: seq<Subkey>)
    ensures |r| == |keys|
  {
    if keys == [] then [] else Reversed(keys[1..]) + [keys[0]]
  }

  lemma {:induction false} RoundsJoined(sb: Boxes, a: seq<Subkey>, b: seq<Subkey>, p: Two)
    ensures Rounds(sb, a + b, p) == Rounds(sb, b, Rounds(sb, a, p))
  {
    hide Round;
    if a == [] {
      assert a + b == b;
    } else {
      RoundsJoined(sb, a[1..], b, Round(sb, a[0], p));
      assert (a + b)[1..] == a[1..] + b;
    }
  }

  /** The rounds with the keys in reverse undo the rounds, with the halves exchanged. */
  lemma {:induction false} RoundsUndone(sb: Boxes, keys: seq<Subkey>, p: Two)
    ensures Rounds(sb, Reversed(keys), Flip(Rounds(sb, keys, p))) == Flip(p)
  {
    hide Round, Flip;
    if keys != [] {
      var q := Round(sb, keys[0], p);
      RoundsUndone(sb, keys[1..], q);
      RoundsJoined(sb, Reversed(keys[1..]), [keys[0]], Flip(Rounds(sb, keys, p)));
      RoundUndone(sb, keys[0], p);
      assert [keys[0]][1..] == [];
    }
  }

  /** des_crypt. An even number of rounds brings the halves back to their names. */
  function Crypt(sb: Boxes, keys: seq<Subkey>, block: Text): (out: Text)
    requires |block| == 8
    ensures |out| == 8
  {
    var r := Rounds(sb, keys, Initial(Two(Get(block[..4]), Get(block[4..]))));
    var f := Final(Flip(r));
    Put(f.x) + Put(f.y)
  }

  lemma CryptUndone(sb: Boxes, keys: seq<Subkey>, block: Text)
    requires |block| == 8
    ensures Crypt(sb, Reversed(keys), Crypt(sb, keys, block)) == block
  {
    hide Initial, Final, Rounds, Get, Put;
    var p := Two(Get(block[..4]), Get(block[4..]));
    var r := Rounds(sb, keys, Initial(p));
    var f := Final(Flip(r));
    var c := Put(f.x) + Put(f.y);
    assert c[..4] == Put(f.x) && c[4..] == Put(f.y);
    GetPut(f.x);
    GetPut(f.y);
    InitialUndoesFinal(Flip(r));
    RoundsUndone(sb, keys, Initial(p));
    FinalUndoesInitial(p);
    PutGet(block[..4]);
    PutGet(block[4..]);
    assert block[..4] + block[4..] == block;
  }

  lemma {:induction false} ReversedJoined(a: seq<Subkey>, b: seq<Subkey>)
    ensures Reversed(a + b) == Reversed(b) + Reversed(a)
  {
    if a == [] {
      assert a + b == b;
    } else {
      ReversedJoined(a[1..], b);
      assert (a + b)[1..] == a[1..] + b;
    }
  }

  lemma {:induction false} ReversedTwice(keys: seq<Subkey>)
    ensures Reversed(Reversed(keys)) == keys
  {
    if keys != [] {
      ReversedTwice(keys[1..]);
      ReversedJoined(Reversed(keys[1..]), [keys[0]]);
      assert [keys[0]][1..] == [];
    }
  }

  // ---- texts

  function CryptAll(sb: Boxes, keys: seq<Subkey>, text: Text): (out: Text)
    requires |text| % 8 == 0
    ensures |out| == |text|
  {
    if text == [] then [] else CryptAll(sb, keys, text[..|text| - 8]) + Crypt(sb, keys, text[|text| - 8..])
  }

  lemma {:induction false} CryptAllUndone(sb: Boxes, keys: seq<Subkey>, text: Text)
    requires |text| % 8 == 0
    ensures CryptAll(sb, Reversed(keys), CryptAll(sb, keys, text)) == text
  {
    hide Crypt, Reversed;
    if text != [] {
      var n := |text| - 8;
      CryptAllUndone(sb, keys, text[..n]);
      CryptUndone(sb, keys, text[n..]);
      var c := CryptAll(sb, keys, text);
      assert c[..n] == CryptAll(sb, keys, text[..n]) && c[n..] == Crypt(sb, keys, text[n..]);
      assert text[..n] + text[n..] == text;
    }
  }

  lemma CryptNothing(sb: Boxes, keys: seq<Subkey>, text: Text)
    ensures CryptAll(sb, keys, text[..0]) == []
  {
  }

  lemma CryptNext(sb: Boxes, keys: seq<Subkey>, text: Text, i: nat)
    requires i % 8 == 0 && i + 8 <= |text|
    ensures CryptAll(sb, keys, text[..i + 8]) == CryptAll(sb, keys, text[..i]) + Crypt(sb, keys, text[i..i + 8])
  {
    hide Crypt;
    var t := text[..i + 8];
    assert t[..i] == text[..i] && t[i..] == text[i..i + 8];
  }

  /** A mark and zeros, to a multiple of eight. */
  function Padded(text: Text): (p: Text)
    ensures |p| % 8 == 0 && |text| < |p| <= |text| + 8
  {
    text + [0x80] + Zeros(7 - |text| % 8)
  }

  /** The text ends where the last octet that is not zero is the mark. */
  predicate EndsAt(p: Text, n: nat) {
    n < |p| && p[n] == 0x80 && forall i | n < i < |p| :: p[i] == 0
  }

  lemma PaddedEnds(text: Text, p: Text)
    ensures p == Padded(text) ==> EndsAt(p, |text|) && p[..|text|] == text
    ensures |p| % 8 == 0 && |text| < |p| <= |text| + 8 && EndsAt(p, |text|) && p[..|text|] == text ==> p == Padded(text)
  {
    if |p| % 8 == 0 && |text| < |p| <= |text| + 8 && EndsAt(p, |text|) && p[..|text|] == text {
      assert |p| == |Padded(text)|;
      assert p == p[..|text|] + [p[|text|]] + p[|text| + 1..];
    }
  }

  lemma EndsOnce(p: Text, m: nat, n: nat)
    requires EndsAt(p, m) && EndsAt(p, n)
    ensures m == n
  {
  }

  /** ldesencode */
  method Encode(sb: Boxes, keys: seq<Subkey>, text: Text) returns (out: Text)
    ensures out == CryptAll(sb, keys, Padded(text))
  {
    hide Crypt, CryptAll;
    out := [];
    var i := 0;
    CryptNothing(sb, keys, text);
    while i < |text| - 7
      invariant 0 <= i <= |text| && i % 8 == 0 && out == CryptAll(sb, keys, text[..i])
    {
      out := out + Crypt(sb, keys, text[i..i + 8]);
      CryptNext(sb, keys, text, i);
      i := i + 8;
    }
    var bytes := |text| - i;
    var tail: Text := [];
    for j := 0 to 8
      invariant |tail| == j
      invariant forall k | 0 <= k < j :: tail[k] == if k < bytes then text[i + k] else if k == bytes then 0x80 else 0
    {
      tail := tail + [if j < bytes then text[i + j] else if j == bytes then 0x80 else 0];
    }
    out := out + Crypt(sb, keys, tail);
    ghost var p := Padded(text);
    assert p == text[..i] + tail;
    assert p[..i] == text[..i] && p[i..i + 8] == tail && p[..i + 8] == p;
    CryptNext(sb, keys, p, i);
  }

  /** The subkeys of deciphering are those of enciphering, pair by pair, from the last to the first. */
  method ReverseKeys(esk: seq<Subkey>) returns (sk: seq<Subkey>)
    ensures sk == Reversed(esk)
  {
    sk := [];
    for i := 0 to |esk|
      invariant sk == Reversed(esk[|esk| - i..])
    {
      var n := |esk| - i;
      var k := esk[n - 1];
      assert esk[n - 1..] == [k] + esk[n..];
      sk := sk + [k];
    }
    assert esk[0..] == esk;
  }

  /** An int, compared with a size_t. */
  function Unsigned(i: int): int {
    if i < 0 then i + 0x1_0000_0000_0000_0000 else i
  }

  datatype Decoded = Plain(text: Text) | Refused | BeforeBuffer

  /** ldesdecode: refused if and only if no text has these octets as its cipher. But the scan for the mark compares
      without sign, so that the only block of a text may be read past its beginning. */
  method Decode(sb: Boxes, keys: seq<Subkey>, text: Text) returns (r: Decoded)
    ensures r.Plain? ==> |text| % 8 == 0 && Padded(r.text) == CryptAll(sb, Reversed(keys), text)
    ensures !r.Plain? ==> |text| % 8 != 0 || forall t: Text :: Padded(t) != CryptAll(sb, Reversed(keys), text)
    ensures r.BeforeBuffer? <==> |text| == 8 && CryptAll(sb, Reversed(keys), text) == Zeros(8)
  {
    hide Crypt, CryptAll, Reversed, Padded;
    var sk := ReverseKeys(keys);
    CryptNothing(sb, sk, text);
    if |text| % 8 != 0 || |text| == 0 {
      return Refused;
    }
    var buffer: Text := [];
    var i := 0;
    while i < |text|
      invariant 0 <= i <= |text| && i % 8 == 0 && buffer == CryptAll(sb, sk, text[..i])
    {
      buffer := buffer + Crypt(sb, sk, text[i..i + 8]);
      CryptNext(sb, sk, text, i);
      i := i + 8;
    }
    assert text[..|text|] == text;
    var padding := 1;
    i := |buffer| - 1;
    while Unsigned(i) >= |buffer| - 8
      invariant |buffer| - 9 <= i < |buffer| && padding == |buffer| - i
      invariant forall k | i < k < |buffer| :: buffer[k] == 0
      decreases i + 1
    {
      if i < 0 {
        NoText(buffer, i);
        assert buffer == Zeros(8);
        return BeforeBuffer;
      }
      if buffer[i] == 0 {
        padding := padding + 1;
      } else if buffer[i] == 0x80 {
        break;
      } else {
        NoText(buffer, i);
        return Refused;
      }
      i := i - 1;
    }
    if padding > 8 {
      NoText(buffer, i);
      return Refused;
    }
    r := Plain(buffer[..|buffer| - padding]);
    PaddedEnds(r.text, buffer);
  }

  /** Padding that ends in zeros, and has no mark among the last eight octets, is nobody's. */
  lemma NoText(p: Text, i: int)
    requires |p| >= 8 && |p| - 9 <= i < |p| && (forall k | i < k < |p| :: p[k] == 0)
    requires i < |p| - 8 || (0 <= i && p[i] != 0 && p[i] != 0x80)
    ensures forall t: Text :: Padded(t) != p
  {
    hide Padded;
    forall t: Text
      ensures Padded(t) != p
    {
      PaddedEnds(t, p);
    }
  }

  /** For every key there is a cipher on which the scan leaves the buffer. */
  method DecodeZeros(sb: Boxes, keys: seq<Subkey>) returns (c: Text, r: Decoded)
    ensures |c| == 8 && r == BeforeBuffer
  {
    hide Crypt, Reversed;
    c := Crypt(sb, keys, Zeros(8));
    CryptUndone(sb, keys, Zeros(8));
    assert c[8 - 8..] == c && c[..8 - 8] == [] && CryptAll(sb, Reversed(keys), []) == [];
    r := Decode(sb, keys, c);
  }

  /** A text comes back from its cipher. */
  method EncodeDecode(sb: Boxes, keys: seq<Subkey>, text: Text) returns (r: Decoded)
    ensures r == Plain(text)
  {
    hide CryptAll, Padded, Reversed;
    var c := Encode(sb, keys, text);
    r := Decode(sb, keys, c);
    var p := Padded(text);
    CryptAllUndone(sb, keys, p);
    PaddedEnds(text, p);
    if r.Plain? {
      PaddedEnds(r.text, p);
      EndsOnce(p, |text|, |r.text|);
    }
  }

  /** And a cipher comes back from its text, when there is one. */
  method DecodeEncode(sb: Boxes, keys: seq<Subkey>, c: Text) returns (r: Decoded, again: Text)
    ensures r.Plain? ==> again == c
  {
    hide CryptAll, Padded, Reversed;
    r := Decode(sb, keys, c);
    if r.Plain? {
      again := Encode(sb, keys, r.text);
      CryptAllUndone(sb, Reversed(keys), c);
      ReversedTwice(keys);
    } else {
      again := [];
    }
  }
}
