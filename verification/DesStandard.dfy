/** The cipher as FIPS 46-3 describes it, bit by bit, for any S-boxes and subkeys, and that des_crypt of lua-crypt.c,
    which keeps both halves rotated by one bit, computes it. */
module DesStandard {

  import opened Octets
  import opened Des

  // ---- the tables of the standard

  /** Table IP: the bits of the permuted text, from the left. */
  const IP: seq<seq<nat>> := [
    [58, 50, 42, 34, 26, 18, 10, 2],
    [60, 52, 44, 36, 28, 20, 12, 4],
    [62, 54, 46, 38, 30, 22, 14, 6],
    [64, 56, 48, 40, 32, 24, 16, 8],
    [57, 49, 41, 33, 25, 17, 9, 1],
    [59, 51, 43, 35, 27, 19, 11, 3],
    [61, 53, 45, 37, 29, 21, 13, 5],
    [63, 55, 47, 39, 31, 23, 15, 7]]

  /** Table E: the bits of the right half that go to the eight groups of six. */
  const E: seq<seq<nat>> := [
    [32, 1, 2, 3, 4, 5],
    [4, 5, 6, 7, 8, 9],
    [8, 9, 10, 11, 12, 13],
    [12, 13, 14, 15, 16, 17],
    [16, 17, 18, 19, 20, 21],
    [20, 21, 22, 23, 24, 25],
    [24, 25, 26, 27, 28, 29],
    [28, 29, 30, 31, 32, 1]]

  // ---- the initial permutation

  /** Bit n of an octet, counted from 1 on the left. */
  function Bit(b: Octet, n: nat): (x: Octet)
    requires 1 <= n <= 8
    ensures x == 0 || x == 1
  {
    (if n == 1 then b >> 7 else if n == 2 then b >> 6 else if n == 3 then b >> 5 else if n == 4 then b >> 4
     else if n == 5 then b >> 3 else if n == 6 then b >> 2 else if n == 7 then b >> 1 else b) & 1
  }

  /** Bit n of a text, counted from 1 on the left. */
  function TextBit(t: Text, n: nat): Octet
    requires 1 <= n <= 8 * |t|
  {
    Bit(t[(n - 1) / 8], (n - 1) % 8 + 1)
  }

  function Octet8(x: seq<Octet>): Octet
    requires |x| == 8
  {
    (x[0] << 7) | (x[1] << 6) | (x[2] << 5) | (x[3] << 4) | (x[4] << 3) | (x[5] << 2) | (x[6] << 1) | x[7]
  }

  /** The bits of a block in the order of table IP. */
  function Permuted(t: Text): (p: Text)
    requires |t| == 8
    ensures |p| == 8
  {
    [Row(t, IP[0]), Row(t, IP[1]), Row(t, IP[2]), Row(t, IP[3]), Row(t, IP[4]), Row(t, IP[5]), Row(t, IP[6]), Row(t, IP[7])]
  }

  function Row(t: Text, row: seq<nat>): Octet
    requires |t| == 8 && |row| == 8 && forall c | 0 <= c < 8 :: 1 <= row[c] <= 64
  {
    Octet8([TextBit(t, row[0]), TextBit(t, row[1]), TextBit(t, row[2]), TextBit(t, row[3]),
            TextBit(t, row[4]), TextBit(t, row[5]), TextBit(t, row[6]), TextBit(t, row[7])])
  }

  /** The halves of a block. */
  function Halves(t: Text): Two
    requires |t| == 8
  {
    Two(Get(t[..4]), Get(t[4..]))
  }

  function Block(p: Two): (t: Text)
    ensures |t| == 8
  {
    Put(p.x) + Put(p.y)
  }

  /** The standard does not rotate the halves. */
  function Plainly(p: Two): Two {
    Two(RotateRight(p.x), RotateRight(p.y))
  }

  /** A row of the table takes the same bit of every octet, from the last octet to the first. */
  function Column(t: Text, n: nat): Octet
    requires |t| == 8 && 1 <= n <= 8
  {
    Octet8([Bit(t[7], n), Bit(t[6], n), Bit(t[5], n), Bit(t[4], n), Bit(t[3], n), Bit(t[2], n), Bit(t[1], n), Bit(t[0], n)])
  }

  lemma RowIsColumn(t: Text, row: seq<nat>, n: nat)
    requires |t| == 8 && 1 <= n <= 8
    requires row == [56 + n, 48 + n, 40 + n, 32 + n, 24 + n, 16 + n, 8 + n, n]
    ensures Row(t, row) == Column(t, n)
  {
    hide Bit, Octet8;
    assert forall c | 0 <= c < 8 :: (row[c] - 1) / 8 == 7 - c && (row[c] - 1) % 8 + 1 == n;
  }

  /** The same bits in the two words of a block. */
  function WordColumn(p: Two, n: bv32): bv32
    requires 1 <= n <= 8
  {
    (((p.y >> (8 - n)) & 1) << 7) | (((p.y >> (16 - n)) & 1) << 6) |
    (((p.y >> (24 - n)) & 1) << 5) | (((p.y >> (32 - n)) & 1) << 4) |
    (((p.x >> (8 - n)) & 1) << 3) | (((p.x >> (16 - n)) & 1) << 2) |
    (((p.x >> (24 - n)) & 1) << 1) | ((p.x >> (32 - n)) & 1)
  }

  lemma InWords(t: Text)
    requires |t| == 8
    ensures WordColumn(Halves(t), 1) as Octet == Column(t, 1) && WordColumn(Halves(t), 2) as Octet == Column(t, 2)
    ensures WordColumn(Halves(t), 3) as Octet == Column(t, 3) && WordColumn(Halves(t), 4) as Octet == Column(t, 4)
    ensures WordColumn(Halves(t), 5) as Octet == Column(t, 5) && WordColumn(Halves(t), 6) as Octet == Column(t, 6)
    ensures WordColumn(Halves(t), 7) as Octet == Column(t, 7) && WordColumn(Halves(t), 8) as Octet == Column(t, 8)
  {
  }

  lemma OctetLeft1(p: Two)
    ensures (RotateRight(Initial(p).x) >> 24) & 0xFF == WordColumn(p, 2)
  {
  }

  lemma OctetLeft2(p: Two)
    ensures (RotateRight(Initial(p).x) >> 16) & 0xFF == WordColumn(p, 4)
  {
  }

  lemma OctetLeft3(p: Two)
    ensures (RotateRight(Initial(p).x) >> 8) & 0xFF == WordColumn(p, 6)
  {
  }

  lemma OctetLeft4(p: Two)
    ensures (RotateRight(Initial(p).x) >> 0) & 0xFF == WordColumn(p, 8)
  {
  }

  lemma OctetRight1(p: Two)
    ensures (RotateRight(Initial(p).y) >> 24) & 0xFF == WordColumn(p, 1)
  {
  }

  lemma OctetRight2(p: Two)
    ensures (RotateRight(Initial(p).y) >> 16) & 0xFF == WordColumn(p, 3)
  {
  }

  lemma OctetRight3(p: Two)
    ensures (RotateRight(Initial(p).y) >> 8) & 0xFF == WordColumn(p, 5)
  {
  }

  lemma OctetRight4(p: Two)
    ensures (RotateRight(Initial(p).y) >> 0) & 0xFF == WordColumn(p, 7)
  {
  }

  lemma LeftColumns(t: Text)
    requires |t| == 8
    ensures Put(RotateRight(Initial(Halves(t)).x)) == [Column(t, 2), Column(t, 4), Column(t, 6), Column(t, 8)]
  {
    hide Initial, Halves, WordColumn, Column, RotateRight;
    var p := Halves(t);
    OctetLeft1(p);
    OctetLeft2(p);
    OctetLeft3(p);
    OctetLeft4(p);
    InWords(t);
  }

  lemma RightColumns(t: Text)
    requires |t| == 8
    ensures Put(RotateRight(Initial(Halves(t)).y)) == [Column(t, 1), Column(t, 3), Column(t, 5), Column(t, 7)]
  {
    hide Initial, Halves, WordColumn, Column, RotateRight;
    var p := Halves(t);
    OctetRight1(p);
    OctetRight2(p);
    OctetRight3(p);
    OctetRight4(p);
    InWords(t);
  }

  lemma PermutedColumns(t: Text)
    requires |t| == 8
    ensures Permuted(t) == [Column(t, 2), Column(t, 4), Column(t, 6), Column(t, 8),
                            Column(t, 1), Column(t, 3), Column(t, 5), Column(t, 7)]
  {
    hide Column, Row;
    RowIsColumn(t, IP[0], 2);
    RowIsColumn(t, IP[1], 4);
    RowIsColumn(t, IP[2], 6);
    RowIsColumn(t, IP[3], 8);
    RowIsColumn(t, IP[4], 1);
    RowIsColumn(t, IP[5], 3);
    RowIsColumn(t, IP[6], 5);
    RowIsColumn(t, IP[7], 7);
  }

  /** DES_IP is table IP, with both halves rotated to the left. */
  lemma InitialIs(t: Text)
    requires |t| == 8
    ensures Block(Plainly(Initial(Halves(t)))) == Permuted(t)
  {
    hide Initial, Halves, Column, Permuted, RotateRight, Put;
    LeftColumns(t);
    RightColumns(t);
    PermutedColumns(t);
  }

  // ---- the rounds

  /** The six bits of the right half that a row of table E selects, as a number. */
  function Selected(r: bv32, row: seq<nat>): bv32
    requires |row| == 6 && forall c | 0 <= c < 6 :: 1 <= row[c] <= 32
  {
    Octet8([0, 0, TextBit(Put(r), row[0]), TextBit(Put(r), row[1]), TextBit(Put(r), row[2]),
            TextBit(Put(r), row[3]), TextBit(Put(r), row[4]), TextBit(Put(r), row[5])]) as bv32
  }

  /** The six key bits of group j: the even groups are in the first word of a subkey, the odd ones in the second,
      an octet each. */
  function KeyBits(k: Subkey, j: nat): bv32
    requires 1 <= j <= 8
  {
    (Put(if j % 2 == 0 then k.a else k.b)[(j - 1) / 2] & 0x3F) as bv32
  }

  /** What S-box j makes of group j. */
  function Group(sb: Boxes, k: Subkey, r: bv32, j: nat): bv32
    requires 1 <= j <= 8
  {
    sb[j - 1][((Selected(r, E[j - 1]) ^ KeyBits(k, j)) & 0x3F) as int]
  }

  /** What the groups of one round come to, each box with the permutation P and the rotation of the halves in it. */
  function Groups(sb: Boxes, k: Subkey, r: bv32): bv32 {
    Xor(Xor4(Group(sb, k, r, 8), Group(sb, k, r, 6), Group(sb, k, r, 4), Group(sb, k, r, 2)),
        Xor4(Group(sb, k, r, 7), Group(sb, k, r, 5), Group(sb, k, r, 3), Group(sb, k, r, 1)))
  }

  lemma Group1(k: Subkey, r: bv32)
    ensures (OddWord(k, RotateLeft(r)) >> 24) & 0x3F == (Selected(r, E[0]) ^ KeyBits(k, 1)) & 0x3F
  {
  }

  lemma Group2(k: Subkey, r: bv32)
    ensures (EvenWord(k, RotateLeft(r)) >> 24) & 0x3F == (Selected(r, E[1]) ^ KeyBits(k, 2)) & 0x3F
  {
  }

  lemma Group3(k: Subkey, r: bv32)
    ensures (OddWord(k, RotateLeft(r)) >> 16) & 0x3F == (Selected(r, E[2]) ^ KeyBits(k, 3)) & 0x3F
  {
  }

  lemma Group4(k: Subkey, r: bv32)
    ensures (EvenWord(k, RotateLeft(r)) >> 16) & 0x3F == (Selected(r, E[3]) ^ KeyBits(k, 4)) & 0x3F
  {
  }

  lemma Group5(k: Subkey, r: bv32)
    ensures (OddWord(k, RotateLeft(r)) >> 8) & 0x3F == (Selected(r, E[4]) ^ KeyBits(k, 5)) & 0x3F
  {
  }

  lemma Group6(k: Subkey, r: bv32)
    ensures (EvenWord(k, RotateLeft(r)) >> 8) & 0x3F == (Selected(r, E[5]) ^ KeyBits(k, 6)) & 0x3F
  {
  }

  lemma Group7(k: Subkey, r: bv32)
    ensures (OddWord(k, RotateLeft(r)) >> 0) & 0x3F == (Selected(r, E[6]) ^ KeyBits(k, 7)) & 0x3F
  {
  }

  lemma Group8(k: Subkey, r: bv32)
    ensures (EvenWord(k, RotateLeft(r)) >> 0) & 0x3F == (Selected(r, E[7]) ^ KeyBits(k, 8)) & 0x3F
  {
  }

  lemma EvenGroups(sb: Boxes, k: Subkey, r: bv32)
    ensures
      var t := EvenWord(k, RotateLeft(r));
      Entry(sb[7], t, 0) == Group(sb, k, r, 8) && Entry(sb[5], t, 8) == Group(sb, k, r, 6) &&
      Entry(sb[3], t, 16) == Group(sb, k, r, 4) && Entry(sb[1], t, 24) == Group(sb, k, r, 2)
  {
    hide EvenWord, RotateLeft, Selected, KeyBits;
    Group2(k, r);
    Group4(k, r);
    Group6(k, r);
    Group8(k, r);
  }

  lemma OddGroups(sb: Boxes, k: Subkey, r: bv32)
    ensures
      var u := OddWord(k, RotateLeft(r));
      Entry(sb[6], u, 0) == Group(sb, k, r, 7) && Entry(sb[4], u, 8) == Group(sb, k, r, 5) &&
      Entry(sb[2], u, 16) == Group(sb, k, r, 3) && Entry(sb[0], u, 24) == Group(sb, k, r, 1)
  {
    hide OddWord, RotateLeft, Selected, KeyBits;
    Group1(k, r);
    Group3(k, r);
    Group5(k, r);
    Group7(k, r);
  }

  /** A round mixes in the eight S-boxes at the groups that table E and the subkey give. */
  lemma MixIs(sb: Boxes, k: Subkey, r: bv32)
    ensures Mix(sb, k, RotateLeft(r)) == Groups(sb, k, r)
  {
    hide RotateLeft, EvenWord, OddWord, Group, Entry, Xor, Xor4;
    EvenGroups(sb, k, r);
    OddGroups(sb, k, r);
  }

  lemma Alone(a: bv32)
    ensures Xor4(a, 0, 0, 0) == a && Xor4(0, a, 0, 0) == a && Xor4(0, 0, a, 0) == a && Xor4(0, 0, 0, a) == a
    ensures Xor(a, 0) == a && Xor(0, a) == a && Xor4(0, 0, 0, 0) == 0
  {
  }

  lemma EmptyBox(sb: Boxes, k: Subkey, r: bv32, j: nat)
    requires 1 <= j <= 8 && sb[j - 1] == Empty()
    ensures Group(sb, k, r, j) == 0
  {
    hide Selected, KeyBits;
  }

  function Empty(): seq<bv32> {
    seq(64, _ => 0)
  }

  /** With all boxes but one empty, a round mixes in that box alone. */
  lemma OneBox(sb: Boxes, k: Subkey, r: bv32, j: nat)
    requires 1 <= j <= 8
    requires forall i | 0 <= i < 8 && i != j - 1 :: sb[i] == Empty()
    ensures Mix(sb, k, RotateLeft(r)) == Group(sb, k, r, j)
  {
    hide Mix, RotateLeft, Group, Xor, Xor4;
    forall i | 1 <= i <= 8 && i != j ensures Group(sb, k, r, i) == 0 {
      assert i - 1 != j - 1 && sb[i - 1] == Empty();
      EmptyBox(sb, k, r, i);
    }
    MixIs(sb, k, r);
    Alone(Group(sb, k, r, j));
  }

  // ---- the cipher

  /** L and R of the standard after one more round: R, and L with the groups mixed in. */
  function RoundOf(sb: Boxes, k: Subkey, p: Two): Two {
    Two(p.y, Xor(p.x, RotateRight(Groups(sb, k, p.y))))
  }

  function RoundsOf(sb: Boxes, keys: seq<Subkey>, p: Two): Two {
    if keys == [] then p else RoundsOf(sb, keys[1..], RoundOf(sb, keys[0], p))
  }

  lemma RotatedXor(x: bv32, m: bv32)
    ensures RotateRight(Xor(x, m)) == Xor(RotateRight(x), RotateRight(m))
  {
  }

  lemma MixPlainly(sb: Boxes, k: Subkey, y: bv32)
    ensures Mix(sb, k, y) == Groups(sb, k, RotateRight(y))
  {
    hide Mix, Groups, RotateRight, RotateLeft;
    RotateBack(y);
    MixIs(sb, k, RotateRight(y));
  }

  lemma RoundIs(sb: Boxes, k: Subkey, p: Two)
    ensures Plainly(Round(sb, k, p)) == RoundOf(sb, k, Plainly(p))
  {
    hide Mix, Groups, RotateRight, Xor;
    MixPlainly(sb, k, p.y);
    RotatedXor(p.x, Mix(sb, k, p.y));
  }

  lemma {:induction false} RoundsAre(sb: Boxes, keys: seq<Subkey>, p: Two)
    ensures Plainly(Rounds(sb, keys, p)) == RoundsOf(sb, keys, Plainly(p))
  {
    hide Round, RoundOf, Plainly;
    if keys != [] {
      RoundIs(sb, keys[0], p);
      RoundsAre(sb, keys[1..], Round(sb, keys[0], p));
    }
  }

  lemma HalvesOf(p: Two)
    ensures Halves(Block(p)) == p
  {
    hide Get, Put;
    GetPut(p.x);
    GetPut(p.y);
    assert Block(p)[..4] == Put(p.x) && Block(p)[4..] == Put(p.y);
  }

  lemma CryptParts(sb: Boxes, keys: seq<Subkey>, block: Text)
    requires |block| == 8
    ensures Crypt(sb, keys, block) == Block(Final(Flip(Rounds(sb, keys, Initial(Halves(block))))))
  {
    hide Initial, Final, Rounds, Get, Put;
  }

  /** des_crypt is the cipher of the standard: the permuted output is what the rounds make of the permuted input, the
      halves exchanged. */
  lemma CryptIs(sb: Boxes, keys: seq<Subkey>, block: Text)
    requires |block| == 8
    ensures Permuted(Crypt(sb, keys, block)) == Block(Flip(RoundsOf(sb, keys, Halves(Permuted(block)))))
  {
    hide Initial, Final, Crypt, Rounds, RoundsOf, Halves, Block, Permuted, RotateRight;
    var p := Initial(Halves(block));
    var r := Rounds(sb, keys, p);
    CryptParts(sb, keys, block);
    InitialIs(Crypt(sb, keys, block));
    HalvesOf(Final(Flip(r)));
    InitialUndoesFinal(Flip(r));
    InitialIs(block);
    HalvesOf(Plainly(p));
    RoundsAre(sb, keys, p);
  }
}
