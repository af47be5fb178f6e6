/** The key exchange of lua-crypt.c: powers modulo the biggest 64-bit prime, in 64-bit arithmetic that wraps. */
module DiffieHellman {

  const P: int := 0xffff_ffff_ffff_ffc5
  const TWO_64: int := 0x1_0000_0000_0000_0000
  const G := 5

  /** An unsigned 64-bit result. */
  function Wrap(x: int): (r: int)
    ensures 0 <= r < TWO_64
  {
    x % TWO_64
  }

  function Pow(a: int, e: nat): (r: int)
    ensures a >= 0 ==> r >= 0
  {
    if e == 0 then 1 else Times(a, Pow(a, e - 1))
  }

  /** A product, kept apart from the rest of the arithmetic. */
  function Times(a: int, b: int): (r: int)
    ensures a >= 0 && b >= 0 ==> r >= 0
  {
    a * b
  }

  predicate Same(x: int, y: int) {
    x % P == y % P
  }

  // ---- products modulo P

  lemma SameTimes(a: int, b: int, c: int)
    requires Same(a, b)
    ensures Same(Times(a, c), Times(b, c)) && Same(Times(c, a), Times(c, b))
  {
    var k := (a - b) / P;
    assert a == b + k * P;
    assert a * c == b * c + (k * c) * P;
    assert c * a == a * c && c * b == b * c;
    MultiplesVanish(b * c, k * c);
  }

  lemma MultiplesVanish(x: int, k: int)
    ensures Same(x + k * P, x)
  {
  }

  lemma Reduced(x: int)
    ensures Same(x % P, x) && 0 <= x % P < P
  {
  }

  /** One bit of the multiplier: what is left to add stays the same. */
  lemma OneBit(m: int, a: int, b: nat, m': int, a': int)
    requires m' == (if b % 2 == 1 then m + a else m) || m' == (if b % 2 == 1 then m + a - P else m)
    requires a' == 2 * a || a' == 2 * a - P
    ensures Same(m' + Times(a', b / 2), m + Times(a, b))
  {
    var h := b / 2;
    assert a * b == (2 * a) * h + (if b % 2 == 1 then a else 0) by {
      assert b == 2 * h + b % 2;
      assert a * (2 * h) == (2 * a) * h;
    }
    assert (2 * a - P) * h == (2 * a) * h - P * h;
    MultiplesVanish(m' + (2 * a) * h, -h);
    MultiplesVanish(m + a * b, -1);
    MultiplesVanish(m + a * b, -h);
    MultiplesVanish(m + a * b, -h - 1);
  }

  /** A sum is less than P, or P is taken away without passing over 64 bits. */
  function Add(m: int, a: int): (s: int)
    requires 0 <= m < P && 0 <= a <= P
    ensures 0 <= s < P && (s == m + a || s == m + a - P)
  {
    var t := Wrap(P - a);
    if m >= t then Wrap(m - t) else Wrap(m + a)
  }

  /** Doubling may pass over 64 bits; taking away P comes back. */
  function Double(a: int): (d: int)
    requires 0 <= a <= P
    ensures 0 <= d <= P && (d == 2 * a || d == 2 * a - P)
  {
    if a >= Wrap(P - a) then Wrap(Wrap(a * 2) - P) else Wrap(a * 2)
  }

  /** mul_mod_p: the product is built bit by bit, and no sum ever leaves 64 bits. */
  method MulModP(x: int, y: int) returns (m: int)
    requires 0 <= x <= P && 0 <= y < TWO_64
    ensures m == Times(x, y) % P
  {
    hide Times, Same, Add, Double;
    var a, b := x, y;
    m := 0;
    SameItself(Times(x, y));
    while b != 0
      invariant 0 <= m < P && 0 <= a <= P && 0 <= b < TWO_64
      invariant Same(m + Times(a, b), Times(x, y))
      decreases b
    {
      ghost var before, from := m, a;
      if b % 2 == 1 {
        m := Add(m, a);
      }
      a := Double(a);
      OneBit(before, from, b, m, a);
      SameSame(m + Times(a, b / 2), before + Times(from, b), Times(x, y));
      b := b / 2;
    }
    Remainder(m, a, Times(x, y));
  }

  lemma SameSame(x: int, y: int, z: int)
    requires Same(x, y) && Same(y, z)
    ensures Same(x, z)
  {
  }

  lemma Remainder(m: int, a: int, x: int)
    requires 0 <= m < P && Same(m + Times(a, 0), x)
    ensures m == x % P
  {
  }

  // ---- powers

  lemma {:induction false} PowSum(a: int, d: nat, e: nat)
    ensures Pow(a, d + e) == Times(Pow(a, d), Pow(a, e))
  {
    if d > 0 {
      PowSum(a, d - 1, e);
      TimesAssociates(a, Pow(a, d - 1), Pow(a, e));
    }
  }

  lemma TimesAssociates(a: int, b: int, c: int)
    ensures Times(Times(a, b), c) == Times(a, Times(b, c))
  {
  }

  lemma {:induction false} PowTimes(a: int, b: int, e: nat)
    ensures Pow(Times(a, b), e) == Times(Pow(a, e), Pow(b, e))
  {
    if e > 0 {
      PowTimes(a, b, e - 1);
      Shuffle(a, b, Pow(a, e - 1), Pow(b, e - 1));
    }
  }

  lemma Shuffle(a: int, b: int, c: int, d: int)
    ensures Times(Times(a, b), Times(c, d)) == Times(Times(a, c), Times(b, d))
  {
    assert (a * b) * (c * d) == a * (b * (c * d));
    assert b * (c * d) == c * (b * d);
    assert a * (c * (b * d)) == (a * c) * (b * d);
  }

  lemma {:induction false} PowPow(a: int, d: nat, e: nat)
    ensures Pow(Pow(a, d), e) == Pow(a, d * e)
  {
    if e > 0 {
      PowPow(a, d, e - 1);
      assert d * e == d + d * (e - 1);
      PowSum(a, d, d * (e - 1));
    }
  }

  lemma {:induction false} SamePow(a: int, b: int, e: nat)
    requires Same(a, b)
    ensures Same(Pow(a, e), Pow(b, e))
  {
    hide Same, Times;
    if e > 0 {
      SamePow(a, b, e - 1);
      SameTimes(a, b, Pow(a, e - 1));
      SameTimes(Pow(a, e - 1), Pow(b, e - 1), b);
      SameSame(Times(a, Pow(a, e - 1)), Times(b, Pow(a, e - 1)), Times(b, Pow(b, e - 1)));
    } else {
      SameItself(1);
    }
  }

  lemma SameItself(x: int)
    ensures Same(x, x)
  {
  }

  /** pow_mod_p, which returns its base as it is for the first power */
  method PowModP(a: int, b: int) returns (t: int)
    requires 0 <= a <= P && 1 <= b < TWO_64
    ensures t == if b == 1 then a else Pow(a, b) % P
    decreases b
  {
    hide Times, Same, Pow;
    if b == 1 {
      return a;
    }
    var h := PowModP(a, b / 2);
    HalfPower(a, b / 2, h);
    t := MulModP(h, h);
    Squared(a, b / 2, h, t);
    if b % 2 == 1 {
      var s := t;
      t := MulModP(s, a);
      OneMore(a, b - 1, s, t);
    }
  }

  lemma HalfPower(a: int, e: nat, h: int)
    requires 0 <= a <= P && e >= 1 && h == if e == 1 then a else Pow(a, e) % P
    ensures 0 <= h <= P && Same(h, Pow(a, e))
  {
    if e == 1 {
      assert Pow(a, 1) == Times(a, Pow(a, 0)) == a;
    }
  }

  lemma Squared(a: int, e: nat, h: int, t: int)
    requires Same(h, Pow(a, e)) && t == Times(h, h) % P
    ensures t == Pow(a, 2 * e) % P
  {
    hide Times, Pow;
    SameTimes(h, Pow(a, e), h);
    SameTimes(h, Pow(a, e), Pow(a, e));
    PowSum(a, e, e);
  }

  lemma OneMore(a: int, e: nat, s: int, t: int)
    requires s == Pow(a, e) % P && t == Times(s, a) % P
    ensures t == Pow(a, e + 1) % P
  {
    Reduced(Pow(a, e));
    SameTimes(s, Pow(a, e), a);
    assert Times(Pow(a, e), a) == Times(a, Pow(a, e));
  }

  /** powmodp: the base is reduced only when it exceeds P, so the first power of P itself is wrong, and nothing else. */
  method PowerModP(a: int, b: int) returns (r: int)
    requires 0 <= a < TWO_64 && 1 <= b < TWO_64
    ensures 0 <= r <= P
    ensures r == Pow(a, b) % P <==> !(a == P && b == 1)
  {
    var x := if a > P then a % P else a;
    r := PowModP(x, b);
    if b == 1 {
      FirstPower(a);
    } else if a > P {
      Reduced(a);
      SamePow(x, a, b);
    }
  }

  lemma FirstPower(a: int)
    ensures Pow(a, 1) == a
  {
    assert Pow(a, 1) == Times(a, Pow(a, 0));
  }

  // ---- the exchange

  // the inverse of the generator
  const INVERSE: int := 7378697629483820623

  /** No power of the generator is a multiple of P. */
  lemma GeneratorNeverVanishes(x: nat)
    ensures Pow(G, x) % P != 0
  {
    hide Pow, Times;
    PowTimes(G, INVERSE, x);
    assert Times(G, INVERSE) == 2 * P + 1 by { InverseIs(); }
    SamePow(2 * P + 1, 1, x);
    PowOne(x);
    if Pow(G, x) % P == 0 {
      SameTimes(Pow(G, x), 0, Pow(INVERSE, x));
      ZeroTimes(Pow(INVERSE, x));
    }
  }

  lemma InverseIs()
    ensures Times(G, INVERSE) == 2 * P + 1
  {
  }

  lemma ZeroTimes(x: int)
    ensures Times(0, x) == 0
  {
  }

  lemma {:induction false} PowOne(e: nat)
    ensures Pow(1, e) == 1
  {
    if e > 0 {
      PowOne(e - 1);
    }
  }

  /** dhexchange, where 0 is refused */
  method Exchange(x: int) returns (ok: bool, r: int)
    requires 0 <= x < TWO_64
    ensures ok <==> x != 0
    ensures ok ==> r == Pow(G, x) % P && 1 <= r < P
  {
    if x == 0 {
      return false, 0;
    }
    ok := true;
    r := PowerModP(G, x);
    GeneratorNeverVanishes(x);
  }

  /** dhsecret, where 0 is refused; what the other side sent may be P or more. */
  method Secret(x: int, y: int) returns (ok: bool, r: int)
    requires 0 <= x < TWO_64 && 0 <= y < TWO_64
    ensures ok <==> x != 0 && y != 0
    ensures ok ==> (r == Pow(x, y) % P <==> !(x == P && y == 1))
  {
    if x == 0 || y == 0 {
      return false, 0;
    }
    ok := true;
    r := PowerModP(x, y);
  }

  lemma SecretIs(x: nat, y: nat)
    ensures Pow(Pow(G, x) % P, y) % P == Pow(G, x * y) % P
  {
    hide Pow;
    Reduced(Pow(G, x));
    SamePow(Pow(G, x) % P, Pow(G, x), y);
    PowPow(G, x, y);
  }

  /** Both sides come to the same secret, which is never 0; nobody is refused who did not choose 0. */
  method Agree(x: int, y: int) returns (ok: bool, mine: int, yours: int)
    requires 1 <= x < TWO_64 && 1 <= y < TWO_64
    ensures ok && mine == yours == Pow(G, x * y) % P && mine != 0
  {
    hide Pow;
    var a, b, more;
    ok, a := Exchange(x);
    more, b := Exchange(y);
    ok := ok && more;
    more, mine := Secret(b, x);
    ok := ok && more;
    more, yours := Secret(a, y);
    ok := ok && more;
    SecretIs(x, y);
    SecretIs(y, x);
    assert x * y == y * x;
    GeneratorNeverVanishes(x * y);
  }
}
