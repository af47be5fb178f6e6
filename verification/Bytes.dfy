/** Bytes, and whole numbers laid out in them. */
module Bytes {

  import opened Division

  newtype Byte = b: int | 0 <= b < 256

  function Power256(n: nat): (p: nat)
    ensures p > 0
  {
    if n == 0 then 1 else 256 * Power256(n - 1)
  }

  /** The n low bytes of x, least significant first. */
  function Little(x: nat, n: nat): (s: seq<Byte>)
    ensures |s| == n
  {
    if n == 0 then [] else [(x % 256) as Byte] + Little(x / 256, n - 1)
  }

  function FromLittle(s: seq<Byte>): (x: nat) {
    if s == [] then 0 else s[0] as nat + 256 * FromLittle(s[1..])
  }

  lemma {:induction false} LittleReads(x: nat, n: nat)
    requires x < Power256(n)
    ensures FromLittle(Little(x, n)) == x
  {
    if n > 0 {
      LittleReads(x / 256, n - 1);
      assert Little(x, n)[1..] == Little(x / 256, n - 1);
    }
  }

  lemma {:induction false} LittleAt(x: nat, n: nat, i: nat)
    requires i < n
    ensures Little(x, n)[i] as nat == x / Power256(i) % 256
  {
    if i > 0 {
      LittleAt(x / 256, n - 1, i - 1);
      DivideTwice(x, Power256(i - 1));
    }
  }

  lemma DivideTwice(x: nat, b: nat)
    requires b > 0
    ensures x / 256 / b == x / (256 * b)
  {
    var q, r := x / 256 / b, x / 256 % b;
    assert x / 256 == b * q + r;
    assert x == 256 * b * q + (256 * r + x % 256);
    QuotientIs(x, 256 * b, q, 256 * r + x % 256);
  }

  /** The n low bytes of x, most significant first. */
  function Big(x: nat, n: nat): (s: seq<Byte>)
    ensures |s| == n
  {
    if n == 0 then [] else Big(x / 256, n - 1) + [(x % 256) as Byte]
  }

  function FromBig(s: seq<Byte>): (x: nat)
    ensures x < Power256(|s|)
  {
    if s == [] then 0 else FromBig(s[..|s| - 1]) * 256 + s[|s| - 1] as nat
  }

  lemma {:induction false} BigReads(x: nat, n: nat)
    requires x < Power256(n)
    ensures FromBig(Big(x, n)) == x
  {
    if n > 0 {
      BigReads(x / 256, n - 1);
      assert Big(x, n)[..n - 1] == Big(x / 256, n - 1);
    }
  }

  lemma {:induction false} BigAt(x: nat, n: nat, i: nat)
    requires i < n
    ensures Big(x, n)[n - 1 - i] as nat == x / Power256(i) % 256
  {
    if i > 0 {
      BigAt(x / 256, n - 1, i - 1);
      DivideTwice(x, Power256(i - 1));
    }
  }
}
