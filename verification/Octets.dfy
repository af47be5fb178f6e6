/** Texts of octets, as bit vectors. */
module Octets {

  type Octet = bv8
  type Text = seq<Octet>

  function Zeros(n: nat): (z: Text)
    ensures |z| == n && forall i | 0 <= i < n :: z[i] == 0
  {
    seq(n, _ => 0)
  }
}
