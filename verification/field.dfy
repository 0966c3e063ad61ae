/**
 Prime scalar fields, modelled by their canonical representatives `0 <= x < r`.

 The ceremony helpers work over the scalar field of BN254 and the PLONK setup over the
 scalar field of BLS12-377. Field elements are plain integers here; every operation
 reduces with Dafny's `%`, which for a positive modulus is the canonical (non-negative)
 remainder, so the Montgomery representation used by the library does not appear.
 */
module Field {

  /** A field order: only `1 < m` is used by the proofs. */
  type Modulus = m: int | 1 < m witness 2

  /** Order of the scalar field of BN254 (the group order of G1 and G2). */
  const BN254_R: Modulus := 0x30644e72e131a029b85045b68181585d2833e84879b9709143e1f593f0000001

  /** Order of the scalar field of BLS12-377. */
  const BLS12_377_R: Modulus := 0x12ab655e9a2ca55660b44d1e5c37b00159aa76fed00000010a11800000000001

  /** Exact integer power `a^i`; field powers are `Pow(a, i) % m`. */
  function Pow(a: int, i: nat): int {
    if i == 0 then 1 else Pow(a, i - 1) * a
  }

  /** The additive inverse of one, as `SetOne().Neg()` leaves it. */
  function MinusOne(m: Modulus): (x: int)
    ensures 0 <= x < m
    ensures (x + 1) % m == 0
  {
    m - 1
  }

  /** Adding a multiple of the modulus does not change the residue. */
  lemma ModAddMultiple(x: int, k: int, m: Modulus)
    ensures (x + m * k) % m == x % m
  {
    var q := x / m;
    var r := x % m;
    assert x == m * q + r;
    assert x + m * k == m * (q + k) + r;
    ModUnique(x + m * k, q + k, r, m);
  }

  /** Euclidean division is unique. */
  lemma ModUnique(x: int, q: int, r: int, m: Modulus)
    requires x == m * q + r
    requires 0 <= r < m
    ensures x % m == r
  {
    var q' := x / m;
    var r' := x % m;
    var d := q - q';
    assert m * d == r' - r;
    if d > 0 {
      MulAtLeast(m, d);
    } else if d < 0 {
      MulAtLeast(m, -d);
    }
  }

  lemma MulAtLeast(a: nat, b: int)
    requires b >= 1
    ensures a * b >= a
  {
  }

  /** Reducing a factor before multiplying gives the same residue. */
  lemma MulModLeft(x: int, y: int, m: Modulus)
    ensures (x % m) * y % m == x * y % m
  {
    var q := x / m;
    assert x == m * q + x % m;
    assert x * y == (x % m) * y + m * (q * y);
    ModAddMultiple((x % m) * y, q * y, m);
  }

  lemma MulModRight(x: int, y: int, m: Modulus)
    ensures x * (y % m) % m == x * y % m
  {
    MulModLeft(y, x, m);
  }

  lemma {:induction false} PowMul(a: int, b: int, i: nat)
    ensures Pow(a * b, i) == Pow(a, i) * Pow(b, i)
  {
    if i > 0 {
      PowMul(a, b, i - 1);
      calc {
        Pow(a * b, i);
        Pow(a, i - 1) * Pow(b, i - 1) * (a * b);
        (Pow(a, i - 1) * a) * (Pow(b, i - 1) * b);
      }
    }
  }

  /** `(t2^i mod m)·(t1^i mod m) mod m` is `(t1·t2)^i mod m`. */
  lemma PowProductMod(t1: int, t2: int, i: nat, m: Modulus)
    ensures (Pow(t2, i) % m) * (Pow(t1, i) % m) % m == Pow(t1 * t2, i) % m
  {
    var p1 := Pow(t1, i);
    var p2 := Pow(t2, i);
    MulModLeft(p2, p1 % m, m);
    MulModRight(p2, p1, m);
    PowMul(t1, t2, i);
    assert p2 * p1 == p1 * p2;
  }

  /** `x·(p·t mod m) mod m` is `t·(x·(p mod m) mod m) mod m`. */
  lemma ShiftFactorMod(x: int, p: int, t: int, m: Modulus)
    ensures x * (p * t % m) % m == t * (x * (p % m) % m) % m
  {
    MulModRight(x, p * t, m);
    MulModRight(x, p, m);
    MulModRight(t, x * p, m);
    assert x * (p * t) == t * (x * p);
  }

  /** Reducing a factor of one summand gives the same residue. */
  lemma AddMulModLeft(x: int, y: int, z: int, m: Modulus)
    ensures ((x % m) * y + z) % m == (x * y + z) % m
  {
    var q := x / m;
    assert x == m * q + x % m;
    assert x * y + z == ((x % m) * y + z) + m * (q * y);
    ModAddMultiple((x % m) * y + z, q * y, m);
  }

  /** One step of a geometric sequence in the field: `(c·a^i mod m)·a mod m` is `c·a^(i+1) mod m`. */
  lemma PowStepMod(c: int, a: int, i: nat, m: Modulus)
    ensures (c * Pow(a, i) % m) * a % m == c * Pow(a, i + 1) % m
  {
    MulModLeft(c * Pow(a, i), a, m);
    assert c * Pow(a, i) * a == c * Pow(a, i + 1);
  }
}
