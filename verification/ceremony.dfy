/**
 Scalar helpers of the Groth16 setup ceremony (BN254).

 Field elements are canonical integers modulo the BN254 scalar-field order `R`. The two
 groups G1 and G2 are left abstract: a `Group<G>` carries an identity, the group law and
 scalar multiplication as uninterpreted functions, and the laws they obey are stated
 once, in `IsScalarModule`, for the lemmas that need them. The G1 and G2 variants of
 each helper are the same code at two group types, so each is modelled once,
 generically.
 */
module Ceremony {
  import Field

  const R: Field.Modulus := Field.BN254_R

  /** A scalar of the BN254 scalar field, as `fr.Element` holds it. */
  type Scalar = x: int | 0 <= x < R witness 0

  /** An elliptic-curve group as the helpers use it. */
  datatype Group<!G> = Group(zero: G, add: (G, G) -> G, scale: (int, G) -> G)

  /*
   The laws of a module over the scalar field: what makes `scale` a scalar
   multiplication. Each law is a predicate of its own so that proofs instantiate it
   where they need it.
   */

  ghost predicate OneLaw<G>(grp: Group<G>, x: G) {
    grp.scale(1, x) == x
  }

  ghost predicate ZeroLaw<G>(grp: Group<G>, x: G) {
    grp.scale(0, x) == grp.zero
  }

  ghost predicate DistributiveLaw<G>(grp: Group<G>, a: int, x: G, y: G) {
    grp.scale(a, grp.add(x, y)) == grp.add(grp.scale(a, x), grp.scale(a, y))
  }

  ghost predicate CompatibleLaw<G>(grp: Group<G>, a: int, b: int, x: G) {
    grp.scale(a, grp.scale(b, x)) == grp.scale(a * b % R, x)
  }

  ghost predicate IsScalarModule<G(!new)>(grp: Group<G>) {
    && (forall x :: OneLaw(grp, x))
    && (forall x :: ZeroLaw(grp, x))
    && (forall a, x, y :: DistributiveLaw(grp, a, x, y))
    && (forall a, b, x :: CompatibleLaw(grp, a, b, x))
  }

  /**
   `[1, a, a^2, ..., a^(n-1)]`: the first entry is written before the loop, so `n` must be
   at least one; each further entry is the previous one times `a`.
   */
  method Powers(a: Scalar, n: int) returns (result: seq<Scalar>)
    requires n >= 1
    ensures |result| == n
    ensures result[0] == 1
    ensures forall i :: 1 <= i < n ==> result[i] == result[i - 1] * a % R
    ensures forall i :: 0 <= i < n ==> result[i] == Field.Pow(a, i) % R
  {
    result := seq(n, _ => 0);
    result := result[0 := 1];
    var i := 1;
    while i < n
      invariant 1 <= i <= n
      invariant |result| == n
      invariant result[0] == 1
      invariant forall j :: 1 <= j < i ==> result[j] == result[j - 1] * a % R
      invariant forall j :: 0 <= j < i ==> result[j] == Field.Pow(a, j) % R
    {
      Field.MulModLeft(Field.Pow(a, i - 1), a, R);
      result := result[i := result[i - 1] * a % R];
      i := i + 1;
    }
  }

  /**
   `[a[0]·A[0], a[1]·A[1], ...]`, one entry per point of `A`. Only the first `|A|`
   scalars are read, so `a` may be longer but not shorter.
   */
  function Scale<G>(grp: Group<G>, A: seq<G>, a: seq<Scalar>): (result: seq<G>)
    requires |a| >= |A|
    ensures |result| == |A|
    ensures forall i :: 0 <= i < |A| ==> result[i] == grp.scale(a[i], A[i])
  {
    seq(|A|, i requires 0 <= i < |A| => grp.scale(a[i], A[i]))
  }

  /** `Σ scalars[i]·points[i]`, the multi-scalar multiplication of the curve library. */
  function MultiExp<G>(grp: Group<G>, points: seq<G>, scalars: seq<Scalar>): G
    requires |scalars| == |points|
    decreases |points|
  {
    if |points| == 0 then grp.zero
    else
      var k := |points| - 1;
      grp.add(MultiExp(grp, points[..k], scalars[..k]), grp.scale(scalars[k], points[k]))
  }

  /**
   `L1 = Σ r[i]·A[i]` and `L2 = Σ r[i]·A[i+1]` with the same `n - 1` scalars `r`. The
   scalars are drawn at random by the source; here they are a parameter. `A` must not
   be empty, since `n - 1` scalars are allocated.
   */
  function LinearCombination<G>(grp: Group<G>, A: seq<G>, r: seq<Scalar>): (L: (G, G))
    requires |A| >= 1
    requires |r| == |A| - 1
    ensures L.0 == MultiExp(grp, A[..|A| - 1], r)
    ensures L.1 == MultiExp(grp, A[1..], r)
  {
    (MultiExp(grp, A[..|A| - 1], r), MultiExp(grp, A[1..], r))
  }

  /** Scaling the identity gives the identity. */
  lemma ScaleZeroPoint<G(!new)>(grp: Group<G>, a: int)
    requires IsScalarModule(grp)
    ensures grp.scale(a, grp.zero) == grp.zero
  {
    assert ZeroLaw(grp, grp.zero);
    assert CompatibleLaw(grp, a, 0, grp.zero);
    assert a * 0 % R == 0;
  }

  /** Scaling by all ones returns the points unchanged. */
  lemma ScaleByOnes<G(!new)>(grp: Group<G>, A: seq<G>, a: seq<Scalar>)
    requires IsScalarModule(grp)
    requires |a| >= |A|
    requires forall i :: 0 <= i < |A| ==> a[i] == 1
    ensures Scale(grp, A, a) == A
  {
    forall i | 0 <= i < |A|
      ensures Scale(grp, A, a)[i] == A[i]
    {
      assert OneLaw(grp, A[i]);
    }
  }

  /** Scaling by all zeros returns the identity at every position. */
  lemma ScaleByZeros<G(!new)>(grp: Group<G>, A: seq<G>, a: seq<Scalar>)
    requires IsScalarModule(grp)
    requires |a| >= |A|
    requires forall i :: 0 <= i < |A| ==> a[i] == 0
    ensures forall i :: 0 <= i < |A| ==> Scale(grp, A, a)[i] == grp.zero
  {
    forall i | 0 <= i < |A|
      ensures Scale(grp, A, a)[i] == grp.zero
    {
      assert ZeroLaw(grp, A[i]);
    }
  }

  /**
   Each entry depends on its own index only: scaling two consecutive chunks and
   joining them is scaling the whole, which is why the work can be split across tasks.
   */
  lemma ScaleChunks<G>(grp: Group<G>, A: seq<G>, a: seq<Scalar>, k: nat)
    requires |a| >= |A|
    requires k <= |A|
    ensures Scale(grp, A, a) == Scale(grp, A[..k], a[..k]) + Scale(grp, A[k..], a[k..])
  {
  }

  /**
   One ceremony round on a powers-of-`t1` vector: scaling `[t1^i·g]` by the powers of a
   new secret `t2` yields `[(t1·t2)^i·g]`, the powers of the product.
   */
  lemma ScalePowersUpdate<G(!new)>(grp: Group<G>, g: G, t1: int, t2: int, A: seq<G>, a: seq<Scalar>)
    requires IsScalarModule(grp)
    requires |a| >= |A|
    requires forall i :: 0 <= i < |A| ==> A[i] == grp.scale(Field.Pow(t1, i) % R, g)
    requires forall i :: 0 <= i < |A| ==> a[i] == Field.Pow(t2, i) % R
    ensures forall i :: 0 <= i < |A| ==>
              Scale(grp, A, a)[i] == grp.scale(Field.Pow(t1 * t2, i) % R, g)
  {
    forall i | 0 <= i < |A|
      ensures Scale(grp, A, a)[i] == grp.scale(Field.Pow(t1 * t2, i) % R, g)
    {
      assert CompatibleLaw(grp, Field.Pow(t2, i) % R, Field.Pow(t1, i) % R, g);
      Field.PowProductMod(t1, t2, i, R);
    }
  }

  /**
   If every `s[i]·C[i]` is `tau` times `s[i]·B[i]`, the whole sum over `C` is `tau` times
   the sum over `B`.
   */
  lemma {:induction false} MultiExpFactor<G(!new)>(grp: Group<G>, B: seq<G>, C: seq<G>, s: seq<Scalar>, tau: int)
    requires IsScalarModule(grp)
    requires |B| == |C| == |s|
    requires forall i :: 0 <= i < |s| ==> grp.scale(s[i], C[i]) == grp.scale(tau, grp.scale(s[i], B[i]))
    ensures MultiExp(grp, C, s) == grp.scale(tau, MultiExp(grp, B, s))
    decreases |s|
  {
    if |s| == 0 {
      ScaleZeroPoint(grp, tau);
    } else {
      var k := |s| - 1;
      MultiExpFactor(grp, B[..k], C[..k], s[..k], tau);
      assert DistributiveLaw(grp, tau, MultiExp(grp, B[..k], s[..k]), grp.scale(s[k], B[k]));
    }
  }

  /**
   What the two combinations are for: on a vector of powers `A[i] = tau^i·g`, whatever
   the scalars `r`, the second combination is `tau` times the first, so one same-ratio
   check on `(L1, L2)` covers every adjacent pair of the vector.
   */
  lemma LinearCombinationOfPowers<G(!new)>(grp: Group<G>, g: G, tau: int, A: seq<G>, r: seq<Scalar>)
    requires IsScalarModule(grp)
    requires |A| >= 1 && |r| == |A| - 1
    requires forall i :: 0 <= i < |A| ==> A[i] == grp.scale(Field.Pow(tau, i) % R, g)
    ensures LinearCombination(grp, A, r).1 == grp.scale(tau, LinearCombination(grp, A, r).0)
  {
    var n := |A|;
    var B := A[..n - 1];
    var C := A[1..];
    forall i | 0 <= i < |r|
      ensures grp.scale(r[i], C[i]) == grp.scale(tau, grp.scale(r[i], B[i]))
    {
      var p := Field.Pow(tau, i);
      assert B[i] == grp.scale(p % R, g);
      assert C[i] == grp.scale(p * tau % R, g);
      assert CompatibleLaw(grp, r[i], p * tau % R, g);
      assert CompatibleLaw(grp, r[i], p % R, g);
      assert CompatibleLaw(grp, tau, r[i] * (p % R) % R, g);
      Field.ShiftFactorMod(r[i], p, tau, R);
    }
    MultiExpFactor(grp, B, C, r, tau);
  }
}
