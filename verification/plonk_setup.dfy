/**
 The PLONK setup over BLS12-377: from a sparse constraint system to the row layout of
 the selector polynomials, the copy-constraint permutation, the Lagrange form of the
 permutation polynomials S1, S2, S3, and the verifying-key fields derived from the
 evaluation domain.

 Field elements are canonical integers modulo the BLS12-377 scalar-field order `R`.
 The evaluation domain is given (its cardinality `n` and its generators); the inverse
 transform to canonical form, the commitments and the SRS points themselves belong to
 the curve library and are not modelled.
 */
module PlonkSetup {
  import Field
  import Cycles

  const R: Field.Modulus := Field.BLS12_377_R

  /** A scalar-field element. */
  type Element = x: int | 0 <= x < R witness 0

  /** Field multiplication. */
  function Mul(a: int, b: int): Element {
    a * b % R
  }

  /** One operand of a sparse constraint: a variable and the index of its coefficient. */
  datatype Term = Term(variableId: int, coeffId: int)

  /**
   `qL·xa + qR·xb + qM·(xa·xb) + qO·xc + k == 0`: `qM` is the product of the coefficients
   of `m0` and `m1`, the product itself is of the left and right variables, and `k` is a
   coefficient index.
   */
  datatype SparseR1C = SparseR1C(l: Term, r: Term, m0: Term, m1: Term, o: Term, k: int)

  /** The finalized constraint system the setup reads. */
  datatype SparseR1CS = SparseR1CS(
    nbPublicVariables: nat,
    nbSecretVariables: nat,
    nbInternalVariables: nat,
    constraints: seq<SparseR1C>,
    assertions: seq<SparseR1C>,
    coefficients: seq<Element>)

  /** The evaluation domain: cardinality `n`, generator `g` of the n-th roots of unity, and the finer generator `u` used as coset shifter. */
  datatype Domain = Domain(cardinality: nat, generator: Element, finerGenerator: Element)

  function NbVariables(spr: SparseR1CS): nat {
    spr.nbInternalVariables + spr.nbPublicVariables + spr.nbSecretVariables
  }

  /** Rows needed: one placeholder per public input, then constraints, then assertions. */
  function SizeSystem(spr: SparseR1CS): nat {
    |spr.constraints| + |spr.assertions| + spr.nbPublicVariables
  }

  /* ---------------------------------------------------------------- row layout */

  /** What a row of the domain holds. */
  datatype RowKind = Placeholder(index: nat) | Gate(c: SparseR1C) | Padding

  /** `[ placeholders | constraints | assertions | padding ]`. */
  function RowAt(spr: SparseR1CS, row: nat): RowKind {
    var nbPub := spr.nbPublicVariables;
    var nbCons := |spr.constraints|;
    if row < nbPub then Placeholder(row)
    else if row < nbPub + nbCons then Gate(spr.constraints[row - nbPub])
    else if row < SizeSystem(spr) then Gate(spr.assertions[row - nbPub - nbCons])
    else Padding
  }

  /** The variable wired to lane 0 (L), 1 (R) or 2 (O) of a row; only L carries the public variable of a placeholder. */
  function WireId(kind: RowKind, lane: nat): int {
    match kind
    case Placeholder(i) => if lane == 0 then i else 0
    case Gate(c) => if lane == 0 then c.l.variableId else if lane == 1 then c.r.variableId else c.o.variableId
    case Padding => 0
  }

  function Lane(spr: SparseR1CS, n: nat, lane: nat): (ids: seq<int>)
    ensures |ids| == n
  {
    seq(n, row requires 0 <= row < n => WireId(RowAt(spr, row), lane))
  }

  /** Lane `lane` (0 for L, 1 for R, 2 for O) of row `row` in a `3n`-long wire table. */
  function Wire(lro: seq<int>, n: nat, lane: nat, row: nat): int
    requires |lro| == 3 * n && lane < 3 && row < n
  {
    lro[lane * n + row]
  }

  /** The table `lro` of length `3n`: row `r` has its L, R, O variables at positions `r`, `n + r` and `2n + r`. */
  function Lro(spr: SparseR1CS, n: nat): (lro: seq<int>)
    ensures |lro| == 3 * n
  {
    Lane(spr, n, 0) + Lane(spr, n, 1) + Lane(spr, n, 2)
  }

  /** Lane `lane` of row `row` is the wire of that lane in what the row holds. */
  lemma WireAt(spr: SparseR1CS, n: nat, lane: nat, row: nat)
    requires lane < 3 && row < n
    ensures Wire(Lro(spr, n), n, lane, row) == WireId(RowAt(spr, row), lane)
  {
    var lro := Lro(spr, n);
    if lane == 0 {
      assert lro[row] == Lane(spr, n, 0)[row];
    } else if lane == 1 {
      assert lro[n + row] == Lane(spr, n, 1)[row];
    } else {
      assert lro[2 * n + row] == Lane(spr, n, 2)[row];
    }
  }

  /**
   The wire layout: placeholder `i` wires public variable `i` to L and variable 0 to R
   and O; constraint `i` sits at row `nbPublic + i` and assertion `i` right after the
   constraints, each wiring its own L, R, O variables; padding rows wire variable 0
   everywhere.
   */
  lemma WireLayout(spr: SparseR1CS, n: nat)
    requires SizeSystem(spr) <= n
    ensures var lro := Lro(spr, n);
            forall i :: 0 <= i < spr.nbPublicVariables ==>
              Wire(lro, n, 0, i) == i && Wire(lro, n, 1, i) == 0 && Wire(lro, n, 2, i) == 0
    ensures var lro := Lro(spr, n);
            forall i :: 0 <= i < |spr.constraints| ==>
              && Wire(lro, n, 0, spr.nbPublicVariables + i) == spr.constraints[i].l.variableId
              && Wire(lro, n, 1, spr.nbPublicVariables + i) == spr.constraints[i].r.variableId
              && Wire(lro, n, 2, spr.nbPublicVariables + i) == spr.constraints[i].o.variableId
    ensures var lro := Lro(spr, n);
            forall i :: 0 <= i < |spr.assertions| ==>
              && Wire(lro, n, 0, SizeSystem(spr) - |spr.assertions| + i) == spr.assertions[i].l.variableId
              && Wire(lro, n, 1, SizeSystem(spr) - |spr.assertions| + i) == spr.assertions[i].r.variableId
              && Wire(lro, n, 2, SizeSystem(spr) - |spr.assertions| + i) == spr.assertions[i].o.variableId
    ensures var lro := Lro(spr, n);
            forall row :: SizeSystem(spr) <= row < n ==>
              Wire(lro, n, 0, row) == 0 && Wire(lro, n, 1, row) == 0 && Wire(lro, n, 2, row) == 0
  {
    RowLayout(spr);
    forall lane, row | 0 <= lane < 3 && 0 <= row < n
      ensures Wire(Lro(spr, n), n, lane, row) == WireId(RowAt(spr, row), lane)
    {
      WireAt(spr, n, lane, row);
    }
  }

  /** Every coefficient index of every constraint and assertion is inside the table. */
  predicate CoefficientsInRange(spr: SparseR1CS) {
    && (forall i :: 0 <= i < |spr.constraints| ==> CoeffIdsIn(spr.constraints[i], |spr.coefficients|))
    && (forall i :: 0 <= i < |spr.assertions| ==> CoeffIdsIn(spr.assertions[i], |spr.coefficients|))
  }

  predicate CoeffIdsIn(c: SparseR1C, size: nat) {
    && 0 <= c.l.coeffId < size && 0 <= c.r.coeffId < size
    && 0 <= c.m0.coeffId < size && 0 <= c.m1.coeffId < size
    && 0 <= c.o.coeffId < size && 0 <= c.k < size
  }

  /**
   The variables of the layout are exactly `[0, nbVariables)`: every ID is in range,
   and every ID occurs somewhere.
   */
  predicate VariablesCovered(spr: SparseR1CS, n: nat) {
    var lro := Lro(spr, n);
    && (forall p :: 0 <= p < |lro| ==> 0 <= lro[p] < NbVariables(spr))
    && (forall v :: 0 <= v < NbVariables(spr) ==> v in lro)
  }

  /* ---------------------------------------------------------------- selectors */

  /** The five selector values of one row, in Lagrange form. */
  datatype SelectorRow = SelectorRow(ql: Element, qr: Element, qm: Element, qo: Element, qk: Element)

  /** The selectors of a constraint row: its coefficients, with `qm` the product of the two product-term coefficients. */
  function GateSelectors(cf: seq<Element>, c: SparseR1C): (q: SelectorRow)
    requires CoeffIdsIn(c, |cf|)
    ensures q.ql == cf[c.l.coeffId] && q.qr == cf[c.r.coeffId] && q.qo == cf[c.o.coeffId]
    ensures q.qm == cf[c.m0.coeffId] * cf[c.m1.coeffId] % R
    ensures q.qk == cf[c.k]
  {
    SelectorRow(cf[c.l.coeffId], cf[c.r.coeffId], Mul(cf[c.m0.coeffId], cf[c.m1.coeffId]),
                cf[c.o.coeffId], cf[c.k])
  }

  function SelectorsOf(cf: seq<Element>, kind: RowKind): SelectorRow
    requires kind.Gate? ==> CoeffIdsIn(kind.c, |cf|)
  {
    match kind
    case Placeholder(_) => SelectorRow(Field.MinusOne(R), 0, 0, 0, 0)
    case Gate(c) => GateSelectors(cf, c)
    case Padding => SelectorRow(0, 0, 0, 0, 0)
  }

  /**
   The selector columns before the inverse transform. `lqk` is kept in Lagrange form
   for the prover and `cqk` is the copy that gets transformed, so both hold the same
   values at this stage.
   */
  datatype Selectors = Selectors(ql: seq<Element>, qr: seq<Element>, qm: seq<Element>,
                                 qo: seq<Element>, lqk: seq<Element>, cqk: seq<Element>)

  lemma GateRowsHaveCoefficients(spr: SparseR1CS, row: nat)
    requires CoefficientsInRange(spr)
    ensures RowAt(spr, row).Gate? ==> CoeffIdsIn(RowAt(spr, row).c, |spr.coefficients|)
  {
  }

  function SelectorRowAt(spr: SparseR1CS, row: nat): SelectorRow
    requires CoefficientsInRange(spr)
  {
    GateRowsHaveCoefficients(spr, row);
    SelectorsOf(spr.coefficients, RowAt(spr, row))
  }

  /** The selector columns: row `row` of each column is that row's `SelectorRowAt`. */
  function BuildSelectors(spr: SparseR1CS, n: nat): (q: Selectors)
    requires CoefficientsInRange(spr)
    ensures |q.ql| == |q.qr| == |q.qm| == |q.qo| == |q.lqk| == |q.cqk| == n
    ensures q.cqk == q.lqk
  {
    var qk := seq(n, row requires 0 <= row < n => SelectorRowAt(spr, row).qk);
    Selectors(seq(n, row requires 0 <= row < n => SelectorRowAt(spr, row).ql),
              seq(n, row requires 0 <= row < n => SelectorRowAt(spr, row).qr),
              seq(n, row requires 0 <= row < n => SelectorRowAt(spr, row).qm),
              seq(n, row requires 0 <= row < n => SelectorRowAt(spr, row).qo),
              qk, qk)
  }

  /** Row `row` of the selector columns, read back as one record. */
  function SelectorAt(q: Selectors, row: nat): SelectorRow
    requires row < |q.ql| && row < |q.qr| && row < |q.qm| && row < |q.qo| && row < |q.lqk|
  {
    SelectorRow(q.ql[row], q.qr[row], q.qm[row], q.qo[row], q.lqk[row])
  }

  /**
   The selector layout: placeholder rows hold `-1` in `ql` and zero elsewhere (the
   public input is added to `qk` by the prover), constraint `i` at row `nbPublic + i`
   and assertion `i` after the constraints copy their coefficients, with `qm` the
   product of the two product-term coefficients, and padding rows are zero.
   */
  lemma SelectorLayout(spr: SparseR1CS, n: nat)
    requires SizeSystem(spr) <= n
    requires CoefficientsInRange(spr)
    ensures var q := BuildSelectors(spr, n);
            forall i :: 0 <= i < spr.nbPublicVariables ==>
              SelectorAt(q, i) == SelectorRow(R - 1, 0, 0, 0, 0)
    ensures var q := BuildSelectors(spr, n);
            forall i :: 0 <= i < |spr.constraints| ==>
              SelectorAt(q, spr.nbPublicVariables + i) == GateSelectors(spr.coefficients, spr.constraints[i])
    ensures var q := BuildSelectors(spr, n);
            forall i :: 0 <= i < |spr.assertions| ==>
              SelectorAt(q, SizeSystem(spr) - |spr.assertions| + i) == GateSelectors(spr.coefficients, spr.assertions[i])
    ensures var q := BuildSelectors(spr, n);
            forall row :: SizeSystem(spr) <= row < n ==> SelectorAt(q, row) == SelectorRow(0, 0, 0, 0, 0)
  {
    var q := BuildSelectors(spr, n);
    RowLayout(spr);
    forall i | 0 <= i < spr.nbPublicVariables
      ensures SelectorAt(q, i) == SelectorRow(R - 1, 0, 0, 0, 0)
    {
      assert RowAt(spr, i) == Placeholder(i);
    }
    forall i | 0 <= i < |spr.constraints|
      ensures SelectorAt(q, spr.nbPublicVariables + i) == GateSelectors(spr.coefficients, spr.constraints[i])
    {
      assert RowAt(spr, spr.nbPublicVariables + i) == Gate(spr.constraints[i]);
    }
    forall i | 0 <= i < |spr.assertions|
      ensures SelectorAt(q, SizeSystem(spr) - |spr.assertions| + i) == GateSelectors(spr.coefficients, spr.assertions[i])
    {
      assert RowAt(spr, SizeSystem(spr) - |spr.assertions| + i) == Gate(spr.assertions[i]);
    }
    forall row | SizeSystem(spr) <= row < n
      ensures SelectorAt(q, row) == SelectorRow(0, 0, 0, 0, 0)
    {
      assert RowAt(spr, row) == Padding;
    }
  }

  /** Which row each placeholder, constraint and assertion lands on. */
  lemma RowLayout(spr: SparseR1CS)
    ensures forall i :: 0 <= i < spr.nbPublicVariables ==> RowAt(spr, i) == Placeholder(i)
    ensures forall i :: 0 <= i < |spr.constraints| ==>
              RowAt(spr, spr.nbPublicVariables + i) == Gate(spr.constraints[i])
    ensures forall i :: 0 <= i < |spr.assertions| ==>
              RowAt(spr, SizeSystem(spr) - |spr.assertions| + i) == Gate(spr.assertions[i])
    ensures forall row: nat :: SizeSystem(spr) <= row ==> RowAt(spr, row) == Padding
  {
  }

  /* ---------------------------------------------------------------- gate equation */

  /** The variable IDs of a constraint all index an assignment of `size` variables. */
  predicate VariableIdsIn(c: SparseR1C, size: nat) {
    0 <= c.l.variableId < size && 0 <= c.r.variableId < size && 0 <= c.o.variableId < size
  }

  /**
   A constraint evaluated on the assignment `w`: zero when `w` satisfies it. The product
   term multiplies the left and right variables; its own variable IDs are never read.
   */
  function ConstraintValue(cf: seq<Element>, c: SparseR1C, w: seq<int>): Element
    requires CoeffIdsIn(c, |cf|) && VariableIdsIn(c, |w|)
  {
    (cf[c.l.coeffId] * w[c.l.variableId] + cf[c.r.coeffId] * w[c.r.variableId]
     + cf[c.m0.coeffId] * cf[c.m1.coeffId] * (w[c.l.variableId] * w[c.r.variableId])
     + cf[c.o.coeffId] * w[c.o.variableId] + cf[c.k]) % R
  }

  /** The gate equation of one row on its wire values: `qL·a + qR·b + qM·a·b + qO·c + qK`. */
  function GateEquation(q: SelectorRow, a: int, b: int, c: int): Element {
    (q.ql * a + q.qr * b + q.qm * (a * b) + q.qo * c + q.qk) % R
  }

  /** The gate equation of row `row`, on the values the wire table gives its three lanes. */
  function RowGate(q: Selectors, lro: seq<int>, n: nat, w: seq<int>, row: nat): Element
    requires |q.ql| == |q.qr| == |q.qm| == |q.qo| == |q.lqk| == n
    requires |lro| == 3 * n && row < n
    requires forall p :: 0 <= p < |lro| ==> 0 <= lro[p] < |w|
  {
    GateEquation(SelectorAt(q, row), w[Wire(lro, n, 0, row)], w[Wire(lro, n, 1, row)], w[Wire(lro, n, 2, row)])
  }

  /** A gate row evaluates its constraint: reducing `qM` early does not change the residue. */
  lemma GateMatchesConstraint(cf: seq<Element>, c: SparseR1C, w: seq<int>)
    requires CoeffIdsIn(c, |cf|) && VariableIdsIn(c, |w|)
    ensures GateEquation(GateSelectors(cf, c), w[c.l.variableId], w[c.r.variableId], w[c.o.variableId])
            == ConstraintValue(cf, c, w)
  {
    var a, b := w[c.l.variableId], w[c.r.variableId];
    var rest := cf[c.l.coeffId] * a + cf[c.r.coeffId] * b + cf[c.o.coeffId] * w[c.o.variableId] + cf[c.k];
    var p := (cf[c.m0.coeffId] as int) * (cf[c.m1.coeffId] as int);
    Field.AddMulModLeft(p, a * b, rest, R);
  }

  /** The gate equation of row `row`, in terms of what the row holds. */
  lemma RowReadBack(spr: SparseR1CS, n: nat, w: seq<int>, row: nat)
    requires row < n
    requires CoefficientsInRange(spr)
    requires VariablesCovered(spr, n)
    requires |w| == NbVariables(spr)
    ensures var kind := RowAt(spr, row);
            && 0 <= WireId(kind, 0) < |w| && 0 <= WireId(kind, 1) < |w| && 0 <= WireId(kind, 2) < |w|
            && RowGate(BuildSelectors(spr, n), Lro(spr, n), n, w, row)
               == GateEquation(SelectorRowAt(spr, row), w[WireId(kind, 0)], w[WireId(kind, 1)], w[WireId(kind, 2)])
  {
    var lro := Lro(spr, n);
    assert SelectorAt(BuildSelectors(spr, n), row) == SelectorRowAt(spr, row);
    WireAt(spr, n, 0, row);
    WireAt(spr, n, 1, row);
    WireAt(spr, n, 2, row);
    assert 0 <= lro[row] < |w| && 0 <= lro[n + row] < |w| && 0 <= lro[2 * n + row] < |w|;
  }

  /** One row of the layout, whatever it holds. */
  lemma RowEncodes(spr: SparseR1CS, n: nat, w: seq<int>, row: nat)
    requires SizeSystem(spr) <= n && row < n
    requires CoefficientsInRange(spr)
    requires VariablesCovered(spr, n)
    requires |w| == NbVariables(spr)
    ensures RowAt(spr, row).Placeholder? ==>
              RowGate(BuildSelectors(spr, n), Lro(spr, n), n, w, row) == (-w[row]) % R
    ensures RowAt(spr, row).Gate? ==>
              && CoeffIdsIn(RowAt(spr, row).c, |spr.coefficients|)
              && VariableIdsIn(RowAt(spr, row).c, |w|)
              && RowGate(BuildSelectors(spr, n), Lro(spr, n), n, w, row)
                 == ConstraintValue(spr.coefficients, RowAt(spr, row).c, w)
    ensures RowAt(spr, row).Padding? ==>
              RowGate(BuildSelectors(spr, n), Lro(spr, n), n, w, row) == 0
  {
    RowReadBack(spr, n, w, row);
    match RowAt(spr, row)
    case Placeholder(i) =>
      Field.ModAddMultiple(-w[i], w[i], R);
    case Gate(c) =>
      GateRowEncodes(spr, n, w, row);
    case Padding =>
  }

  lemma GateRowEncodes(spr: SparseR1CS, n: nat, w: seq<int>, row: nat)
    requires SizeSystem(spr) <= n && row < n
    requires CoefficientsInRange(spr)
    requires VariablesCovered(spr, n)
    requires |w| == NbVariables(spr)
    requires RowAt(spr, row).Gate?
    ensures CoeffIdsIn(RowAt(spr, row).c, |spr.coefficients|)
    ensures VariableIdsIn(RowAt(spr, row).c, |w|)
    ensures RowGate(BuildSelectors(spr, n), Lro(spr, n), n, w, row)
            == ConstraintValue(spr.coefficients, RowAt(spr, row).c, w)
  {
    var c := RowAt(spr, row).c;
    RowReadBack(spr, n, w, row);
    GateRowsHaveCoefficients(spr, row);
    GateMatchesConstraint(spr.coefficients, c, w);
  }

  lemma PlaceholderRowsEncode(spr: SparseR1CS, n: nat, w: seq<int>)
    requires SizeSystem(spr) <= n
    requires CoefficientsInRange(spr)
    requires VariablesCovered(spr, n)
    requires |w| == NbVariables(spr)
    ensures forall i :: 0 <= i < spr.nbPublicVariables ==>
              RowGate(BuildSelectors(spr, n), Lro(spr, n), n, w, i) == (-w[i]) % R
  {
    forall i | 0 <= i < spr.nbPublicVariables
      ensures RowGate(BuildSelectors(spr, n), Lro(spr, n), n, w, i) == (-w[i]) % R
    {
      assert RowAt(spr, i) == Placeholder(i);
      RowEncodes(spr, n, w, i);
    }
  }

  lemma ConstraintRowsEncode(spr: SparseR1CS, n: nat, w: seq<int>)
    requires SizeSystem(spr) <= n
    requires CoefficientsInRange(spr)
    requires VariablesCovered(spr, n)
    requires |w| == NbVariables(spr)
    ensures forall i :: 0 <= i < |spr.constraints| ==>
              VariableIdsIn(spr.constraints[i], |w|)
              && RowGate(BuildSelectors(spr, n), Lro(spr, n), n, w, spr.nbPublicVariables + i)
                 == ConstraintValue(spr.coefficients, spr.constraints[i], w)
  {
    forall i | 0 <= i < |spr.constraints|
      ensures VariableIdsIn(spr.constraints[i], |w|)
      ensures RowGate(BuildSelectors(spr, n), Lro(spr, n), n, w, spr.nbPublicVariables + i)
              == ConstraintValue(spr.coefficients, spr.constraints[i], w)
    {
      assert RowAt(spr, spr.nbPublicVariables + i) == Gate(spr.constraints[i]);
      GateRowEncodes(spr, n, w, spr.nbPublicVariables + i);
    }
  }

  lemma AssertionRowsEncode(spr: SparseR1CS, n: nat, w: seq<int>)
    requires SizeSystem(spr) <= n
    requires CoefficientsInRange(spr)
    requires VariablesCovered(spr, n)
    requires |w| == NbVariables(spr)
    ensures forall i :: 0 <= i < |spr.assertions| ==>
              VariableIdsIn(spr.assertions[i], |w|)
              && RowGate(BuildSelectors(spr, n), Lro(spr, n), n, w, SizeSystem(spr) - |spr.assertions| + i)
                 == ConstraintValue(spr.coefficients, spr.assertions[i], w)
  {
    forall i | 0 <= i < |spr.assertions|
      ensures VariableIdsIn(spr.assertions[i], |w|)
      ensures RowGate(BuildSelectors(spr, n), Lro(spr, n), n, w, SizeSystem(spr) - |spr.assertions| + i)
              == ConstraintValue(spr.coefficients, spr.assertions[i], w)
    {
      assert RowAt(spr, SizeSystem(spr) - |spr.assertions| + i) == Gate(spr.assertions[i]);
      GateRowEncodes(spr, n, w, SizeSystem(spr) - |spr.assertions| + i);
    }
  }

  lemma PaddingRowsEncode(spr: SparseR1CS, n: nat, w: seq<int>)
    requires SizeSystem(spr) <= n
    requires CoefficientsInRange(spr)
    requires VariablesCovered(spr, n)
    requires |w| == NbVariables(spr)
    ensures forall row :: SizeSystem(spr) <= row < n ==>
              RowGate(BuildSelectors(spr, n), Lro(spr, n), n, w, row) == 0
  {
    forall row | SizeSystem(spr) <= row < n
      ensures RowGate(BuildSelectors(spr, n), Lro(spr, n), n, w, row) == 0
    {
      assert RowAt(spr, row) == Padding;
      RowEncodes(spr, n, w, row);
    }
  }

  /**
   The selector layout and the wire table agree row by row: on any assignment `w` of
   the variables, the gate equation of the row of constraint (or assertion) `i` is that
   constraint's value, a placeholder row gives `-w[i]` (which the public input the prover
   adds to `qk` cancels), and a padding row gives zero.
   */
  lemma RowsEncodeConstraints(spr: SparseR1CS, n: nat, w: seq<int>)
    requires SizeSystem(spr) <= n
    requires CoefficientsInRange(spr)
    requires VariablesCovered(spr, n)
    requires |w| == NbVariables(spr)
    ensures forall i :: 0 <= i < spr.nbPublicVariables ==>
              RowGate(BuildSelectors(spr, n), Lro(spr, n), n, w, i) == (-w[i]) % R
    ensures forall i :: 0 <= i < |spr.constraints| ==>
              VariableIdsIn(spr.constraints[i], |w|)
              && RowGate(BuildSelectors(spr, n), Lro(spr, n), n, w, spr.nbPublicVariables + i)
                 == ConstraintValue(spr.coefficients, spr.constraints[i], w)
    ensures forall i :: 0 <= i < |spr.assertions| ==>
              VariableIdsIn(spr.assertions[i], |w|)
              && RowGate(BuildSelectors(spr, n), Lro(spr, n), n, w, SizeSystem(spr) - |spr.assertions| + i)
                 == ConstraintValue(spr.coefficients, spr.assertions[i], w)
    ensures forall row :: SizeSystem(spr) <= row < n ==>
              RowGate(BuildSelectors(spr, n), Lro(spr, n), n, w, row) == 0
  {
    PlaceholderRowsEncode(spr, n, w);
    ConstraintRowsEncode(spr, n, w);
    AssertionRowsEncode(spr, n, w);
    PaddingRowsEncode(spr, n, w);
  }

  /* ---------------------------------------------------------------- permutation */

  /**
   The copy-constraint permutation of the wire table. Every variable must occur in the
   table: the closing walk stops after one first occurrence per variable, so a variable
   that occurs nowhere would send it past the end of the table.
   */
  method BuildPermutation(spr: SparseR1CS, n: nat) returns (perm: seq<int>)
    requires SizeSystem(spr) <= n
    requires VariablesCovered(spr, n)
    ensures |perm| == 3 * n
    ensures forall p :: 0 <= p < 3 * n ==> perm[p] != -1
    ensures forall p :: 0 <= p < 3 * n ==> perm[p] == Cycles.Target(Lro(spr, n), p)
    ensures Cycles.IsBijection(perm)
    ensures Cycles.PreservesIds(Lro(spr, n), perm)
  {
    perm := Cycles.BuildCycles(Lro(spr, n), NbVariables(spr));
  }

  /* ---------------------------------------------------------------- identity and S1, S2, S3 */

  /** `[c, c·g, c·g^2, ..., c·g^(n-1)]`: one coset of the domain. */
  function IdentityLane(n: nat, g: int, c: int): (lane: seq<Element>)
    ensures |lane| == n
  {
    seq(n, i requires 0 <= i < n => c * Field.Pow(g, i) % R)
  }

  /**
   The identity permutation's labels, three cosets of the domain side by side:
   `[1, g, ..., g^(n-1) | u, u·g, ..., u·g^(n-1) | u^2, u^2·g, ..., u^2·g^(n-1)]`.
   */
  function CosetIdentity(n: nat, g: int, u: int): (sID: seq<Element>)
    ensures |sID| == 3 * n
  {
    IdentityLane(n, g, Field.Pow(u, 0)) + IdentityLane(n, g, Field.Pow(u, 1)) + IdentityLane(n, g, Field.Pow(u, 2))
  }

  /**
   One lane as the setup computes it: the first entry is `seed` and every further
   entry is the previous one times `g`.
   */
  method GeometricLane(n: nat, g: Element, seed: Element) returns (lane: seq<Element>)
    requires n >= 1
    ensures lane == IdentityLane(n, g, seed)
  {
    lane := [seed];
    while |lane| < n
      invariant 1 <= |lane| <= n
      invariant forall j :: 0 <= j < |lane| ==> lane[j] == seed * Field.Pow(g, j) % R
    {
      var i := |lane|;
      Field.PowStepMod(seed, g, i - 1, R);
      lane := lane + [Mul(lane[i - 1], g)];
    }
  }

  /**
   The labels computed the way the setup does: the three lanes start at `1`, `u` and
   `u^2` (the square reduced in the field), and each is stepped by `g`.
   */
  method IdentitySequence(n: nat, g: Element, u: Element) returns (sID: seq<Element>)
    requires n >= 1
    ensures sID == CosetIdentity(n, g, u)
  {
    var lane0 := GeometricLane(n, g, 1);
    var lane1 := GeometricLane(n, g, u);
    var lane2 := GeometricLane(n, g, Mul(u, u));
    sID := lane0 + lane1 + lane2;
    SquareLane(n, g, u);
  }

  /** Starting the third lane from the reduced square gives the same labels. */
  lemma SquareLane(n: nat, g: int, u: int)
    ensures IdentityLane(n, g, Mul(u, u)) == IdentityLane(n, g, Field.Pow(u, 2))
    ensures IdentityLane(n, g, 1) == IdentityLane(n, g, Field.Pow(u, 0))
    ensures IdentityLane(n, g, u) == IdentityLane(n, g, Field.Pow(u, 1))
  {
    assert Field.Pow(u, 1) == u;
    assert Field.Pow(u, 2) == u * u;
    forall j | 0 <= j < n
      ensures IdentityLane(n, g, Mul(u, u))[j] == IdentityLane(n, g, u * u)[j]
    {
      Field.MulModLeft(u * u, Field.Pow(g, j), R);
    }
  }

  /** The Lagrange form of S1, S2, S3 (the permutation polynomials). */
  datatype Sigmas = Sigmas(ls1: seq<Element>, ls2: seq<Element>, ls3: seq<Element>)

  /**
   `LS1`, `LS2`, `LS3`: entry `i` of `LS(k+1)` is the identity label of the position
   the permutation sends position `k·n + i` to. Side by side they are the identity
   labels read through the permutation.
   */
  function Lde(perm: seq<int>, sID: seq<Element>, n: nat): (s: Sigmas)
    requires |perm| == |sID| == 3 * n
    requires forall p :: 0 <= p < 3 * n ==> 0 <= perm[p] < 3 * n
    ensures |s.ls1| == |s.ls2| == |s.ls3| == n
    ensures forall i :: 0 <= i < n ==> s.ls1[i] == sID[perm[i]]
    ensures forall i :: 0 <= i < n ==> s.ls2[i] == sID[perm[n + i]]
    ensures forall i :: 0 <= i < n ==> s.ls3[i] == sID[perm[2 * n + i]]
    ensures s.ls1 + s.ls2 + s.ls3 == Cycles.Reindex(sID, perm)
  {
    var sigma := Cycles.Reindex(sID, perm);
    assert sigma == sigma[..n] + sigma[n..2 * n] + sigma[2 * n..];
    Sigmas(sigma[..n], sigma[n..2 * n], sigma[2 * n..])
  }

  /** The value each position of the wire table carries under the assignment `w`. */
  function WireValues(lro: seq<int>, w: seq<int>): (vals: seq<int>)
    requires forall p :: 0 <= p < |lro| ==> 0 <= lro[p] < |w|
    ensures |vals| == |lro|
    ensures forall p :: 0 <= p < |lro| ==> vals[p] == w[lro[p]]
  {
    seq(|lro|, p requires 0 <= p < |lro| => w[lro[p]])
  }

  /** Position by position pairs. */
  function Zip<A, B>(a: seq<A>, b: seq<B>): (z: seq<(A, B)>)
    requires |a| == |b|
    ensures |z| == |a|
    ensures forall i :: 0 <= i < |a| ==> z[i] == (a[i], b[i])
  {
    seq(|a|, i requires 0 <= i < |a| => (a[i], b[i]))
  }

  /**
   What the permutation is for. Whatever the assignment `w`, every position carries
   the same value as the position the permutation sends it to, so the multiset of
   (value, identity label) pairs over the wire table equals the multiset of
   (value, S label) pairs: the grand product of the permutation argument is one for an
   honest assignment.
   */
  lemma PermutationArgument(lro: seq<int>, perm: seq<int>, sID: seq<Element>, n: nat, w: seq<int>)
    requires |lro| == |perm| == |sID| == 3 * n
    requires forall p :: 0 <= p < |lro| ==> 0 <= lro[p] < |w|
    requires Cycles.IsBijection(perm)
    requires Cycles.PreservesIds(lro, perm)
    ensures forall p :: 0 <= p < 3 * n ==> WireValues(lro, w)[perm[p]] == WireValues(lro, w)[p]
    ensures var s := Lde(perm, sID, n);
            multiset(Zip(WireValues(lro, w), sID)) == multiset(Zip(WireValues(lro, w), s.ls1 + s.ls2 + s.ls3))
  {
    var vals := WireValues(lro, w);
    var pairs := Zip(vals, sID);
    var s := Lde(perm, sID, n);
    var sigma := s.ls1 + s.ls2 + s.ls3;
    assert Zip(vals, sigma) == Cycles.Reindex(pairs, perm);
    Cycles.ReindexMultiset(pairs, perm);
  }

  /**
   The converse: the permutation's cycles are as long as they can be. Any values on the
   wire table that every position shares with the position the permutation sends it to
   are the wire values of one assignment of the variables.
   */
  lemma CopyConstraintsSound(spr: SparseR1CS, n: nat, perm: seq<int>, vals: seq<int>) returns (w: seq<int>)
    requires VariablesCovered(spr, n)
    requires |perm| == |vals| == 3 * n
    requires forall p :: 0 <= p < 3 * n ==> perm[p] == Cycles.Target(Lro(spr, n), p)
    requires forall p :: 0 <= p < 3 * n ==> 0 <= perm[p] < 3 * n && vals[perm[p]] == vals[p]
    ensures |w| == NbVariables(spr)
    ensures WireValues(Lro(spr, n), w) == vals
  {
    var lro := Lro(spr, n);
    Cycles.SharedIdSharedValue(lro, perm, vals);
    w := seq(NbVariables(spr), v requires 0 <= v < NbVariables(spr) => vals[Cycles.FirstOf(lro, v)]);
    forall p | 0 <= p < 3 * n
      ensures WireValues(lro, w)[p] == vals[p]
    {
      var v := lro[p];
      var f := Cycles.NextFrom(lro, v, 0);
      assert f <= p;
      assert lro[f] == lro[p];
    }
  }

  /* ---------------------------------------------------------------- keys and setup */

  datatype Option<T> = None | Some(value: T)

  /** The one recoverable failure of the setup. */
  datatype SetupError = SrsTooSmall

  datatype Result<T> = Success(value: T) | Failure(error: SetupError)

  /** The KZG structured reference string: its G1 points, of an abstract point type `P`. */
  datatype Srs<P> = Srs(g1: seq<P>)

  /**
   The verifying key, without the commitments: size of the domain, its generator, the
   number of public inputs, the coset shifters, and the KZG parameters once attached.
   */
  datatype VerifyingKey<P> = VerifyingKey(
    size: nat,
    generator: Element,
    nbPublicVariables: nat,
    shifter: (Element, Element),
    kzgSrs: Option<Srs<P>>)

  /** The proving key: selectors and S1, S2, S3 in Lagrange form, and the permutation. */
  datatype ProvingKey<P> = ProvingKey(
    vk: VerifyingKey<P>,
    domain: Domain,
    selectors: Selectors,
    permutation: seq<int>,
    sigmas: Sigmas)

  /**
   Attaches the SRS to a verifying key. It refuses an SRS with fewer G1 points than the
   domain size, and then leaves the key as it was.
   */
  function InitKzg<P>(vk: VerifyingKey<P>, srs: Srs<P>): (r: (VerifyingKey<P>, Option<SetupError>))
    ensures r.1.Some? <==> |srs.g1| < vk.size
    ensures r.1.Some? ==> r.1.value == SrsTooSmall && r.0 == vk
    ensures r.1.None? ==> r.0.kzgSrs == Some(srs) && r.0 == vk.(kzgSrs := r.0.kzgSrs)
  {
    if |srs.g1| < vk.size then (vk, Some(SrsTooSmall))
    else (vk.(kzgSrs := Some(srs)), None)
  }

  /** A domain the setup can use for `spr`: not empty and with a row for every placeholder, constraint and assertion. */
  predicate DomainFits(spr: SparseR1CS, domain: Domain) {
    1 <= domain.cardinality && SizeSystem(spr) <= domain.cardinality
  }

  /**
   The setup. It fails exactly when the SRS is too small for the domain; otherwise the
   verifying key carries the domain size and generator, the number of public inputs
   and the shifters `u` and `u^2`, which are the first labels of the second and third
   lanes of the identity; the selectors follow the row layout; the permutation is a
   bijection of the `3n` wire positions that links each occurrence of a variable to the
   previous one and the first to the last; and S1, S2, S3 are the identity labels read
   through it.
   */
  method Setup<P>(spr: SparseR1CS, domain: Domain, srs: Srs<P>) returns (res: Result<ProvingKey<P>>)
    requires DomainFits(spr, domain)
    requires |srs.g1| >= domain.cardinality ==> CoefficientsInRange(spr) && VariablesCovered(spr, domain.cardinality)
    ensures res.Failure? <==> |srs.g1| < domain.cardinality
    ensures res.Failure? ==> res.error == SrsTooSmall
    ensures res.Success? ==>
              var pk := res.value;
              var n := domain.cardinality;
              var sID := CosetIdentity(n, domain.generator, domain.finerGenerator);
              && pk.vk.size == n
              && pk.vk.generator == domain.generator
              && pk.vk.nbPublicVariables == spr.nbPublicVariables
              && pk.vk.shifter == (sID[n], sID[2 * n])
              && pk.vk.kzgSrs == Some(srs)
              && pk.domain == domain
              && pk.selectors == BuildSelectors(spr, n)
              && |pk.permutation| == 3 * n
              && (forall p :: 0 <= p < 3 * n ==> pk.permutation[p] == Cycles.Target(Lro(spr, n), p))
              && Cycles.IsBijection(pk.permutation)
              && Cycles.PreservesIds(Lro(spr, n), pk.permutation)
              && pk.sigmas == Lde(pk.permutation, sID, n)
  {
    var n := domain.cardinality;
    var u := domain.finerGenerator;
    var vk := VerifyingKey(n, domain.generator, spr.nbPublicVariables, (u, Mul(u, u)), None);
    var (vk', err) := InitKzg(vk, srs);
    if err.Some? {
      return Failure(err.value);
    }
    var selectors := BuildSelectors(spr, n);
    var perm := BuildPermutation(spr, n);
    var sID := IdentitySequence(n, domain.generator, u);
    ShifterLabels(n, domain.generator, u);
    res := Success(ProvingKey(vk', domain, selectors, perm, Lde(perm, sID, n)));
  }

  /** The shifters are the first labels of the second and third lanes of the identity. */
  lemma ShifterLabels(n: nat, g: int, u: Element)
    requires n >= 1
    ensures CosetIdentity(n, g, u)[n] == u
    ensures CosetIdentity(n, g, u)[2 * n] == Mul(u, u)
  {
    SquareLane(n, g, u);
    assert CosetIdentity(n, g, u)[n] == IdentityLane(n, g, u)[0];
    assert CosetIdentity(n, g, u)[2 * n] == IdentityLane(n, g, Mul(u, u))[0];
  }
}
