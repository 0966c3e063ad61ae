# gnark PLONK setup and ceremony helpers, in Dafny

A verified model of two pieces of gnark:

- **The PLONK setup over BLS12-377** (`internal/backend/bls12-377/plonk/setup.go`). The
  setup reads a finalized sparse constraint system and computes four things:
  - the row layout of the selectors `Ql, Qr, Qm, Qo, Qk`;
  - the table `lro` of wire variable IDs;
  - the copy-constraint permutation;
  - the three-coset identity labels and the Lagrange form of `S1, S2, S3`.

  It also sets the verifying-key fields derived from the evaluation domain, and attaches
  the KZG SRS, which fails when the SRS is too small.
- **The scalar helpers of the Groth16 setup ceremony over BN254**
  (`backend/groth16/setup/utils/utils.go`):
  - `Powers`;
  - `ScaleG1`/`ScaleG2`;
  - `LinearCombinationG1`/`LinearCombinationG2`.

Files:

- `field.dfy` (`Field`): the two scalar-field orders, integer powers, and the modular
  arithmetic facts the proofs use. Field elements are canonical integers `0 <= x < r`.
- `cycles.dfy` (`Cycles`): the permutation builder on a plain table of IDs. This covers
  both passes of `buildPermutation`. It proves that the result is a bijection of the
  positions that keeps every ID, and which position each entry points to. It also proves
  that its cycles are whole ID classes, and that reading any sequence through a
  bijection keeps its multiset.
- `plonk_setup.dfy` (`PlonkSetup`): the constraint-system data model, the row layout,
  the selectors, the identity labels, `S1..S3`, `InitKZG` and `Setup`. It includes two
  properties that tie the pieces together:
  - on every assignment, each row's gate equation is the value of its constraint;
  - the permutation argument balances on an honest assignment.
- `ceremony.dfy` (`Ceremony`): the ceremony helpers over an abstract group. G1 and G2
  are one generic `Group<G>` whose identity, addition and scalar multiplication are
  uninterpreted function values. The module laws that some lemmas assume are stated once,
  in `IsScalarModule`. Each G1/G2 pair of helpers is modelled once, generically.

Go panics (an index out of range, a negative `make` length) become `requires` clauses.
The one error the setup returns, an SRS that is too small, is an explicit `Result`.

Where the comments and the code disagree, the model follows the code. The comment on
`ProvingKey` (setup.go:32) says `ql` is prepended with ones, but the code (setup.go:126)
writes `-1` on placeholder rows, so the model has `-1`.

Three details of the code that the contracts reflect:

- `ScaleG1`/`ScaleG2` (utils.go:34-58) read `a[i]` only for `i < len(A)`, so `Scale`
  requires `|a| >= |A|` and not equal lengths.
- The first pass of `buildPermutation` (setup.go:264-277) leaves -1 on the first
  occurrence of each variable. The second pass (setup.go:279-286) replaces every such
  -1 with the last occurrence of the variable, so no -1 remains in the key.
- The setup reads only the coefficient IDs of the product term `M` (setup.go:138-139, 149-150),
  never its variable IDs. The gate is `qm·l·r` (setup.go:211), so a constraint's value
  multiplies its left and right variables.

## Model

| member | source | states |
|---|---|---|
| Cycles.LinkOccurrences | internal/backend/bls12-377/plonk/setup.go:264-277 | After the forward pass, each position holds the most recent earlier position with the same ID, or -1 when there is none. `cycle[v]` holds the last position of `v` in the whole table. |
| Cycles.CloseCycles | internal/backend/bls12-377/plonk/setup.go:279-287 | The closing walk replaces exactly the first occurrences, each with the last occurrence of its ID. The walk stops after `nbVariables` replacements without leaving the table, provided every ID occurs. |
| Cycles.BuildCycles | internal/backend/bls12-377/plonk/setup.go:223-287 | With every ID in `[0, nbVariables)` and every such ID occurring: no entry is -1; the result is a bijection of `[0, 3n)`; `lro[perm[i]] == lro[i]` everywhere; each entry is the neighbour `Target` describes. |
| Cycles.TargetShape | internal/backend/bls12-377/plonk/setup.go:272-286 | A non-first occurrence points to the most recent earlier position with its ID. A first occurrence points to the last position with its ID. An ID that occurs once is a fixed point. |
| Cycles.TargetIsPermutation | internal/backend/bls12-377/plonk/setup.go:204-215 | The neighbour map is injective and onto, and it keeps the table, which is the `s.(l‖r‖o) = (l‖r‖o)` of the doc comment. |
| Cycles.TargetInjective | internal/backend/bls12-377/plonk/setup.go:272-286 | Two positions sent to the same place are the same position. |
| Cycles.TargetSurjective | internal/backend/bls12-377/plonk/setup.go:272-286 | Every position is the image of some position. |
| Cycles.SharedIdSharedValue | internal/backend/bls12-377/plonk/setup.go:204-215 | The cycles are of maximum length. If the values on the table are kept by the neighbour map at every position, then any two positions with the same ID carry the same value. |
| Cycles.ReindexMultiset | internal/backend/bls12-377/plonk/setup.go:212-214 | Acting on a table by `tab[i] = tab[perm[i]]` through a bijection only rearranges it: the multiset is unchanged. |
| PlonkSetup.WireLayout | internal/backend/bls12-377/plonk/setup.go:221-262 | Row `r` has its lanes at `r`, `n+r` and `2n+r`. Placeholder `i` wires public variable `i` to L and ID 0 to R and O. Constraint `i` sits at row `nbPub+i`, and assertion `i` right after the constraints. Padding rows carry ID 0 in all lanes. |
| PlonkSetup.BuildPermutation | internal/backend/bls12-377/plonk/setup.go:216-288 | This needs rows for every placeholder, constraint and assertion, and every variable occurring in the table. The permutation then has `3n` entries and no -1 left. Each entry is the neighbour `Target` names: the previous occurrence of the variable, or the last one for a first occurrence. It is a bijection of `[0, 3n)` and keeps `lro`. |
| PlonkSetup.BuildSelectors | internal/backend/bls12-377/plonk/setup.go:117-154 | Every selector column has `n` entries, and `CQk` equals `LQk` before the transform. |
| PlonkSetup.SelectorLayout | internal/backend/bls12-377/plonk/setup.go:117-154 | Placeholder rows are `(Ql, Qr, Qm, Qo, Qk) = (-1, 0, 0, 0, 0)`. Constraint `i` at row `nbPub+i` and assertion `i` after the constraints copy their coefficients, with `Qm = coeff[M0]·coeff[M1]`. Padding rows are zero. |
| PlonkSetup.GateMatchesConstraint | internal/backend/bls12-377/plonk/setup.go:135-141 | Reducing `qM` to one field element before use does not change a row: its gate equation on the L, R, O values is the constraint's own value. |
| PlonkSetup.RowsEncodeConstraints | internal/backend/bls12-377/plonk/setup.go:117-154 | The selector layout and the `lro` layout agree. On any assignment, the gate equation of the row of constraint or assertion `i` equals that constraint's value. A placeholder row gives `-w[i]`, which the public input added to `Qk` cancels, and a padding row gives 0. |
| PlonkSetup.GeometricLane | internal/backend/bls12-377/plonk/setup.go:311-315 | Starting from a seed and multiplying by `g` at each step yields `seed·g^i`. |
| PlonkSetup.IdentitySequence | internal/backend/bls12-377/plonk/setup.go:305-315 | `sID[k·n+i] = u^k·g^i` for `k ∈ {0,1,2}`: the three cosets `⟨g⟩`, `u⟨g⟩`, `u²⟨g⟩`. |
| PlonkSetup.ShifterLabels | internal/backend/bls12-377/plonk/setup.go:109-111 | The shifters `u` and `u²` are the labels `sID[n]` and `sID[2n]`. |
| PlonkSetup.Lde | internal/backend/bls12-377/plonk/setup.go:317-325 | `LS{k+1}[i] = sID[Permutation[k·n+i]]`. Side by side, `LS1‖LS2‖LS3` is `sID` read through the permutation. |
| PlonkSetup.PermutationArgument | internal/backend/bls12-377/plonk/setup.go:204-215 | On any assignment, each position's value equals the value at the position it is sent to. The multiset of (value, identity label) pairs equals the multiset of (value, S label) pairs. |
| PlonkSetup.CopyConstraintsSound | internal/backend/bls12-377/plonk/setup.go:204-215 | The converse of the permutation argument. Take the key's permutation and any wire values that each position shares with its image. Those values are the wire values of one assignment of the `nbVariables` variables. |
| PlonkSetup.InitKzg | internal/backend/bls12-377/plonk/setup.go:357-366 | It fails exactly when the SRS has fewer G1 points than `vk.Size`, and then leaves the key untouched. Otherwise it attaches the SRS and changes nothing else. |
| PlonkSetup.Setup | internal/backend/bls12-377/plonk/setup.go:88-199 | Setup fails, with the too-small-SRS error, exactly when `InitKZG` does. Otherwise the key holds: `Size = n`; the domain generator; the public-input count; shifters equal to `sID[n]` and `sID[2n]`; the attached SRS; the selector layout; the permutation `buildPermutation` computes, with each entry the neighbour `Target` names; and `S1..S3` as `sID` read through that permutation. |
| Ceremony.Powers | backend/groth16/setup/utils/utils.go:24-32 | With `n >= 1`, the result has `n` entries, starts at 1, and each entry is the previous one times `a`. Hence entry `i` is `a^i mod r`. |
| Ceremony.Scale | backend/groth16/setup/utils/utils.go:34-58 | There is one output point per input point, and entry `i` depends only on `a[i]` and `A[i]`. At least `len(A)` scalars are needed. |
| Ceremony.ScaleByOnes | backend/groth16/setup/utils/utils.go:34-58 | Scaling by all-ones scalars returns the points unchanged. |
| Ceremony.ScaleByZeros | backend/groth16/setup/utils/utils.go:34-58 | Scaling by all-zero scalars gives the identity at every position. |
| Ceremony.ScaleChunks | backend/groth16/setup/utils/utils.go:37-43 | Scaling two consecutive chunks and joining the results equals scaling the whole vector. This is why the work may be split across tasks. |
| Ceremony.ScalePowersUpdate | backend/groth16/setup/utils/utils.go:34-45 | Scaling `[t1^i·g]` by the powers of `t2` gives `[(t1·t2)^i·g]`: one ceremony contribution updates the powers of the secret. |
| Ceremony.LinearCombination | backend/groth16/setup/utils/utils.go:88-99 | `n-1` scalars `r` are used. `L1` sums `r[i]·A[i]` over `A[0..n-2]`, and `L2` sums `r[i]·A[i+1]` over `A[1..n-1]` with the same `r`. This needs `n >= 1`. |
| Ceremony.MultiExpFactor | backend/groth16/setup/utils/utils.go:96-97 | If every term over `C` is `tau` times the matching term over `B`, then the multi-exponentiation over `C` is `tau` times the one over `B`. |
| Ceremony.LinearCombinationOfPowers | backend/groth16/setup/utils/utils.go:88-99 | On a vector of powers `A[i] = tau^i·g`, whatever the scalars, `L2 = tau·L1`. So one same-ratio check on `(L1, L2)` covers every adjacent pair. |

## Left out

- `fft.NewDomain` is a library call. The domain is a parameter: its cardinality `n`
  (at least 1, with room for every row), generator `g` and finer generator `u`.
- `FFTInverse`, `BitReverse` and the canonical forms `CS1..CS3` are library transforms.
  Selectors and `S1..S3` are kept in Lagrange form.
- `kzg.Commit` and the commitments in the verifying key are left out, since the curve
  library is not part of this model. With an SRS of at least `n` points, committing to
  `n` coefficients does not fail, so `Setup` fails only on the size check.
- `vk.SizeInv` and the second domain `DomainH` are left out: both are library
  computations (a field inverse and another `NewDomain`).
- The coset labels are only described, not proved distinct. Proving that `⟨g⟩`, `u⟨g⟩`
  and `u²⟨g⟩` are disjoint needs the multiplicative orders of `g` and `u`, which the
  domain construction provides.
- `SameRatio`, `GenR`, `GenPublicKey` and `Merge` are left out. They are pairing checks,
  hash-to-curve and `SetRandom`, i.e. foreign cryptographic calls and randomness.
- `SplitDumpR1CSBinary` is left out: it creates files and gob-encodes, which is I/O.
- `internal/backend/circuits/lut11.go` is a test circuit written in the front-end DSL,
  with no logic of its own.
- The random scalars of `LinearCombinationG1/G2` are a parameter. `utils.Parallelize`
  and the `NbTasks` setting only affect performance, and `ScaleChunks` states why
  splitting the work is sound.
- Montgomery form, `big.Int` conversions and the `uint64`/`int64` fields are
  representation details. Counts and positions are unbounded naturals, and IDs and
  positions stay far below any integer width.
- `Ceremony.IsScalarModule` states the group laws as hypotheses. Neither curve is
  constructed.
