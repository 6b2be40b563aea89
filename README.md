# QAlgebra core in Dafny

This project models the algebraic core of QAlgebra, a Python library for
symbolic quantum mechanics. It has four parts.

- **Rule tables** (`rules.dfy`, `scalar_rules.dfy`, `operator_rules.dfy`,
  `superop_rules.dfy`, `state_rules.dfy`). These are the ordered dictionaries
  of named rewrite rules that every expression class uses to simplify itself.
  - Each rule is a total function. It returns `Some(replacement)` when the
    pattern matches and the handler does not raise `CannotSimplify`, and
    `None` otherwise.
  - Registration (`OrderedDict.update`) is a class, `Rules.RuleTable`, whose
    method changes its rule list.
  - Every table is proved sound against a semantics (`semantics.dfy`). A
    scalar is a complex number. An operator is a `dim x dim` matrix on one
    local Hilbert space. A ket is a vector. A super-operator is a map from
    matrices to matrices. Each rule's replacement has the same meaning as
    the expression it rewrites.
- **Super-operator algebra** (`super_operator_algebra.dfy`).
  - The sort order of the factors of a super-operator product.
  - The zero short-cut of its constructor.
  - The adjoint, space and derivative of the elementary super-operators.
  - `commutator`, `anti_commutator`, `lindblad` and `liouvillian`, each
    proved to act on a matrix as the formula it stands for.
- **Matrix** (`matrix_algebra.dfy`). The `Matrix` class of the library is a
  numpy object array behind a wrapper, and no method changes it after
  `__init__`. It is modelled as a value, `Mat<T>`, over an entry type `T`.
  The entry operations (addition, multiplication, zero, one, -1, `is_zero`,
  adjoint) are the parameter `EntryOps<T>`.
- **Containers** (`containers.dfy`). `sorted_if_possible` and
  `nested_tuple` over a model of Python values.

`complex.dfy` (complex numbers with exact real parts, finite sums),
`expressions.dfy` (expression trees), `semantics.dfy` and `laws.dfy` are the
shared foundation.

## Model

| member | source | states |
|---|---|---|
| Rules.RuleTable.Update | src/qalgebra/_rules.py:123 | `_rules.update(check_rules_dict(...))`. The new table is the old one with each new rule replacing the rule of the same name in place, or appended when the name is new. |
| Rules.FirstMatch | src/qalgebra/_rules.py:100-123 | Rules are tried in table order. The result is the first rule that gives a replacement, and every earlier rule gave none. None means no rule applies. |
| Rules.PutLookup | src/qalgebra/_rules.py:123 | After `d[name] = rule`, looking up the name finds the new rule, and every rule with another name stays where it was. |
| Rules.PutNames | src/qalgebra/_rules.py:123 | After `d[name] = rule`, the keys are the old keys, with the new name added at the end only when it was absent. |
| Rules.PutDistinct | src/qalgebra/_rules.py:123 | Storing a rule keeps the keys of the dictionary distinct. |
| Rules.UpdateAllDistinct | src/qalgebra/_rules.py:123 | `update` keeps the keys distinct. |
| Rules.UpdateAllFresh | src/qalgebra/_rules.py:123 | Updating with rules whose names are all new appends them in order. |
| Rules.UpdateAllAgain | src/qalgebra/_rules.py:1385-1393 | Registering the same table a second time leaves the dictionary unchanged. |
| Rules.UpdateAllSelf | src/qalgebra/_rules.py:123 | Putting a prefix of a dictionary back into itself changes nothing. |
| ScalarRules.TimesR001 | src/qalgebra/_rules.py:92-101 | The product rule R001 fires exactly when both factors are scalar values (numbers, symbols, Kronecker deltas), the head of the wildcards `a` and `b`. |
| ScalarRules.TimesR001Sound | src/qalgebra/_rules.py:101 | The result of `a, b -> a * b` keeps the value `x y`. |
| ScalarRules.TimesZeroSound | src/qalgebra/_rules.py:103-104 | A product with a zero factor is zero. |
| ScalarRules.TimesR002Sound | src/qalgebra/_rules.py:102 | `x * x -> x ** 2` keeps the value. |
| ScalarRules.TimesR005Sound | src/qalgebra/_rules.py:105-114 | `x**y * x**z -> x**(y+z)` keeps the value when both exponents are integers and x is nonzero, and for natural exponents with any x. |
| ScalarRules.TimesR006Sound | src/qalgebra/_rules.py:115-121 | `x * x**-1 -> 1` keeps the value for nonzero x. |
| ScalarRules.ScalarTimesRulesSound | src/qalgebra/_rules.py:100-123 | Every rule of the `ScalarTimes` table gives an expression whose value is `x y`. R005 needs integer exponents, with x nonzero unless both are natural numbers. R006 needs x nonzero. |
| ScalarRules.PowValueNat | src/qalgebra/_rules.py:126-128 | A power with a natural exponent n is the n-fold product. |
| ScalarRules.PowTwo | src/qalgebra/_rules.py:102 | `b ** 2 == b * b`. |
| ScalarRules.PowerR001 | src/qalgebra/_rules.py:126 | The power rule R001 fires exactly when base and exponent are scalar values, the head of the wildcards at lines 92-93. Unless both are numbers, the result is the power `a ** b` itself. |
| ScalarRules.PowerR001Sound | src/qalgebra/_rules.py:126 | An integer power of a number is evaluated, and every result of `a ** b` has the value of the power. |
| ScalarRules.PowerR002Sound | src/qalgebra/_rules.py:127 | `x ** 0 -> One` keeps the value. |
| ScalarRules.PowerR003Sound | src/qalgebra/_rules.py:128 | `x ** 1 -> x` keeps the value. |
| ScalarRules.PowerR004Sound | src/qalgebra/_rules.py:129-135 | `(x**y)**z -> x**(y z)` keeps the value when both exponents are integers and x is nonzero, and for natural exponents with any x. |
| ScalarRules.PowerR004NonIntegerExponent | src/qalgebra/_rules.py:129-135 | R004 fires for a non-integer exponent too, and there it changes the value: `((-1)**2)**(1/2)` is 1, but `(-1)**1` is -1. |
| ScalarRules.IntProduct | src/qalgebra/_rules.py:129-135 | The exponent `y * z` that R004 builds has the product of the two integer exponents as its value. |
| ScalarRules.ScalarPowerRulesSound | src/qalgebra/_rules.py:125-137 | Every rule of the `ScalarPower` table gives an expression whose value is `b ** e`. R004 needs integer exponents, with x nonzero unless both are natural numbers. |
| ScalarRules.PullConstFactorFromSum | src/qalgebra/_rules.py:139-144 | The factor is pulled out exactly when none of the sum's index symbols is free in it. Otherwise the rule declines, as `CannotSimplify`. |
| ScalarRules.SumR002Sound | src/qalgebra/_rules.py:153-162 | `sum(x * y) -> x * sum(y)` keeps the value of the sum. |
| ScalarRules.ScalarIndexedSumRulesSound | src/qalgebra/_rules.py:146-164 | Both `ScalarIndexedSum` rules keep the value of the sum, with no side condition. |
| OperatorRules.ScaledTerms | src/qalgebra/_rules.py:213-218 | `[u * op for op in ops]` has one scaled term per operand, in order. |
| OperatorRules.PlusOfScaled | src/qalgebra/_rules.py:213-218 | The sum of the scaled terms is u times the sum of the terms. |
| OperatorRules.StoR004Sound | src/qalgebra/_rules.py:206-211 | `u * (v * A) -> (u v) * A` keeps the matrix. |
| OperatorRules.ScalarTimesOperatorRulesSound | src/qalgebra/_rules.py:198-220 | Every `ScalarTimesOperator` rule, including `-1 * (A + B + ...)`, gives an operator with the matrix of `u A`. |
| OperatorRules.TimesR001Sound | src/qalgebra/_rules.py:224-229 | `(u A) B -> u (A B)` keeps the matrix of the product. |
| OperatorRules.TimesR004Sound | src/qalgebra/_rules.py:239-244 | `A (u B) -> u (A B)` keeps the matrix of the product. |
| OperatorRules.TimesR005Sound | src/qalgebra/_rules.py:246-259 | `\|a><b\| \|c><d\| -> delta(b,c) \|a><d\|` keeps the matrix of the product. |
| OperatorRules.OperatorTimesRulesSound | src/qalgebra/_rules.py:222-260 | Every algebraic binary rule of `OperatorTimes` gives an operator with the matrix of `A B`. |
| OperatorRules.TracedTerms | src/qalgebra/_rules.py:509-519 | `[tr(o) for o in ops]` has one traced term per operand, in order. |
| OperatorRules.TraceOfPlus | src/qalgebra/_rules.py:509-519 | The sum of the traced terms is the trace of the sum. |
| OperatorRules.TraceR003Sound | src/qalgebra/_rules.py:502-507 | The trace of the identity over the space is `dim` times the identity. |
| OperatorRules.TraceR005Sound | src/qalgebra/_rules.py:521-528 | `tr(A^dagger) -> tr(A)^dagger` keeps the matrix. |
| OperatorRules.TraceR006Sound | src/qalgebra/_rules.py:530-537 | `tr(u A) -> u tr(A)` keeps the matrix. |
| OperatorRules.TraceLadderSound | src/qalgebra/_rules.py:546-558 | The traces of the creation and annihilation operators are zero. |
| OperatorRules.TraceR010Sound | src/qalgebra/_rules.py:560-568 | `tr(\|n><m\|) -> delta(n,m) 1` keeps the matrix. |
| OperatorRules.OperatorTraceRulesSound | src/qalgebra/_rules.py:489-577 | Every modelled `OperatorTrace` rule gives an operator with the matrix of the trace over the local space. |
| OperatorRules.CommutatorIsDifference | src/qalgebra/_rules.py:579-654 | The matrix of `[A, B]` is `A B - B A`. |
| OperatorRules.CommScaleLeft | src/qalgebra/_rules.py:592-597 | A scalar factor comes out of the left argument of a commutator. |
| OperatorRules.CommScaleRight | src/qalgebra/_rules.py:599-605 | A scalar factor comes out of the right argument of a commutator. |
| OperatorRules.CommR001Sound | src/qalgebra/_rules.py:580 | `[A, A] -> 0` keeps the matrix. |
| OperatorRules.CommR002Sound | src/qalgebra/_rules.py:582-590 | `[u A, v B] -> u v [A, B]` keeps the matrix. |
| OperatorRules.CommR003Sound | src/qalgebra/_rules.py:592-597 | `[v A, B] -> v [A, B]` keeps the matrix. |
| OperatorRules.CommR004Sound | src/qalgebra/_rules.py:599-605 | `[A, v B] -> v [A, B]` keeps the matrix. |
| OperatorRules.CommR006Sound | src/qalgebra/_rules.py:616-652 | Writing the commutator out as `A B - B A` keeps the matrix. |
| OperatorRules.CommutatorRulesSound | src/qalgebra/_rules.py:579-654 | Every commutator rule except R005 gives an operator with the matrix of `[A, B]`. |
| OperatorRules.CommR005NeedsInfiniteSpace | src/qalgebra/_rules.py:607-613 | R005 rewrites `[a^dagger, a]` to `-1`. In a truncated space of dimension 1 the commutator is 0 at (0,0), while `-1` is -1 there. |
| OperatorRules.PullConstFactorFromOperatorSum | src/qalgebra/_rules.py:656-661 | The factor is pulled out exactly when no index symbol of the sum is free in it. |
| OperatorRules.OpSumR002Sound | src/qalgebra/_rules.py:672-682 | `sum(u A) -> u sum(A)` keeps the matrix. |
| OperatorRules.OperatorIndexedSumRulesSound | src/qalgebra/_rules.py:663-684 | Both `OperatorIndexedSum` rules keep the matrix of the sum. |
| SuperOpRules.SopTimesPair | src/qalgebra/_rules.py:725-755 | A product of two super-operators applies the right factor first. |
| SuperOpRules.SopTimesSplitLast | src/qalgebra/_rules.py:725-755 | A product of several super-operators applies its last factor first. |
| SuperOpRules.SopScalarR004Sound | src/qalgebra/_rules.py:716-721 | `u (v sA) -> (u v) sA` keeps the action. |
| SuperOpRules.ScalarTimesSuperOperatorRulesSound | src/qalgebra/_rules.py:705-723 | Every `ScalarTimesSuperOperator` rule gives a super-operator that acts as `u sA`. |
| SuperOpRules.SopTimesR001Sound | src/qalgebra/_rules.py:727-732 | `(u sA) sB -> u (sA sB)` keeps the action. |
| SuperOpRules.SopTimesR002Sound | src/qalgebra/_rules.py:734-739 | `sA (u sB) -> u (sA sB)` keeps the action. |
| SuperOpRules.SopTimesR003Sound | src/qalgebra/_rules.py:741-746 | `SPre(A) SPre(B) -> SPre(A B)`: left multiplications compose. |
| SuperOpRules.SopTimesR004Sound | src/qalgebra/_rules.py:748-753 | `SPost(A) SPost(B) -> SPost(B A)`: right multiplications compose in reverse order. |
| SuperOpRules.SuperOperatorTimesRulesSound | src/qalgebra/_rules.py:725-755 | Every binary rule of `SuperOperatorTimes` gives a super-operator that acts as `sA sB`. |
| SuperOpRules.PreIdentity | src/qalgebra/_rules.py:766-771 | `SPre(1)` maps X to X. |
| SuperOpRules.PostIdentity | src/qalgebra/_rules.py:788-793 | `SPost(1)` maps X to X. |
| SuperOpRules.PreZero | src/qalgebra/_rules.py:773-774 | `SPre(0)` maps every X to 0. |
| SuperOpRules.PostZero | src/qalgebra/_rules.py:795-796 | `SPost(0)` maps every X to 0. |
| SuperOpRules.PreScaled | src/qalgebra/_rules.py:759-764 | `SPre(u A) = u SPre(A)`. |
| SuperOpRules.PostScaled | src/qalgebra/_rules.py:781-786 | `SPost(u A) = u SPost(A)`. |
| SuperOpRules.SPreRulesSound | src/qalgebra/_rules.py:757-777 | Every `SPre` rule gives a super-operator that acts as `SPre(A)`. |
| SuperOpRules.SPostRulesSound | src/qalgebra/_rules.py:779-799 | Every `SPost` rule gives a super-operator that acts as `SPost(A)`. |
| SuperOpRules.AppliedTerms | src/qalgebra/_rules.py:803-810 | `[o * B for o in sA.operands]` applies each summand to B, in order. |
| SuperOpRules.PlusOfApplied | src/qalgebra/_rules.py:803-810 | The sum of the applied terms is the sum super-operator applied to B. |
| SuperOpRules.ApplyR002Sound | src/qalgebra/_rules.py:810-813 | `IdentitySuperOperator B -> B` keeps every matrix entry. |
| SuperOpRules.ApplyR003Sound | src/qalgebra/_rules.py:814-820 | `ZeroSuperOperator B -> ZeroOperator` keeps every matrix entry. |
| SuperOpRules.ApplyR004Sound | src/qalgebra/_rules.py:821-827 | `(u sA) B -> u (sA B)` keeps every matrix entry. |
| SuperOpRules.ApplyR005Sound | src/qalgebra/_rules.py:830-835 | `sA (u B) -> u (sA B)` keeps the matrix. |
| SuperOpRules.ApplyR006Sound | src/qalgebra/_rules.py:837-842 | `sA (sB C) -> (sA sB) C` keeps the matrix. |
| SuperOpRules.ApplyR007Sound | src/qalgebra/_rules.py:844-845 | `SPre(A) B -> A B`. |
| SuperOpRules.ApplySplitLast | src/qalgebra/_rules.py:848-860 | A product of super-operators applied to C is its front applied to the last factor's image of C. |
| SuperOpRules.ApplyR008Sound | src/qalgebra/_rules.py:848-860 | `(s1 ... sn) C -> (s1 ... sn-1) (sn C)` keeps the matrix. |
| SuperOpRules.ApplyLastFirst | src/qalgebra/_rules.py:848-860 | Applying the last factor first agrees with applying the whole product. |
| SuperOpRules.ApplyR009Sound | src/qalgebra/_rules.py:862-863 | `SPost(A) B -> B A`. |
| SuperOpRules.ApplyRuleSound | src/qalgebra/_rules.py:801-866 | Entry (i, j) of the result of any `SuperOperatorTimesOperator` rule that fires is entry (i, j) of `sA` applied to B. |
| SuperOpRules.SuperOperatorTimesOperatorRulesSound | src/qalgebra/_rules.py:801-866 | Every `SuperOperatorTimesOperator` rule gives an operator with the matrix of `sA` applied to B. |
| StateRules.ActLocally | src/qalgebra/_rules.py:872-876 | `act_locally` gives a result exactly when the part of the ket off the operator's space is not the trivial ket. Otherwise it raises `CannotSimplify`. |
| StateRules.ActLocallySound | src/qalgebra/_rules.py:872-876 | `(A Psi_on) Psi_off` has the components of `A (Psi_on Psi_off)` in the two-factor product space. |
| StateRules.StkR004Sound | src/qalgebra/_rules.py:955-960 | `u (v Psi) -> (u v) Psi` keeps the components. |
| StateRules.ScalarTimesKetRulesSound | src/qalgebra/_rules.py:950-962 | Every `ScalarTimesKet` rule gives a ket with the components of `u Psi`. |
| StateRules.NestLast | src/qalgebra/_rules.py:1078-1087 | Applying a list of operators one by one, the last operator is applied first. |
| StateRules.ProductActsSum | src/qalgebra/_rules.py:1089-1094 | A product of operators acts on a ket as its factors do, applied from the right. |
| StateRules.FirstFactorActs | src/qalgebra/_rules.py:1089-1094 | `(A1 A2 ... An) Psi = A1 ((A2 ... An) Psi)`. |
| StateRules.EmptyProductActs | src/qalgebra/_rules.py:1089-1094 | The empty product acts as the identity. |
| StateRules.ProductActs | src/qalgebra/_rules.py:1089-1094 | `(A1 ... An) Psi = A1 (A2 (... (An Psi)))`. |
| StateRules.OtkIdentity | src/qalgebra/_rules.py:969-974 | `1 Psi -> Psi` keeps the components. |
| StateRules.OtkZero | src/qalgebra/_rules.py:976-985 | `0 Psi` and `A 0` are the zero ket. |
| StateRules.OtkR004Sound | src/qalgebra/_rules.py:987-992 | `A (v Psi) -> v (A Psi)` keeps the components. |
| StateRules.OtkR005Sound | src/qalgebra/_rules.py:994-1004 | `\|n><m\| \|k> -> delta(m,k) \|n>` keeps the components. |
| StateRules.OtkR012Sound | src/qalgebra/_rules.py:1064-1069 | R012 (`act_locally` on a tensor ket): when the factor split gives the factors of Psi, the result has the two-factor components of `A Psi`, where A acts on the first factor. |
| StateRules.OtkR014Sound | src/qalgebra/_rules.py:1078-1087 | `A (B Psi) -> (A B) Psi`, when `B Psi` does not simplify, keeps the components. |
| StateRules.OtkR015Sound | src/qalgebra/_rules.py:1089-1094 | Splitting off the last local factor of a product keeps the components. |
| StateRules.OtkR016Sound | src/qalgebra/_rules.py:1096-1101 | `(u A) Psi -> u (A Psi)` keeps the components. |
| StateRules.OtkR021 | src/qalgebra/_rules.py:1146-1154 | Corrected R021 fires exactly on an indexed sum none of whose index symbols is free in the operator. |
| StateRules.OtkR021Sound | src/qalgebra/_rules.py:1146-1154 | The guarded `A sum(Psi) -> sum(A Psi)` keeps the components. |
| StateRules.OtkR021AsWrittenCaptures | src/qalgebra/_rules.py:1146-1154 | R021 as written changes the components when the operator mentions the sum's index symbol. |
| StateRules.OperatorTimesKetRulesSound | src/qalgebra/_rules.py:967-1155 | Every modelled `OperatorTimesKet` rule, with R021 guarded, gives a ket with the components of `A Psi`. For R012 it also gives the two-factor components of `A Psi` when the split factorises Psi. |
| StateRules.TensorKetRulesSound | src/qalgebra/_rules.py:1157-1172 | `(u Psi) Phi` and `Psi (u Phi) -> u (Psi Phi)` keep the components of the tensor product. |
| StateRules.BkZero | src/qalgebra/_rules.py:1198-1199 | A bra-ket with the zero ket on either side is zero. |
| StateRules.BkR003Sound | src/qalgebra/_rules.py:1201-1205 | `<i\|j>` of two basis states is `delta(i,j)`. |
| StateRules.BkR006Sound | src/qalgebra/_rules.py:1219-1225 | `<u Psi\|Phi> -> conj(u) <Psi\|Phi>` keeps the value. |
| StateRules.BraOfProduct | src/qalgebra/_rules.py:1226-1232 | `<A Psi\|Phi>` is a double sum over the entries of A. |
| StateRules.KetOfAdjoint | src/qalgebra/_rules.py:1226-1232 | `<Psi\|A^dagger Phi>` is the same kind of double sum, taken over the columns and rows of A. |
| StateRules.BkR007Sound | src/qalgebra/_rules.py:1226-1232 | `<A Psi\|Phi> = <Psi\|A^dagger Phi>`: the adjoint moves an operator across the bra-ket. |
| StateRules.BkR008Sound | src/qalgebra/_rules.py:1233-1239 | `<Psi\|u Phi> -> u <Psi\|Phi>` keeps the value. |
| StateRules.BraKetRulesSound | src/qalgebra/_rules.py:1196-1263 | Every modelled `BraKet` rule gives a scalar with the value of `<Psi\|Phi>`, for normalised ket symbols. |
| StateRules.KbR001Sound | src/qalgebra/_rules.py:1267-1275 | `\|m> <n\|` of basis states is `LocalSigma(m, n)`. |
| StateRules.KbR005Sound | src/qalgebra/_rules.py:1304-1309 | `\|A Psi><Phi\| -> A \|Psi><Phi\|` keeps the matrix. |
| StateRules.KbR006Sound | src/qalgebra/_rules.py:1311-1316 | `\|Psi><A Phi\| -> \|Psi><Phi\| A^dagger` keeps the matrix. |
| StateRules.ConjOfAction | src/qalgebra/_rules.py:1311-1316 | The conjugate of a component of `A Phi` is a sum of conjugated entries of A and conjugated components of Phi. |
| StateRules.KbR007Sound | src/qalgebra/_rules.py:1318-1323 | `\|u Psi><Phi\| -> u \|Psi><Phi\|` keeps every matrix entry. |
| StateRules.KbR008Sound | src/qalgebra/_rules.py:1325-1330 | `\|Psi><u Phi\| -> conj(u) \|Psi><Phi\|` keeps every matrix entry. |
| StateRules.KetBraRulesSound | src/qalgebra/_rules.py:1265-1353 | Every modelled `KetBra` rule gives an operator with the matrix of `\|Psi><Phi\|`. |
| StateRules.PullConstFactorFromKetSum | src/qalgebra/_rules.py:1355-1360 | The factor is pulled out exactly when no index symbol of the sum is free in it. |
| StateRules.KsR002Sound | src/qalgebra/_rules.py:1371-1380 | `sum(u Psi) -> u sum(Psi)` keeps the components. |
| StateRules.KetIndexedSumRulesSound | src/qalgebra/_rules.py:1362-1382 | Both `KetIndexedSum` rules keep the components of the sum. |
| SuperOperatorAlgebra.SuperLtStrict | src/qalgebra/core/super_operator_algebra.py:164-174 | The factor order is strict whenever the inherited order is. SPre always sorts before SPost, and never after it. |
| SuperOperatorAlgebra.PreCommutesWithPost | src/qalgebra/core/super_operator_algebra.py:164-166 | `SPost(A) SPre(B)` acts as `SPre(B) SPost(A)`, so reordering them is sound. |
| SuperOperatorAlgebra.SortedPreBeforePost | src/qalgebra/core/super_operator_algebra.py:164-174 | In a sequence sorted by this order, no SPost stands directly before an SPre. |
| SuperOperatorAlgebra.ZeroMatrixImage | src/qalgebra/core/super_operator_algebra.py:186-191 | Every super-operator maps the zero matrix to zero. |
| SuperOperatorAlgebra.ZeroFactorProduct | src/qalgebra/core/super_operator_algebra.py:186-191 | A product with a zero factor maps every matrix to zero. |
| SuperOperatorAlgebra.CreateSuperTimesSound | src/qalgebra/core/super_operator_algebra.py:186-191 | The product constructor gives zero when a factor is zero, and its result always acts as the product. |
| SuperOperatorAlgebra.AdjointOfInvolution | src/qalgebra/core/super_operator_algebra.py:120-121 | `_adjoint` is defined exactly for identity, zero, SPre and SPost, and taking it twice gives the super-operator back. |
| SuperOperatorAlgebra.PreOfUnit | src/qalgebra/core/super_operator_algebra.py:233-263 | `SPre(A)` applied to the matrix unit E_ji is nonzero only in column i, where it is column j of A. |
| SuperOperatorAlgebra.PostOfUnit | src/qalgebra/core/super_operator_algebra.py:266-299 | `SPost(A)` applied to E_ji is nonzero only in row j, where it is row i of A. |
| SuperOperatorAlgebra.SuperAdjointOfPre | src/qalgebra/core/super_operator_algebra.py:262-263 | The adjoint of `SPre(A)` with respect to the bilinear trace pairing `Tr[M (L N)] = Tr[(L* M) N]` acts as `SPost(A)`. |
| SuperOperatorAlgebra.SuperAdjointOfPost | src/qalgebra/core/super_operator_algebra.py:298-299 | The adjoint of `SPost(A)` acts as `SPre(A)`. |
| SuperOperatorAlgebra.SuperAdjointOfIdentity | src/qalgebra/core/super_operator_algebra.py:120-121 | The adjoint of the identity super-operator is the identity. |
| SuperOperatorAlgebra.SuperAdjointOfZero | src/qalgebra/core/super_operator_algebra.py:144-145 | The adjoint of the zero super-operator is zero. |
| SuperOperatorAlgebra.AdjointOfSound | src/qalgebra/core/super_operator_algebra.py:211-227 | Wherever `_adjoint` is defined, it acts as the super-adjoint. |
| SuperOperatorAlgebra.AdjointKeepsSpace | src/qalgebra/core/super_operator_algebra.py:109-112 | Taking the adjoint keeps the space, which is defined for these super-operators. |
| SuperOperatorAlgebra.ConstantDiffSound | src/qalgebra/core/super_operator_algebra.py:117-118 | The identity and zero super-operators have zero derivative, and their action does not depend on any symbol's value. |
| SuperOperatorAlgebra.PreApplied | src/qalgebra/core/super_operator_algebra.py:233-263 | `SPre(A)` maps X to `A X`. |
| SuperOperatorAlgebra.PostApplied | src/qalgebra/core/super_operator_algebra.py:266-299 | `SPost(A)` maps X to `X A`. |
| SuperOperatorAlgebra.CommutatorSuperApplied | src/qalgebra/core/super_operator_algebra.py:377-394 | `commutator(A)` maps X to `A X - X A`. |
| SuperOperatorAlgebra.AntiCommutatorSuperApplied | src/qalgebra/core/super_operator_algebra.py:397-413 | `anti_commutator(A)` maps X to `A X + X A`. |
| SuperOperatorAlgebra.CommutatorWithMeaning | src/qalgebra/core/super_operator_algebra.py:377-394 | `commutator(A, B)` is `A B - B A`, and equals the algebra's `Commutator(A, B)`. |
| SuperOperatorAlgebra.CommutatorApplied | src/qalgebra/core/super_operator_algebra.py:377-394 | `commutator(A)` applied to B is `commutator(A, B)`. |
| SuperOperatorAlgebra.AntiCommutatorApplied | src/qalgebra/core/super_operator_algebra.py:397-413 | `anti_commutator(A)` applied to B is `anti_commutator(A, B)`. |
| SuperOperatorAlgebra.SandwichApplied | src/qalgebra/core/super_operator_algebra.py:435-439 | `SPre(C) SPost(C^dagger)` maps X to `C X C^dagger`. |
| SuperOperatorAlgebra.HalfAntiCommutatorApplied | src/qalgebra/core/super_operator_algebra.py:435-439 | The second term maps X to `1/2 (C^dagger C X + X C^dagger C)`. |
| SuperOperatorAlgebra.LindbladOperatorApplied | src/qalgebra/core/super_operator_algebra.py:416-439 | `lindblad(C)` maps X to `C X C^dagger - 1/2 {C^dagger C, X}`. |
| SuperOperatorAlgebra.DissipatorOfScalar | src/qalgebra/core/super_operator_algebra.py:432-434 | The dissipator of a multiple of the identity is zero. |
| SuperOperatorAlgebra.LindbladSound | src/qalgebra/core/super_operator_algebra.py:416-439 | For an operator or a scalar C, `lindblad(C)` acts as the dissipator D[C]. A scalar gives 0, which is D of a multiple of the identity. |
| SuperOperatorAlgebra.LindbladTermsSum | src/qalgebra/core/super_operator_algebra.py:463-466 | The sum of `[lindblad(L) for L in Ls]` acts as the sum of the dissipators. |
| SuperOperatorAlgebra.LiouvillianSound | src/qalgebra/core/super_operator_algebra.py:442-467 | `liouvillian(H, Ls)` maps rho to `-i [H, rho] + sum_j D[L_j] rho`, the master equation. |
| SuperOperatorAlgebra.LiouvillianOfSound | src/qalgebra/core/super_operator_algebra.py:458-467 | The same holds for `Ls=None`, where there are no dissipators, and for a Matrix, whose entries are taken in row-major order, each of them once. |
| SuperOperatorAlgebra.LiouvillianOfColumn | src/qalgebra/core/super_operator_algebra.py:459-462 | A column Matrix of Lindblad operators gives the same Liouvillian as the list of them. |
| MatrixAlgebra.Column | src/qalgebra/core/matrix_algebra.py:40-41 | A one-dimensional array becomes an n x 1 column. |
| MatrixAlgebra.MakeMatrixSound | src/qalgebra/core/matrix_algebra.py:33-43 | `Matrix(m)` copies a Matrix and keeps a 2-d array. It reshapes a 1-d array into a column. A 0-d array fails on `shape[0]` (IndexError), and more than 2 dimensions is a ValueError. |
| MatrixAlgebra.ColumnRavel | src/qalgebra/core/matrix_algebra.py:40-41 | Raveling the column built from v gives v back. |
| MatrixAlgebra.FlattenMembers | src/qalgebra/core/matrix_algebra.py:99 | An entry is in the raveled matrix exactly when it is in some row. |
| MatrixAlgebra.FlattenLength | src/qalgebra/core/matrix_algebra.py:99 | The raveled matrix has rows times columns entries. |
| MatrixAlgebra.IsZero | src/qalgebra/core/matrix_algebra.py:96-106 | `is_zero` (a loop that stops at the first nonzero entry) is true exactly when every entry is zero. |
| MatrixAlgebra.Transpose | src/qalgebra/core/matrix_algebra.py:155-157 | The transpose has the swapped shape and entry (r, c) equal to entry (c, r). |
| MatrixAlgebra.TransposeInvolution | src/qalgebra/core/matrix_algebra.py:155-157 | Transposing twice gives the matrix back. |
| MatrixAlgebra.ElementWise | src/qalgebra/core/matrix_algebra.py:280-295 | `element_wise(f)` keeps the shape and applies f to every entry. |
| MatrixAlgebra.ElementWiseCompose | src/qalgebra/core/matrix_algebra.py:280-295 | Mapping by f and then by g is mapping by their composition. |
| MatrixAlgebra.Adjoint | src/qalgebra/core/matrix_algebra.py:256-262 | The adjoint has the swapped shape, and entry (r, c) is the adjoint of entry (c, r). |
| MatrixAlgebra.AdjointInvolution | src/qalgebra/core/matrix_algebra.py:256-262 | When the entry adjoint is an involution, so is the matrix adjoint. |
| MatrixAlgebra.TraceTranspose | src/qalgebra/core/matrix_algebra.py:264-267 | `trace` raises NonSquareMatrix exactly for non-square matrices, and a matrix and its transpose have the same trace. |
| MatrixAlgebra.DiagonalSumTranspose | src/qalgebra/core/matrix_algebra.py:264-267 | The diagonal sums of a matrix and its transpose agree. |
| MatrixAlgebra.TraceAdd | src/qalgebra/core/matrix_algebra.py:264-267 | When entry addition is associative and commutative and 0 + 0 = 0, the trace of a sum of square matrices is the sum of their traces. |
| MatrixAlgebra.DiagonalSumAdd | src/qalgebra/core/matrix_algebra.py:264-267 | Partial diagonal sums add up, under the medial law of entry addition. |
| MatrixAlgebra.PyIndex | src/qalgebra/core/matrix_algebra.py:274-278 | A Python slice bound is clamped to 0 .. n, and a bound already in range is kept. |
| MatrixAlgebra.Sub | src/qalgebra/core/matrix_algebra.py:274-278 | `m[r0:r1, c0:c1]` has shape (r1-r0, c1-c0), and its entries are those of m shifted by (r0, c0). |
| MatrixAlgebra.SubAllColumns | src/qalgebra/core/matrix_algebra.py:274-278 | Slicing all columns keeps the selected rows as they are. |
| MatrixAlgebra.SubOfSub | src/qalgebra/core/matrix_algebra.py:274-278 | A square slice of the lower-right square slice is a square slice of the whole. |
| MatrixAlgebra.FirstCut | src/qalgebra/core/matrix_algebra.py:62-66 | The first k at which both off-diagonal blocks are zero, or n when there is none. No smaller k has zero off-diagonal blocks. |
| MatrixAlgebra.Structure | src/qalgebra/core/matrix_algebra.py:57-67 | The block sizes sum to n, there is at least one, and they are positive for a nonempty matrix. |
| MatrixAlgebra.BlockStructureSound | src/qalgebra/core/matrix_algebra.py:50-67 | `block_structure` raises AttributeError exactly for non-square matrices. Otherwise it gives sizes that sum to n, and the matrix is block diagonal at the first cut. |
| MatrixAlgebra.SquareBlocksSound | src/qalgebra/core/matrix_algebra.py:69-84 | Whenever the square branch of `_get_blocks` succeeds, the sizes sum to n, the first cut has zero off-diagonal blocks, and block k is the diagonal block at offset bs[0] + ... + bs[k-1]. |
| MatrixAlgebra.StructureBlocks | src/qalgebra/core/matrix_algebra.py:50-84 | `_get_blocks(block_structure)` never fails on a square matrix, and it gives one block per size. |
| MatrixAlgebra.EmptyBlocks | src/qalgebra/core/matrix_algebra.py:69-84 | A 0 x 0 matrix splits into one empty block per size when all sizes are zero. |
| MatrixAlgebra.SingleEntryBlocks | src/qalgebra/core/matrix_algebra.py:69-84 | A 1 x 1 matrix splits into blocks of the given sizes, all zero but one 1. |
| MatrixAlgebra.ColumnBlocksSound | src/qalgebra/core/matrix_algebra.py:85-92 | Corrected column branch: for sizes that are non-negative and sum to the length, the column splits into one block per size, block k has bs[k] rows, and stacking the blocks gives the column back. |
| MatrixAlgebra.AsWrittenRepeatsHead | src/qalgebra/core/matrix_algebra.py:85-92 | The column branch as written returns the head block twice for `[[1],[2],[3],[4]]` with sizes (2, 2), so the blocks do not stack back to the column. The corrected branch does. |
| MatrixAlgebra.Tabulate | src/qalgebra/core/matrix_algebra.py:33-43 | The R x C matrix with entry f(r, c) at (r, c). |
| MatrixAlgebra.BroadcastDim | src/qalgebra/core/matrix_algebra.py:121-125 | numpy broadcasting of one axis: sizes combine when they are equal or one of them is 1, and never otherwise. |
| MatrixAlgebra.AddSound | src/qalgebra/core/matrix_algebra.py:121-125 | Matrix `+` fails exactly when an axis differs with neither size 1, and then with ValueError. For equal shapes it adds entry by entry. |
| MatrixAlgebra.AddCommutes | src/qalgebra/core/matrix_algebra.py:121-128 | When entry addition commutes, matrix addition commutes, broadcasting included. |
| MatrixAlgebra.AddEntry | src/qalgebra/core/matrix_algebra.py:121-125 | `m + x` for a scalar x adds x on the right of every entry. |
| MatrixAlgebra.EntryAdd | src/qalgebra/core/matrix_algebra.py:127-128 | `x + m` adds x on the left of every entry. |
| MatrixAlgebra.Scale | src/qalgebra/core/matrix_algebra.py:130-134 | `m * x` for a scalar x multiplies every entry by x on the right. |
| MatrixAlgebra.ScaleLeft | src/qalgebra/core/matrix_algebra.py:136-137 | `x * m` multiplies every entry by x on the left. |
| MatrixAlgebra.Negate | src/qalgebra/core/matrix_algebra.py:145-146 | `-m` keeps the shape, and each entry is (-1) times the entry of m. |
| MatrixAlgebra.NegateTwice | src/qalgebra/core/matrix_algebra.py:145-146 | Negating twice gives the matrix back, for entries where (-1)(-1)x = x. |
| MatrixAlgebra.SubtractSelf | src/qalgebra/core/matrix_algebra.py:139-140 | `m - m`, computed as `m + (-1) m`, is the zero matrix of m's shape whenever x + (-1) x = 0 for entries. |
| MatrixAlgebra.Dot | src/qalgebra/core/matrix_algebra.py:130-132 | Matrix `*` is the matrix product. It fails exactly when the inner dimensions differ. Otherwise it has shape (rows of a, columns of b), and entry (r, c) is the sum of a[r][k] b[k][c] over k. |
| MatrixAlgebra.DotIdentityRight | src/qalgebra/core/matrix_algebra.py:130-134 | `A * identity_matrix(cols)` is A, for entries where one is a unit and zero absorbs. |
| MatrixAlgebra.DotSumIdentityRight | src/qalgebra/core/matrix_algebra.py:130-134 | A dot sum against an identity column picks one entry of A. |
| MatrixAlgebra.DotIdentityLeft | src/qalgebra/core/matrix_algebra.py:130-134 | `identity_matrix(rows) * A` is A. |
| MatrixAlgebra.DotSumIdentityLeft | src/qalgebra/core/matrix_algebra.py:130-134 | A dot sum of an identity row picks one entry of A. |
| MatrixAlgebra.DiagArray | src/qalgebra/core/matrix_algebra.py:400-403 | `numpy.diag(v, k)` of a 1-d array is square of size \|v\| + \|k\|. |
| MatrixAlgebra.DiagonalOf | src/qalgebra/core/matrix_algebra.py:400-403 | `numpy.diag(m, k)` of a 2-d array has the length of the k-th diagonal. |
| MatrixAlgebra.DiagmSound | src/qalgebra/core/matrix_algebra.py:400-403 | `diagm` fails with ValueError exactly for arrays that are not 1-d or 2-d. A 1-d v gives v on the k-th diagonal and zero elsewhere. A 2-d array gives its k-th diagonal as a column. |
| MatrixAlgebra.DiagmRoundTrip | src/qalgebra/core/matrix_algebra.py:400-403 | Taking the k-th diagonal of the array built from v gives v back. |
| MatrixAlgebra.IdentitySound | src/qalgebra/core/matrix_algebra.py:425-435 | `identity_matrix(N)` fails exactly for N < 0. Otherwise it is N x N with one on the diagonal and zero elsewhere. |
| MatrixAlgebra.ZerosmSound | src/qalgebra/core/matrix_algebra.py:438-440 | `zerosm(shape)` fails for a negative size (ValueError), an empty shape (IndexError) or more than two sizes (ValueError). Otherwise it is the all-zero matrix of that shape, a single size giving a column. |
| MatrixAlgebra.AddZeros | src/qalgebra/core/matrix_algebra.py:438-440 | Adding the zero matrix of the same shape changes nothing, when zero adds away. |
| MatrixAlgebra.StackRowsWidth | src/qalgebra/core/matrix_algebra.py:392-397 | Stacking matrices of one width gives rows of that width. |
| MatrixAlgebra.JoinRowLength | src/qalgebra/core/matrix_algebra.py:387-389 | Joining row r of several matrices gives a row as long as their total width. |
| MatrixAlgebra.HStackPair | src/qalgebra/core/matrix_algebra.py:387-389 | `hstackm((A, B))` fails exactly when the row counts differ. Otherwise each row is A's row followed by B's. |
| MatrixAlgebra.VStackPair | src/qalgebra/core/matrix_algebra.py:392-397 | `vstackm((A, B))` fails exactly when the column counts differ. Otherwise it is A's rows followed by B's. |
| MatrixAlgebra.BlockMatrixSound | src/qalgebra/core/matrix_algebra.py:406-422 | `block_matrix(A, B, C, D)` fails with ValueError exactly when A/B or C/D differ in rows, or the two halves differ in width. For the documented shapes, each quadrant holds its matrix. |
| Containers.InsertPermutes | src/qalgebra/utils/containers.py:33 | Inserting x into a list adds exactly x to its multiset. |
| Containers.SortPermutes | src/qalgebra/utils/containers.py:33 | `sorted` returns a permutation of its input. |
| Containers.InsertSorted | src/qalgebra/utils/containers.py:33 | Inserting into a sorted list keeps it sorted, for a strict weak order. |
| Containers.SortSorted | src/qalgebra/utils/containers.py:33 | `sorted` returns a list without inversions, for a strict weak order. |
| Containers.InsertStable | src/qalgebra/utils/containers.py:33 | Inserting x puts it before every element equivalent to it, and keeps the order of the others. |
| Containers.SortStable | src/qalgebra/utils/containers.py:33 | `sorted` is stable: for every e, the elements equivalent to e come in the same order in the result as in the input. |
| Containers.SortedIfPossibleSound | src/qalgebra/utils/containers.py:17-35 | The result is always a permutation of the input. It is sorted when all elements are comparable. When they are not (the TypeError branch), it is the input in iteration order, for an input that can be read twice, such as a list. |
| Containers.SortedIfPossibleOnceSound | src/qalgebra/utils/containers.py:32-35 | Given a one-shot iterator, as `nested_tuple` gives it, the result is the sorted list when the elements can be ordered, and empty when they cannot, because `sorted` has already used up the iterator. It agrees with the list case exactly when the elements can be ordered or there are none. |
| Containers.NestedItems | src/qalgebra/utils/containers.py:64-69 | `map(nested_tuple, items)` transforms each item, in order. |
| Containers.NestedPairs | src/qalgebra/utils/containers.py:63-66 | `map(nested_tuple, d.items())` turns each key-value pair into the pair of transformed key and value, in order. |
| Containers.NestedTupleCases | src/qalgebra/utils/containers.py:63-76 | For the corrected definition (see Findings): an OrderedDict gives its pairs in order, and another mapping its pairs sorted if possible. A sequence gives its items in order, a set its items sorted if possible, and strings, bytes and other values are returned as they are. "If possible" means in iteration order otherwise. |
| Containers.NestedTupleIsNested | src/qalgebra/utils/containers.py:38-76 | The result is a tuple at every container level, with strings and non-containers at the leaves. |
| Containers.NestedTupleFixes | src/qalgebra/utils/containers.py:38-76 | A value that already is a nested tuple is returned unchanged. |
| Containers.NestedTupleIdempotent | src/qalgebra/utils/containers.py:38-76 | Applying `nested_tuple` twice is the same as applying it once. |
| Containers.LeavesOfPermutation | src/qalgebra/utils/containers.py:66 | Reordering elements does not change the multiset of leaves. |
| Containers.NestedTupleKeepsLeaves | src/qalgebra/utils/containers.py:38-76 | "Containing the same data", for the corrected definition: the result has exactly the leaves of the input, with the same multiplicities. |
| Containers.AsWrittenAgrees | src/qalgebra/utils/containers.py:63-76 | `nested_tuple` as written gives what the corrected definition gives whenever every mapping and collection inside can be ordered. |
| Containers.NestedTupleAsWrittenDrops | src/qalgebra/utils/containers.py:75 | As written, `nested_tuple({1, "a"})`, whose int and str cannot be compared, is the empty tuple and loses the data. The corrected definition gives both elements. |

## Left out

- Physics rules of `_rules.py` are not modelled: the harmonic-oscillator, spin and displacement rules (lines 261-469, 473-487, 1006-1062, 1105-1144). They depend on library classes outside this model.
- `OperatorTrace` R007 and R011 are not modelled. They call `decompose_space` and `factor_for_trace`, which split product spaces; the semantics has one local space.
- `OperatorTimesKet` R013 (`act_locally_times_tensor`), `BraKet` R005 and `KetBra` R004 (`tensor_decompose_kets`) are not modelled. They act on tensor products factor by factor.
- `TensorKet` R003-R005, `BraKet` R009-R011 and `KetBra` R009-R011 are not modelled. They only pass products of indexed sums on to `__mul__`.
- `KetBra` R002-R003 (coherent states) are not modelled.
- OperatorRules.CommutatorRulesSound: excludes R005. `[a^dagger, a] = -1` holds only in the infinite-dimensional oscillator space, and `CommR005NeedsInfiniteSpace` shows that it fails in a truncated one.
- StateRules.BraKetRulesSound: assumes every ket symbol is normalised, which the library takes for granted in R004.
- StateRules.OperatorTimesKetRulesSound: the factor split and `B * Psi` used by R012 and R014 are parameters (`Hooks`), assumed to keep the meaning of the product.
- The pattern matcher, the generic `create` and the simplification stages (`assoc`, `orderby`, `filter_neutral`, `match_replace_binary`) are not part of this model. A rule is a total function, and `DisjunctCommutativeHSOrder` and the generic product constructor are parameters.
- `SuperOperatorPlus.create` and `OperatorPlus.create` are taken as plain sum nodes; their own simplification is not applied.
- `ScalarTimesSuperOperator._adjoint`, which returns None, is not modelled.
- `SPre`/`SPost` `_expand`, `_simplify_scalar` and `_diff`, and the members of `SuperOperatorTimesOperator`, are not modelled. So are `SuperOperator.__mul__` dispatch and `SuperOperatorDerivative`.
- `is_scalar` in `lindblad` is modelled by the operand kind (`LindbladOperand`).
- Matrix `__eq__`, `__hash__` and its hash cache are not modelled (structural equality of `Mat` stands in).
- Matrix `__rsub__` and `__truediv__` are not modelled; division needs a reciprocal of entries.
- Matrix `conjugate`, `real`, `imag`, `series_expand`, `expand`, `substitute`, `free_symbols`, `space`, `simplify_scalar` and `_repr_latex_` are not modelled. They call sympy.
- Matrix `__getitem__` is modelled for slices only; integer indexing and fancy indexing are left out.
- Ragged arrays and numpy dtypes are not modelled; a matrix is rectangular over one entry type.
- MatrixAlgebra.IsZero: the `.is_zero` attribute and the `== 0` fallback are one parameter, `isZero`.
- MatrixAlgebra.Dot: an empty inner dimension gives the entry zero.
- Containers.SortedIfPossibleSound: Python's `sorted` raises TypeError as soon as it compares two incomparable elements. The model takes "all pairs comparable" as the condition for sorting. The fallback in iteration order holds for an input that can be read twice; `SortedIfPossibleOnce` is the one-shot case.
- ScalarRules.TimesR001: sympy's own simplification of `a * b` is not modelled. The result is the product of the two values, which has the same value.
- ScalarRules.PowerR001: sympy's own simplification of `a ** b` is not modelled; the result is the power itself. For Python numbers, `0 ** -1` raises ZeroDivisionError, and the exception is not modelled. The model keeps the power, whose value is the interpretation's `pow`.
- ScalarRules.TimesR005Sound: not stated for non-integer exponents. The value of a non-integer power is the interpretation's `pow`, of which nothing is assumed. `ScalarTimesRulesSound` inherits this.
- ScalarRules.PowerR004Sound: holds for integer exponents only. R004 fires for any exponents, and for a non-integer one it can change the value; `PowerR004NonIntegerExponent` gives an instance. `ScalarPowerRulesSound` inherits this.
- SuperOperatorAlgebra.CommutatorWith: the source picks the operator form with `if B:`, so a falsy B such as 0 gives the super-operator. The model takes B as an operator, and the caller's choice of `CommutatorWith` or `CommutatorSuper` decides the form. The same holds for `AntiCommutatorWith`.
- `sorted` keyword arguments (`key`, `reverse`) are not modelled.
- The hashability claim of `nested_tuple` is not modelled.

## Findings

| source | as written | input that shows it | evidently intended | confidence | as-written member | corrected member |
|---|---|---|---|---|---|---|
| src/qalgebra/core/matrix_algebra.py:86-92 | The column branch of `_get_blocks` recurses on `self[:block_structure[0], :]`, the head it just returned. | A column `[[1],[2],[3],[4]]` with block structure (2, 2) gives `([[1],[2]], [[1],[2]])`. | Recurse on `self[block_structure[0]:, :]`, giving `([[1],[2]], [[3],[4]])`. | high; not executed | MatrixAlgebra.AsWrittenRepeatsHead | MatrixAlgebra.ColumnBlocksSound |
| src/qalgebra/_rules.py:1146-1154 | R021 moves an operator under an indexed sum whether or not the operator mentions the sum's index symbol. | `A = \|i><0\|`, with i a free symbol of value 0, applied to the sum over i in [1] of `\|0>`: the components change at 0. | Apply R021 only when no index symbol of the sum is free in A. | medium; not executed | StateRules.OtkR021AsWrittenCaptures | StateRules.OtkR021Sound |
| src/qalgebra/utils/containers.py:63-76 | `nested_tuple` hands `sorted_if_possible` a one-shot `map` iterator (lines 66 and 75). `sorted` reads all of it before it raises TypeError, so the fallback `list(iterable)` at line 35 is empty. | `nested_tuple({1, "a"})` gives `()`, because an int and a str cannot be compared; so does `nested_tuple({1: "x", "a": "y"})`. | The elements in iteration order, as both docstrings say: a tuple holding 1 and "a". | high; not executed | Containers.NestedTupleAsWrittenDrops | Containers.NestedTupleKeepsLeaves |
