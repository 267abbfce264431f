# Verified models of the numerical programs of Boost.Multiprecision

The library ships benchmark and example programs whose algorithms are self-contained: a LINPACK
benchmark, a correctly rounded conversion to double, a PCG32 random generator, polynomial arithmetic,
Luke's expansions of hypergeometric functions, a Laguerre recurrence and several iterations for pi.
This project models them in Dafny 4.11 and proves what they compute. Arithmetic is exact: `real` for
`real_type` and `T`, machine words as integers with their wrap-around or with a proof that nothing
overflows, and powers of two times reals for the conversion.

`dafny verify dfyconfig.toml` checks everything.

What each group of modules is about:

- **LINPACK** (`Matrices`, `Elimination`, `Solving`, `Transposed`, `Growth`, `Storage`, `Blas`, `Dgefa`,
  `Dgesl`, `Dmxpy`, `Benchmark`). `dgefa_` interchanges only the columns that are still active, so the
  stored multipliers are not permuted and the invariant is U = M_(n-1) P_(n-1) ... M_1 P_1 A. The theory is
  about sequences of columns; the methods work in place on one column-major buffer with leading dimension
  `lda`, like the source, and are proved equal to it, padding included. Main results: the factorization
  for every matrix, singular ones too; `info` decides singularity; both jobs of `dgesl_` yield the one and
  only solution, and a zero pivot meets a zero numerator if the system has a solution at all; the growth
  bound of partial pivoting; and the residual of the benchmark is exactly 0.
- **Generators** (`Residues`, `Counting`, `Bits`, `Words`, `Ran`, `Matgen`, `Pcg32`). One valuation lemma
  gives both periods: 2^46 for `ran_` on its 12-bit limbs and 2^64 for PCG32, and with the bijection
  behind the output function exact equidistribution.
- **Conversion** (`Rounding`, `Binary64`, `Conversion`). `my_convert_to_double` rounds two or three times;
  it is proved equal to a single roundTiesToEven for every number of any precision, and the reference
  rounding is proved to select the nearest binary64 number in the sense of section 4.3.1 of IEEE 754-2008.
- **Polynomials** (`Polynomials`, `ConstPolynomials`, `Hermite`). The operators of `const_polynomial` on
  their arrays, what they mean as functions, and the Hermite polynomials built from them.
- **Chebyshev and Luke** (`Chebyshev`, `Luke`, `Hypergeometric`, `Gegenbauer`, `Expansion`, `LukeEquations`,
  `ThirdOrder`, `LukeResidual`). The loops that fill and sum the coefficients, independence of the arbitrary
  start value, and the reason why the recurrences are right: for each of 0F1, 1F0, 1F1, 1F2 and 2F1 the
  series satisfies the hypergeometric differential equation up to one explicit polynomial multiplied by the
  tiny ratio of start value and scale factor, and equals 1 at 0. For 1F0 this confirms the sign that
  example/hypergeometric_luke_algorithms.cpp:337-342 corrects in Luke's listing.
- **Laguerre** (`Laguerre`). The recurrence against the coefficients in closed form, with the derivative.
- **Pi** (`Powers`, `GaussLegendre`, `CubicBorwein`, `Chudnovsky`). The two variants of each iteration track
  each other, no division is by zero, and the Chudnovsky loop keeps its closed forms. For all three the
  pass count that the source derives from the number of digits is justified: further passes, however many,
  change nothing beyond the last digits. What the results are is proved in numbers: pi to 19, 31 and 26
  decimals from the second, fourth and first pass on.

`Reals` holds what several groups share. Many products are written `Mul(x, y)`, a named multiplication that
proofs hide when they only rearrange terms.

Where the code does not do what one would expect, the model follows the code:

- `operator-` of polynomials leaves the sign of the coefficients of its second operand above the order of the
  first (example/constexpr_float_arithmetic_examples.cpp:141-146); `SubtractMeaning` gives the exact condition.
- `operator/` of a polynomial by a number never reads the polynomial
  (example/constexpr_float_arithmetic_examples.cpp:183-191); `QuotientMeaning` gives the exact condition.
- A second `ccoef()` on one object keeps the old first coefficient at the back of the deque, because
  `resize(1, A1)` does not replace an element that is there
  (example/hypergeometric_luke_algorithms.cpp:275); `FilledIsRight` gives the exact condition,
  `SecondCallFails` inputs, and `SeriesOfFilled` what `series()` then returns.
- `dscal_` with a negative increment scales one or two elements too many and walks down from the first one
  (performance/linpack-benchmark.cpp:862-868); `StridesIsRight` gives the exact condition and
  `NegativeIncrementFails` an input.
- `orthogonal_polynomial_template` returns a variable without an initializer for n from 2^31 on
  (example/hypergeometric_luke_algorithms.cpp:134-148); `LargeDegreeFails` gives an input.
- The cube of the counter in `chudnovsky_for_pi` wraps from pass 2642246 on and is 0 in pass 4194304
  (example/pi_millions_with_boost_multiprecision.cpp:370); `StateIsClosedForm` and `CounterCubeVanishes` give
  the exact conditions, and `CodeSumRange` says how little the wrapping changes before that.
- The header comment of `chudnovsky_for_pi` names another function
  (example/pi_millions_with_boost_multiprecision.cpp:351).

Square and cube roots are parameters with their defining property, as are the number of passes, the
highest order N, the small start value and the machine epsilon.

## Model

| member | source | states |
|---|---|---|
| Elimination.LastZero | performance/linpack-benchmark.cpp:482-493 | info is 0 or the largest 1-based k with U(k,k) = 0: the entry there is 0 and every later diagonal entry is not. |
| Elimination.PassIsStage | performance/linpack-benchmark.cpp:434-480 | In every case, zero pivot included, a pass applies one interchange-and-eliminate stage to all columns from the pivot column on, with zeros where the multipliers are stored. |
| Elimination.StageClearsPivotColumn | performance/linpack-benchmark.cpp:447-462 | The multipliers make the stage clear the pivot column below the diagonal. |
| Elimination.ZeroStageIsIdentity | performance/linpack-benchmark.cpp:440-445 | The zero-pivot branch: the stage that an all-zero column encodes changes nothing. |
| Elimination.RunInvariant | performance/linpack-benchmark.cpp:430-487 | Loop invariant of dgefa_: after k passes the buffer encodes M_k P_k ... M_1 P_1 A, with zeros below the diagonal in finished columns. |
| Elimination.FactorizationHolds | performance/linpack-benchmark.cpp:359-495 | On exit the stored U is M_(n-1) P_(n-1) ... M_1 P_1 A with the multipliers left unpermuted, for every matrix. |
| Solving.BackSubSolves | performance/linpack-benchmark.cpp:602-613 | Back substitution by columns solves the upper triangular system. |
| Solving.TriangularUnique | performance/linpack-benchmark.cpp:602-613 | A triangular system without a zero on the diagonal has at most one solution. |
| Solving.TriangularEquivalent | performance/linpack-benchmark.cpp:577-599 | A x = b exactly when U x equals b after the interleaved replay of interchanges and eliminations. |
| Solving.SolutionIsUnique | performance/linpack-benchmark.cpp:497-614 | job = 0: the computed vector solves A x = b and every solution equals it. |
| Solving.BackToContinues | performance/linpack-benchmark.cpp:604-613 | Back substitution can be interrupted at any column and completed from there. |
| Solving.BackToBalance | performance/linpack-benchmark.cpp:604-613 | After the columns from s on, each row of the triangular system still equals its right-hand side, the columns done counted as unknowns. |
| Solving.SolvableStopsAtZeroOverZero | performance/linpack-benchmark.cpp:604-613 | job = 0 with info not 0: if A x = b has any solution, the division by the zero pivot in row info has the numerator 0. |
| Solving.InfoDecidesSingularity | performance/linpack-benchmark.cpp:482-493 | info = 0 exactly when A x = 0 has only the zero solution. |
| Transposed.ForwardAdjoint | performance/linpack-benchmark.cpp:629-652 | Collecting multiples and interchanging in reverse order is the adjoint of the forward replay. |
| Transposed.ForwardSubSolves | performance/linpack-benchmark.cpp:620-627 | The ddot_ loop solves the transposed triangular system. |
| Transposed.TransposedEquivalent | performance/linpack-benchmark.cpp:617-652 | One equation of the transposed system in terms of the stored factor. |
| Transposed.TransposedSolutionIsUnique | performance/linpack-benchmark.cpp:617-652 | job != 0: the computed vector solves the transposed system and every solution equals it. |
| Transposed.TransposedStopsAtZeroOverZero | performance/linpack-benchmark.cpp:620-627 | job != 0 with a zero on the diagonal: if the transposed system has any solution, the first division by zero has the numerator 0. |
| Growth.PassMultipliers | performance/linpack-benchmark.cpp:436-462 | Partial pivoting keeps every stored multiplier at modulus at most 1. |
| Growth.StageAtMostDoubles | performance/linpack-benchmark.cpp:464-480 | A stage at most doubles the largest entry from the pivot row on. |
| Growth.PivotingBoundsGrowth | performance/linpack-benchmark.cpp:434-480 | Row i of U (from 0) is at most 2^i times the largest modulus in A, so all of U at most 2^(n-1) times. |
| Storage.PaddingPositions | performance/linpack-benchmark.cpp:416-420 | Rows n+1..lda of every column and everything behind the last column are padding, which the methods below leave alone. |
| Blas.NegativeIncrement | performance/linpack-benchmark.cpp:692-701 | A negative increment visits the positions of the opposite increment in reverse order. |
| Blas.AxpyElement | performance/linpack-benchmark.cpp:702-709 | Strided daxpy_, increments of either sign: element i becomes y_i + da x_i. |
| Blas.AxpyByZero | performance/linpack-benchmark.cpp:680-683 | The early return for da = 0 is exact. |
| Blas.AxpyUnit | performance/linpack-benchmark.cpp:712-743 | Unit increments, position by position, with everything outside unchanged. |
| Blas.AxpySharedFresh | performance/linpack-benchmark.cpp:702-743 | Inside one array the result is that of separate arrays if no step reads an element an earlier step has written. |
| Blas.SameVectorReadsOriginals | performance/linpack-benchmark.cpp:702-743 | That holds for a vector added to itself. |
| Blas.OverlapAccumulates | performance/linpack-benchmark.cpp:712-743 | It fails for x one place before y: every step then adds da times the sum the step before it stored. |
| Blas.Daxpy | performance/linpack-benchmark.cpp:658-744 | For any two vectors, in one array or in two, overlapping or not: the early return, the strided loop and the loop unrolled by four equal the one-element-at-a-time form. |
| Blas.Ddot | performance/linpack-benchmark.cpp:746-832 | The loop unrolled by five equals the one-at-a-time sum, for any increments. |
| Blas.DotUnit | performance/linpack-benchmark.cpp:746-832 | With unit increments that sum is the inner product of two slices. |
| Blas.StridedDotIsDot | performance/linpack-benchmark.cpp:746-832 | For any increments ddot_ is the inner product of the vectors made of the elements visited. |
| Blas.Dscal | performance/linpack-benchmark.cpp:834-905 | For every n and every increment: the loop unrolled by five and the strided loop scale exactly Strides(n, incx) elements, that is n for a positive increment, none for 0, and n + 1 (n + 2 for -1) downwards from the first element for a negative one. |
| Blas.ScaledElement | performance/linpack-benchmark.cpp:862-868 | Every element of the walk is scaled exactly once, for increments of either sign. |
| Blas.StrideCount | performance/linpack-benchmark.cpp:862-865 | The test of the strided loop holds before exactly that many steps, whatever the sign of the increment. |
| Blas.StridesIsRight | performance/linpack-benchmark.cpp:862-868 | For n > 0, n elements are scaled exactly when the increment is positive. |
| Blas.NegativeIncrementFails | performance/linpack-benchmark.cpp:862-868 | With n = 1 and increment -1 three elements are scaled. |
| Blas.ScaledUnit | performance/linpack-benchmark.cpp:872-904 | Unit increment, position by position. |
| Blas.Idamax | performance/linpack-benchmark.cpp:907-975 | The first 1-based position of largest modulus, 0 for an empty vector. |
| Dgefa.FindPivot | performance/linpack-benchmark.cpp:434-438 | The idamax_ call finds the first entry of largest modulus at or below the diagonal. |
| Dgefa.PivotColumn | performance/linpack-benchmark.cpp:447-462 | In place: interchange in the pivot column and its multipliers, nothing else changed. |
| Dgefa.EliminateColumns | performance/linpack-benchmark.cpp:464-480 | In place: the columns behind the pivot column get the stage, earlier columns and padding are unchanged. |
| Dgefa.InfoStep | performance/linpack-benchmark.cpp:442-445 | A pass leaves a zero at its diagonal position exactly when its pivot is zero, which is when the code assigns info. |
| Dgefa.EliminationPass | performance/linpack-benchmark.cpp:430-487 | The in-place loop body performs one pass and reports the pivot row and whether the pivot was zero. |
| Dgefa.Dgefa | performance/linpack-benchmark.cpp:359-495 | The buffer ends as the factorization of its old contents; ipvt, info and the untouched padding are stated outright. |
| Dgesl.ForwardLoop | performance/linpack-benchmark.cpp:584-599 | The first loop replays all stages on b. |
| Dgesl.BackLoop | performance/linpack-benchmark.cpp:604-613 | The second loop is the back substitution down to the last row with a zero on the diagonal, which is row info; with info = 0 all of it. |
| Dgesl.ForwardSubLoop | performance/linpack-benchmark.cpp:620-627 | The third loop is the forward substitution of the transposed system up to the first row with a zero on the diagonal. |
| Dgesl.BackwardLoop | performance/linpack-benchmark.cpp:635-652 | The last loop is the adjoint replay. |
| Dgesl.Dgesl | performance/linpack-benchmark.cpp:497-656 | For either job and any stored factors: b becomes the solution they give, or what it is when the first division by a zero on the diagonal is due; that row is returned; nothing else changes. |
| Dmxpy.DoubleModulus | performance/linpack-benchmark.cpp:1093-1145 | The remainders by 2, 4, 8 and 16 split the columns before the main loop into disjoint groups. |
| Dmxpy.Dmxpy | performance/linpack-benchmark.cpp:1053-1158 | y := y + M x for every size: each column enters exactly once through the groups of 1, 2, 4, 8 and 16. |
| Dmxpy.RowProductIsMulVec | performance/linpack-benchmark.cpp:1061-1079 | What is added to row i is entry i of the matrix-vector product. |
| Benchmark.FactorAndSolve | performance/linpack-benchmark.cpp:219-225 | dgefa_ then dgesl_ on any buffer: info = 0 exactly for nonsingular A, and then b is the one solution for the given job; otherwise b is fully determined up to the division by zero, which for job = 0 is due in row info. |
| Benchmark.Residual | performance/linpack-benchmark.cpp:236-241 | The second matgen_ call, the sign change and dmxpy_ leave A x minus the row sums in b. |
| Benchmark.Run | performance/linpack-benchmark.cpp:211-256 | The whole program: with info = 0 the solution is exactly the vector of ones and the residual exactly 0; with any other info dgesl_ comes to 0/0 in row info. |
| Residues.GeoValuation | example/cpp_int_mul_timing.cpp:154-157 | For a = 1 mod 4 the sum 1 + a + ... + a^(n-1) has the same power of two as n; one lemma behind both periods. |
| Residues.MixedPeriod | example/cpp_int_mul_timing.cpp:154-166 | A mixed generator modulo 2^k with a = 1 mod 4 and odd increment returns to a state exactly after the multiples of 2^k. |
| Residues.MixedDistinct | example/cpp_int_mul_timing.cpp:154-166 | Its states are distinct throughout a period. |
| Residues.MultiplicativePeriod | performance/linpack-benchmark.cpp:1195-1199 | A multiplicative generator modulo 2^(k+2) with a = 5 mod 8 returns to an odd state exactly after the multiples of 2^k. |
| Residues.MultiplicativeDistinct | performance/linpack-benchmark.cpp:1195-1199 | Its states are distinct throughout a period. |
| Ran.MultiplierLimbs | performance/linpack-benchmark.cpp:1195-1199 | The four constants 494, 322, 2508, 2549 are the limbs of 33952834046453, which is 5 mod 8. |
| Ran.LimbProduct | performance/linpack-benchmark.cpp:1218-1229 | The carries make the limbs the product modulo 2^48. |
| Ran.NextLimbs | performance/linpack-benchmark.cpp:1219-1229 | In 32-bit integers without overflow: the new limbs are in 0..4095, the last one odd, and pack to seed times multiplier modulo 2^48. |
| Ran.Ran | performance/linpack-benchmark.cpp:1160-1245 | The seed stays valid and is multiplied modulo 2^48; the value returned is the packed seed over 2^48, strictly between 0 and 1. |
| Ran.PeriodIsTwoTo46 | performance/linpack-benchmark.cpp:1195-1199 | From any odd seed the generator returns to it exactly after the multiples of 2^46 draws. |
| Ran.DrawsDistinct | performance/linpack-benchmark.cpp:1195-1199 | Within 2^46 draws no state repeats. |
| Ran.OrbitIsClass | performance/linpack-benchmark.cpp:1195-1199 | Within 2^46 draws from an odd seed exactly the 48-bit numbers with the same remainder by 4 occur. |
| Matgen.FillMatrix | performance/linpack-benchmark.cpp:319-338 | The first double loop fills the matrix column by column with shifted draws and leaves the largest modulus in norma. |
| Matgen.RowSums | performance/linpack-benchmark.cpp:339-355 | The second double loop leaves A times the vector of ones in b. |
| Matgen.Matgen | performance/linpack-benchmark.cpp:302-357 | Matrix, row sums and norma of the test problem; every call gives the same problem. |
| Matgen.OrderTwo | performance/linpack-benchmark.cpp:319-338 | The four entries of the test matrix of order 2, as numbers: the first two draws are its first column. |
| Matgen.EntriesDistinct | performance/linpack-benchmark.cpp:326-338 | While n^2 <= 2^46 no two entries of the matrix are equal. |
| Matgen.EntryRange | performance/linpack-benchmark.cpp:331-331 | Every entry lies strictly between 0 and 1/2 in modulus. |
| Matgen.NormaRange | performance/linpack-benchmark.cpp:332-334 | So 0 < norma < 1/2, and the division by norma is safe. |
| Pcg32.MixinConstants | example/cpp_int_mul_timing.cpp:58-72 | The compile-time constants of the output function for a 64-bit state and 32-bit results. |
| Pcg32.OutputParts | example/cpp_int_mul_timing.cpp:54-85 | The output is the middle 32 bits of the xorshifted state rotated by its top five bits. |
| Pcg32.OutputBit | example/cpp_int_mul_timing.cpp:54-85 | The output bit by bit: with r the top five bits of the state, bit i is the exclusive or of the state's bits p and p + 18, where p is 27 plus i + r modulo 32. |
| Bits.XorShiftBit | example/cpp_int_mul_timing.cpp:80-80 | Bit i of x ^ (x >> k) differs from bit i of x exactly when bit i + k of x is set. |
| Bits.BitsDetermine | example/cpp_int_mul_timing.cpp:54-85 | A word is determined by its bits. |
| Pcg32.TopBitsSurvive | example/cpp_int_mul_timing.cpp:74-80 | The xorshift leaves the rotation count intact. |
| Bits.RotrParts | example/cpp_int_mul_timing.cpp:37-48 | rotr exchanges the high and the low part of a word, and the result stays inside the word. |
| Bits.OrBit | example/cpp_int_mul_timing.cpp:187-191 | Bit i of a or b is set exactly when bit i of one of them is. |
| Bits.RotrBit | example/cpp_int_mul_timing.cpp:37-48 | Bit i of the rotated word is bit i + r of the word, cyclically. |
| Pcg32.PreimageHits | example/cpp_int_mul_timing.cpp:54-85 | Every choice of output, top five bits and low 27 bits belongs to a state. |
| Pcg32.PreimageOfOutput | example/cpp_int_mul_timing.cpp:54-85 | ... and only to that state: the three parts determine the state, so the map is a bijection. |
| Pcg32.BumpIsStep | example/cpp_int_mul_timing.cpp:154-157 | bump is the mixed generator modulo 2^64 with the default multiplier and increment. |
| Pcg32.FullPeriod | example/cpp_int_mul_timing.cpp:92-93 | The generator returns to a state exactly after the multiples of 2^64 draws. |
| Pcg32.VisitsEveryState | example/cpp_int_mul_timing.cpp:159-166 | From any state every 64-bit state occurs within one period. |
| Pcg32.Equidistributed | example/cpp_int_mul_timing.cpp:132-138 | In one period from any state every 32-bit value is returned exactly 2^32 times. |
| Pcg32.RandomPcg32Fast.constructor | example/cpp_int_mul_timing.cpp:100-103 | A fresh generator is in the state that its seed leads to. |
| Pcg32.RandomPcg32Fast.Seed | example/cpp_int_mul_timing.cpp:125-130 | Seeding makes the state a function of the seed alone. |
| Pcg32.SeedingIsTwoSteps | example/cpp_int_mul_timing.cpp:125-130 | Seeding with t times the multiplier leads to the state two steps after t. |
| Pcg32.SeedOfMultiple | example/cpp_int_mul_timing.cpp:125-130 | Every seed is such a product. |
| Pcg32.DefaultSeedStates | example/cpp_int_mul_timing.cpp:94-103 | The default seed leads to the state 0x4D595DF4D0F33173, and the state after it is 0x132190A1439E3F86. |
| Pcg32.BumpInjective | example/cpp_int_mul_timing.cpp:154-157 | bump takes different states to different states. |
| Pcg32.SeedsDistinct | example/cpp_int_mul_timing.cpp:125-130 | Different 64-bit seeds lead to different states. |
| Pcg32.EveryStateIsSeeded | example/cpp_int_mul_timing.cpp:125-130 | Every state is the state of exactly one seed. |
| Pcg32.RandomPcg32Fast.BaseGenerate0 | example/cpp_int_mul_timing.cpp:159-166 | Returns the old state and advances by one. |
| Pcg32.RandomPcg32Fast.Next | example/cpp_int_mul_timing.cpp:132-138 | Returns the output of the old state, below 2^32, and advances by one. |
| Pcg32.AppendWord | example/cpp_int_mul_timing.cpp:187-191 | Shifting left inside a word of any width at least 32 and or-ing a 32-bit value in appends that value. |
| Pcg32.GetRandomBigUint | example/cpp_int_mul_timing.cpp:170-193 | The number is the concatenation of exactly ceil(digits/32) consecutive outputs, cut to the width of the type. |
| Pcg32.ConcatenatedChunk | example/cpp_int_mul_timing.cpp:185-192 | Each output can be read back from the concatenation: no draw is lost. |
| Rounding.ExponentBracket | performance/cpp_bin_float_conversion_performance.cpp:62-62 | The exponent e of a positive number satisfies 2^e <= v < 2^(e+1). |
| Rounding.RoundEvenUnique | performance/cpp_bin_float_conversion_performance.cpp:73-73 | Nearest integer with ties to even is determined by its defining property. |
| Rounding.RoundOddUnique | performance/cpp_bin_float_conversion_performance.cpp:64-70 | Truncation with a sticky low bit is the unique rounding to odd. |
| Rounding.OddThenEven | performance/cpp_bin_float_conversion_performance.cpp:64-73 | Rounding to odd with three spare bits and then to nearest even equals rounding to nearest even at once. |
| Rounding.SpareBitsSuffice | performance/cpp_bin_float_conversion_performance.cpp:63-73 | The same for any number of spare bits from two on. |
| Rounding.OneSpareBitFails | performance/cpp_bin_float_conversion_performance.cpp:63-73 | With one spare bit it is false: 3/4 would be rounded down. |
| Rounding.OddThenOdd | performance/cpp_bin_float_conversion_performance.cpp:79-89 | Rounding to odd composes with itself over any number of discarded bits. |
| Binary64.Round64IsNearestEven | performance/cpp_bin_float_conversion_performance.cpp:53-108 | The reference rounding yields the nearest binary64 number, ties to the even significand (section 4.3.1 of IEEE 754-2008), whenever it is finite. |
| Binary64.OverflowThreshold | performance/cpp_bin_float_conversion_performance.cpp:93-97 | It overflows exactly from 2^1024 - 2^970 on. |
| Binary64.RoundExact | performance/cpp_bin_float_conversion_performance.cpp:73-73 | Numbers of at most 53 bits, the carry to 2^53 included, are not changed. |
| Conversion.Truncate | performance/cpp_bin_float_conversion_performance.cpp:64-70 | trunc, 64-bit conversion and sticky bit, without overflow, are rounding to odd. |
| Conversion.NormalBranch | performance/cpp_bin_float_conversion_performance.cpp:71-74 | Exponents from -1022 up, overflow by rounding included: two roundings equal one. |
| Conversion.WideSumIsExact | performance/cpp_bin_float_conversion_performance.cpp:78-80 | Adding DBL_MIN in the 128-bit type is exact. |
| Conversion.SubnormalBranch | performance/cpp_bin_float_conversion_performance.cpp:75-91 | Subnormal results and the carry into the smallest normal: three roundings and the detour over DBL_MIN equal one rounding. |
| Conversion.UnderflowBranch | performance/cpp_bin_float_conversion_performance.cpp:58-58 | Below 2^-1075 the single rounding is 0, which is what the skipped branch leaves. |
| Conversion.OverflowBranch | performance/cpp_bin_float_conversion_performance.cpp:93-97 | From 2^1024 on the single rounding is infinite. |
| Conversion.MyConvertToDouble | performance/cpp_bin_float_conversion_performance.cpp:53-108 | For every number the result is one rounding with the sign kept: a NaN and nothing else gives the quiet NaN, infinities stay infinite, zero stays zero, and a regular number overflows exactly from 2^1024 - 2^970 on and otherwise goes to the nearest double, ties to even. |
| Conversion.CorrectlyRounded | performance/cpp_bin_float_conversion_performance.cpp:53-108 | What the single rounding means for every number, special values included. |
| ConstPolynomials.ConstPolynomial.FromList | example/constexpr_float_arithmetic_examples.cpp:41-47 | Too long a list is the range error; otherwise the list followed by zeros. |
| ConstPolynomials.ConstPolynomial.Evaluate | example/constexpr_float_arithmetic_examples.cpp:56-66 | Horner's loop returns the value of the polynomial. |
| ConstPolynomials.ConstPolynomial.Derivative | example/constexpr_float_arithmetic_examples.cpp:67-75 | A fresh polynomial with the coefficients of the derivative. |
| ConstPolynomials.ConstPolynomial.Negated | example/constexpr_float_arithmetic_examples.cpp:76-82 | Minus one times the polynomial. |
| ConstPolynomials.ConstPolynomial.MultiplyBy | example/constexpr_float_arithmetic_examples.cpp:83-89 | In place multiplication by a number. |
| ConstPolynomials.ConstPolynomial.DivideBy | example/constexpr_float_arithmetic_examples.cpp:90-96 | In place division by a nonzero number. |
| ConstPolynomials.ConstPolynomial.Increase | example/constexpr_float_arithmetic_examples.cpp:97-102 | In place addition of a constant. |
| ConstPolynomials.ConstPolynomial.Decrease | example/constexpr_float_arithmetic_examples.cpp:103-108 | In place subtraction of a constant. |
| ConstPolynomials.Plus | example/constexpr_float_arithmetic_examples.cpp:111-129 | Both branches fill the coefficientwise sum. |
| ConstPolynomials.Minus | example/constexpr_float_arithmetic_examples.cpp:130-148 | Both branches fill what SubtractMeaning judges, sign error of the second one included. |
| ConstPolynomials.Times | example/constexpr_float_arithmetic_examples.cpp:149-161 | The double loop fills the convolution of the coefficients. |
| ConstPolynomials.TimesScalar | example/constexpr_float_arithmetic_examples.cpp:162-181 | Multiplication by a number on either side. |
| ConstPolynomials.Over | example/constexpr_float_arithmetic_examples.cpp:182-191 | Division by a number divides zeros: the operand is not read. |
| Polynomials.AddMeaning | example/constexpr_float_arithmetic_examples.cpp:111-129 | (a+b)(x) = a(x) + b(x). |
| Polynomials.ScaleMeaning | example/constexpr_float_arithmetic_examples.cpp:162-181 | (c a)(x) = c a(x). |
| Polynomials.ProductMeaning | example/constexpr_float_arithmetic_examples.cpp:149-161 | (a b)(x) = a(x) b(x). |
| Polynomials.ProductRule | example/constexpr_float_arithmetic_examples.cpp:67-75 | (a b)' = a' b + a b', coefficient by coefficient. |
| Polynomials.SubtractMeaning | example/constexpr_float_arithmetic_examples.cpp:131-148 | operator- means a(x) - b(x) for every x exactly when b has no nonzero coefficient above the order of a. |
| Polynomials.QuotientMeaning | example/constexpr_float_arithmetic_examples.cpp:183-191 | operator/ means a(x)/c for every x exactly when a is zero. |
| Polynomials.SubtractionFails | example/constexpr_float_arithmetic_examples.cpp:141-146 | The polynomials 0 and x show that operator- can be wrong: the difference comes out as x. |
| Polynomials.DivisionFails | example/constexpr_float_arithmetic_examples.cpp:183-191 | The polynomial 1 over 2 shows that operator/ can be wrong: it comes out as 0. |
| Polynomials.VanishingIsZero | example/constexpr_float_arithmetic_examples.cpp:56-66 | A polynomial whose value is 0 everywhere has only zero coefficients. |
| Hermite.HermitePolynomial.constructor | example/constexpr_float_arithmetic_examples.cpp:199-202 | The recursive construction from the operators yields H_n. |
| Hermite.DefiningRecurrence | example/constexpr_float_arithmetic_examples.cpp:200-200 | H_n(x) = 2x H_(n-1)(x) - H_(n-1)'(x): operator- is used on its correct side. |
| Hermite.DerivativeIdentity | example/constexpr_float_arithmetic_examples.cpp:194-262 | H_n' = 2n H_(n-1), as coefficient sequences. |
| Hermite.ThreeTermRecurrence | example/constexpr_float_arithmetic_examples.cpp:194-262 | H_n = 2x H_(n-1) - 2(n-1) H_(n-2). |
| Hermite.DifferentialEquation | example/constexpr_float_arithmetic_examples.cpp:194-262 | H_n'' - 2x H_n' + 2n H_n = 0. |
| Hermite.LeadingCoefficient | example/constexpr_float_arithmetic_examples.cpp:296-317 | The leading coefficient is 2^n. |
| Hermite.WrongParity | example/constexpr_float_arithmetic_examples.cpp:296-317 | Coefficients of the other parity are 0. |
| Hermite.ClosedForm | example/constexpr_float_arithmetic_examples.cpp:296-319 | The coefficient of x^(n-2m) is (-1)^m n! 2^(n-2m) / (m! (n-2m)!). |
| Chebyshev.OrthogonalPolynomialTemplate | example/hypergeometric_luke_algorithms.cpp:101-149 | For every 32-bit n: up to 2^31 - 1 the function computes T_n(x) and fills a given vector with exactly T_0..T_n, with an overflow of the counter exactly for n = 2^31 - 1; from 2^31 on the signed cast skips the loop, so the variable without an initializer is returned and the vector holds 1, x. |
| Chebyshev.LargeDegreeFails | example/hypergeometric_luke_algorithms.cpp:134-148 | n = 2^31 and x = 1 show that this can be wrong: whatever was in the variable is returned instead of 1. |
| Chebyshev.ChebyshevT | example/hypergeometric_luke_algorithms.cpp:152-173 | For every 32-bit n and every x: T(n, x), by T(-n) = T(n), unless a signed overflow occurs, which is exactly for n = -2^31 and n of modulus 2^31 - 1. |
| Chebyshev.Reflection | example/hypergeometric_luke_algorithms.cpp:154-161 | T_n(-x) = (-1)^n T_n(x). |
| Chebyshev.ProductToSum | example/hypergeometric_luke_algorithms.cpp:136-146 | 2 T_m T_n = T_(n+m) + T_(n-m). |
| Chebyshev.Composition | example/hypergeometric_luke_algorithms.cpp:136-146 | T_m(T_n(x)) = T_(mn)(x). |
| Chebyshev.ConservedForm | example/hypergeometric_luke_algorithms.cpp:136-146 | The recurrence conserves T_n^2 + T_(n+1)^2 - 2x T_n T_(n+1) = 1 - x^2. |
| Chebyshev.Bounded | example/hypergeometric_luke_algorithms.cpp:136-146 | The modulus of T_n(x) is at most 1 wherever that of x is. |
| Chebyshev.AtMinusOne | example/hypergeometric_luke_algorithms.cpp:197-237 | T_n(-1) = (-1)^n. |
| Luke.TermLinear | example/hypergeometric_luke_algorithms.cpp:262-575 | Each of the five recurrences is linear in the saved coefficients. |
| Luke.CoefficientsLinear | example/hypergeometric_luke_algorithms.cpp:262-575 | Scaling the start value scales every coefficient. |
| Luke.SeriesIndependentOfStart | example/hypergeometric_luke_algorithms.cpp:197-237 | Any two nonzero start values give the same series, and the scale factor is 0 for both or for neither. |
| Luke.SumAtMinusOne | example/hypergeometric_luke_algorithms.cpp:219-227 | The scale factor is the Chebyshev sum at -1. |
| Luke.SeriesAtZero | example/hypergeometric_luke_algorithms.cpp:197-237 | At Z = 0 the series is exactly 1, whatever the coefficients. |
| Hypergeometric.HypergeometricPfq.Resize | example/hypergeometric_luke_algorithms.cpp:275-275 | resize(1, A1) starts an empty deque with A1 and otherwise keeps the old first element. |
| Hypergeometric.HypergeometricPfq.Ccoef4 | example/hypergeometric_luke_algorithms.cpp:262-303 | The 0F1 loop leaves the coefficients of the backward recurrence in C, the last one replaced if C was not empty. |
| Hypergeometric.HypergeometricPfq.Ccoef1 | example/hypergeometric_luke_algorithms.cpp:319-361 | The same for 1F0. |
| Hypergeometric.HypergeometricPfq.Ccoef3 | example/hypergeometric_luke_algorithms.cpp:381-429 | The same for 1F1. |
| Hypergeometric.HypergeometricPfq.Ccoef6 | example/hypergeometric_luke_algorithms.cpp:450-501 | The same for 1F2. |
| Hypergeometric.HypergeometricPfq.Ccoef2 | example/hypergeometric_luke_algorithms.cpp:523-575 | The same for 2F1. |
| Hypergeometric.HypergeometricPfq.Ccoef | example/hypergeometric_luke_algorithms.cpp:195-195 | The virtual function, for all five classes. |
| Hypergeometric.FilledIsRight | example/hypergeometric_luke_algorithms.cpp:275-275 | ccoef() leaves the coefficients of the recurrence exactly when the deque was empty or its first element was the start value. |
| Hypergeometric.FrontGrows | example/hypergeometric_luke_algorithms.cpp:346-358 | The 1F0 coefficients for 0 < a <= 1 and negative W alternate in sign, do not fall in modulus and exceed twice the start value. |
| Hypergeometric.SecondCallFails | example/hypergeometric_luke_algorithms.cpp:275-361 | A second call is wrong for 1F0 with 0 < a <= 1, for every N, every negative W (the source uses -20) and every positive start value. |
| Hypergeometric.SeriesOfFilled | example/hypergeometric_luke_algorithms.cpp:197-275 | What series() returns after a call of ccoef() on a deque that is not empty: with d the first element less the start value, both sums change by d times the last polynomial; the value is right exactly when d = 0 or T_(n+1) at the argument is the right value times T_(n+1)(-1). |
| Hypergeometric.HypergeometricPfq.ComputeSeries | example/hypergeometric_luke_algorithms.cpp:197-237 | series() returns the Chebyshev sum over the alternating sum. |
| Hypergeometric.LukeSeries | example/hypergeometric_luke_algorithms.cpp:593-635 | A fresh object, ccoef and series: the value does not depend on the start value and is 1 at z = 0. |
| Gegenbauer.FirstBySecond | example/hypergeometric_luke_algorithms.cpp:136-146 | 2 T_n = U_n - U_(n-2). |
| Gegenbauer.Taylor | example/hypergeometric_luke_algorithms.cpp:136-146 | The derivative recurrences used below are the derivatives: T_n(x+h) expands with them up to h^4 times a polynomial. |
| Gegenbauer.BInBasis | example/hypergeometric_luke_algorithms.cpp:136-146 | The third derivative of T_n in the basis of the 1F2 recurrence. |
| Expansion.WholeSum | example/hypergeometric_luke_algorithms.cpp:262-575 | If an operator has the weights of a recurrence that the coefficients annihilate, it maps the whole sum to one multiple of one basis polynomial. |
| LukeEquations.Solves01 | example/hypergeometric_luke_algorithms.cpp:283-300 | The rearranged 0F1 term satisfies the recurrence with the weights of its differential equation. |
| LukeEquations.Solves10 | example/hypergeometric_luke_algorithms.cpp:346-358 | The same for 1F0, with AFAC = 2 - 4/W as the source corrected it. |
| LukeEquations.Solves11 | example/hypergeometric_luke_algorithms.cpp:404-426 | The same for 1F1. |
| LukeEquations.Solves21 | example/hypergeometric_luke_algorithms.cpp:547-572 | The same for 2F1. |
| ThirdOrder.Solves12 | example/hypergeometric_luke_algorithms.cpp:470-498 | The same for 1F2. |
| LukeEquations.Expands10 | example/hypergeometric_luke_algorithms.cpp:346-358 | The weights expand the 1F0 operator on every T_k. |
| LukeEquations.Expands2 | example/hypergeometric_luke_algorithms.cpp:283-300 | The weights expand the operators of second order (0F1, 1F1, 2F1) on every T_k. |
| ThirdOrder.Expands12 | example/hypergeometric_luke_algorithms.cpp:470-498 | The weights expand the 1F2 operator of third order on every T_k. |
| LukeResidual.OperatorOnSeries | example/hypergeometric_luke_algorithms.cpp:262-575 | The differential operator maps the computed sum to one explicit multiple of the next basis polynomial. |
| LukeResidual.SeriesSolvesEquation | example/hypergeometric_luke_algorithms.cpp:197-237 | For all five functions: the returned series is 1 at 0 and satisfies the hypergeometric differential equation up to one explicit polynomial times the ratio of start value and scale factor. |
| Laguerre.Upward | example/gauss_laguerre_quadrature.cpp:127-131 | (n-i) c(n,i) = (n+alpha) c(n-1,i) for the coefficients in closed form. |
| Laguerre.Recurrence | example/gauss_laguerre_quadrature.cpp:127-131 | (n+1) L_(n+1) = (2n+1+alpha-x) L_n - (n+alpha) L_(n-1). |
| Laguerre.DerivativeRelation | example/gauss_laguerre_quadrature.cpp:134-135 | x L_n' = n L_n - (n+alpha) L_(n-1), with the formal derivative. |
| Laguerre.DifferentialEquation | example/gauss_laguerre_quadrature.cpp:98-139 | x L_n'' + (alpha+1-x) L_n' + n L_n = 0. |
| Laguerre.LaguerreObject.constructor | example/gauss_laguerre_quadrature.cpp:79-83 | A new object has its order, its parameter and zero members. |
| Laguerre.LaguerreObject.Evaluate | example/gauss_laguerre_quadrature.cpp:98-139 | Returns L_n(x), leaves L_(n-1)(x) in p1 and, for x != 0, the derivative at x in d2. |
| GaussLegendre.InvariantAfter | example/pi_millions_with_boost_multiprecision.cpp:389-396 | In every pass 0.7 <= b <= a <= 1 and t >= 1/8 plus what later passes can take off, so the division by t is safe. |
| GaussLegendre.GapSquares | example/pi_millions_with_boost_multiprecision.cpp:391-394 | (a'-b') 4(a'+b') = (a-b)^2. |
| GaussLegendre.GapBound | example/pi_millions_with_boost_multiprecision.cpp:389-396 | After n passes a - b is at most 5 * 15^(-2^n). |
| GaussLegendre.NestedMeans | example/pi_millions_with_boost_multiprecision.cpp:391-394 | Every pass puts both means between the old ones. |
| GaussLegendre.PassRaises | example/pi_millions_with_boost_multiprecision.cpp:389-398 | A pass raises the result, by at most 16 p (a-b)^2. |
| GaussLegendre.PassTracks | example/pi_millions_with_boost_multiprecision.cpp:111-124 | A pass of the Schoenhage variant keeps a = a_n, bB = b_n^2, s = 2 t_n and t = (a_n^2 + b_n^2)/4. |
| GaussLegendre.Compute | example/pi_millions_with_boost_multiprecision.cpp:102-128 | The loop and the final division of the Schoenhage variant give (a^2 + b^2)/(2t), which from four passes on is pi to 31 decimals. |
| GaussLegendre.GaussLegendreForPi | example/pi_millions_with_boost_multiprecision.cpp:381-399 | The other loop gives (a+b)^2/(4t) of the same state, with t > 0, which from four passes on is pi to 31 decimals. |
| GaussLegendre.UnleashedCache.GaussLegendrePiUnleashed | example/pi_millions_with_boost_multiprecision.cpp:87-132 | The static result is computed once and returned from then on. |
| GaussLegendre.ResultsDiffer | example/pi_millions_with_boost_multiprecision.cpp:127-128 | The two results differ by exactly (a-b)^2/(4t), at most 50 * 15^(-2^(n+1)). |
| GaussLegendre.LaterPasses | example/pi_millions_with_boost_multiprecision.cpp:389-398 | All passes after the n-th together raise the result by at most 800 * 2^n * 15^(-2^(n+1)). |
| GaussLegendre.PassesSuffice | example/pi_millions_with_boost_multiprecision.cpp:383-398 | With the pass count 1 + floor(log2(d/2)) for d digits (taken exactly), no number of further passes changes the result by more than 54 * 10^-d, and the two variants agree within 4 * 10^-d. |
| GaussLegendre.ResultsInDigits | example/pi_millions_with_boost_multiprecision.cpp:381-399 | From the fourth pass on the results of both variants lie between 3.14159265358979323846264338327950 and ...951. |
| CubicBorwein.StepInvariant | example/pi_millions_with_boost_multiprecision.cpp:236-243 | Every pass keeps 0 < s <= 2/5 and a above 1/4; the divisor 1 + 2 cbrt(1 - s^3) is positive. |
| CubicBorwein.CubicConvergence | example/pi_millions_with_boost_multiprecision.cpp:238-239 | Every pass takes s to at most an eighth of its cube. |
| CubicBorwein.SBound | example/pi_millions_with_boost_multiprecision.cpp:238-239 | After n passes s is at most 7^(-3^n) / 0.36. |
| CubicBorwein.AFalls | example/pi_millions_with_boost_multiprecision.cpp:240-241 | a falls from pass to pass, by at most 4.04 * 3^n * s'. |
| CubicBorwein.LaterPasses | example/pi_millions_with_boost_multiprecision.cpp:236-244 | All passes after the n-th together raise the result by at most 360 * 3^n * 7^(-3^(n+1)). |
| CubicBorwein.PassesSuffice | example/pi_millions_with_boost_multiprecision.cpp:230-244 | With the pass count 1 + floor(log3(d/2)) for d digits (taken exactly), no number of further passes changes the result by more than 36 * 10^-d. |
| CubicBorwein.ResultInDigits | example/pi_millions_with_boost_multiprecision.cpp:227-245 | From one pass on the result lies between 3.14159 and 3.14163, and from two passes on within 10^-19 of 3.14159265358979323846. |
| CubicBorwein.FirstResults | example/pi_millions_with_boost_multiprecision.cpp:236-244 | The first two results in digits. |
| CubicBorwein.CubicBorweinForPi | example/pi_millions_with_boost_multiprecision.cpp:227-245 | Returns 1/a_n with a_n >= 1/4; that is pi to 4 decimals from one pass on and within 10^-19 from two on. |
| CubicBorwein.Unleashed | example/pi_millions_with_boost_multiprecision.cpp:157-179 | The other loop computes the same a_n and the same result, with the same digits. |
| CubicBorwein.UnleashedCache.CubicBorweinPiUnleashed | example/pi_millions_with_boost_multiprecision.cpp:141-183 | The static result is computed once and returned from then on. |
| Chudnovsky.BinomialFactorials | example/pi_millions_with_boost_multiprecision.cpp:370-370 | C(n,k) k! (n-k)! = n!. |
| Chudnovsky.MFactorials | example/pi_millions_with_boost_multiprecision.cpp:370-370 | m is the integer with m (3q)! (q!)^3 = (6q)!. |
| Chudnovsky.MNext | example/pi_millions_with_boost_multiprecision.cpp:369-370 | m_(q+1) (q+1)^3 = (k^3 - 16k) m_q with k = 12q + 6. |
| Chudnovsky.StateIsClosedForm | example/pi_millions_with_boost_multiprecision.cpp:365-375 | After q passes the variables are k = 12q + 6, the closed form of m, l = 13591409 + 545140134q, x = (-262537412640768000)^q and the partial sum of m l/x, exactly for q up to 2642245. |
| Chudnovsky.CodeIsExact | example/pi_millions_with_boost_multiprecision.cpp:365-375 | Up to then m and s of the code are the closed form and the partial sum. |
| Chudnovsky.CodeMExceeds | example/pi_millions_with_boost_multiprecision.cpp:370-370 | From pass 2642246 on the wrapped cube leaves m too large. |
| Chudnovsky.NumeratorGrowth | example/pi_millions_with_boost_multiprecision.cpp:369-371 | m l grows by a factor of at most 1728 per pass from the second term on. |
| Chudnovsky.TermsShrink | example/pi_millions_with_boost_multiprecision.cpp:373-373 | From the second term on each term is at most 10^-14 of the one before in modulus. |
| Chudnovsky.SecondTerm | example/pi_millions_with_boost_multiprecision.cpp:373-373 | The second term is at most 10^-13 of the first. |
| Chudnovsky.TermBound | example/pi_millions_with_boost_multiprecision.cpp:373-373 | Term q is at most 10 * 13591409 * 10^(-14q) in modulus. |
| Chudnovsky.TermsAlternate | example/pi_millions_with_boost_multiprecision.cpp:372-373 | The signs of the terms alternate. |
| Chudnovsky.TailBound | example/pi_millions_with_boost_multiprecision.cpp:367-375 | However many passes follow the n-th, the sum changes by something between 0 and the next term. |
| Chudnovsky.PassesSuffice | example/pi_millions_with_boost_multiprecision.cpp:363-377 | With the pass count 1 + d/14 for d digits, no number of further passes changes the result by more than 10^(-13-d) of itself. |
| Chudnovsky.CounterCubeIsCube | example/pi_millions_with_boost_multiprecision.cpp:370-370 | cube(i + 1) in 64 bits is the cube exactly in the first 2642245 passes. |
| Chudnovsky.CounterCubeVanishes | example/pi_millions_with_boost_multiprecision.cpp:370-370 | The first pass that divides by 0 is the one with i + 1 = 2^22. |
| Chudnovsky.CodeTermBound | example/pi_millions_with_boost_multiprecision.cpp:370-373 | The terms of the code fall by 14 digits a pass and at worst rise by 8 digits a pass once the cube has wrapped. |
| Chudnovsky.CodeSumRange | example/pi_millions_with_boost_multiprecision.cpp:373-377 | For all fewer than 2^22 passes the sum of the code lies between 0.8 and 1.1 times the first term, so the final division is safe, and the passes with a wrapped cube change it by less than 10^-24574958 of the first term. |
| Chudnovsky.SumPositive | example/pi_millions_with_boost_multiprecision.cpp:377-377 | Every partial sum lies between 0.9 times the first term and the first term, so the final division is safe. |
| Chudnovsky.ResultInDigits | example/pi_millions_with_boost_multiprecision.cpp:361-378 | With the square root of 10005 every result of the series from the first pass on lies between 3.14159265358979323846264338 and ...339. |
| Chudnovsky.ChudnovskyForPi | example/pi_millions_with_boost_multiprecision.cpp:361-378 | For any number of passes: a division by zero exactly from 2^22 passes on, otherwise 426880 sqrt(10005) over the sum of the code, which up to 2642245 passes is the partial sum of the series; from one pass on the result is pi to 26 decimals. |

## Left out

- Benchmark.Run: ends at the division by zero when info is not 0, which is 0/0 and in floating point gives a NaN that spreads through x and the residual.
- Benchmark.FactorAndSolve: ends at the division by zero likewise; what infinities and NaNs then do to the other entries of b is not modelled.
- Dgesl.Dgesl: the test for a zero divisor, and the row it returns, stand for the division by zero and are not in the source.
- Chebyshev.OrthogonalPolynomialTemplate: the overflow flag stands for a signed overflow, which the language leaves undefined; the model ends there, and so in ChebyshevT.
- Hypergeometric.HypergeometricPfq.ComputeSeries: requires a scale factor other than 0, which the source does not check.
- Hypergeometric.HypergeometricPfq.Ccoef: requires divisors other than 0, as Luke's formulas do; N is unbounded, the source's few thousand fit its 32-bit counters; the five derived classes are one class with a Kind.
- LukeResidual.SeriesSolvesEquation: says nothing about the distance to the hypergeometric function itself, which needs analysis.
- Laguerre.LaguerreObject.Evaluate: the order is at least 0, and at x = 0 the derivative is left arbitrary where the source divides by zero.
- GaussLegendre.Compute: does not model more than 63 passes, where the source's 64-bit shift is exceeded.
- Chudnovsky.ChudnovskyForPi: ends with the flag zeroDivisor at the division by zero, which is not in the source.
- Ran.Ran: the function-local static variables of the LINPACK routines are locals; nothing reads them across calls.
- Pcg32.RandomPcg32Fast.Seed: the member my_inc is always the default increment; the branch for is_mcg is never taken.
- Pcg32.GetRandomBigUint: the multiprecision integer is a number with a width, not its limbs.
- GaussLegendre.PassesSuffice: the source computes the logarithm in single precision; the count here is the exact one, and so in CubicBorwein and Chudnovsky.
- Rounding errors of the solver, the series and the iterations: arithmetic is exact except in the conversion.
- That the limit of the iterations is pi beyond the digits proved, and convergence of the series to the hypergeometric functions: needs analysis.
- mm_, which passes its dimensions in swapped roles (performance/linpack-benchmark.cpp:1046) and adds nothing to dmxpy_.
- epslon_, timers, printing and the f2c input and output routines.
- Quadratic, quartic, quintic and nonic Borwein iterations: the same kind of loop without a second variant to compare with.
- Root bracketing and weights of abscissas_and_weights, which use root finders and the gamma function of Boost.Math.
- The conversion's test driver (generate_random and the timing loop), other examples, the configuration checks and the documentation tools.
