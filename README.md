# A verified model of the spectral path tracer's core

This project models, in Dafny, the parts of a spectral CPU path tracer that
compute something exactly and have properties to prove:

- **RGB to spectrum tables.** `rgb_to_spec` precomputes a 3 × 64 × 64 × 64 table of
  sigmoid-polynomial coefficients. For each cell it runs a per-cell Adam fit
  against CIE colour matching functions, over 64 nonlinearly spaced z nodes.
  `build.rs` writes the nodes and the table as little-endian f32. The spectrum
  crate loads them back and trilinearly interpolates the coefficients for any
  RGB colour (`TableInit`, `TableFormat`, `RgbLookup`).
- **Spectra.** These are the four-wavelength `SampledSpectrum` and `SampledWavelengths`
  (`SampledSpectra`) and the piecewise-linear spectrum (`PiecewiseLinearSpectra`).
- **The Z-order Sobol sampler** (`ZSobol`). It has bit reversal, Morton encoding, powers of
  two, and the randomly permuted base-4 sample index.
- **Geometry helpers.** These are axis-aligned bounds (`MathBounds`) and the 3 × 3 matrix
  routines, including LUP decomposition and solve (`Matrix`).
- **The toy renderer's BVH** (`Bvh`). The surface-area-heuristic build, the flattening
  into an array, and the closest-hit traversal.
- **The two light samplers** (`SceneLightSampler`, `ToyLightSampler`). Both build a
  cumulative table of light weights (`SampleTable`) and search it.

f32 arithmetic is modelled with `real`. The exceptions are the places where the
source relies on what f32 does:

- A division by zero gives an infinity or NaN (`SampleTable.Quotient`).
- The stored table is a sequence of f32 bit patterns, so its byte round trip is exact.
- `u32`/`u64` wrap-around is written out with bit-vectors or explicit bounds.

The infinite inverse direction that an axis-parallel ray gives the slab test is
not modelled (see "## Left out").

Panics are explicit outcomes rather than preconditions. Examples are the
`unwrap` on an empty split candidate list, a shift that overflows, an index out
of range, and a sampler that is not initialized. Scene geometry, light power,
the error and gradient of the fit, and square roots are passed in as function
parameters.

The table fit and its file:

- The fit is a per-cell Adam descent of at most 16 steps that stops once the
  colour error falls below 1e-3.
- The CIE tables hold 95 samples at 5 nm. They are resampled to 283 fine
  samples with Simpson 3/8 weights and normalized by the CIE Y integral.
- The file holds 256 bytes of z nodes and then 9,437,184 bytes of
  coefficients, which is the size the loader expects (`TableFormat.SizesAgree`).

`rgb_to_spec/src/data.rs` is not part of this model. The CIE sample counts and
the wavelength range are taken from the identical definitions in
`spectrum/build.rs`.

## Model

| member | source | states |
|---|---|---|
| MathBounds.Merge | math/src/bounds.rs:81-86 | the merged box encloses both boxes and is well formed when both are |
| MathBounds.MergeLeast | math/src/bounds.rs:81-86 | every box enclosing both inputs encloses their merge: it is the least enclosing box |
| MathBounds.MergeCommutative | math/src/bounds.rs:81-86 | merging is commutative |
| MathBounds.MergeIdempotent | math/src/bounds.rs:81-86 | merging a box with itself gives the box |
| MathBounds.MergeAssociative | math/src/bounds.rs:81-86 | merging is associative, so the order in which a BVH folds boxes does not matter |
| MathBounds.Center | math/src/bounds.rs:59-62 | the centre is equidistant from min and max on every axis and lies inside a well-formed box |
| MathBounds.AreaNonnegative | math/src/bounds.rs:66-69 | the surface area of a well-formed box is non-negative |
| MathBounds.AreaMonotone | math/src/bounds.rs:66-69 | a well-formed box enclosed in another has no larger area, which the SAH costs rely on |
| MathBounds.Vertices | math/src/bounds.rs:90-103 | there are eight corners, each takes min or max per axis, they lie inside a well-formed box, and they are pairwise distinct when no extent is zero |
| MathBounds.VerticesComplete | math/src/bounds.rs:90-103 | every corner of the box is among the eight listed |
| MathBounds.Intersect | math/src/bounds.rs:27-55 | the loop computes the three-slab clip of [0, t_max]; a hit satisfies 0 <= t0 <= t1 <= t_max |
| MathBounds.SlabAxisAt | math/src/bounds.rs:38-51 | one slab keeps exactly the parameters whose point lies between min and max on that axis |
| MathBounds.SlabFromExact | math/src/bounds.rs:38-54 | the clipped interval holds t exactly when t is in [0, t_max] and inside every slab |
| MathBounds.SlabTestExact | math/src/bounds.rs:27-55 | for a ray with inverse direction, t in [0, t_max] gives a point inside the box if and only if `intersect` hits with t0 <= t <= t1 |
| Matrix.MulVecOfMul | math/src/matrix.rs:5-32 | (m1 m2) v == m1 (m2 v): the product is composition |
| Matrix.MulIdentityLeft | math/src/matrix.rs:5-23 | the identity times m is m |
| Matrix.Inverse | math/src/matrix.rs:35-58 | the inverse is given exactly when the determinant is nonzero |
| Matrix.InverseIsLeftInverse | math/src/matrix.rs:35-58 | a nonzero determinant gives inverse(m) · m == identity |
| Matrix.PivotScan | math/src/matrix.rs:70-81 | the pivot found is at least the starting magnitude and at least every scanned entry's magnitude, and it is the start or one of the scanned entries |
| Matrix.SwapColumns | math/src/matrix.rs:88-103 | the exchange swaps the two columns and leaves the third unchanged |
| Matrix.SwapEntries | math/src/matrix.rs:90-92 | the permutation array keeps its length and its multiset of entries |
| Matrix.LupDecompose | math/src/matrix.rs:61-138 | the array loop computes the staged decomposition; a decomposed result has a permutation P, a unit lower L and an upper U |
| Matrix.DecomposeStage | math/src/matrix.rs:68-129 | one pass of the outer loop moves the state one stage on, or reports it singular or non-finite |
| Matrix.InitialArrays | math/src/matrix.rs:62-65 | L and U start at zero, p at the identity permutation, the working copy at the input |
| Matrix.PivotSearch | math/src/matrix.rs:70-81 | the loop returns the scanned pivot row and its magnitude |
| Matrix.ExchangeColumns | math/src/matrix.rs:88-103 | the in-place swaps produce the exchanged state |
| Matrix.FillFactors | math/src/matrix.rs:105-117 | the stage writes column i of U and L from the working matrix |
| Matrix.EliminateStage | math/src/matrix.rs:119-128 | the nested loops eliminate below the pivot as the staged specification does |
| Matrix.EliminateColumn | math/src/matrix.rs:119-128 | one inner loop updates one column of the working matrix |
| Matrix.EliminateEntry | math/src/matrix.rs:124-126 | one entry update, with the division by the pivot |
| Matrix.LupShape | math/src/matrix.rs:105-117 | a decomposed result has unit diagonal in L, zeros above it, zeros below U's diagonal, and a permutation of 0..3 in p |
| Matrix.StagesUnfold | math/src/matrix.rs:68-129 | the stages run one after the other from the initial state |
| Matrix.SmallFirstRowIsSingular | math/src/matrix.rs:70-86 | when every entry of row 0 (the entries stage 0 scans in the column-major array) is below epsilon in magnitude the result is singular |
| Matrix.NonPositiveEpsilonNeverSingular | math/src/matrix.rs:84-86 | with epsilon <= 0 the singular branch is never taken |
| Matrix.DiagonalStagesFinite | math/src/matrix.rs:68-129 | the diagonal-pivot stages never divide by zero when epsilon > 0 |
| Matrix.LupDiagonalPivot | math/src/matrix.rs:61-138 | with the pivot scanned in column i and epsilon > 0 the decomposition is never non-finite |
| Matrix.IdentityIsSingularAsWritten | math/src/matrix.rs:71 | as written, the identity is reported singular for every epsilon > 0 |
| Matrix.IdentityDecomposesWithDiagonalPivot | math/src/matrix.rs:61-138 | with the diagonal pivot the identity decomposes for 0 < epsilon <= 1 |
| Matrix.LupSolveSolves | math/src/matrix.rs:141-163 | an out-of-range p fails exactly when some index is >= 3; a zero diagonal of U fails exactly as a division by zero; otherwise the solution x satisfies L U x = P b |
| Matrix.LupSolveAsWrittenIgnoresFactors | math/src/matrix.rs:154-160 | as written, the substitutions read L and U transposed: a counterexample whose result does not solve L U x = b |
| Matrix.BackSubstitution | math/src/matrix.rs:156-160 | back substitution solves U x = y for a nonzero diagonal |
| Matrix.ForwardSubstitution | math/src/matrix.rs:151-155 | forward substitution solves L y = P b for unit lower L |
| SampledSpectra.ConstantArithmetic | spectrum/src/sampled_spectrum.rs:15-38 | sums and multiples of constant spectra are the constant spectra of the sums and multiples |
| SampledSpectra.DivScalar | spectrum/src/sampled_spectrum.rs:55-66 | dividing by 0 gives all zeros; otherwise each result times the divisor is the original value |
| SampledSpectra.DivComponents | spectrum/src/sampled_spectrum.rs:67-78 | componentwise, a zero divisor lane gives 0 and any other gives the quotient |
| SampledSpectra.DivAssignScalarAsWritten | spectrum/src/sampled_spectrum.rs:103-112 | as written, `/= 0.0` leaves the values unchanged |
| SampledSpectra.DivAssignByZeroKeepsValues | spectrum/src/sampled_spectrum.rs:103-112 | the all-ones spectrum stays all ones after `/= 0.0`, while `/ 0.0` changes it |
| SampledSpectra.ScaleAlgebra | spectrum/src/sampled_spectrum.rs:31-38 | scaling twice scales by the product, by 1 changes nothing, and scaling distributes over addition of spectra and of factors |
| SampledSpectra.AddAlgebra | spectrum/src/sampled_spectrum.rs:15-22 | lanewise addition is commutative and associative, with the zero spectrum as unit |
| SampledSpectra.LerpProperties | spectrum/src/sampled_spectrum.rs:179-181 | t = 1 gives self, t = 0 gives other, and constants lerp to a constant |
| SampledSpectra.ConstantIsConstant | spectrum/src/sampled_spectrum.rs:252-255 | a constant spectrum passes `is_constant`, and `is_constant` holds exactly for constant spectra |
| SampledSpectra.TerminateValues | spectrum/src/sampled_spectrum.rs:220-228 | keeps the first lane; zeroes the other three unless the spectrum is already zero |
| SampledSpectra.TerminateValuesIdempotent | spectrum/src/sampled_spectrum.rs:220-228 | terminating twice is terminating once |
| SampledSpectra.UniformLambdas | spectrum/src/sampled_spectrum.rs:292-308 | four wavelengths a quarter of the range apart, wrapped back into the range |
| SampledSpectra.FirstLambdaInRange | spectrum/src/sampled_spectrum.rs:299 | for u in [0, 1) the first wavelength lies in [lo, hi) |
| SampledSpectra.WrapStepInRange | spectrum/src/sampled_spectrum.rs:302-307 | stepping by a quarter and wrapping keeps a wavelength in [lo, hi) |
| SampledSpectra.UniformLambdasInRange | spectrum/src/sampled_spectrum.rs:292-308 | every sampled wavelength lies in [lo, hi) |
| SampledSpectra.TerminatePdf | spectrum/src/sampled_spectrum.rs:325-339 | the result has the four pdfs and counts as terminated |
| SampledSpectra.TerminatePdfIdempotent | spectrum/src/sampled_spectrum.rs:325-334 | terminating twice is terminating once, and the first pdf is divided by 4 unless already terminated |
| SampledSpectra.UniformArrays | spectrum/src/sampled_spectrum.rs:292-310 | the loop fills the wavelengths and the uniform pdf 1 / (hi - lo) |
| SampledSpectra.SampledSpectrum.Zero | spectrum/src/sampled_spectrum.rs:131-135 | all lanes zero |
| SampledSpectra.SampledSpectrum.Constant | spectrum/src/sampled_spectrum.rs:138-149 | all lanes equal the value |
| SampledSpectra.SampledSpectrum.From | spectrum/src/sampled_spectrum.rs:161-163 | the lanes are the given array |
| SampledSpectra.SampledSpectrum.Div | spectrum/src/sampled_spectrum.rs:55-66 | a fresh spectrum holding the scalar quotient, this one unchanged |
| SampledSpectra.SampledSpectrum.DivBy | spectrum/src/sampled_spectrum.rs:67-78 | a fresh spectrum holding the componentwise quotient |
| SampledSpectra.SampledSpectrum.DivAssignScalar | spectrum/src/sampled_spectrum.rs:103-112 | in place, as written: unchanged on 0, divided otherwise |
| SampledSpectra.SampledSpectrum.DivAssignScalarZeroing | spectrum/src/sampled_spectrum.rs:103-112 | in place, matching `/`: zeroed on 0, divided otherwise |
| SampledSpectra.SampledSpectrum.DivAssign | spectrum/src/sampled_spectrum.rs:113-122 | in place, the componentwise quotient |
| SampledSpectra.SampledSpectrum.TerminateSecondary | spectrum/src/sampled_spectrum.rs:220-228 | in place, the secondary lanes are zeroed |
| SampledSpectra.SampledWavelengths.NewUniformRange | spectrum/src/sampled_spectrum.rs:292-310 | fresh arrays holding UniformLambdas(u, lo, hi) and pdf 1/(hi − lo); for u in [0, 1) every wavelength lies in [lo, hi) (UniformLambdasInRange) |
| SampledSpectra.SampledWavelengths.NewUniform | spectrum/src/sampled_spectrum.rs:287-289 | the same over the visible range 360..830 nm |
| SampledSpectra.SampledWavelengths.TerminateSecondary | spectrum/src/sampled_spectrum.rs:325-334 | in place, the terminated pdfs |
| PiecewiseLinearSpectra.New | spectrum/src/spectrum/piecewise_linear_spectrum.rs:19-31 | a spectrum is made exactly when the two lists have equal length, and it holds them |
| PiecewiseLinearSpectra.Deinterleave | spectrum/src/spectrum/piecewise_linear_spectrum.rs:36-44 | even positions become wavelengths and odd positions values |
| PiecewiseLinearSpectra.FromInterleaved | spectrum/src/spectrum/piecewise_linear_spectrum.rs:34-45 | succeeds exactly on even-length input |
| PiecewiseLinearSpectra.InterleaveDeinterleave | spectrum/src/spectrum/piecewise_linear_spectrum.rs:36-44 | deinterleaving an interleaving gives back both lists |
| PiecewiseLinearSpectra.FromInterleavedRoundTrip | spectrum/src/spectrum/piecewise_linear_spectrum.rs:34-45 | the interleaved form of a spectrum loads back to the same spectrum |
| PiecewiseLinearSpectra.SegmentIndex | spectrum/src/spectrum/piecewise_linear_spectrum.rs:74-77 | the search stops at a segment start whose following knot is not below lambda, passing only knots below lambda |
| PiecewiseLinearSpectra.Value | spectrum/src/spectrum/piecewise_linear_spectrum.rs:67-80 | the search loop computes the specified value |
| PiecewiseLinearSpectra.ValueOutsideIsZero | spectrum/src/spectrum/piecewise_linear_spectrum.rs:68-73 | outside [first knot, last knot], or with no knots, the value is 0 |
| PiecewiseLinearSpectra.SingleKnotAtKnot | spectrum/src/spectrum/piecewise_linear_spectrum.rs:74-78 | a single-knot spectrum indexes out of range at its knot and is 0 everywhere else |
| PiecewiseLinearSpectra.SegmentAtKnot | spectrum/src/spectrum/piecewise_linear_spectrum.rs:74-77 | at a knot (not the last) the search lands on that knot |
| PiecewiseLinearSpectra.ValueAtKnot | spectrum/src/spectrum/piecewise_linear_spectrum.rs:74-79 | with increasing knots the spectrum passes through every stored value |
| PiecewiseLinearSpectra.ValueBetweenNeighbours | spectrum/src/spectrum/piecewise_linear_spectrum.rs:74-79 | between two knots the value lies between their two values |
| PiecewiseLinearSpectra.MaxValue | spectrum/src/spectrum/piecewise_linear_spectrum.rs:82-88 | the maximum is at least every value and equals one of them, and is 0 when there are none |
| RgbLookup.ClampNonnegative | spectrum/src/rgb_sigmoid_polynomial.rs:95 | every channel is non-negative, and a non-negative colour is unchanged |
| RgbLookup.MaxPosition | spectrum/src/rgb_sigmoid_polynomial.rs:116 | the channel holding the largest value, the first on ties |
| RgbLookup.CellIndex | spectrum/src/rgb_sigmoid_polynomial.rs:122-123 | the grid cell of a coordinate in [0, 1], at most T - 2 |
| RgbLookup.FindZ | spectrum/src/rgb_sigmoid_polynomial.rs:124-126 | the last z interval whose lower node is at or below z, within the node range |
| RgbLookup.FindZFound | spectrum/src/rgb_sigmoid_polynomial.rs:124-126 | between the first and last node, z lies in the interval found |
| RgbLookup.ScaledInRange | spectrum/src/rgb_sigmoid_polynomial.rs:118-119 | the two remaining channels divided by the largest lie in [0, 1] |
| RgbLookup.PointFrom | spectrum/src/rgb_sigmoid_polynomial.rs:116-129 | the cell indices and fractions of a lookup point lie in the grid and in [0, 1] |
| RgbLookup.LookupOutOfRange | spectrum/src/rgb_sigmoid_polynomial.rs:98-108 | the colour is rejected exactly when a clamped channel exceeds 1 |
| RgbLookup.LookupUniform | spectrum/src/rgb_sigmoid_polynomial.rs:111-113 | a grey colour r in (0, 1) gives the constant sigmoid of r and no table read |
| RgbLookup.GetCoefficients | spectrum/src/rgb_sigmoid_polynomial.rs:87-155 | the method returns the specified lookup |
| RgbLookup.InterpolateCell | spectrum/src/rgb_sigmoid_polynomial.rs:132-153 | the nested lerps compute the trilinear blend of the eight corners |
| RgbLookup.LerpEnds | spectrum/src/rgb_sigmoid_polynomial.rs:89-91 | lerp gives a at 0 and b at 1 |
| RgbLookup.LerpWithin | spectrum/src/rgb_sigmoid_polynomial.rs:89-91 | for t in [0, 1] the lerp lies between a and b |
| RgbLookup.TrilinearAtCorner | spectrum/src/rgb_sigmoid_polynomial.rs:132-153 | at zero offsets the blend is the stored corner |
| RgbLookup.TrilinearWithin | spectrum/src/rgb_sigmoid_polynomial.rs:132-153 | the blend lies between the smallest and largest of the eight corners |
| RgbLookup.ZOffsetInUnit | spectrum/src/rgb_sigmoid_polynomial.rs:129 | the z offset within the found interval lies in [0, 1] |
| RgbLookup.FindZAtNode | spectrum/src/rgb_sigmoid_polynomial.rs:124-126 | at a node (not the last) the search finds that node |
| RgbLookup.LookupAtGridTarget | spectrum/src/rgb_sigmoid_polynomial.rs:87-155 | looking up the exact colour the table was fitted for at a grid point returns that cell's coefficients |
| TableFormat.LeBytesRoundTrip | rgb_to_spec/build/build.rs:31 | `from_le_bytes(to_le_bytes(x)) == x` for every f32 bit pattern, and four bytes are written |
| TableFormat.BytesAt | rgb_to_spec/build/build.rs:31-45 | value i of a stream sits at bytes 4i..4i+4 |
| TableFormat.ValuesAtPosition | rgb_to_spec/build/build.rs:35-45 | the write order puts coefficient (l, x, y, z, c) at the position the loader reads it from |
| TableFormat.EncodingLength | rgb_to_spec/build/build.rs:20-48 | the file is 4T + 36T^3 bytes long |
| TableFormat.Sink.constructor | rgb_to_spec/build/build.rs:24 | a new file is empty |
| TableFormat.Sink.WriteAll | rgb_to_spec/build/build.rs:31 | a write appends the bytes or fails, leaving earlier bytes |
| TableFormat.WriteValue | rgb_to_spec/build/build.rs:31 | one value written as four little-endian bytes |
| TableFormat.WriteCell | rgb_to_spec/build/build.rs:38-42 | the three coefficients of one cell, in order |
| TableFormat.WriteRow | rgb_to_spec/build/build.rs:37-43 | one row of cells |
| TableFormat.WritePlane | rgb_to_spec/build/build.rs:36-44 | one plane of rows |
| TableFormat.WriteChannel | rgb_to_spec/build/build.rs:35-45 | one channel of planes |
| TableFormat.WriteTable | rgb_to_spec/build/build.rs:34-45 | the three channels after the z nodes: the whole value stream is written exactly when no write fails |
| TableFormat.WriteBinaryTable | rgb_to_spec/build/build.rs:20-48 | the file is written whole exactly when no write fails, and then holds the encoding; on failure it holds the values written before the failing write |
| TableFormat.DecodeTable | spectrum/src/rgb_sigmoid_polynomial.rs:54-81 | the decoded table has the 3 × T × T × T × 3 shape and each coefficient is the value at its byte position |
| TableFormat.DecodeZNodes | spectrum/src/rgb_sigmoid_polynomial.rs:41-52 | T nodes are read from the first 4T bytes |
| TableFormat.SizesAgree | spectrum/src/rgb_sigmoid_polynomial.rs:36-37 | the size the loader expects equals the size the writer produces |
| TableFormat.LoadAfterWrite | spectrum/src/rgb_sigmoid_polynomial.rs:35-84 | loading the written file gives back the z nodes and the table |
| TableFormat.TablesEqual | spectrum/src/rgb_sigmoid_polynomial.rs:54-81 | two tables of the shape with equal cells are equal |
| TableFormat.ReadCell | spectrum/src/rgb_sigmoid_polynomial.rs:66-72 | the loop reads one cell |
| TableFormat.ReadRow | spectrum/src/rgb_sigmoid_polynomial.rs:62-75 | the loop reads one row |
| TableFormat.ReadPlane | spectrum/src/rgb_sigmoid_polynomial.rs:60-77 | the loop reads one plane |
| TableFormat.ReadChannel | spectrum/src/rgb_sigmoid_polynomial.rs:56-79 | the loop reads one channel |
| TableFormat.LoadTableFromBinary | spectrum/src/rgb_sigmoid_polynomial.rs:35-84 | the method decodes the data, and a wrong size is the assertion failure at line 37 |
| TableInit.CieClampedPosition | rgb_to_spec/src/init.rs:15-27 | the fractional sample position, clamped to the table |
| TableInit.CieOffset | rgb_to_spec/src/init.rs:15-27 | the sample index below the position, and one below the last |
| TableInit.CieInterpretAtSample | rgb_to_spec/src/init.rs:15-27 | at a sample wavelength the stored value is returned |
| TableInit.CieInterpretBelowRange | rgb_to_spec/src/init.rs:15-27 | below the range the first value is returned |
| TableInit.CieInterpretBetweenSamples | rgb_to_spec/src/init.rs:15-27 | between two samples the value lies between theirs |
| TableInit.Sigmoid | rgb_to_spec/src/init.rs:30-35 | 1 at +inf, 0 at -inf, strictly between 0 and 1 for finite x |
| TableInit.ParabolicVertex | rgb_to_spec/src/init.rs:38-44 | the value at t == c0 is c1, and with c2 >= 0 no value is below c1 |
| TableInit.XyyToXyz | rgb_to_spec/src/init.rs:46-53 | zero when y is 0; otherwise Y is kept and X y = x Y, Z y = (1 - x - y) Y |
| TableInit.SmoothstepMonotone | rgb_to_spec/src/init.rs:202-204 | smoothstep is nondecreasing on [0, 1] |
| TableInit.ZMappingMonotone | rgb_to_spec/src/init.rs:201-206 | the z nodes run from 0 to 1 and never decrease |
| TableInit.FillZNodes | rgb_to_spec/src/init.rs:207-209 | the loop stores z_mapping(i) at every node |
| TableInit.WeightsSumToRange | rgb_to_spec/src/init.rs:221-228 | the Simpson 3/8 weights add up to the wavelength range |
| TableInit.WeightedYSumsToOne | rgb_to_spec/src/init.rs:213-254 | after dividing by the CIE Y integral the weighted Y column sums to 1 |
| TableInit.DecomposeCompose | rgb_to_spec/src/init.rs:269-272 | splitting a flat index into (l, z, y, x) and joining it again is the identity |
| TableInit.ComposeDecompose | rgb_to_spec/src/init.rs:293-296 | joining grid coordinates and splitting them again is the identity |
| TableInit.GridCoordinateWithin | rgb_to_spec/src/init.rs:275-283 | each target coordinate lies in [0, 1] |
| TableInit.TargetLayout | rgb_to_spec/src/init.rs:275-283 | the target colour puts z on channel l and the other two as x·z and y·z |
| TableInit.StoreCoefficients | rgb_to_spec/src/init.rs:288-300 | the loop writes every fitted cell into its place in the table |
| TableInit.InitTable | rgb_to_spec/src/init.rs:199-301 | the nodes follow z_mapping and every cell holds the fit for its target |
| TableInit.AdamLane | rgb_to_spec/src/init.rs:180-186 | one slot's update keeps the second moments non-negative |
| TableInit.AdamStep | rgb_to_spec/src/init.rs:180-186 | one update of the three slots keeps the second moments non-negative and leaves slots 3 and 4 alone |
| TableInit.Trajectory | rgb_to_spec/src/init.rs:172-192 | the state after n updates has non-negative second moments and untouched spare slots |
| TableInit.UpdateCountBounds | rgb_to_spec/src/init.rs:172-192 | the loop makes between 1 and 16 updates, stops after the first converged iteration and not before |
| TableInit.AdamSlot | rgb_to_spec/src/init.rs:180-186 | the array update of one slot is the specified lane update |
| TableInit.AdamUpdate | rgb_to_spec/src/init.rs:180-186 | the inner loop is the specified step |
| TableInit.NewAdamArrays | rgb_to_spec/src/init.rs:162-166 | coefficients start at [0.5, 0, -0.1], the moments at zero |
| TableInit.CalculateCoefficients | rgb_to_spec/src/init.rs:152-195 | the result is the trajectory's coefficients after the number of updates the early stop allows |
| ZSobol.ReverseBitsMirrors | renderer/src/sampler/z_sobol_sampler.rs:11-18 | bit k of the result is bit 31 - k of the input |
| ZSobol.ReverseBitsInvolution | renderer/src/sampler/z_sobol_sampler.rs:11-18 | reversing twice is the identity |
| ZSobol.LeadingZeros | renderer/src/sampler/z_sobol_sampler.rs:41-43 | at most 32, and 32 exactly for zero |
| ZSobol.Log2IntBounds | renderer/src/sampler/z_sobol_sampler.rs:41-43 | 2^log2(v) <= v < 2^(log2(v)+1) |
| ZSobol.RoundUpPow2Least | renderer/src/sampler/z_sobol_sampler.rs:46-52 | no overflow exactly when v <= 2^31, and then the result is the least power of two at least v |
| ZSobol.LeftShift2Spreads | renderer/src/sampler/z_sobol_sampler.rs:55-63 | bit k moves to bit 2k and odd bits are zero |
| ZSobol.MortonBits | renderer/src/sampler/z_sobol_sampler.rs:54-65 | x fills the even bits and y the odd bits of the code |
| ZSobol.MortonIgnoresHighBits | renderer/src/sampler/z_sobol_sampler.rs:54-65 | only the low 16 bits of x and y matter |
| ZSobol.PermutationRows | renderer/src/sampler/z_sobol_sampler.rs:102-127 | the table has 24 rows, each a permutation of 0..3 |
| ZSobol.PermutedIsBijective | renderer/src/sampler/z_sobol_sampler.rs:142 | permuting a digit by a row is injective and stays below 4 |
| ZSobol.PermutationIndex | renderer/src/sampler/z_sobol_sampler.rs:139-140 | the row chosen by hash modulo 24 is below 24 |
| ZSobol.HashChooserPermutes | renderer/src/sampler/z_sobol_sampler.rs:136-142 | the hashed choice of row always gives a digit permutation |
| ZSobol.LastDigit | renderer/src/sampler/z_sobol_sampler.rs:131-132 | an extra base-2 digit is needed exactly for odd log2 spp |
| ZSobol.SampleIndexBit0 | renderer/src/sampler/z_sobol_sampler.rs:131-147 | with an odd log2 spp, bit 0 of the index (before the extra digit) is clear: the base-4 digits never overlap it |
| ZSobol.AddDigit | renderer/src/sampler/z_sobol_sampler.rs:135-145 | one pass of the loop ORs the permuted digit into place, giving the index with that digit added |
| ZSobol.GetSampleIndex | renderer/src/sampler/z_sobol_sampler.rs:101-148 | the loop over digits computes the specified index, or reports the shift overflow |
| ZSobol.Log4Spp | renderer/src/sampler/z_sobol_sampler.rs:175 | ceil(log2 spp / 2) |
| ZSobol.Log2IntOfPow2 | renderer/src/sampler/z_sobol_sampler.rs:41-43 | log2 of 2^k is k |
| ZSobol.MortonIndexAdds | renderer/src/sampler/z_sobol_sampler.rs:189 | for a sample index below 2^shift the or is an addition |
| ZSobol.MortonIndexHighBits | renderer/src/sampler/z_sobol_sampler.rs:189 | the pixel's Morton code sits above the sample bits |
| ZSobol.DigitsCoverPixelsAndSamples | renderer/src/sampler/z_sobol_sampler.rs:172-176 | 4^n_base4_digits is at least res² · spp for powers of two |
| ZSobol.ZSobolSampler.constructor | renderer/src/sampler/z_sobol_sampler.rs:172-185 | log2 spp, the rounded resolution and n_base4_digits as the source computes them |
| ZSobol.ZSobolSampler.StartPixelSample | renderer/src/sampler/z_sobol_sampler.rs:187-190 | dimension reset, Morton index of the pixel joined with the sample index |
| ZSobol.ZSobolSampler.Get1D | renderer/src/sampler/z_sobol_sampler.rs:192-201 | the sample index for the current dimension, then the dimension advances by one |
| ZSobol.ZSobolSampler.Get2D | renderer/src/sampler/z_sobol_sampler.rs:203-219 | the sample index for the current dimension, then the dimension advances by two |
| Bvh.ListBoundsEncloses | toy-cpu-pathtracing/src/scene/bvh.rs:76-82 | the merged box encloses every item's box |
| Bvh.ListBoundsLeast | toy-cpu-pathtracing/src/scene/bvh.rs:76-82 | any box enclosing every item encloses the merged box |
| Bvh.ItemListBounds | toy-cpu-pathtracing/src/scene/bvh.rs:76-82 | the fold computes the merged box |
| Bvh.InsertByKey | toy-cpu-pathtracing/src/scene/bvh.rs:95-99 | the result is the list with one more element, as a multiset |
| Bvh.InsertByKeySorted | toy-cpu-pathtracing/src/scene/bvh.rs:95-99 | inserting into a sorted list keeps it sorted by the key |
| Bvh.SortByKey | toy-cpu-pathtracing/src/scene/bvh.rs:95-99 | the sorted list is a permutation of the items |
| Bvh.SortByKeySorted | toy-cpu-pathtracing/src/scene/bvh.rs:95-99 | the result is sorted by the centroid on the axis |
| Bvh.SortByKeyStable | toy-cpu-pathtracing/src/scene/bvh.rs:95-99 | the sort is stable: the items of each key appear in the same relative order as in the input |
| Bvh.CutAt | toy-cpu-pathtracing/src/scene/bvh.rs:107-111 | the two halves concatenate to the sorted list, with the first of length k |
| Bvh.BestCutFrom | toy-cpu-pathtracing/src/scene/bvh.rs:107-130 | the loop always ends with a cut into two nonempty halves that concatenate to the sorted list |
| Bvh.SplitOf | toy-cpu-pathtracing/src/scene/bvh.rs:85-136 | a split exists exactly when the parent area is nonzero; its halves are nonempty and concatenate to the sorted items |
| Bvh.BestCutFromFirstCheapest | toy-cpu-pathtracing/src/scene/bvh.rs:107-130 | the cut is the first one of least cost |
| Bvh.SplitIsFirstCheapest | toy-cpu-pathtracing/src/scene/bvh.rs:95-130 | the split chosen is the first of least SAH cost |
| Bvh.CutCost | toy-cpu-pathtracing/src/scene/bvh.rs:117-122 | the SAH cost 1 + (n0 a0 + n1 a1) / A |
| Bvh.SplitItems | toy-cpu-pathtracing/src/scene/bvh.rs:85-136 | the loop returns the specified split, or the unwrap panic |
| Bvh.SplitOfIsSplit | toy-cpu-pathtracing/src/scene/bvh.rs:85-136 | a split's halves together are a permutation of the items |
| Bvh.ChooseSplitFrom | toy-cpu-pathtracing/src/scene/bvh.rs:184-203 | a chosen split is a split of the items no dearer than the running minimum, and strictly cheaper when nothing was chosen before |
| Bvh.ChooseSplitOf | toy-cpu-pathtracing/src/scene/bvh.rs:179-203 | a chosen split is a split of the items strictly cheaper than keeping the leaf (cost 1 per item) |
| Bvh.BuildOf | toy-cpu-pathtracing/src/scene/bvh.rs:171-223 | building a node again fails; one item or fewer builds a leaf |
| Bvh.NewBuilder | toy-cpu-pathtracing/src/scene/bvh.rs:162-167 | a leaf holding every item with their merged box |
| Bvh.BuildKeepsItems | toy-cpu-pathtracing/src/scene/bvh.rs:171-223 | a built tree holds exactly the input items, as a permutation |
| Bvh.ChooseSplitStep | toy-cpu-pathtracing/src/scene/bvh.rs:184-203 | the axis loop advances the specified choice |
| Bvh.MakeLeaves | toy-cpu-pathtracing/src/scene/bvh.rs:190-197 | the two leaves of a split, each with the merged box of its items |
| Bvh.ConsiderAxis | toy-cpu-pathtracing/src/scene/bvh.rs:184-203 | one axis is compared with the best so far |
| Bvh.ChooseSplit | toy-cpu-pathtracing/src/scene/bvh.rs:179-203 | the loop over axes returns the specified choice |
| Bvh.Build | toy-cpu-pathtracing/src/scene/bvh.rs:171-223 | the recursive build returns the specified tree or panic |
| Bvh.Flat | toy-cpu-pathtracing/src/scene/bvh.rs:227-288 | the flattened array starts with a node or leaf entry carrying the root's box |
| Bvh.ItemsOfAppend | toy-cpu-pathtracing/src/scene/bvh.rs:241-279 | the items of concatenated arrays concatenate |
| Bvh.FlatKeepsItems | toy-cpu-pathtracing/src/scene/bvh.rs:227-288 | the array lists the tree's items in order |
| Bvh.FlatLinked | toy-cpu-pathtracing/src/scene/bvh.rs:241-279 | every node's child links and every leaf's item range point inside the array |
| Bvh.Flattener.constructor | toy-cpu-pathtracing/src/scene/bvh.rs:283-284 | an empty array |
| Bvh.Flattener.Traverse | toy-cpu-pathtracing/src/scene/bvh.rs:229-281 | the recursion appends the flattened subtree at the current offset |
| Bvh.Flattener.PushLeaf | toy-cpu-pathtracing/src/scene/bvh.rs:264-279 | the leaf entry and its item entries are appended |
| Bvh.Flatten | toy-cpu-pathtracing/src/scene/bvh.rs:227-288 | the array is the flattened tree |
| Bvh.BuildBvh | toy-cpu-pathtracing/src/scene/bvh.rs:316-324 | the BVH is the flattened built tree, or the panic of an empty list or a failed split |
| Bvh.BuildKeepsBounds | toy-cpu-pathtracing/src/scene/bvh.rs:171-223 | a built tree keeps the box of the leaf it was built from |
| Bvh.BuiltBvhWellFormed | toy-cpu-pathtracing/src/scene/bvh.rs:316-324 | a built BVH holds every input item as often as the input does, its links stay inside the array, and the root box encloses every item's box |
| Bvh.Closer | toy-cpu-pathtracing/src/scene/bvh.rs:374-389 | the nearer of two hits; on equal t the second is kept |
| Bvh.LeafHitClosest | toy-cpu-pathtracing/src/scene/bvh.rs:397-422 | the leaf's result is the closest hit among its items |
| Bvh.CloserIsClosest | toy-cpu-pathtracing/src/scene/bvh.rs:374-389 | combining the closest hits of two subtrees gives the closest of both |
| Bvh.TreeHitClosest | toy-cpu-pathtracing/src/scene/bvh.rs:344-426 | the traversal returns the closest hit over every item whose boxes the ray reaches, and none when there is none |
| Bvh.IntersectFrom | toy-cpu-pathtracing/src/scene/bvh.rs:344-426 | the recursion over the array computes the tree's hit |
| Bvh.IntersectNode | toy-cpu-pathtracing/src/scene/bvh.rs:363-388 | a node's result is the closer of its two children's hits, the first child read just after the node entry and the second at its offset |
| Bvh.LeafLoop | toy-cpu-pathtracing/src/scene/bvh.rs:397-422 | the loop over a leaf's items computes the leaf hit |
| Bvh.IntersectBvh | toy-cpu-pathtracing/src/scene/bvh.rs:336-440 | on a flattened tree the query returns the tree's closest hit |
| SampleTable.CumulativeTable | scene/src/light_sampler.rs:206-212 | one entry per light, finite when the total is nonzero |
| SampleTable.SumPrefixMonotone | scene/src/light_sampler.rs:206-212 | running sums of non-negative weights never decrease |
| SampleTable.TableNondecreasing | scene/src/light_sampler.rs:206-212 | the table is nondecreasing |
| SampleTable.TableEndsAtOne | scene/src/light_sampler.rs:206-212 | the last entry is exactly 1 |
| SampleTable.TableStep | toy-cpu-pathtracing/src/scene/light_sampler.rs:63-68 | entry i exceeds entry i - 1 by the weight of light i over the total |
| SampleTable.FirstBelow | scene/src/light_sampler.rs:31-43 | the first index whose entry exceeds u, or the last when none does |
| SampleTable.FirstBelowInInterval | scene/src/light_sampler.rs:31-43 | for u in [0, 1) the index found is the one whose stretch holds u, so the fallback never decides |
| SampleTable.SumScaled | scene/src/light_sampler.rs:206-212 | dividing each weight by the total divides the sum |
| SampleTable.Position | scene/src/light_sampler.rs:51-56 | the first index holding the value, none exactly when absent |
| SampleTable.PositionOfDistinct | scene/src/light_sampler.rs:51-56 | in a list without repeats the position of entry i is i |
| SceneLightSampler.LightsExactly | scene/src/light_sampler.rs:179-185 | a primitive is listed exactly when it is a light |
| SceneLightSampler.LightsDistinct | scene/src/light_sampler.rs:179-185 | no light is listed twice when the primitives are distinct |
| SceneLightSampler.BuildFactory | scene/src/light_sampler.rs:168-187 | the factory lists the lights in order |
| SceneLightSampler.Create | scene/src/light_sampler.rs:190-220 | the sampler's weights, total and table agree, and the weights are the lights' |
| SceneLightSampler.SampleLight | scene/src/light_sampler.rs:26-44 | none exactly when there are no lights or the total is 0; otherwise the first light whose table entry exceeds u, with its weight over the total |
| SceneLightSampler.Probability | scene/src/light_sampler.rs:47-62 | 0 for a primitive that is not listed |
| SceneLightSampler.SampledProbabilityAgrees | scene/src/light_sampler.rs:35-62 | the probability of a listed light is its weight over the total, as sampling reports |
| SceneLightSampler.SampleLightIsProportional | scene/src/light_sampler.rs:26-44 | u lies in the picked light's stretch of the table, whose width is the reported probability |
| SceneLightSampler.ProbabilitiesSumToOne | scene/src/light_sampler.rs:47-62 | the probabilities of all lights sum to 1 |
| SceneLightSampler.InfinitePositions | scene/src/light_sampler.rs:79-86 | only positions of infinite lights, in order |
| SceneLightSampler.InfinitePositionsComplete | scene/src/light_sampler.rs:79-86 | every infinite light's position is kept |
| SceneLightSampler.FilterInfinite | scene/src/light_sampler.rs:79-86 | the loop collects the infinite positions, their weights and their sum |
| SceneLightSampler.FirstShareAbove | scene/src/light_sampler.rs:93-103 | the running-share loop finds the first entry of the cumulative table above u |
| SceneLightSampler.SampleInfiniteOf | scene/src/light_sampler.rs:65-115 | none exactly when there are no lights, the total is 0 or the infinite total is 0; otherwise an infinite light from the list |
| SceneLightSampler.SampleInfiniteLight | scene/src/light_sampler.rs:65-115 | the method returns the specified sample |
| SceneLightSampler.ProbabilityInfiniteOf | scene/src/light_sampler.rs:118-157 | 0 for a primitive that is unlisted or not infinite |
| SceneLightSampler.ProbabilityInfiniteLight | scene/src/light_sampler.rs:118-157 | the method returns the specified probability |
| SceneLightSampler.SampledInfiniteProbabilityAgrees | scene/src/light_sampler.rs:65-157 | the probability sampling reports for an infinite light is the one the probability query gives |
| ToyLightSampler.LightsShorterIffNonLight | toy-cpu-pathtracing/src/scene/light_sampler.rs:55-67 | there are fewer weights than primitives exactly when some primitive is not a light |
| ToyLightSampler.ProbabilityOf | toy-cpu-pathtracing/src/scene/light_sampler.rs:99-114 | 0 for a primitive that is not listed |
| ToyLightSampler.SampleAsWrittenReportsCumulative | toy-cpu-pathtracing/src/scene/light_sampler.rs:83-93 | with weights [1, 1] and u = 0.7 the second light is reported with 1, while its probability is 0.5 |
| ToyLightSampler.SampleCorrectedAgrees | toy-cpu-pathtracing/src/scene/light_sampler.rs:78-114 | the corrected sample reports the probability the query gives for the light it picks |
| ToyLightSampler.CollectWeights | toy-cpu-pathtracing/src/scene/light_sampler.rs:52-61 | one weight per primitive that is a light, in order, with their total |
| ToyLightSampler.FillTable | toy-cpu-pathtracing/src/scene/light_sampler.rs:62-67 | the weight lookup panics exactly when there are fewer weights than entries; otherwise the table is the cumulative table of the weights |
| ToyLightSampler.LightSampler.Build | toy-cpu-pathtracing/src/scene/light_sampler.rs:25-45 | every primitive, empty tables, uninitialized |
| ToyLightSampler.LightSampler.Clone | toy-cpu-pathtracing/src/scene/light_sampler.rs:116-126 | the same primitives, but empty tables and uninitialized |
| ToyLightSampler.LightSampler.SetSampleLambda | toy-cpu-pathtracing/src/scene/light_sampler.rs:48-73 | panics out of range exactly when some primitive is not a light, leaving the sampler unchanged; otherwise initialized with the lights' weights |
| ToyLightSampler.LightSampler.SampleLight | toy-cpu-pathtracing/src/scene/light_sampler.rs:78-94 | not initialized panics; otherwise the search of the table, as written |
| ToyLightSampler.LightSampler.SampleLightCorrected | toy-cpu-pathtracing/src/scene/light_sampler.rs:78-94 | the same search, reporting weight over total |
| ToyLightSampler.LightSampler.Probability | toy-cpu-pathtracing/src/scene/light_sampler.rs:99-114 | not initialized panics; otherwise the weight of the first listing over the total, or 0 |

## Left out

- `Bounds::bounding_sphere` (math/src/bounds.rs:73-77) needs a square root of a distance. Only `center`, which it uses, is modelled.
- Matrix.Inverse: returns nothing for a zero determinant. The f32 code instead divides by zero and yields infinite or NaN entries.
- Matrix.LupDecompose: eliminates along columns. For a non-symmetric matrix this is not an LU factorization of the input, and the model proves only the shapes of L, U and P.
- `PiecewiseLinearSpectrum::from_interleaved` with `normalized == true` (piecewise_linear_spectrum.rs:47-60) needs the CIE Y preset and the inner product, which are not part of this model.
- RgbLookup.LookupUniform: returns the grey level rather than [0, 0, ln(r / (1 - r))], because the logarithm is not modelled.
- RgbLookup.MaxPosition: takes glam's `max_position` to return the first index of the largest channel. glam is not part of this model.
- `rgb_to_lab`, `eval_delta_e` and `eval_gradient` (init.rs:60-150) are floating-point colour science. They are parameters of `CalculateCoefficients`, as is the square root.
- rgb_to_spec/python/main.py, an offline two-stage fitter written with Torch, is not part of this model; the table the renderer loads is the one `build.rs` fits and writes.
- `init_table` fills the cells in parallel with rayon. The model fills them in order; the cells are independent.
- `build.rs` `main` (rgb_to_spec/build/build.rs:50-91) reads `OUT_DIR`, fills the sRGB table and writes it to `srgb_table.bin`; the other gamuts are commented out. Only `write_binary_table` is modelled, over a file that may fail at a chosen write.
- TableFormat.Sink.WriteAll: a failing write appends nothing. std's `write_all` may fail after writing part of the buffer, so on failure the real file may hold some bytes of the failing value beyond what the model says.
- TableFormat.WriteBinaryTable: starts from an already created, empty file. The failure of `File::create(path)?` (rgb_to_spec/build/build.rs:26) is not modelled, and its failure contents rest on the all-or-nothing writes of TableFormat.Sink.WriteAll.
- TableFormat.LeBytesRoundTrip: is stated on f32 bit patterns. Converting between bits and real numbers is not modelled.
- `sobol_sample` (z_sobol_sampler.rs:150-169): SOBOL_MATRICES_32 is not part of this model.
- `randomize`, `FastOwenScrambler` and `hash` (z_sobol_sampler.rs:20-28, 76-99) are not modelled. The row choice is a parameter, and `HashChooser` builds it from a hash function over the dimension.
- ZSobol.ZSobolSampler.Get1D: returns the sample index, not the float that `sobol_sample` makes from it. Get2D does the same.
- `get_2d_pixel` (z_sobol_sampler.rs:221-223) is the same call as `get_2d`.
- ZSobol.ZSobolSampler.constructor: requires the larger resolution side to be at most 2^31 so that rounding up does not overflow u32.
- ZSobol.ZSobolSampler.Get1D: requires that the u32 dimension counter does not overflow, which panics in debug builds. Get2D has the same requirement.
- Bvh.BuildBvh: does not model the `as u32` truncation of array offsets (bvh.rs:256, 272). Offsets are unbounded.
- Bvh.SortByKey: does not model the `partial_cmp(..).unwrap()` panic on a NaN centroid (bvh.rs:98). Reals have no NaN.
- MathBounds.SlabAxisAt: requires invDir to be the exact reciprocal of dir, so a direction with a zero component is excluded. The source computes `1.0 / dir` (toy-cpu-pathtracing/src/scene/bvh.rs:429), giving an infinite inv_dir on that axis and, when the origin lies on a slab plane, a NaN crossing that the comparisons at math/src/bounds.rs:46-47 ignore; IEEE infinities and NaN are not modelled here.
- MathBounds.SlabFromExact: proved only for rays with no zero direction component, for the reason given for SlabAxisAt.
- MathBounds.SlabTestExact: proved only for rays with no zero direction component, for the reason given for SlabAxisAt; axis-parallel rays are not covered.
- Bvh.IntersectBvh: takes the ray's inverse direction from the ray rather than computing it (bvh.rs:429). It is proved only for arrays that `flatten` produced.
- Item geometry and its intersection are parameters: a box and a hit function per item.
- Bvh.NewBuilder: requires a nonempty item list, because `items[0]` panics on an empty one. BuildBvh models that panic as an outcome.
- The toy renderer's own copy of `Bounds` (toy-cpu-pathtracing/src/math.rs) computes the same merge, area, centre and slab test; the BVH uses the `math` crate's model.
- Light sampling weights (`phi` at the sampled wavelengths), the primitive repository and the `preprocess` calls are parameters or are not part of this model.

## Findings

| source | as written | input that shows it | evidently intended | confidence | as-written member | corrected member |
|---|---|---|---|---|---|---|
| math/src/matrix.rs:71 | the pivot search starts from the entry in column 0 for every stage i | the identity with epsilon = 1e-6: column 0 below the diagonal is 0, so stage 1 reports singular | search column i from row i (partial pivoting) | not executed | Matrix.IdentityIsSingularAsWritten | Matrix.LupDiagonalPivot |
| math/src/matrix.rs:154-160 | forward and back substitution index the column-major L and U as if they were row-major | L with l21 = 2, U = I, p = [0, 1, 2], b = (1, 0, 0): returns (1, 0, 0), but L U maps it to (1, 2, 0) | read L[i][j] and U[i][j] so that L U x = P b | not executed | Matrix.LupSolveAsWrittenIgnoresFactors | Matrix.LupSolveSolves |
| spectrum/src/sampled_spectrum.rs:103-112 | `/= 0.0` builds a zero spectrum and discards it, so the values stay unchanged | any nonzero spectrum divided in place by 0.0 | zero the spectrum, as `/ 0.0` does | not executed | SampledSpectra.DivAssignByZeroKeepsValues | SampledSpectra.SampledSpectrum.DivAssignScalarZeroing |
| toy-cpu-pathtracing/src/scene/light_sampler.rs:83-93 | the reported probability is the cumulative table entry | two lights of weight 1, u = 0.7: the second is reported with probability 1 | the light's weight over the total, 0.5 | not executed | ToyLightSampler.SampleAsWrittenReportsCumulative | ToyLightSampler.SampleCorrectedAgrees |
