# Piecewise-linear two-phase material parameters, in Dafny

This project models `Opm::PiecewiseLinearTwoPhaseMaterialParams` from OPM
(Open Porous Media). The object stores three sampled curves over the
wetting-phase saturation:

- capillary pressure (`SwPcwnSamples_`, `pcwnSamples_`);
- wetting-phase relative permeability (`SwKrwSamples_`, `krwSamples_`);
- non-wetting-phase relative permeability (`SwKrnSamples_`, `krnSamples_`).

It also holds a one-shot "finalized" latch (the `EnsureFinalized` base
class) that guards the accessors. The tables live either in mutable or in
immutable storage. Storage is immutable when the container type or its
element type is `const` (line 252 of
`PiecewiseLinearTwoPhaseMaterialParams.hpp`): for example `const gpuBuffer<double>`,
an owning container, or `gpuView<const double>`, the view that
`gpuistl::make_view` builds. Any other storage is mutable.

Files:

- `results.dfy` (module `Results`): the two failures the object can
  signal, and a failure-compatible `Result`.
  - `NotFinalized` is the latch check of the accessors.
  - `WrongOrderOnImmutable` is the `std::logic_error` raised when a curve
    needs reversal on immutable storage.
- `curves.dfy` (module `Curves`): one curve, and the per-curve step of
  `finalize`.
  - `Normalize` is the functional model of that step.
  - `SwapLoop` is the pairwise swap loop on sequences. Its loop invariant
    says how far the mirroring has got. Together with the lemmas about
    `Mirror`, it proves that the loop computes the reference `Reverse`.
  - `SwapOrderIfPossible` is the imperative `swapOrderIfPossibleThrowOtherwise_`.
    It is proved equal to `Normalize`.
- `params.dfy` (module `MaterialParams`): the whole object.
  - The two constructors, `finalize` (as a function and as an imperative
    method), the accessors and the setters.
  - `make_view`.
- `theorems.dfy` (module `ParamsTheorems`): properties that relate several
  operations: independence of the curves, the three cases of `finalize`,
  idempotence, and the view of a finalized object.

Scalars are `real`. The source only ever compares them.

The six accessors are modelled as two functions, `SaturationSamples` and
`ValueSamples`. Each takes a `CurveId` (`Pcwn`, `Krw`, `Krn`). The three
setters are modelled as one function, `SetSamples`, over the same
`CurveId`.

The reversal test compares the first *saturation* with the last *value* of
the curve. This is kept literally (`Curves.LegacyEligible`). As a result, a
curve given in descending order can stay descending after `finalize`.
`ParamsTheorems.LegacyTestKeepsDescendingExample` shows this on saturations
0.8, 0.5, 0.2 with values 10, 20, 30.

Notes on the code:

- The six-argument constructor does not compare the lengths of a curve's
  two sequences. The model accepts mismatched lengths wherever the C++
  stays defined:
  - the swap loop runs over the saturation indices;
  - when the values are longer, only the first `|sw|` values are reversed
    and the rest stay in place.
- The setters check equal lengths with `assert`, not with an exception.
  This is a precondition of `SetSamples`.
- `make_view` does not skip `finalize`. It builds the view through the
  six-argument constructor, which runs `finalize` again on immutable
  storage. A view of the object that `finalize` returns never
  fails (`ParamsTheorems.ViewOfFinalized`). A view of an object whose curves
  were replaced after `finalize` can fail.

## Model

| member | source | states |
|---|---|---|
| `Curves.SwapLoop` | opm/material/fluidmatrixinteractions/PiecewiseLinearTwoPhaseMaterialParams.hpp:253-258 | the pairwise swap loop keeps both lengths and puts the element at mirror index `n - 1 - k` at index `k` of both sequences (`n` the number of saturations); values beyond index `n` are kept |
| `Curves.MirrorIndex` | opm/material/fluidmatrixinteractions/PiecewiseLinearTwoPhaseMaterialParams.hpp:253-258 | after `i` turns of the swap loop, the first and last `i` of the first `n` elements are mirrored and all others are untouched (the loop invariant) |
| `Curves.MirrorDone` | opm/material/fluidmatrixinteractions/PiecewiseLinearTwoPhaseMaterialParams.hpp:253 | after `n / 2` turns, the first `n` elements are completely mirrored, including the middle element of an odd count, and the rest are untouched |
| `Curves.ReverseIndex` | opm/material/fluidmatrixinteractions/PiecewiseLinearTwoPhaseMaterialParams.hpp:253-254 | the reference reversal puts element `n - 1 - i` at index `i`, which is the mirror index the swap loop uses |
| `Curves.ReverseReverse` | opm/material/fluidmatrixinteractions/PiecewiseLinearTwoPhaseMaterialParams.hpp:253-258 | the reference reversal that the swap loop is proved against undoes itself: reversing any sequence twice gives it back |
| `Curves.ReverseCurveRoundTrip` | opm/material/fluidmatrixinteractions/PiecewiseLinearTwoPhaseMaterialParams.hpp:253-258 | the round trip of the reordering: applying the curve reversal (saturations reversed, values at the saturation indices reversed, the rest in place) twice gives back the original curve |
| `Curves.ReverseNonIncreasing` | opm/material/fluidmatrixinteractions/PiecewiseLinearTwoPhaseMaterialParams.hpp:87-90 | a sequence given in non-increasing order is non-decreasing after reversal, which is the purpose of reverting the sampling points |
| `Curves.Normalize` | opm/material/fluidmatrixinteractions/PiecewiseLinearTwoPhaseMaterialParams.hpp:245-264 | a curve fails exactly when the storage is immutable and both tests pass (first saturation > last saturation, then the literal first saturation > last value, `Curves.LegacyEligible`); a curve that fails either test comes back unchanged on either storage (the first test is the guard at line 89 of `finalize`, `Curves.Backwards`); otherwise lengths are kept |
| `Curves.SwapOrderIfPossible` | opm/material/fluidmatrixinteractions/PiecewiseLinearTwoPhaseMaterialParams.hpp:245-264 | the imperative swap-or-throw routine, with its guard from `finalize`, yields the same result as `Normalize` |
| `Curves.ReverseCurvePairs` | opm/material/fluidmatrixinteractions/PiecewiseLinearTwoPhaseMaterialParams.hpp:253-258 | after reversal, the pair (saturation, value) at index `i` sits at index `n - 1 - i`; lengths are kept; with equal lengths both sequences are exactly reversed |
| `Curves.NormalizeSettles` | opm/material/fluidmatrixinteractions/PiecewiseLinearTwoPhaseMaterialParams.hpp:89-90 | a curve coming out of the per-curve step no longer passes both tests of the reversal |
| `Curves.SettledIsFixed` | opm/material/fluidmatrixinteractions/PiecewiseLinearTwoPhaseMaterialParams.hpp:249 | a curve that does not pass both tests is left unchanged on either storage |
| `MaterialParams.Empty` | opm/material/fluidmatrixinteractions/PiecewiseLinearTwoPhaseMaterialParams.hpp:59-61 | the default constructor gives empty curves and leaves the latch unset, so every accessor fails |
| `MaterialParams.Finalize` | opm/material/fluidmatrixinteractions/PiecewiseLinearTwoPhaseMaterialParams.hpp:83-97 | `finalize` fails with the logic error exactly when the storage is immutable and some curve passes both tests; on success the latch is set, the storage kind is kept, and each curve is the per-curve step applied to that curve |
| `MaterialParams.FinalizeImperative` | opm/material/fluidmatrixinteractions/PiecewiseLinearTwoPhaseMaterialParams.hpp:83-97 | the imperative `finalize`, built from the swap loop, agrees with the functional `Finalize` |
| `MaterialParams.Construct` | opm/material/fluidmatrixinteractions/PiecewiseLinearTwoPhaseMaterialParams.hpp:63-77 | the six-argument constructor fails with the logic error exactly when the storage is immutable and some curve passes both tests (checked in the order capillary pressure, wetting, non-wetting), so never on mutable storage; on success the latch is set, the storage kind is kept, and each stored curve is the per-curve step applied to the input sequences of that curve |
| `MaterialParams.SaturationSamples` | opm/material/fluidmatrixinteractions/PiecewiseLinearTwoPhaseMaterialParams.hpp:102-124 | a saturation accessor succeeds exactly when the latch is set, and then returns the stored sequence unchanged |
| `MaterialParams.ValueSamples` | opm/material/fluidmatrixinteractions/PiecewiseLinearTwoPhaseMaterialParams.hpp:131-196 | a value accessor (`pcwnSamples`, `krwSamples`, `krnSamples`) succeeds exactly when the latch is set, and then returns the stored sequence unchanged |
| `MaterialParams.SetSamples` | opm/material/fluidmatrixinteractions/PiecewiseLinearTwoPhaseMaterialParams.hpp:142-215 | a setter needs equal lengths; afterwards the named curve equals the inputs, and the other two curves, the latch and the storage kind are unchanged |
| `MaterialParams.MakeView` | opm/material/fluidmatrixinteractions/PiecewiseLinearTwoPhaseMaterialParams.hpp:283-304 | the view fails with the latch error on an object that is not finalized; otherwise it fails, with the logic error raised by the constructor's `finalize`, exactly when some curve passes both tests; on success it holds the same six sequences, over immutable storage, with the latch set |
| `ParamsTheorems.FinalizePerCurve` | opm/material/fluidmatrixinteractions/PiecewiseLinearTwoPhaseMaterialParams.hpp:89-96 | each curve of the finalized object is the per-curve step applied to that curve alone |
| `ParamsTheorems.FinalizeIndependent` | opm/material/fluidmatrixinteractions/PiecewiseLinearTwoPhaseMaterialParams.hpp:89-96 | two objects that agree on one curve get the same version of that curve from `finalize`, whatever their other curves hold |
| `ParamsTheorems.FinalizeKeepsForwardCurve` | opm/material/fluidmatrixinteractions/PiecewiseLinearTwoPhaseMaterialParams.hpp:89-96 | a curve with first saturation <= last saturation keeps both its sequences unchanged |
| `ParamsTheorems.FinalizeKeepsLegacyIneligibleCurve` | opm/material/fluidmatrixinteractions/PiecewiseLinearTwoPhaseMaterialParams.hpp:247-249 | a backwards curve whose first saturation is <= the last value keeps both its sequences unchanged |
| `ParamsTheorems.FinalizeReversesOnMutable` | opm/material/fluidmatrixinteractions/PiecewiseLinearTwoPhaseMaterialParams.hpp:249-258 | on mutable storage a curve passing both tests is reversed: lengths kept, pair `i` moved to index `n - 1 - i`, exact reversal of both when lengths are equal |
| `ParamsTheorems.FinalizeSortsDescendingCurve` | opm/material/fluidmatrixinteractions/PiecewiseLinearTwoPhaseMaterialParams.hpp:87-90 | a non-increasing saturation sequence that passes both tests becomes non-decreasing |
| `ParamsTheorems.FinalizeSettles` | opm/material/fluidmatrixinteractions/PiecewiseLinearTwoPhaseMaterialParams.hpp:83-97 | after a successful `finalize`, no curve passes both tests of the reversal any more |
| `ParamsTheorems.FinalizeOnImmutableChangesNothing` | opm/material/fluidmatrixinteractions/PiecewiseLinearTwoPhaseMaterialParams.hpp:252-261 | on immutable storage, a successful `finalize` leaves every sequence unchanged |
| `ParamsTheorems.FinalizeIdempotent` | opm/material/fluidmatrixinteractions/PiecewiseLinearTwoPhaseMaterialParams.hpp:83-97 | a second `finalize` on the result of a successful one succeeds and changes nothing |
| `ParamsTheorems.ViewOfFinalized` | opm/material/fluidmatrixinteractions/PiecewiseLinearTwoPhaseMaterialParams.hpp:284-303 | the view of the object `finalize` returns never raises the logic error and holds the same six sequences over immutable storage |
| `ParamsTheorems.SetThenFinalize` | opm/material/fluidmatrixinteractions/PiecewiseLinearTwoPhaseMaterialParams.hpp:142-153 | after a setter, `finalize` on mutable storage succeeds and turns the new curve into the per-curve step of the inputs |
| `ParamsTheorems.LegacyTestKeepsDescendingExample` | opm/material/fluidmatrixinteractions/PiecewiseLinearTwoPhaseMaterialParams.hpp:247-249 | saturations 0.8, 0.5, 0.2 with values 10, 20, 30 are backwards but stay unchanged, because 0.8 does not exceed the last value 30 |

## Left out

- `EnsureFinalized` is not part of this model. Its latch is a boolean field. The accessors are modelled as if its check is active (a debug build); in a build where the check compiles away, the accessors return the stored data whether the latch is set or not.
- `MaterialParams.Finalize`: when the logic error is raised, the model returns only the error. The C++ object would keep its latch set, and any earlier curves would already be handled. Only the constructor can raise the error (on immutable storage), and the object is then discarded, so that state is never seen.
- The GPU buffer and view types, `OPM_HOST_DEVICE`, and the inner element-wise `make_view` over containers. These are foreign code. A view is modelled as the same sequences over `Immutable` storage.
- The `static_assert` on the element types in `make_view`. It is a compile-time check with no run-time effect.
- Whether a `make_view` built over a mutable view type could write through to the source buffer. Views are always modelled as immutable.
- `serializeOp`, `SnTrapped`, `SnStranded`, `SwTrapped` and `update`. They are a no-op and constant-return placeholders with no logic.
- Interpolation over the tables. It is not part of this component.
- `finalize` on an empty saturation sequence, and on any curve where `front()`, `back()` or the swap loop's indexing would be undefined. Such curves are excluded by the preconditions `Curves.CurveFinalizable` and `MaterialParams.Finalizable`.
- The setters on immutable storage. They do not compile there, so `SetSamples` requires mutable storage.
- Curves.SwapLoop: the C++ loop counter is a 32-bit `unsigned`, compared with the `size_t` half-length. With 2^33 or more saturations it would wrap and the loop would not end. The model counts with an unbounded integer, because tables that large are not realistic.
- Floating-point specifics (NaN ordering, signed zero). Scalars are `real`.
