/**
 The parameter object of the piecewise-linear two-phase material law: three
 sampled curves (capillary pressure, wetting and non-wetting relative
 permeability, all over the wetting-phase saturation), the one-shot
 "finalized" latch that guards their accessors, the kind of storage the
 tables live in, and the view projection onto immutable storage.
 */
module MaterialParams {
  import opened Results
  import opened Curves

  /** Names the three curves of the object. */
  datatype CurveId =
    /** capillary pressure: `SwPcwnSamples_` and `pcwnSamples_` */
    | Pcwn
    /** wetting-phase relative permeability: `SwKrwSamples_` and `krwSamples_` */
    | Krw
    /** non-wetting-phase relative permeability: `SwKrnSamples_` and `krnSamples_` */
    | Krn

  datatype Params = Params(pcwn: Curve, krw: Curve, krn: Curve, finalized: bool, storage: Storage)

  function CurveOf(p: Params, id: CurveId): Curve {
    match id
    case Pcwn => p.pcwn
    case Krw => p.krw
    case Krn => p.krn
  }

  /** The default constructor: three empty curves and the latch not set. */
  function Empty(storage: Storage): (p: Params)
    ensures !p.finalized && p.storage == storage
    ensures forall id :: CurveOf(p, id) == Curve([], [])
    ensures forall id :: SaturationSamples(p, id) == Err(NotFinalized) && ValueSamples(p, id) == Err(NotFinalized)
  {
    Params(Curve([], []), Curve([], []), Curve([], []), false, storage)
  }

  /** What `finalize` needs for its C++ to be defined. The curves are handled
      in the order capillary pressure, wetting, non-wetting, and a curve is
      only read if the ones before it did not raise the error. */
  predicate Finalizable(p: Params) {
    && CurveFinalizable(p.pcwn, p.storage)
    && (Normalize(p.pcwn, p.storage).Ok? ==>
          && CurveFinalizable(p.krw, p.storage)
          && (Normalize(p.krw, p.storage).Ok? ==> CurveFinalizable(p.krn, p.storage)))
  }

  /** `finalize`: sets the latch and normalizes the three curves one after the
      other; a curve that needs reversal on immutable storage raises the
      logic error. */
  function Finalize(p: Params): (r: Result<Params>)
    requires Finalizable(p)
    ensures r.Err? <==>
              && p.storage == Immutable
              && (NeedsReversal(p.pcwn) || NeedsReversal(p.krw) || NeedsReversal(p.krn))
    ensures r.Err? ==> r.error == WrongOrderOnImmutable
    ensures r.Ok? ==> r.value.finalized && r.value.storage == p.storage
    ensures r.Ok? ==> forall id :: CurveFinalizable(CurveOf(p, id), p.storage)
    ensures r.Ok? ==> forall id :: Normalize(CurveOf(p, id), p.storage) == Ok(CurveOf(r.value, id))
  {
    var pcwn :- Normalize(p.pcwn, p.storage);
    var krw :- Normalize(p.krw, p.storage);
    var krn :- Normalize(p.krn, p.storage);
    Ok(Params(pcwn, krw, krn, true, p.storage))
  }

  /** The imperative `finalize`, one call of the swap routine per curve. */
  method FinalizeImperative(p: Params) returns (r: Result<Params>)
    requires Finalizable(p)
    ensures r == Finalize(p)
  {
    var pcwn :- SwapOrderIfPossible(p.pcwn, p.storage);
    var krw :- SwapOrderIfPossible(p.krw, p.storage);
    var krn :- SwapOrderIfPossible(p.krn, p.storage);
    return Ok(Params(pcwn, krw, krn, true, p.storage));
  }

  /** The six-argument constructor: stores the sequences as given, without
      comparing their lengths, and runs `finalize`. */
  function Construct(swPcwn: seq<Scalar>, pcwn: seq<Scalar>,
                     swKrw: seq<Scalar>, krw: seq<Scalar>,
                     swKrn: seq<Scalar>, krn: seq<Scalar>,
                     storage: Storage): (r: Result<Params>)
    requires Finalizable(Params(Curve(swPcwn, pcwn), Curve(swKrw, krw), Curve(swKrn, krn), false, storage))
    ensures r.Err? <==>
              && storage == Immutable
              && (NeedsReversal(Curve(swPcwn, pcwn)) || NeedsReversal(Curve(swKrw, krw)) || NeedsReversal(Curve(swKrn, krn)))
    ensures r.Err? ==> r.error == WrongOrderOnImmutable
    ensures storage == Mutable ==> r.Ok?
    ensures r.Ok? ==> r.value.finalized && r.value.storage == storage
    ensures r.Ok? ==> forall id :: Normalize(CurveOf(Params(Curve(swPcwn, pcwn), Curve(swKrw, krw), Curve(swKrn, krn), false, storage), id), storage)
                                   == Ok(CurveOf(r.value, id))
  {
    Finalize(Params(Curve(swPcwn, pcwn), Curve(swKrw, krw), Curve(swKrn, krn), false, storage))
  }

  /** The saturation accessors `SwPcwnSamples`, `SwKrwSamples` and
      `SwKrnSamples`: only usable once the latch is set. */
  function SaturationSamples(p: Params, id: CurveId): (r: Result<seq<Scalar>>)
    ensures r.Ok? <==> p.finalized
    ensures r.Ok? ==> r.value == CurveOf(p, id).sw
    ensures r.Err? ==> r.error == NotFinalized
  {
    if p.finalized then Ok(CurveOf(p, id).sw) else Err(NotFinalized)
  }

  /** The value accessors `pcwnSamples`, `krwSamples` and `krnSamples`: only
      usable once the latch is set. */
  function ValueSamples(p: Params, id: CurveId): (r: Result<seq<Scalar>>)
    ensures r.Ok? <==> p.finalized
    ensures r.Ok? ==> r.value == CurveOf(p, id).values
    ensures r.Err? ==> r.error == NotFinalized
  {
    if p.finalized then Ok(CurveOf(p, id).values) else Err(NotFinalized)
  }

  /** The setters `setPcnwSamples`, `setKrwSamples` and `setKrnSamples`:
      replace both sequences of one curve. They demand equal lengths and,
      since they write into the storage, mutable storage. */
  function SetSamples(p: Params, id: CurveId, sw: seq<Scalar>, values: seq<Scalar>): (r: Params)
    requires p.storage == Mutable
    requires |sw| == |values|
    ensures CurveOf(r, id) == Curve(sw, values)
    ensures forall other :: other != id ==> CurveOf(r, other) == CurveOf(p, other)
    ensures r.finalized == p.finalized && r.storage == p.storage
  {
    match id
    case Pcwn => p.(pcwn := Curve(sw, values))
    case Krw => p.(krw := Curve(sw, values))
    case Krn => p.(krn := Curve(sw, values))
  }

  /** The object `p` seen through immutable storage, before the constructor
      of the view has run `finalize`. */
  function AsView(p: Params): Params {
    p.(finalized := false, storage := Immutable)
  }

  /** `make_view`: reads the six sequences through the accessors (which
      fail on an object that is not finalized) and builds
      a new object over immutable storage with the six-argument
      constructor, which runs `finalize` again. */
  function MakeView(p: Params): (r: Result<Params>)
    requires p.finalized ==> Finalizable(AsView(p))
    ensures !p.finalized ==> r == Err(NotFinalized)
    ensures p.finalized ==>
              (r.Err? <==> NeedsReversal(p.pcwn) || NeedsReversal(p.krw) || NeedsReversal(p.krn))
    ensures p.finalized && r.Err? ==> r.error == WrongOrderOnImmutable
    ensures r.Ok? ==> r.value.storage == Immutable && r.value.finalized
    ensures r.Ok? ==> forall id :: CurveOf(r.value, id) == CurveOf(p, id)
  {
    if !p.finalized then Err(NotFinalized)
    else
      Construct(SaturationSamples(p, Pcwn).value, ValueSamples(p, Pcwn).value,
                SaturationSamples(p, Krw).value, ValueSamples(p, Krw).value,
                SaturationSamples(p, Krn).value, ValueSamples(p, Krn).value,
                Immutable)
  }
}
