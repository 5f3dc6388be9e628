/**
 Properties of `finalize`, the setters and `make_view` over the whole
 parameter object.
 */
module ParamsTheorems {
  import opened Results
  import opened Curves
  import opened MaterialParams

  /** Each curve is normalized on its own: what `finalize` makes of a curve
      is `Normalize` of that curve, whatever the other two curves hold. */
  lemma FinalizePerCurve(p: Params, id: CurveId)
    requires Finalizable(p)
    requires Finalize(p).Ok?
    ensures CurveFinalizable(CurveOf(p, id), p.storage)
    ensures Normalize(CurveOf(p, id), p.storage) == Ok(CurveOf(Finalize(p).value, id))
  {
    assert Normalize(p.pcwn, p.storage).Ok?;
    assert Normalize(p.krw, p.storage).Ok?;
  }

  /** Two objects that agree on one curve and on the storage end up with the
      same version of that curve after `finalize`. */
  lemma FinalizeIndependent(p: Params, q: Params, id: CurveId)
    requires Finalizable(p) && Finalize(p).Ok?
    requires Finalizable(q) && Finalize(q).Ok?
    requires CurveOf(p, id) == CurveOf(q, id) && p.storage == q.storage
    ensures CurveOf(Finalize(p).value, id) == CurveOf(Finalize(q).value, id)
  {
    FinalizePerCurve(p, id);
    FinalizePerCurve(q, id);
  }

  /** A curve whose first saturation does not exceed its last one is left
      exactly as it was. */
  lemma FinalizeKeepsForwardCurve(p: Params, id: CurveId)
    requires Finalizable(p) && Finalize(p).Ok?
    requires |CurveOf(p, id).sw| > 0
    requires Front(CurveOf(p, id).sw) <= Back(CurveOf(p, id).sw)
    ensures CurveOf(Finalize(p).value, id) == CurveOf(p, id)
  {
    FinalizePerCurve(p, id);
  }

  /** The legacy test: a backwards curve whose first saturation does not
      exceed the LAST VALUE of the curve is left exactly as it was. */
  lemma FinalizeKeepsLegacyIneligibleCurve(p: Params, id: CurveId)
    requires Finalizable(p) && Finalize(p).Ok?
    requires |CurveOf(p, id).sw| > 0 && |CurveOf(p, id).values| > 0
    requires Front(CurveOf(p, id).sw) > Back(CurveOf(p, id).sw)
    requires Front(CurveOf(p, id).sw) <= Back(CurveOf(p, id).values)
    ensures CurveOf(Finalize(p).value, id) == CurveOf(p, id)
  {
    FinalizePerCurve(p, id);
  }

  /** On mutable storage a curve that passes both tests is reversed: the
      lengths are kept and the sample pair at index `i` moves to index
      `n - 1 - i`; with equally long sequences both are exactly reversed. */
  lemma FinalizeReversesOnMutable(p: Params, id: CurveId)
    requires p.storage == Mutable && Finalizable(p)
    requires |CurveOf(p, id).sw| > 0 && |CurveOf(p, id).values| > 0
    requires Front(CurveOf(p, id).sw) > Back(CurveOf(p, id).sw)
    requires Front(CurveOf(p, id).sw) > Back(CurveOf(p, id).values)
    ensures Finalize(p).Ok?
    ensures var c, c' := CurveOf(p, id), CurveOf(Finalize(p).value, id);
            && c'.sw == Reverse(c.sw)
            && |c'.sw| == |c.sw| && |c'.values| == |c.values|
            && (forall i :: 0 <= i < |c.sw| ==>
                  c'.sw[|c.sw| - 1 - i] == c.sw[i] && c'.values[|c.sw| - 1 - i] == c.values[i])
            && (|c.sw| == |c.values| ==> c'.values == Reverse(c.values))
  {
    FinalizePerCurve(p, id);
    ReverseCurvePairs(CurveOf(p, id));
  }

  /** A backwards curve whose saturations decrease throughout and which passes
      the legacy test comes out of `finalize` with ascending saturations. */
  lemma FinalizeSortsDescendingCurve(p: Params, id: CurveId)
    requires p.storage == Mutable && Finalizable(p)
    requires |CurveOf(p, id).values| > 0 && NonIncreasing(CurveOf(p, id).sw)
    requires |CurveOf(p, id).sw| > 0 && Front(CurveOf(p, id).sw) > Back(CurveOf(p, id).sw)
    requires Front(CurveOf(p, id).sw) > Back(CurveOf(p, id).values)
    ensures Finalize(p).Ok? && NonDecreasing(CurveOf(Finalize(p).value, id).sw)
  {
    FinalizeReversesOnMutable(p, id);
    ReverseNonIncreasing(CurveOf(p, id).sw);
  }

  /** Every curve of a finalized object is settled. */
  lemma FinalizeSettles(p: Params, id: CurveId)
    requires Finalizable(p) && Finalize(p).Ok?
    ensures Settled(CurveOf(Finalize(p).value, id))
  {
    FinalizePerCurve(p, id);
    NormalizeSettles(CurveOf(p, id), p.storage);
  }

  /** On immutable storage a successful `finalize` changes no sequence. */
  lemma FinalizeOnImmutableChangesNothing(p: Params, id: CurveId)
    requires p.storage == Immutable && Finalizable(p) && Finalize(p).Ok?
    ensures CurveOf(Finalize(p).value, id) == CurveOf(p, id)
  {
    FinalizePerCurve(p, id);
  }

  /** `finalize` is idempotent: running it on its own result succeeds and
      changes nothing. */
  lemma FinalizeIdempotent(p: Params)
    requires Finalizable(p) && Finalize(p).Ok?
    ensures Finalizable(Finalize(p).value)
    ensures Finalize(Finalize(p).value) == Finalize(p)
  {
    var q := Finalize(p).value;
    FinalizeSettles(p, Pcwn);
    FinalizeSettles(p, Krw);
    FinalizeSettles(p, Krn);
    SettledIsFixed(q.pcwn, q.storage);
    SettledIsFixed(q.krw, q.storage);
    SettledIsFixed(q.krn, q.storage);
  }

  /** The view of a finalized object never raises the error and holds the
      same six sequences, now over immutable storage. */
  lemma ViewOfFinalized(p: Params)
    requires Finalizable(p) && Finalize(p).Ok?
    ensures Finalizable(AsView(Finalize(p).value))
    ensures MakeView(Finalize(p).value) == Ok(Finalize(p).value.(storage := Immutable))
  {
    var q := Finalize(p).value;
    FinalizeSettles(p, Pcwn);
    FinalizeSettles(p, Krw);
    FinalizeSettles(p, Krn);
    SettledIsFixed(q.pcwn, Immutable);
    SettledIsFixed(q.krw, Immutable);
    SettledIsFixed(q.krn, Immutable);
  }

  /** After the setter, `finalize` treats the new curve exactly as the
      per-curve step prescribes and the other two curves as before. */
  lemma SetThenFinalize(p: Params, id: CurveId, sw: seq<Scalar>, values: seq<Scalar>)
    requires p.storage == Mutable && |sw| == |values|
    requires Finalizable(SetSamples(p, id, sw, values))
    ensures Finalize(SetSamples(p, id, sw, values)).Ok?
    ensures CurveFinalizable(Curve(sw, values), Mutable)
    ensures Normalize(Curve(sw, values), Mutable) == Ok(CurveOf(Finalize(SetSamples(p, id, sw, values)).value, id))
  {
    FinalizePerCurve(SetSamples(p, id, sw, values), id);
  }

  /** The legacy test keeps this backwards curve as it is: saturations
      0.8, 0.5, 0.2 with values 10, 20, 30. The first saturation does not
      exceed the last value, so the curve stays descending. */
  lemma LegacyTestKeepsDescendingExample()
    ensures var c := Curve([0.8, 0.5, 0.2], [10.0, 20.0, 30.0]);
            && CurveFinalizable(c, Mutable)
            && Backwards(c)
            && Normalize(c, Mutable) == Ok(c)
  {
  }
}
