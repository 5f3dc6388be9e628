/**
 One sampled curve of the two-phase material law: a sequence of wetting-phase
 saturations and the sequence of values sampled at them, together with the
 per-curve step of `finalize` that puts a curve given back-to-front into
 ascending order.
 */
module Curves {
  import opened Results

  /** The scalar of the tables. It is only ever compared. */
  type Scalar = real

  /** Whether the storage of the tables may be written. It is `Immutable`
      when the container type or its element type is `const`, as for
      `const gpuBuffer<double>` or `gpuView<const double>`, and `Mutable`
      otherwise. */
  datatype Storage = Mutable | Immutable

  /** Saturation samples `sw` and the values `values` sampled at them. */
  datatype Curve = Curve(sw: seq<Scalar>, values: seq<Scalar>)

  function Front<T>(s: seq<T>): T
    requires |s| > 0
  {
    s[0]
  }

  function Back<T>(s: seq<T>): T
    requires |s| > 0
  {
    s[|s| - 1]
  }

  /** Reference definition of the reversal of a sequence. */
  function Reverse<T>(s: seq<T>): (r: seq<T>)
    ensures |r| == |s|
  {
    if |s| == 0 then [] else Reverse(s[1..]) + [s[0]]
  }

  lemma {:induction false} ReverseIndex<T>(s: seq<T>)
    ensures forall i :: 0 <= i < |s| ==> Reverse(s)[i] == s[|s| - 1 - i]
  {
    if |s| > 0 {
      ReverseIndex(s[1..]);
      forall i | 0 <= i < |s|
        ensures Reverse(s)[i] == s[|s| - 1 - i]
      {
        if i < |s| - 1 {
          assert Reverse(s)[i] == Reverse(s[1..])[i];
        }
      }
    }
  }

  /** Reversing twice gives back the original sequence. */
  lemma {:induction false} ReverseReverse<T>(s: seq<T>)
    ensures Reverse(Reverse(s)) == s
  {
    ReverseIndex(s);
    ReverseIndex(Reverse(s));
  }

  ghost predicate NonIncreasing(s: seq<Scalar>) {
    forall i, j :: 0 <= i < j < |s| ==> s[i] >= s[j]
  }

  ghost predicate NonDecreasing(s: seq<Scalar>) {
    forall i, j :: 0 <= i < j < |s| ==> s[i] <= s[j]
  }

  /** A sequence sorted backwards is sorted forwards once reversed. */
  lemma {:induction false} ReverseNonIncreasing(s: seq<Scalar>)
    requires NonIncreasing(s)
    ensures NonDecreasing(Reverse(s))
  {
    ReverseIndex(s);
    forall i, j | 0 <= i < j < |s|
      ensures Reverse(s)[i] <= Reverse(s)[j]
    {
      var i', j' := |s| - 1 - j, |s| - 1 - i;
      assert s[i'] >= s[j'];
    }
  }

  /** The saturations were given back-to-front: first sample beyond the last. */
  predicate Backwards(c: Curve)
    requires |c.sw| > 0
  {
    Front(c.sw) > Back(c.sw)
  }

  /** The legacy eligibility test of the reversal: it compares the first
      SATURATION with the last VALUE of the curve, not with the last
      saturation. It is kept literally. */
  predicate LegacyEligible(c: Curve)
    requires |c.sw| > 0 && |c.values| > 0
  {
    Front(c.sw) > Back(c.values)
  }

  /** What `finalize` needs of a curve for its C++ to be defined: `front()`
      and `back()` of the saturations are read always, `back()` of the
      values only when the saturations are backwards, and the swap loop,
      which runs over the saturation indices, reads the values at those
      indices only when it runs. */
  predicate CurveFinalizable(c: Curve, storage: Storage) {
    && |c.sw| > 0
    && (Backwards(c) ==>
          && |c.values| > 0
          && (storage == Mutable && LegacyEligible(c) ==> |c.sw| <= |c.values|))
  }

  /** Both tests of the reversal pass. */
  predicate NeedsReversal(c: Curve)
    requires |c.sw| > 0
    requires Backwards(c) ==> |c.values| > 0
  {
    Backwards(c) && LegacyEligible(c)
  }

  /** `s` with its first `n` elements reversed and the rest in place. */
  function ReversePrefix<T>(s: seq<T>, n: nat): seq<T>
    requires n <= |s|
  {
    Reverse(s[..n]) + s[n..]
  }

  /** The curve after the swap loop: the saturations are reversed, and so
      are the values at the saturation indices; values beyond the last
      saturation index, if any, are not touched. */
  function ReverseCurve(c: Curve): Curve
    requires |c.sw| <= |c.values|
  {
    Curve(Reverse(c.sw), ReversePrefix(c.values, |c.sw|))
  }

  /** The per-curve step of `finalize`: a curve that needs reversal is
      reversed on mutable storage and refused on immutable storage; any
      other curve is kept as it is. */
  function Normalize(c: Curve, storage: Storage): (r: Result<Curve>)
    requires CurveFinalizable(c, storage)
    ensures r.Err? <==> storage == Immutable && NeedsReversal(c)
    ensures r.Err? ==> r.error == WrongOrderOnImmutable
    ensures r.Ok? ==> |r.value.sw| == |c.sw| && |r.value.values| == |c.values|
    ensures !Backwards(c) ==> r == Ok(c)
    ensures Backwards(c) && !LegacyEligible(c) ==> r == Ok(c)
  {
    if NeedsReversal(c) then
      if storage == Mutable then Ok(ReverseCurve(c)) else Err(WrongOrderOnImmutable)
    else
      Ok(c)
  }

  /** `std::swap` of the elements at indices `i` and `j`. */
  function Swap<T>(s: seq<T>, i: int, j: int): (r: seq<T>)
    requires 0 <= i < |s| && 0 <= j < |s|
    ensures |r| == |s|
  {
    s[i := s[j]][j := s[i]]
  }

  /** The state of the swap loop over the first `n` elements of `s` after
      its first `i` turns. */
  function Mirror<T>(s: seq<T>, n: int, i: int): (r: seq<T>)
    requires 0 <= i <= n / 2 && n <= |s|
    ensures |r| == |s|
  {
    if i == 0 then s else Swap(Mirror(s, n, i - 1), i - 1, n - i)
  }

  /** After `i` turns the first and the last `i` of the first `n` elements
      are mirrored, and the middle ones and everything from index `n` on
      are untouched. */
  lemma {:induction false} MirrorIndex<T>(s: seq<T>, n: int, i: int)
    requires 0 <= i <= n / 2 && n <= |s|
    ensures forall k :: 0 <= k < i ==> Mirror(s, n, i)[k] == s[n - 1 - k]
    ensures forall k :: n - i <= k < n ==> Mirror(s, n, i)[k] == s[n - 1 - k]
    ensures forall k :: (i <= k < n - i || n <= k < |s|) ==> Mirror(s, n, i)[k] == s[k]
  {
    if i > 0 {
      MirrorIndex(s, n, i - 1);
      var prev := Mirror(s, n, i - 1);
      assert Mirror(s, n, i) == prev[i - 1 := prev[n - i]][n - i := prev[i - 1]];
    }
  }

  /** Once the loop has run `n / 2` times, the first `n` elements are
      reversed and the rest are untouched. */
  lemma MirrorDone<T>(s: seq<T>, n: int)
    requires 0 <= n <= |s|
    ensures forall k :: 0 <= k < n ==> Mirror(s, n, n / 2)[k] == s[n - 1 - k]
    ensures forall k :: n <= k < |s| ==> Mirror(s, n, n / 2)[k] == s[k]
  {
    MirrorIndex(s, n, n / 2);
    forall k | 0 <= k < n
      ensures Mirror(s, n, n / 2)[k] == s[n - 1 - k]
    {
      if n / 2 <= k < n - n / 2 {
        assert k == n - 1 - k;
      }
    }
  }

  /** The swap loop of the reversal over the saturation indices: sample `i`
      trades places with sample `n - 1 - i` in both sequences, where `n` is
      the number of saturations. */
  method SwapLoop<T>(sw: seq<T>, values: seq<T>) returns (newSw: seq<T>, newValues: seq<T>)
    requires |sw| <= |values|
    ensures |newSw| == |sw| && |newValues| == |values|
    ensures forall k :: 0 <= k < |sw| ==> newSw[k] == sw[|sw| - 1 - k]
    ensures forall k :: 0 <= k < |sw| ==> newValues[k] == values[|sw| - 1 - k]
    ensures forall k :: |sw| <= k < |values| ==> newValues[k] == values[k]
  {
    var n := |sw|;
    newSw, newValues := sw, values;
    var i := 0;
    while i < n / 2
      invariant i <= n / 2
      invariant newSw == Mirror(sw, n, i)
      invariant newValues == Mirror(values, n, i)
    {
      var j := n - 1 - i;
      newSw := Swap(newSw, i, j);
      newValues := Swap(newValues, i, j);
      i := i + 1;
    }
    MirrorDone(sw, n);
    MirrorDone(values, n);
  }

  /** The imperative `swapOrderIfPossibleThrowOtherwise_` together with the
      test in `finalize` that guards its call. */
  method SwapOrderIfPossible(c: Curve, storage: Storage) returns (r: Result<Curve>)
    requires CurveFinalizable(c, storage)
    ensures r == Normalize(c, storage)
  {
    if Front(c.sw) > Back(c.sw) {
      if Front(c.sw) > Back(c.values) {
        if storage == Mutable {
          var newSw, newValues := SwapLoop(c.sw, c.values);
          var n := |c.sw|;
          ReverseIndex(c.sw);
          ReverseIndex(c.values[..n]);
          assert newSw == ReverseCurve(c).sw;
          assert newValues == ReverseCurve(c).values;
          return Ok(Curve(newSw, newValues));
        } else {
          return Err(WrongOrderOnImmutable);
        }
      }
    }
    return Ok(c);
  }

  /** A curve that `finalize` leaves as it is on any storage: its ends can
      be read and it does not pass both tests of the reversal. */
  predicate Settled(c: Curve) {
    CurveFinalizable(c, Immutable) && !NeedsReversal(c)
  }

  /** Every curve `Normalize` yields is settled. */
  lemma NormalizeSettles(c: Curve, storage: Storage)
    requires CurveFinalizable(c, storage)
    requires Normalize(c, storage).Ok?
    ensures Settled(Normalize(c, storage).value)
  {
    if NeedsReversal(c) {
      var r := Normalize(c, storage).value;
      ReverseIndex(c.sw);
      assert Front(r.sw) == Back(c.sw) && Back(r.sw) == Front(c.sw);
    }
  }

  /** A settled curve is a fixed point of `Normalize` on either storage. */
  lemma SettledIsFixed(c: Curve, storage: Storage)
    requires Settled(c)
    ensures CurveFinalizable(c, storage) && Normalize(c, storage) == Ok(c)
  {
  }

  /** The reversal of a curve undoes itself: reversing the reversed curve
      gives back the original saturations and values. */
  lemma {:induction false} ReverseCurveRoundTrip(c: Curve)
    requires |c.sw| <= |c.values|
    ensures ReverseCurve(ReverseCurve(c)) == c
  {
    var n := |c.sw|;
    var v' := ReversePrefix(c.values, n);
    assert v'[..n] == Reverse(c.values[..n]);
    assert v'[n..] == c.values[n..];
    ReverseReverse(c.sw);
    ReverseReverse(c.values[..n]);
    assert ReversePrefix(v', n) == c.values[..n] + c.values[n..];
    assert c.values[..n] + c.values[n..] == c.values;
  }

  /** The reversal keeps every saturation with the value sampled at it:
      the pair at index `i` moves to index `n - 1 - i`. */
  lemma {:induction false} ReverseCurvePairs(c: Curve)
    requires |c.sw| <= |c.values|
    ensures |ReverseCurve(c).sw| == |c.sw| && |ReverseCurve(c).values| == |c.values|
    ensures forall i :: 0 <= i < |c.sw| ==>
              && ReverseCurve(c).sw[|c.sw| - 1 - i] == c.sw[i]
              && ReverseCurve(c).values[|c.sw| - 1 - i] == c.values[i]
    ensures forall i :: |c.sw| <= i < |c.values| ==> ReverseCurve(c).values[i] == c.values[i]
    ensures |c.sw| == |c.values| ==> ReverseCurve(c) == Curve(Reverse(c.sw), Reverse(c.values))
  {
    var n := |c.sw|;
    ReverseIndex(c.sw);
    ReverseIndex(c.values[..n]);
    if n == |c.values| {
      assert c.values[..n] == c.values;
    }
  }
}
