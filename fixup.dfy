/**
 * What a list of colour stops means: the "color stop fixup" of section 3.4.3
 * of CSS Images Module Level 3, which turns the written positions into
 * actual places on the gradient line. The reduction is lossless exactly
 * when it leaves these places as they were.
 *
 * The gradient line has length `len`; a percentage is taken of `len`, any
 * other unit stands for `scale(unit)` per unit, and an opaque position such
 * as `calc(...)` resolves to `measure(text)`. These three stand for the
 * layout engine, which is not part of this model.
 */
module Fixup {
  import opened Options
  import opened Positions
  import opened Stops

  function UnitSize(unit: string, len: real, scale: string -> real): real {
    if unit == "%" then len / 100.0 else scale(unit)
  }

  function Offset(d: Dim, len: real, scale: string -> real): real {
    d.magnitude * UnitSize(d.unit, len, scale)
  }

  function Resolve(p: ValidPosition, len: real, scale: string -> real, measure: string -> real): real {
    if p.Comparable? then Offset(DimOf(p), len, scale) else measure(p.text)
  }

  /** The place a stop specifies, if any; unparsed arguments specify none. */
  function SpecifiedAt(s: Stop, len: real, scale: string -> real, measure: string -> real): Option<real> {
    match s
    case Stop(_, Some(p)) => Some(Resolve(p, len, scale, measure))
    case _ => None
  }

  function Specified(stops: seq<Stop>, len: real, scale: string -> real, measure: string -> real): seq<Option<real>> {
    seq(|stops|, i requires 0 <= i < |stops| => SpecifiedAt(stops[i], len, scale, measure))
  }

  /** Step 1: a first stop without a position is placed at 0%, a last one at 100%. */
  function DefaultAt(v: seq<Option<real>>, i: nat, len: real): Option<real>
    requires i < |v|
  {
    if v[i].Some? then v[i] else if i == 0 then Some(0.0) else if i == |v| - 1 then Some(len) else None
  }

  function Defaults(v: seq<Option<real>>, len: real): seq<Option<real>> {
    seq(|v|, i requires 0 <= i < |v| => DefaultAt(v, i, len))
  }

  function Max(a: Option<real>, b: Option<real>): Option<real> {
    if a.None? then b else if b.None? then a else if a.value < b.value then b else a
  }

  /** The largest position specified before stop `i`. */
  function MaxBefore(v: seq<Option<real>>, i: nat): Option<real>
    requires i <= |v|
    decreases i
  {
    if i == 0 then None else Max(MaxBefore(v, i - 1), v[i - 1])
  }

  /** Step 2: a position less than one specified before it is raised to the largest of those. */
  function ClampAt(v: seq<Option<real>>, i: nat): Option<real>
    requires i < |v|
  {
    var m := MaxBefore(v, i);
    if v[i].Some? && m.Some? && v[i].value < m.value then m else v[i]
  }

  function Clamp(v: seq<Option<real>>): seq<Option<real>> {
    seq(|v|, i requires 0 <= i < |v| => ClampAt(v, i))
  }

  /**
   * The places of the stops after steps 1 and 2. Step 3 spaces the
   * remaining stops without a place evenly between their neighbours and
   * reads nothing but this result, so two lists that agree here agree on
   * the whole gradient.
   */
  function Resolved(stops: seq<Stop>, len: real, scale: string -> real, measure: string -> real): seq<Option<real>> {
    Clamp(Defaults(Specified(stops, len, scale, measure), len))
  }

  // ---------------------------------------------------------------------
  // Facts about the fixup

  lemma {:induction false} MaxBeforeBounds(v: seq<Option<real>>, j: nat, i: nat)
    requires j < i <= |v| && v[j].Some?
    ensures MaxBefore(v, i).Some? && v[j].value <= MaxBefore(v, i).value
    decreases i
  {
    if j < i - 1 {
      MaxBeforeBounds(v, j, i - 1);
    }
  }

  /** After the fixup the places never go backwards along the line. */
  lemma ClampOrdered(v: seq<Option<real>>, i: nat, k: nat)
    requires i < k < |v| && Clamp(v)[i].Some? && Clamp(v)[k].Some?
    ensures Clamp(v)[i].value <= Clamp(v)[k].value
  {
    assert MaxBefore(v, i + 1).Some? && Clamp(v)[i].value <= MaxBefore(v, i + 1).value;
    MaxBeforeGrows(v, i + 1, k);
  }

  lemma {:induction false} MaxBeforeGrows(v: seq<Option<real>>, i: nat, k: nat)
    requires i <= k <= |v| && MaxBefore(v, i).Some?
    ensures MaxBefore(v, k).Some? && MaxBefore(v, i).value <= MaxBefore(v, k).value
    decreases k
  {
    if i < k {
      MaxBeforeGrows(v, i, k - 1);
    }
  }

  /**
   * Entry `i` of `b` can stand in for entry `i` of `a`: it is the same, or it
   * is `0` where `a` already lies at or before an earlier non-negative place.
   */
  predicate Hidden(a: seq<Option<real>>, b: seq<Option<real>>, i: nat)
    requires i < |a|
    requires |a| == |b|
  {
    a[i] == b[i]
    || (b[i] == Some(0.0) && a[i].Some? && MaxBefore(a, i).Some?
        && a[i].value <= MaxBefore(a, i).value && 0.0 <= MaxBefore(a, i).value)
  }

  lemma {:induction false} MaxBeforeAgree(a: seq<Option<real>>, b: seq<Option<real>>, i: nat)
    requires |a| == |b| && i <= |a|
    requires forall k :: 0 <= k < |a| ==> Hidden(a, b, k)
    ensures MaxBefore(a, i) == MaxBefore(b, i)
    decreases i
  {
    if i > 0 {
      MaxBeforeAgree(a, b, i - 1);
      assert Hidden(a, b, i - 1);
    }
  }

  /** Lists whose every entry is hidden in this way clamp to the same places. */
  lemma ClampAgree(a: seq<Option<real>>, b: seq<Option<real>>)
    requires |a| == |b|
    requires forall k :: 0 <= k < |a| ==> Hidden(a, b, k)
    ensures Clamp(a) == Clamp(b)
  {
    forall i | 0 <= i < |a| ensures ClampAt(a, i) == ClampAt(b, i) {
      MaxBeforeAgree(a, b, i);
      assert Hidden(a, b, i);
    }
  }

  // ---------------------------------------------------------------------
  // The reduction keeps the gradient

  predicate NonNegative(stops: seq<Stop>) {
    forall i :: 0 <= i < |stops| && HasComparable(stops[i]) ==> 0.0 <= DimOf(stops[i].position.value).magnitude
  }

  lemma ScaleMonotone(x: real, y: real, k: real)
    requires x <= y && 0.0 <= k
    ensures x * k <= y * k
  {
  }

  /** A stop with a position keeps, after step 1, exactly the place it specifies. */
  lemma PlacedAt(stops: seq<Stop>, len: real, scale: string -> real, measure: string -> real, i: nat)
    requires i < |stops| && stops[i].Stop? && stops[i].position.Some?
    ensures Defaults(Specified(stops, len, scale, measure), len)[i] == Some(Resolve(stops[i].position.value, len, scale, measure))
  {
  }

  /** An entry written as `0` is hidden when an earlier non-negative entry is no smaller than the one it replaces. */
  lemma HiddenByEarlier(a: seq<Option<real>>, b: seq<Option<real>>, j: nat, i: nat)
    requires |a| == |b| && j < i < |a|
    requires a[j].Some? && a[i].Some? && a[i].value <= a[j].value && 0.0 <= a[j].value
    requires b[i] == Some(0.0)
    ensures Hidden(a, b, i)
  {
    MaxBeforeBounds(a, j, i);
  }

  /** Same unit, not larger, non-negative unit size: the place is not after the earlier one. */
  lemma OffsetNotAfter(d: Dim, e: Dim, len: real, scale: string -> real)
    requires 0.0 <= len && (forall u :: 0.0 <= scale(u))
    requires NotAfter(d, e) && 0.0 <= e.magnitude
    ensures Offset(d, len, scale) <= Offset(e, len, scale)
    ensures 0.0 <= Offset(e, len, scale)
  {
    var size := UnitSize(d.unit, len, scale);
    assert 0.0 <= size;
    ScaleMonotone(d.magnitude, e.magnitude, size);
    ScaleMonotone(0.0, e.magnitude, size);
  }

  lemma ZeroResolves(len: real, scale: string -> real, measure: string -> real)
    ensures Resolve(Zero, len, scale, measure) == 0.0
  {
    ZeroDimIsZero();
  }

  /** The case where the reduction writes `0`: the earlier stop it was compared with already holds step 2 at or beyond it. */
  lemma ZeroIsHidden(stops: seq<Stop>, len: real, scale: string -> real, measure: string -> real, i: nat)
    requires 0.0 <= len && (forall u :: 0.0 <= scale(u)) && NonNegative(stops)
    requires i < |stops| && HasComparable(stops[i]) && PrevAt(stops, i).Some?
    requires NotAfter(DimOf(stops[i].position.value), PrevAt(stops, i).value)
    requires Reduce(stops)[i] == Stop(stops[i].color, Some(Zero))
    ensures Hidden(Defaults(Specified(stops, len, scale, measure), len),
                   Defaults(Specified(Reduce(stops), len, scale, measure), len), i)
  {
    var j := PrevAtSource(stops, i);
    OffsetNotAfter(DimOf(stops[i].position.value), DimOf(stops[j].position.value), len, scale);
    PlacedAt(stops, len, scale, measure, i);
    PlacedAt(stops, len, scale, measure, j);
    PlacedAt(Reduce(stops), len, scale, measure, i);
    ZeroResolves(len, scale, measure);
    HiddenByEarlier(Defaults(Specified(stops, len, scale, measure), len),
                    Defaults(Specified(Reduce(stops), len, scale, measure), len), j, i);
  }

  lemma StopIsHidden(stops: seq<Stop>, len: real, scale: string -> real, measure: string -> real, i: nat)
    requires 0.0 <= len && (forall u :: 0.0 <= scale(u)) && NonNegative(stops)
    requires i < |stops|
    ensures Hidden(Defaults(Specified(stops, len, scale, measure), len),
                   Defaults(Specified(Reduce(stops), len, scale, measure), len), i)
  {
    ReduceAt(stops, i);
    var prev := PrevAt(stops, i);
    if HasComparable(stops[i]) {
      var p := stops[i].position.value;
      var place := PlaceOf(i, |stops|);
      if place == First && IsPercent(p, 0.0) {
        PlacedAt(stops, len, scale, measure, i);
        assert Resolve(p, len, scale, measure) == 0.0;
      } else if place == Last && IsPercent(p, 100.0) {
        PlacedAt(stops, len, scale, measure, i);
        assert Resolve(p, len, scale, measure) == len;
      } else if prev.Some? && NotAfter(DimOf(p), prev.value) {
        ZeroIsHidden(stops, len, scale, measure, i);
      }
    }
  }

  /**
   * With non-negative positions, the reduced list puts every stop at the
   * same place on the gradient line as the list it came from, whatever the
   * length of the line and the size of each unit.
   */
  lemma ReduceIsLossless(stops: seq<Stop>, len: real, scale: string -> real, measure: string -> real)
    requires 0.0 <= len
    requires forall u :: 0.0 <= scale(u)
    requires NonNegative(stops)
    ensures Resolved(Reduce(stops), len, scale, measure) == Resolved(stops, len, scale, measure)
  {
    var a := Defaults(Specified(stops, len, scale, measure), len);
    var b := Defaults(Specified(Reduce(stops), len, scale, measure), len);
    forall k | 0 <= k < |a| ensures Hidden(a, b, k) {
      StopIsHidden(stops, len, scale, measure, k);
    }
    ClampAgree(a, b);
  }

  /** Two stops at `-5px` and `-10px`. */
  function Backwards(): seq<Stop> {
    [Stop("red", Some(Comparable(Numeral("-", "5", None), "px"))),
     Stop("blue", Some(Comparable(Numeral("-", "10", None), "px")))]
  }

  /**
   * The requirement on the signs cannot be dropped: `-10px` after `-5px`
   * is raised to `-5px` by the fixup, but the reduction writes `0`, which
   * lies after it.
   */
  lemma NegativeIsLossy(len: real, scale: string -> real, measure: string -> real)
    requires 0.0 < scale("px")
    ensures Resolved(Reduce(Backwards()), len, scale, measure) != Resolved(Backwards(), len, scale, measure)
  {
    var stops := Backwards();
    assert DimOf(stops[0].position.value) == Dim(-5.0, "px");
    assert DimOf(stops[1].position.value) == Dim(-10.0, "px");
    ReduceAt(stops, 1);
    assert Reduce(stops)[1] == Stop("blue", Some(Zero));
    ZeroResolves(len, scale, measure);
    var a := Defaults(Specified(stops, len, scale, measure), len);
    var b := Defaults(Specified(Reduce(stops), len, scale, measure), len);
    assert a[0] == Some(-5.0 * scale("px"));
    assert MaxBefore(a, 1) == a[0];
    assert b[1] == Some(0.0);
    assert Clamp(b)[1] == Some(0.0) != Clamp(a)[1];
  }
}
