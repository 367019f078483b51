/**
 * Colour stops and the reduction of their positions. Each argument after
 * the direction or shape is read into a colour token and an optional
 * position. The reduction walks the stops left to right carrying the
 * previous comparable position; a position in the same unit that is not
 * larger than it becomes `0`, a `0%` on the first stop and a `100%` on the
 * last are dropped, and everything else is kept byte for byte.
 */
module Stops {
  import opened Options
  import opened Scanner
  import opened Positions

  /**
   * A colour stop: its colour token and at most one position. Arguments of
   * any other shape (several positions, stray spaces, nothing at all) are
   * kept as they were written and never rewritten.
   */
  datatype Stop = Stop(color: string, position: Option<ValidPosition>) | Unparsed(text: string)

  /** Reads one argument: a colour word, optionally followed by one space and a position word. */
  function ParseStop(t: string): Stop {
    var words := Split(t, ' ');
    if |words| == 1 && words[0] != [] then Stop(t, None)
    else if |words| == 2 && words[0] != [] && words[1] != [] then Stop(words[0], Some(Parse(words[1])))
    else Unparsed(t)
  }

  function RenderStop(s: Stop): string {
    match s
    case Stop(c, None) => c
    case Stop(c, Some(p)) => c + " " + Render(p)
    case Unparsed(t) => t
  }

  /** A stop renders exactly as the argument it was read from. */
  lemma RenderParseStop(t: string)
    ensures RenderStop(ParseStop(t)) == t
  {
    var words := Split(t, ' ');
    JoinSplit(t, ' ');
    if |words| == 2 && words[0] != [] && words[1] != [] {
      assert Join(words, ' ') == words[0] + [' '] + words[1];
    }
  }

  /** An argument read as a stop with a position is its colour word, one space and its position word. */
  lemma PositionedParts(t: string)
    requires ParseStop(t).Stop? && ParseStop(t).position.Some?
    ensures t == ParseStop(t).color + " " + Render(ParseStop(t).position.value)
    ensures ParseStop(t).color != [] && Split(t, ' ')[0] == ParseStop(t).color
    ensures NoTopLevel(ParseStop(t).color, ' ', 0) && DepthAfter(ParseStop(t).color, 0) == 0
  {
    var words := Split(t, ' ');
    JoinSplit(t, ' ');
    SplitIsWell(t, ' ');
    assert Join(words, ' ') == words[0] + [' '] + words[1];
    assert Render(Parse(words[1])) == words[1];
  }

  /** A single word is read as a stop without a position. */
  lemma BareReads(c: string)
    requires c != [] && NoTopLevel(c, ' ', 0)
    ensures ParseStop(c) == Stop(c, None) && Split(c, ' ')[0] == c
  {
    SplitSingle(c, ' ');
  }

  /** A word followed by ` 0` is read as a stop at the position `0`. */
  lemma ZeroReads(c: string)
    requires c != [] && NoTopLevel(c, ' ', 0) && DepthAfter(c, 0) == 0
    ensures ParseStop(c + " 0") == Stop(c, Some(Zero)) && Split(c + " 0", ' ')[0] == c
  {
    ZeroParses();
    assert Flat("0");
    FlatNoTopLevel("0", ' ', 0);
    assert c + " 0" == c + [' '] + "0";
    SplitTwo(c, "0", ' ');
  }

  /** The start of a text free of top-level commas is free of them too. */
  lemma CommaFreePrefix(c: string, rest: string)
    requires NoTopLevel(c + rest, ',', 0)
    ensures NoTopLevel(c, ',', 0)
  {
    NoTopLevelAppend(c, rest, ',', 0);
  }

  /** Appending ` 0` to balanced text without top-level commas keeps it so. */
  lemma ZeroCommaFree(c: string)
    requires NoTopLevel(c, ',', 0) && DepthAfter(c, 0) == 0
    ensures NoTopLevel(c + " 0", ',', 0) && DepthAfter(c + " 0", 0) == 0
  {
    assert Flat(" 0");
    FlatNoTopLevel(" 0", ',', 0);
    NoTopLevelAppend(c, " 0", ',', 0);
    DepthAfterAppend(c, " 0", 0);
    FlatDepth(" 0", 0);
  }

  /** A stop reduced to its bare colour reads back as that and adds no top-level comma. */
  lemma ReparseBare(c: string, w: string)
    requires c != [] && NoTopLevel(c, ' ', 0) && DepthAfter(c, 0) == 0
    ensures ParseStop(c) == Stop(c, None) && Split(c, ' ')[0] == c
    ensures NoTopLevel(c + " " + w, ',', 0) ==> NoTopLevel(c, ',', 0)
  {
    BareReads(c);
    if NoTopLevel(c + " " + w, ',', 0) {
      assert c + " " + w == c + (" " + w);
      CommaFreePrefix(c, " " + w);
    }
  }

  /** A stop whose position became `0` reads back as that and adds no top-level comma. */
  lemma ReparseZeroed(c: string, w: string)
    requires c != [] && NoTopLevel(c, ' ', 0) && DepthAfter(c, 0) == 0
    ensures ParseStop(c + " 0") == Stop(c, Some(Zero)) && Split(c + " 0", ' ')[0] == c
    ensures NoTopLevel(c + " " + w, ',', 0) ==> NoTopLevel(c + " 0", ',', 0)
    ensures DepthAfter(c + " 0", 0) == 0
  {
    ZeroReads(c);
    if NoTopLevel(c + " " + w, ',', 0) {
      assert c + " " + w == c + (" " + w);
      CommaFreePrefix(c, " " + w);
      ZeroCommaFree(c);
    }
    DepthAfterAppend(c, " 0", 0);
    assert Flat(" 0");
    FlatDepth(" 0", 0);
  }

  // ---------------------------------------------------------------------
  // The reduction, as a left fold

  /** Where a stop stands: the boundary rules apply only to gradients with at least two stops. */
  datatype Place = First | Middle | Last

  function PlaceOf(i: nat, n: nat): Place {
    if n >= 2 && i == 0 then First else if n >= 2 && i == n - 1 then Last else Middle
  }

  /**
   * The previous comparable position after stop `s`: a stop without a
   * position leaves it alone, a comparable position becomes it (as written,
   * also when the stop itself is rewritten), and an opaque position or an
   * unparsed argument clears it, so nothing is ever compared across them.
   */
  function Anchor(s: Stop, prev: Option<Dim>): Option<Dim> {
    match s
    case Stop(_, None) => prev
    case Stop(_, Some(p)) => if p.Comparable? then Some(DimOf(p)) else None
    case Unparsed(_) => None
  }

  /** One stop, rewritten against the previous comparable position. */
  function Rewrite(s: Stop, prev: Option<Dim>, place: Place): Stop {
    match s
    case Stop(c, Some(p)) =>
      if !p.Comparable? then s
      else if place == First && IsPercent(p, 0.0) then Stop(c, None)
      else if place == Last && IsPercent(p, 100.0) then Stop(c, None)
      else if prev.Some? && NotAfter(DimOf(p), prev.value) then Stop(c, Some(Zero))
      else s
    case _ => s
  }

  function ReduceFrom(stops: seq<Stop>, i: nat, prev: Option<Dim>): (r: seq<Stop>)
    requires i <= |stops|
    ensures |r| == |stops| - i
    decreases |stops| - i
  {
    if i == |stops| then []
    else [Rewrite(stops[i], prev, PlaceOf(i, |stops|))] + ReduceFrom(stops, i + 1, Anchor(stops[i], prev))
  }

  /** The reduced stop list. */
  function Reduce(stops: seq<Stop>): (r: seq<Stop>)
    ensures |r| == |stops|
  {
    ReduceFrom(stops, 0, None)
  }

  // ---------------------------------------------------------------------
  // A pointwise reading of the fold

  /** The previous comparable position seen from stop `i`, found by looking back to the nearest stop with a position. */
  function PrevAt(stops: seq<Stop>, i: nat): Option<Dim>
    requires i <= |stops|
    decreases i
  {
    if i == 0 then None
    else if stops[i - 1].Stop? && stops[i - 1].position.None? then PrevAt(stops, i - 1)
    else Anchor(stops[i - 1], None)
  }

  lemma PrevAtStep(stops: seq<Stop>, i: nat)
    requires i < |stops|
    ensures PrevAt(stops, i + 1) == Anchor(stops[i], PrevAt(stops, i))
  {
  }

  lemma {:induction false} ReduceFromAt(stops: seq<Stop>, j: nat, i: nat)
    requires j <= i < |stops|
    ensures ReduceFrom(stops, j, PrevAt(stops, j))[i - j] == Rewrite(stops[i], PrevAt(stops, i), PlaceOf(i, |stops|))
    decreases i - j
  {
    if j < i {
      PrevAtStep(stops, j);
      ReduceFromAt(stops, j + 1, i);
    }
  }

  /** Stop `i` of the result is stop `i` rewritten against the previous comparable position seen from it. */
  lemma ReduceAt(stops: seq<Stop>, i: nat)
    requires i < |stops|
    ensures Reduce(stops)[i] == Rewrite(stops[i], PrevAt(stops, i), PlaceOf(i, |stops|))
  {
    ReduceFromAt(stops, 0, i);
  }

  /** Stop `j` is the nearest stop before `i` that has a position (or is unparsed). */
  predicate NearestBefore(stops: seq<Stop>, j: nat, i: nat)
    requires i <= |stops|
  {
    j < i
    && !(stops[j].Stop? && stops[j].position.None?)
    && forall k :: j < k < i ==> stops[k].Stop? && stops[k].position.None?
  }

  /** No stop before `i` has a position. */
  predicate NoneBefore(stops: seq<Stop>, i: nat)
    requires i <= |stops|
  {
    forall k :: 0 <= k < i ==> stops[k].Stop? && stops[k].position.None?
  }

  lemma {:induction false} PrevAtNearest(stops: seq<Stop>, j: nat, i: nat)
    requires i <= |stops| && NearestBefore(stops, j, i)
    ensures PrevAt(stops, i) == Anchor(stops[j], None)
    decreases i
  {
    if j < i - 1 {
      PrevAtNearest(stops, j, i - 1);
    }
  }

  lemma {:induction false} PrevAtNone(stops: seq<Stop>, i: nat)
    requires i <= |stops| && NoneBefore(stops, i)
    ensures PrevAt(stops, i) == None
    decreases i
  {
    if i > 0 {
      PrevAtNone(stops, i - 1);
    }
  }

  /** A previous comparable position is always the position of an actual earlier stop. */
  lemma {:induction false} PrevAtSource(stops: seq<Stop>, i: nat) returns (j: nat)
    requires i <= |stops| && PrevAt(stops, i).Some?
    ensures j < i && HasComparable(stops[j]) && PrevAt(stops, i) == Some(DimOf(stops[j].position.value))
    decreases i
  {
    if stops[i - 1].Stop? && stops[i - 1].position.None? {
      j := PrevAtSource(stops, i - 1);
    } else {
      j := i - 1;
    }
  }

  // ---------------------------------------------------------------------
  // What the reduction does to each stop

  predicate HasComparable(s: Stop) {
    s.Stop? && s.position.Some? && s.position.value.Comparable?
  }

  /** The stop's position cannot be dropped as an implicit boundary at place `i`. */
  predicate NotBoundary(stops: seq<Stop>, i: nat)
    requires i < |stops| && HasComparable(stops[i])
  {
    !(PlaceOf(i, |stops|) == First && IsPercent(stops[i].position.value, 0.0))
    && !(PlaceOf(i, |stops|) == Last && IsPercent(stops[i].position.value, 100.0))
  }

  /**
   * A comparable position in the same unit as the nearest earlier position and
   * not larger than it becomes `0`; the colour is kept. This holds on the
   * final stop too.
   */
  lemma ReducesNotAfter(stops: seq<Stop>, j: nat, i: nat)
    requires i < |stops| && NearestBefore(stops, j, i)
    requires HasComparable(stops[j]) && HasComparable(stops[i]) && NotBoundary(stops, i)
    requires NotAfter(DimOf(stops[i].position.value), DimOf(stops[j].position.value))
    ensures Reduce(stops)[i] == Stop(stops[i].color, Some(Zero))
  {
    ReduceAt(stops, i);
    PrevAtNearest(stops, j, i);
  }

  /** A larger position, or one in a different unit, than the nearest earlier one is kept. */
  lemma KeepsAfterOrOtherUnit(stops: seq<Stop>, j: nat, i: nat)
    requires i < |stops| && NearestBefore(stops, j, i)
    requires HasComparable(stops[j]) && HasComparable(stops[i]) && NotBoundary(stops, i)
    requires !NotAfter(DimOf(stops[i].position.value), DimOf(stops[j].position.value))
    ensures Reduce(stops)[i] == stops[i]
  {
    ReduceAt(stops, i);
    PrevAtNearest(stops, j, i);
  }

  /** A position whose nearest earlier position is opaque (or whose argument was not parsed) is never set to `0`. */
  lemma KeepsAfterOpaque(stops: seq<Stop>, j: nat, i: nat)
    requires i < |stops| && NearestBefore(stops, j, i) && !HasComparable(stops[j])
    requires HasComparable(stops[i]) && NotBoundary(stops, i)
    ensures Reduce(stops)[i] == stops[i]
  {
    ReduceAt(stops, i);
    PrevAtNearest(stops, j, i);
  }

  /** The first position of the gradient has nothing to compare with and is kept, also a `0` on the last stop. */
  lemma KeepsFirstPosition(stops: seq<Stop>, i: nat)
    requires i < |stops| && NoneBefore(stops, i)
    requires HasComparable(stops[i]) && NotBoundary(stops, i)
    ensures Reduce(stops)[i] == stops[i]
  {
    ReduceAt(stops, i);
    PrevAtNone(stops, i);
  }

  /** Opaque positions, stops without a position and unparsed arguments are never rewritten. */
  lemma KeepsUncomparable(stops: seq<Stop>, i: nat)
    requires i < |stops| && !HasComparable(stops[i])
    ensures Reduce(stops)[i] == stops[i]
  {
    ReduceAt(stops, i);
  }

  /** With two stops or more, a `0%` on the first stop is dropped, leaving the bare colour. */
  lemma DropsLeadingZeroPercent(stops: seq<Stop>)
    requires |stops| >= 2 && HasComparable(stops[0]) && IsPercent(stops[0].position.value, 0.0)
    ensures Reduce(stops)[0] == Stop(stops[0].color, None)
  {
    ReduceAt(stops, 0);
  }

  /** With two stops or more, a `100%` on the last stop is dropped, leaving the bare colour. */
  lemma DropsTrailingHundredPercent(stops: seq<Stop>)
    requires |stops| >= 2 && HasComparable(stops[|stops| - 1]) && IsPercent(stops[|stops| - 1].position.value, 100.0)
    ensures Reduce(stops)[|stops| - 1] == Stop(stops[|stops| - 1].color, None)
  {
    ReduceAt(stops, |stops| - 1);
  }

  /**
   * Every stop keeps its colour and its place; the only edits are a
   * comparable position replaced by `0` or removed.
   */
  lemma OnlyPositionsChange(stops: seq<Stop>, i: nat)
    requires i < |stops|
    ensures Reduce(stops)[i] == stops[i]
      || (HasComparable(stops[i]) && Reduce(stops)[i] in {Stop(stops[i].color, Some(Zero)), Stop(stops[i].color, None)})
  {
    ReduceAt(stops, i);
  }

  // ---------------------------------------------------------------------
  // Idempotence

  /** The only unitless position written is the bare `0` (any other unitless number is not a valid length). */
  predicate PlainZeros(stops: seq<Stop>) {
    forall i :: 0 <= i < |stops| && HasComparable(stops[i]) && stops[i].position.value.unit == "" ==> stops[i].position.value == Zero
  }

  const ZeroDim := Dim(0.0, "")

  lemma ZeroDimIsZero()
    ensures DimOf(Zero) == ZeroDim
  {
    assert "0"[1..] == "";
  }

  /**
   * Seen from the same stop, the previous comparable position in the reduced
   * list is the one in the original list, none at all, or the `0` a
   * reduction wrote.
   */
  lemma {:induction false} PrevAtReduced(stops: seq<Stop>, i: nat)
    requires i < |stops|
    ensures var b := PrevAt(Reduce(stops), i); b == PrevAt(stops, i) || b == None || b == Some(ZeroDim)
    decreases i
  {
    if i > 0 {
      var r := Reduce(stops);
      PrevAtReduced(stops, i - 1);
      PrevAtStep(stops, i - 1);
      PrevAtStep(r, i - 1);
      ReduceAt(stops, i - 1);
      ZeroDimIsZero();
      if i - 1 == 0 {
        assert PrevAt(r, 0) == None;
      }
    }
  }

  lemma ReducedStopIsStable(stops: seq<Stop>, i: nat)
    requires i < |stops| && PlainZeros(stops)
    ensures Rewrite(Reduce(stops)[i], PrevAt(Reduce(stops), i), PlaceOf(i, |stops|)) == Reduce(stops)[i]
  {
    ReduceAt(stops, i);
    PrevAtReduced(stops, i);
    ZeroDimIsZero();
  }

  /** Reducing an already reduced list changes nothing. */
  lemma ReduceIdempotent(stops: seq<Stop>)
    requires PlainZeros(stops)
    ensures Reduce(Reduce(stops)) == Reduce(stops)
  {
    var r := Reduce(stops);
    forall i | 0 <= i < |r| ensures Reduce(r)[i] == r[i] {
      ReduceAt(r, i);
      ReducedStopIsStable(stops, i);
    }
  }

  /** A rewrite keeps the stop, or keeps its colour and drops its position or sets it to `0`. */
  predicate Edited(s: Stop, r: Stop) {
    r == s || (s.Stop? && s.position.Some? && (r == Stop(s.color, None) || r == Stop(s.color, Some(Zero))))
  }

  lemma RewriteEdits(s: Stop, prev: Option<Dim>, place: Place)
    ensures Edited(s, Rewrite(s, prev, place))
  {
  }

  lemma ReparseEdited(t: string, r: Stop)
    requires Edited(ParseStop(t), r)
    ensures ParseStop(RenderStop(r)) == r
    ensures Split(RenderStop(r), ' ')[0] == Split(t, ' ')[0]
    ensures NoTopLevel(t, ',', 0) ==> NoTopLevel(RenderStop(r), ',', 0)
    ensures DepthAfter(t, 0) == 0 ==> DepthAfter(RenderStop(r), 0) == 0
  {
    var s := ParseStop(t);
    if r == s {
      RenderParseStop(t);
    } else {
      var c := s.color;
      var w := Render(s.position.value);
      PositionedParts(t);
      if r.position.None? {
        ReparseBare(c, w);
      } else {
        ZeroParses();
        assert RenderStop(r) == c + " 0";
        ReparseZeroed(c, w);
      }
    }
  }

  /**
   * Whatever the reduction makes of an argument reads back as exactly that
   * stop, begins with the same word, and keeps the argument free of
   * top-level commas and balanced when it was.
   */
  lemma ReparseRewrite(t: string, prev: Option<Dim>, place: Place)
    ensures var r := Rewrite(ParseStop(t), prev, place);
      ParseStop(RenderStop(r)) == r
      && Split(RenderStop(r), ' ')[0] == Split(t, ' ')[0]
      && (NoTopLevel(t, ',', 0) ==> NoTopLevel(RenderStop(r), ',', 0))
      && (DepthAfter(t, 0) == 0 ==> DepthAfter(RenderStop(r), 0) == 0)
  {
    RewriteEdits(ParseStop(t), prev, place);
    ReparseEdited(t, Rewrite(ParseStop(t), prev, place));
  }
}
