/**
 * Direction normalisation for linear gradients. A single-side direction
 * `to <side>` is rewritten to its angle, following section 3.1 of CSS Images
 * Module Level 3: `to top` is 0deg and angles increase clockwise. Any other
 * first argument, a two-side direction such as `to top right` included, is
 * kept byte for byte: a corner direction depends on the box's aspect ratio
 * and has no fixed angle.
 */
module Directions {
  import opened Options
  import opened Scanner
  import opened Positions

  datatype Side = Top | Right | Bottom | Left

  function Keyword(s: Side): string {
    match s
    case Top => "top"
    case Right => "right"
    case Bottom => "bottom"
    case Left => "left"
  }

  /** The side a keyword names, if any. */
  function SideOf(w: string): (r: Option<Side>)
    ensures r.Some? ==> Keyword(r.value) == w
    ensures r.None? ==> forall s: Side :: Keyword(s) != w
  {
    if w == "top" then Some(Top)
    else if w == "right" then Some(Right)
    else if w == "bottom" then Some(Bottom)
    else if w == "left" then Some(Left)
    else None
  }

  /** Degrees clockwise from `to top`. */
  function Angle(s: Side): nat {
    match s
    case Top => 0
    case Right => 90
    case Bottom => 180
    case Left => 270
  }

  /** The digits of the angle as written in the minified output. */
  function AngleDigits(s: Side): string {
    match s
    case Top => "0"
    case Right => "90"
    case Bottom => "180"
    case Left => "270"
  }

  /** The angle as it is written in the minified output. */
  function AngleText(s: Side): string {
    AngleDigits(s) + "deg"
  }

  /** The first argument of a linear gradient, with a single-side direction replaced by its angle. */
  function Normalize(t: string): string {
    var words := Split(t, ' ');
    if |words| == 2 && words[0] == "to" && SideOf(words[1]).Some? then AngleText(SideOf(words[1]).value)
    else t
  }

  // ---------------------------------------------------------------------
  // An independent reading of the angles: compass vectors and quarter turns

  /** A direction on screen, x to the right and y upwards. */
  datatype Vector = Vector(x: int, y: int)

  const Up := Vector(0, 1)

  /** Where each side lies as seen from the centre of the box. */
  function Toward(s: Side): Vector {
    match s
    case Top => Vector(0, 1)
    case Right => Vector(1, 0)
    case Bottom => Vector(0, -1)
    case Left => Vector(-1, 0)
  }

  /** A quarter turn clockwise. */
  function Clockwise(v: Vector): Vector {
    Vector(v.y, -v.x)
  }

  function Turn(v: Vector, quarters: nat): Vector {
    if quarters == 0 then v else Clockwise(Turn(v, quarters - 1))
  }

  /** Each angle is a whole number of clockwise quarter turns from `to top` that lands on its side. */
  lemma AngleTurnsUpToSide(s: Side)
    ensures Angle(s) % 90 == 0 && Angle(s) < 360
    ensures Turn(Up, Angle(s) / 90) == Toward(s)
  {
    assert Turn(Up, 1) == Vector(1, 0);
    assert Turn(Up, 2) == Vector(0, -1);
    assert Turn(Up, 3) == Vector(-1, 0);
  }

  lemma AngleDigitsValue(s: Side)
    ensures AllDigits(AngleDigits(s)) && AngleDigits(s) != []
    ensures DigitsValue(AngleDigits(s)) == Angle(s)
  {
    assert AllDigits("0");
    assert DigitsValue("0") == 0 by { assert "0"[1..] == ""; }
    match s {
      case Top =>
      case Right =>
        assert AllDigits("90");
        assert "90"[1..] == "0";
      case Bottom =>
        assert AllDigits("80") && AllDigits("180");
        assert "80"[1..] == "0";
        assert DigitsValue("80") == 80;
        assert "180"[1..] == "80";
      case Left =>
        assert AllDigits("70") && AllDigits("270");
        assert "70"[1..] == "0";
        assert DigitsValue("70") == 70;
        assert "270"[1..] == "70";
    }
  }

  /** The written angle reads back as a comparable `deg` position of exactly that many degrees. */
  lemma AngleTextMeansAngle(s: Side)
    ensures Parse(AngleText(s)) == Comparable(Numeral("", AngleDigits(s), None), "deg")
    ensures Magnitude(Parse(AngleText(s)).number) == Angle(s) as real
  {
    AngleDigitsValue(s);
    assert AllLetters("deg");
    assert AngleText(s) == AngleDigits(s) + FractionText(None) + "deg";
    ParseNumeral(AngleDigits(s), None, "deg");
  }

  // ---------------------------------------------------------------------
  // What Normalize does

  lemma WordIsSingle(w: string)
    requires Flat(w) && ' ' !in w
    ensures NoTopLevel(w, ' ', 0) && DepthAfter(w, 0) == 0
  {
    FlatNoTopLevel(w, ' ', 0);
    FlatDepth(w, 0);
  }

  lemma KeywordIsWord(s: Side)
    ensures Flat(Keyword(s)) && ' ' !in Keyword(s)
  {
  }

  /** An angle is one word, starts with a digit and holds no comma or parenthesis. */
  lemma AngleTextIsWord(s: Side)
    ensures AngleText(s) != [] && IsDigit(AngleText(s)[0])
    ensures Flat(AngleText(s)) && ' ' !in AngleText(s) && ',' !in AngleText(s)
  {
  }

  /** `to` followed by one word splits into those two words. */
  lemma ToWords(k: string)
    requires Flat(k) && ' ' !in k
    ensures Split("to " + k, ' ') == ["to", k]
  {
    WordIsSingle("to");
    WordIsSingle(k);
    assert "to " + k == "to" + [' '] + k;
    SplitTwo("to", k, ' ');
  }

  lemma SideOfKeyword(s: Side)
    ensures SideOf(Keyword(s)) == Some(s)
  {
  }

  /** `to <side>` becomes the side's angle. */
  lemma NormalizeSide(s: Side)
    ensures Normalize("to " + Keyword(s)) == AngleText(s)
  {
    assert Split("to " + Keyword(s), ' ') == ["to", Keyword(s)] by {
      KeywordIsWord(s);
      ToWords(Keyword(s));
    }
    SideOfKeyword(s);
  }

  /** Nothing but a single-side direction is ever rewritten. */
  lemma NormalizeOnlySides(t: string)
    ensures Normalize(t) == t || exists s: Side :: t == "to " + Keyword(s) && Normalize(t) == AngleText(s)
  {
    var words := Split(t, ' ');
    if |words| == 2 && words[0] == "to" && SideOf(words[1]).Some? {
      var s := SideOf(words[1]).value;
      JoinSplit(t, ' ');
      assert Join(words, ' ') == words[0] + [' '] + words[1];
      assert t == "to " + Keyword(s);
    }
  }

  /** A two-side (corner) direction is kept byte for byte. */
  lemma NormalizeKeepsCorners(a: Side, b: Side)
    ensures Normalize("to " + Keyword(a) + " " + Keyword(b)) == "to " + Keyword(a) + " " + Keyword(b)
  {
    var t := "to " + Keyword(a) + " " + Keyword(b);
    NormalizeOnlySides(t);
    forall s: Side ensures t != "to " + Keyword(s) {
      assert |t| >= 10 && |"to " + Keyword(s)| <= 9;
    }
  }

  /** An angle holds no space, so it is never rewritten. */
  lemma AngleIsNormal(s: Side)
    ensures Normalize(AngleText(s)) == AngleText(s)
  {
    var w := AngleText(s);
    assert Flat(w) && ' ' !in w by {
      match s
      case Top => assert w == "0deg";
      case Right => assert w == "90deg";
      case Bottom => assert w == "180deg";
      case Left => assert w == "270deg";
    }
    FlatNoTopLevel(w, ' ', 0);
    SplitSingle(w, ' ');
  }

  /** An angle is already normal: normalizing twice is normalizing once. */
  lemma NormalizeIdempotent(t: string)
    ensures Normalize(Normalize(t)) == Normalize(t)
  {
    NormalizeOnlySides(t);
    if Normalize(t) != t {
      var s: Side :| t == "to " + Keyword(s) && Normalize(t) == AngleText(s);
      AngleIsNormal(s);
    }
  }
}
