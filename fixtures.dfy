/**
 * The behaviour pinned down by the plugin's fixture table. Each case is
 * stated for any text before the call that the scan passes over (such as
 * `background:` or `background: `) and, where the colours play no part in
 * the rewrite, for any colour words; the fixture is the instance with the
 * table's own colours.
 */
module Fixtures {
  import opened Options
  import opened Scanner
  import opened Positions
  import opened Directions
  import opened Stops
  import opened Gradients
  import opened Values

  /** `pre name(args)`: a call closing a declaration value. */
  function Call(pre: string, name: string, args: string): string {
    pre + name + "(" + args + ")"
  }

  /** A colour stop at a position. */
  function At(c: string, w: string): string {
    c + " " + w
  }

  /** The text before a gradient call that the scan passes over. */
  predicate Prefix(pre: string) {
    '(' !in pre && (pre == [] || !IsNameChar(pre[|pre| - 1]))
  }

  predicate GradientName(name: string, kind: Kind) {
    KindOf(name) == Some(kind) && '(' !in name && AllNameChars(name)
  }

  predicate WordChar(c: char) {
    c != '(' && c != ')' && c != ' ' && c != ','
  }

  /** A word holding no comma, space or parenthesis: a colour such as `#ffe500`, or a position such as `50%`. */
  predicate Word(w: string) {
    w != [] && forall i | 0 <= i < |w| :: WordChar(w[i])
  }

  /** A colour word: not an angle or a length, not `to`, not a radial shape keyword. */
  predicate Colour(c: string) {
    Word(c) && !StartsNumeric(c) && c != "to" && !RadialKeyword(c)
  }

  /** An argument that splits off cleanly: no top-level comma or `)`, and every parenthesis closed. */
  predicate Balanced(s: string) {
    NoTopLevel(s, ',', 0) && NoTopLevel(s, ')', 0) && DepthAfter(s, 0) == 0
  }

  // ---------------------------------------------------------------------
  // Reading the arguments

  lemma WordFacts(w: string)
    requires Word(w)
    ensures Flat(w) && ' ' !in w && ',' !in w
    ensures NoTopLevel(w, ' ', 0) && Balanced(w)
  {
    assert forall c | c in w :: WordChar(c);
    FlatNoTopLevel(w, ',', 0);
    FlatNoTopLevel(w, ' ', 0);
    FlatNoTopLevel(w, ')', 0);
    FlatDepth(w, 0);
  }

  lemma {:induction false} BalancedJoin(parts: seq<string>)
    requires |parts| >= 1 && forall i | 0 <= i < |parts| :: Balanced(parts[i])
    ensures WellSplit(parts, ',') && NoTopLevel(Join(parts, ','), ')', 0) && DepthAfter(Join(parts, ','), 0) == 0
    decreases |parts|
  {
    if |parts| > 1 {
      BalancedJoin(parts[1..]);
      var head := parts[0] + [','];
      NoTopLevelAppend(parts[0], [','], ')', 0);
      DepthAfterAppend(parts[0], [','], 0);
      NoTopLevelAppend(head, Join(parts[1..], ','), ')', 0);
      DepthAfterAppend(head, Join(parts[1..], ','), 0);
    }
  }

  lemma FlatBalanced(s: string)
    requires Flat(s) && ',' !in s
    ensures Balanced(s)
  {
    FlatNoTopLevel(s, ',', 0);
    FlatNoTopLevel(s, ')', 0);
    FlatDepth(s, 0);
  }

  /** A gradient call closing the value: only its arguments are rewritten. */
  lemma InCall(pre: string, name: string, kind: Kind, inner: string)
    requires Prefix(pre) && GradientName(name, kind)
    requires NoTopLevel(inner, ')', 0) && DepthAfter(inner, 0) == 0
    ensures MinifyValue(Call(pre, name, inner)) == Call(pre, name, MinifyArguments(kind, inner))
  {
    MinifyCall(pre, kind, name, inner, "");
    MinifyPlain("");
    assert Call(pre, name, inner) + "" == Call(pre, name, inner);
  }

  /** An angle or a length as the first argument: a prelude, kept as written. */
  lemma NumericPrelude(kind: Kind, d: string)
    requires Word(d) && IsDigit(d[0])
    ensures IsPrelude(kind, d) && Normalize(d) == d
  {
    WordFacts(d);
    SplitSingle(d, ' ');
  }

  lemma Bare(c: string)
    requires Word(c)
    ensures ParseStop(c) == Stop(c, None) && RenderStop(Stop(c, None)) == c
    ensures Balanced(c) && FirstWord(c) == c
  {
    WordFacts(c);
    BareReads(c);
  }

  /** A colour word and a position word, read as a stop and written back. */
  lemma Placed(c: string, w: string)
    requires Word(c) && Word(w)
    ensures ParseStop(At(c, w)) == Stop(c, Some(Parse(w)))
    ensures RenderStop(Stop(c, Some(Parse(w)))) == At(c, w)
    ensures Balanced(At(c, w)) && FirstWord(At(c, w)) == c
  {
    WordFacts(c);
    WordFacts(w);
    assert At(c, w) == c + [' '] + w;
    SplitTwo(c, w, ' ');
    FlatBalanced(At(c, w));
  }

  /** The arguments of a call body: a prelude, then colour stops. */
  lemma WithPrelude(kind: Kind, d: string, texts: seq<string>, out: seq<string>)
    requires Balanced(d) && IsPrelude(kind, d)
    requires forall i | 0 <= i < |texts| :: Balanced(texts[i])
    requires RenderStops(Reduce(ParseStops(texts))) == out
    ensures MinifyArguments(kind, Join([d] + texts, ',')) == Join([if kind == Linear then Normalize(d) else d] + out, ',')
    ensures NoTopLevel(Join([d] + texts, ','), ')', 0) && DepthAfter(Join([d] + texts, ','), 0) == 0
  {
    var parts := [d] + texts;
    var text := Join(parts, ',');
    assert NoTopLevel(text, ')', 0) && DepthAfter(text, 0) == 0 && Split(text, ',') == parts by {
      forall i | 0 <= i < |parts| ensures Balanced(parts[i]) {
        if i > 0 {
          assert parts[i] == texts[i - 1];
        }
      }
      BalancedJoin(parts);
      SplitJoin(parts, ',');
    }
    assert parts[0] == d && parts[1..] == texts;
    var g := ParseGradient(kind, text);
    assert g.stops == ParseStops(texts) && g.prelude == Some(d);
    assert Arguments(Transform(kind, g)) == [if kind == Linear then Normalize(d) else d] + out;
  }

  /** The arguments of a call body: colour stops alone. */
  lemma WithoutPrelude(kind: Kind, texts: seq<string>, out: seq<string>)
    requires |texts| >= 1 && !IsPrelude(kind, texts[0])
    requires forall i | 0 <= i < |texts| :: Balanced(texts[i])
    requires RenderStops(Reduce(ParseStops(texts))) == out
    ensures MinifyArguments(kind, Join(texts, ',')) == Join(out, ',')
    ensures NoTopLevel(Join(texts, ','), ')', 0) && DepthAfter(Join(texts, ','), 0) == 0
  {
    var text := Join(texts, ',');
    assert NoTopLevel(text, ')', 0) && DepthAfter(text, 0) == 0 && Split(text, ',') == texts by {
      BalancedJoin(texts);
      SplitJoin(texts, ',');
    }
    var g := ParseGradient(kind, text);
    assert g.stops == ParseStops(texts) && g.prelude == None;
    assert Arguments(Transform(kind, g)) == out;
  }

  lemma PreludeThree(kind: Kind, d: string, x: string, y: string, x': string, y': string)
    requires Balanced(d) && IsPrelude(kind, d) && Balanced(x) && Balanced(y)
    requires RenderStops(Reduce(ParseStops([x, y]))) == [x', y']
    ensures MinifyArguments(kind, Join([d, x, y], ',')) == Join([if kind == Linear then Normalize(d) else d, x', y'], ',')
    ensures NoTopLevel(Join([d, x, y], ','), ')', 0) && DepthAfter(Join([d, x, y], ','), 0) == 0
  {
    var first := if kind == Linear then Normalize(d) else d;
    assert [d] + [x, y] == [d, x, y] && [first] + [x', y'] == [first, x', y'];
    assert MinifyArguments(kind, Join([d] + [x, y], ',')) == Join([first] + [x', y'], ',')
      && NoTopLevel(Join([d] + [x, y], ','), ')', 0) && DepthAfter(Join([d] + [x, y], ','), 0) == 0 by {
      WithPrelude(kind, d, [x, y], [x', y']);
    }
  }

  /** A plain numeral with a unit, such as `50%` or `5px`, and the dimension the reduction compares. */
  lemma Measured(w: string, d: string, u: string)
    requires w == d + u && AllDigits(d) && d != [] && StartsUnit(u) && IsUnit(u)
    ensures Parse(w) == Comparable(Numeral("", d, None), u)
    ensures DimOf(Parse(w)) == Dim(DigitsValue(d) as real, u)
  {
    ParseNumeral(d, None, u);
    assert d + FractionText(None) + u == w;
  }

  /** A numeral with a fraction and a unit, such as `2.1em`. */
  lemma MeasuredFraction(w: string, d: string, f: string, u: string)
    requires w == d + FractionText(Some(f)) + u && AllDigits(d) && d != [] && AllDigits(f) && f != [] && StartsUnit(u) && IsUnit(u)
    ensures Parse(w) == Comparable(Numeral("", d, Some(f)), u)
    ensures DimOf(Parse(w)) == Dim(DigitsValue(d) as real + DigitsValue(f) as real / Pow10(|f|) as real, u)
  {
    ParseNumeral(d, Some(f), u);
  }

  // ---------------------------------------------------------------------
  // Directions

  /** Two colours without positions are kept. */
  lemma TwoColours(a: string, b: string)
    requires Word(a) && Word(b)
    ensures RenderStops(Reduce(ParseStops([a, b]))) == [a, b]
  {
    Bare(a);
    Bare(b);
    var stops := [Stop(a, None), Stop(b, None)];
    assert ParseStops([a, b]) == stops;
    KeepsUncomparable(stops, 0);
    KeepsUncomparable(stops, 1);
    assert Reduce(stops) == stops;
  }

  lemma SideArguments(s: Side, a: string, b: string)
    requires Word(a) && Word(b)
    ensures MinifyArguments(Linear, Join(["to " + Keyword(s), a, b], ',')) == Join([AngleText(s), a, b], ',')
    ensures NoTopLevel(Join(["to " + Keyword(s), a, b], ','), ')', 0) && DepthAfter(Join(["to " + Keyword(s), a, b], ','), 0) == 0
  {
    var d := "to " + Keyword(s);
    KeywordIsWord(s);
    FlatBalanced(d);
    SideIsPrelude(s);
    NormalizeSide(s);
    Bare(a);
    Bare(b);
    TwoColours(a, b);
    PreludeThree(Linear, d, a, b, a, b);
  }

  /** `to top`, `to right`, `to bottom` and `to left` become `0deg`, `90deg`, `180deg` and `270deg`. */
  lemma SideFixtures(pre: string, name: string, s: Side, a: string, b: string)
    requires Prefix(pre) && GradientName(name, Linear) && Word(a) && Word(b)
    ensures MinifyValue(Call(pre, name, Join(["to " + Keyword(s), a, b], ',')))
         == Call(pre, name, Join([AngleText(s), a, b], ','))
  {
    SideArguments(s, a, b);
    InCall(pre, name, Linear, Join(["to " + Keyword(s), a, b], ','));
  }

  lemma CornerArguments(v: Side, h: Side, a: string, b: string)
    requires Word(a) && Word(b)
    ensures var d := "to " + Keyword(v) + " " + Keyword(h);
      MinifyArguments(Linear, Join([d, a, b], ',')) == Join([d, a, b], ',')
      && NoTopLevel(Join([d, a, b], ','), ')', 0) && DepthAfter(Join([d, a, b], ','), 0) == 0
  {
    var d := "to " + Keyword(v) + " " + Keyword(h);
    assert d == CornerText(v, h);
    assert Balanced(d) && IsPrelude(Linear, d) && Normalize(d) == d by { CornerPrelude(v, h); }
    assert Balanced(a) && Balanced(b) && RenderStops(Reduce(ParseStops([a, b]))) == [a, b] by {
      Bare(a);
      Bare(b);
      TwoColours(a, b);
    }
    PreludeThree(Linear, d, a, b, a, b);
  }

  /** `to top right` and `to bottom left` name a corner and are kept as written. */
  lemma CornerFixtures(pre: string, name: string, v: Side, h: Side, a: string, b: string)
    requires Prefix(pre) && GradientName(name, Linear) && Word(a) && Word(b)
    ensures var d := "to " + Keyword(v) + " " + Keyword(h);
      MinifyValue(Call(pre, name, Join([d, a, b], ','))) == Call(pre, name, Join([d, a, b], ','))
  {
    CornerArguments(v, h, a, b);
    InCall(pre, name, Linear, Join(["to " + Keyword(v) + " " + Keyword(h), a, b], ','));
  }

  // ---------------------------------------------------------------------
  // Reading lists of stops

  lemma TwoParsed(x: string, y: string, first: Stop, second: Stop)
    requires ParseStop(x) == first && ParseStop(y) == second
    ensures ParseStops([x, y]) == [first, second]
  {
  }

  lemma FourParsed(x0: string, x1: string, x2: string, x3: string, s0: Stop, s1: Stop, s2: Stop, s3: Stop)
    requires ParseStop(x0) == s0 && ParseStop(x1) == s1 && ParseStop(x2) == s2 && ParseStop(x3) == s3
    ensures ParseStops([x0, x1, x2, x3]) == [s0, s1, s2, s3]
  {
  }

  lemma FiveParsed(x0: string, x1: string, x2: string, x3: string, x4: string, s0: Stop, s1: Stop, s2: Stop, s3: Stop, s4: Stop)
    requires ParseStop(x0) == s0 && ParseStop(x1) == s1 && ParseStop(x2) == s2 && ParseStop(x3) == s3 && ParseStop(x4) == s4
    ensures ParseStops([x0, x1, x2, x3, x4]) == [s0, s1, s2, s3, s4]
  {
  }

  lemma TwoRendered(first: Stop, second: Stop)
    ensures RenderStops([first, second]) == [RenderStop(first), RenderStop(second)]
  {
  }

  lemma FourRendered(s0: Stop, s1: Stop, s2: Stop, s3: Stop)
    ensures RenderStops([s0, s1, s2, s3]) == [RenderStop(s0), RenderStop(s1), RenderStop(s2), RenderStop(s3)]
  {
  }

  lemma FiveRendered(s0: Stop, s1: Stop, s2: Stop, s3: Stop, s4: Stop)
    ensures RenderStops([s0, s1, s2, s3, s4]) == [RenderStop(s0), RenderStop(s1), RenderStop(s2), RenderStop(s3), RenderStop(s4)]
  {
  }

  lemma DigitWord(c: char)
    requires IsDigit(c)
    ensures Word([c])
  {
  }

  /** A stop at `0`, as the reduction writes it. */
  lemma AtZero(c: string)
    requires Word(c)
    ensures ParseStop(At(c, "0")) == Stop(c, Some(Zero)) && RenderStop(Stop(c, Some(Zero))) == At(c, "0")
    ensures Balanced(At(c, "0")) && FirstWord(At(c, "0")) == c
  {
    ZeroParses();
    assert Word("0") by { DigitWord('0'); assert "0" == ['0']; }
    Placed(c, "0");
  }

  /** A `calc(...)` position: one word, since its spaces are nested, balanced, and opaque. */
  lemma CalcFacts(w: string, inner: string)
    requires w == "calc(" + inner + ")" && Flat(inner) && ',' !in inner
    ensures NoTopLevel(w, ' ', 0) && Balanced(w) && Parse(w) == Opaque(w)
  {
    assert w == "calc" + "(" + inner + ")";
    GroupNoTopLevel("calc", inner, ' ', 0);
    GroupNoTopLevel("calc", inner, ',', 0);
    GroupNoTopLevel("calc", inner, ')', 0);
    GroupDepth("calc", inner, 0);
    LetterWordIsOpaque(w);
  }

  /** A colour word, a space and a balanced position word: the space is the only top-level one. */
  lemma SpacedStop(c: string, w: string)
    requires Word(c) && NoTopLevel(w, ' ', 0) && Balanced(w)
    ensures Split(At(c, w), ' ') == [c, w] && Balanced(At(c, w))
  {
    WordFacts(c);
    assert At(c, w) == c + [' '] + w;
    SplitTwo(c, w, ' ');
    var head := c + " ";
    assert At(c, w) == head + w;
    assert Flat(head) && ',' !in head;
    FlatBalanced(head);
    NoTopLevelAppend(head, w, ',', 0);
    NoTopLevelAppend(head, w, ')', 0);
    DepthAfterAppend(head, w, 0);
  }

  /** A stop at a `calc(...)` position: an opaque position. */
  lemma AtCalc(c: string, w: string, inner: string)
    requires Word(c) && w == "calc(" + inner + ")" && Flat(inner) && ',' !in inner
    ensures ParseStop(At(c, w)) == Stop(c, Some(Opaque(w))) && RenderStop(Stop(c, Some(Opaque(w)))) == At(c, w)
    ensures Balanced(At(c, w))
  {
    assert NoTopLevel(w, ' ', 0) && Balanced(w) && Parse(w) == Opaque(w) by { CalcFacts(w, inner); }
    assert Split(At(c, w), ' ') == [c, w] && Balanced(At(c, w)) by { SpacedStop(c, w); }
  }

  // ---------------------------------------------------------------------
  // Reducing positions: the fold read stop by stop

  lemma TwoStops(s0: Stop, s1: Stop)
    ensures Reduce([s0, s1]) == [Rewrite(s0, None, First), Rewrite(s1, Anchor(s0, None), Last)]
  {
    ReduceAt([s0, s1], 0);
    ReduceAt([s0, s1], 1);
  }

  lemma FourStops(s0: Stop, s1: Stop, s2: Stop, s3: Stop)
    ensures var p1 := Anchor(s0, None);
      var p2 := Anchor(s1, p1);
      var p3 := Anchor(s2, p2);
      Reduce([s0, s1, s2, s3]) == [Rewrite(s0, None, First), Rewrite(s1, p1, Middle), Rewrite(s2, p2, Middle), Rewrite(s3, p3, Last)]
  {
    var stops := [s0, s1, s2, s3];
    PrevAtStep(stops, 0);
    PrevAtStep(stops, 1);
    PrevAtStep(stops, 2);
    ReduceAt(stops, 0);
    ReduceAt(stops, 1);
    ReduceAt(stops, 2);
    ReduceAt(stops, 3);
  }

  lemma FiveStops(s0: Stop, s1: Stop, s2: Stop, s3: Stop, s4: Stop)
    ensures var p1 := Anchor(s0, None);
      var p2 := Anchor(s1, p1);
      var p3 := Anchor(s2, p2);
      var p4 := Anchor(s3, p3);
      Reduce([s0, s1, s2, s3, s4])
      == [Rewrite(s0, None, First), Rewrite(s1, p1, Middle), Rewrite(s2, p2, Middle), Rewrite(s3, p3, Middle), Rewrite(s4, p4, Last)]
  {
    var stops := [s0, s1, s2, s3, s4];
    PrevAtStep(stops, 0);
    PrevAtStep(stops, 1);
    PrevAtStep(stops, 2);
    PrevAtStep(stops, 3);
    ReduceAt(stops, 0);
    ReduceAt(stops, 1);
    ReduceAt(stops, 2);
    ReduceAt(stops, 3);
    ReduceAt(stops, 4);
  }

  /** Two comparable positions, neither an implicit boundary: the second becomes `0` exactly when it is not after the first. */
  lemma TwoComparable(a: string, p: ValidPosition, b: string, q: ValidPosition)
    requires p.Comparable? && q.Comparable? && !IsPercent(p, 0.0) && !IsPercent(q, 100.0)
    ensures Reduce([Stop(a, Some(p)), Stop(b, Some(q))])
         == [Stop(a, Some(p)), if NotAfter(DimOf(q), DimOf(p)) then Stop(b, Some(Zero)) else Stop(b, Some(q))]
  {
    TwoStops(Stop(a, Some(p)), Stop(b, Some(q)));
  }

  /** A colour at a plain numeral with a unit, such as `#121 5px`: read, written back, and splitting off cleanly. */
  lemma AtLength(c: string, w: string, d: string, u: string)
    requires Word(c) && w == d + u && AllDigits(d) && d != [] && StartsUnit(u) && IsUnit(u)
    ensures ParseStop(At(c, w)) == Stop(c, Some(Comparable(Numeral("", d, None), u)))
    ensures RenderStop(Stop(c, Some(Comparable(Numeral("", d, None), u)))) == At(c, w)
    ensures Balanced(At(c, w)) && FirstWord(At(c, w)) == c
  {
    Measured(w, d, u);
    forall i | 0 <= i < |w| ensures WordChar(w[i]) {
      if i < |d| {
        assert w[i] == d[i];
      } else {
        assert w[i] == u[i - |d|];
      }
    }
    Placed(c, w);
  }

  lemma WordJoin(x: string, y: string)
    requires Word(x) && (y == [] || Word(y))
    ensures Word(x + y)
  {
    forall i | 0 <= i < |x + y| ensures WordChar((x + y)[i]) {
      if i < |x| {
        assert (x + y)[i] == x[i];
      } else {
        assert (x + y)[i] == y[i - |x|];
      }
    }
  }

  lemma DigitsAreWord(d: string)
    requires AllDigits(d) && d != []
    ensures Word(d)
  {
    assert forall i | 0 <= i < |d| :: IsDigit(d[i]);
  }

  lemma UnitIsWord(u: string)
    requires IsUnit(u)
    ensures u == [] || Word(u)
  {
    assert forall i | 0 <= i < |u| :: u == "%" || IsLetter(u[i]);
  }

  /** A colour at a numeral with a fraction and a unit, such as `#ccc 2.1em`. */
  lemma AtFraction(c: string, w: string, d: string, f: string, u: string)
    requires Word(c) && w == d + FractionText(Some(f)) + u && AllDigits(d) && d != [] && AllDigits(f) && f != []
    requires StartsUnit(u) && IsUnit(u)
    ensures ParseStop(At(c, w)) == Stop(c, Some(Comparable(Numeral("", d, Some(f)), u)))
    ensures RenderStop(Stop(c, Some(Comparable(Numeral("", d, Some(f)), u)))) == At(c, w)
    ensures Balanced(At(c, w)) && FirstWord(At(c, w)) == c
  {
    assert Parse(w) == Comparable(Numeral("", d, Some(f)), u) by { MeasuredFraction(w, d, f, u); }
    assert Word(w) by {
      var dot := FractionText(Some(f));
      assert dot == "." + f;
      DigitsAreWord(d);
      DigitsAreWord(f);
      assert Word(".") by { assert "."[0] == '.'; }
      WordJoin(".", f);
      WordJoin(d, dot);
      UnitIsWord(u);
      WordJoin(d + dot, u);
    }
    Placed(c, w);
  }

  /** `45deg` as the prelude of a linear gradient. */
  lemma Angle45()
    ensures Balanced("45deg") && IsPrelude(Linear, "45deg") && Normalize("45deg") == "45deg"
  {
    assert Word("45deg");
    NumericPrelude(Linear, "45deg");
    WordFacts("45deg");
  }

  // `45deg,#ffe500 50%,#121 50%`

  const Percent50: ValidPosition := Comparable(Numeral("", "50", None), "%")
  const Percent25: ValidPosition := Comparable(Numeral("", "25", None), "%")
  const Percent20: ValidPosition := Comparable(Numeral("", "20", None), "%")
  const Pixels25: ValidPosition := Comparable(Numeral("", "25", None), "px")

  /** `50%` then `50%`: the second position is not after the first and becomes `0`. */
  lemma SameLengthStops(a: string, b: string)
    ensures Reduce([Stop(a, Some(Percent50)), Stop(b, Some(Percent50))]) == [Stop(a, Some(Percent50)), Stop(b, Some(Zero))]
  {
    assert DimOf(Percent50) == Dim(50.0, "%");
    TwoComparable(a, Percent50, b, Percent50);
  }

  lemma SameLengthParsed(a: string, b: string)
    requires Word(a) && Word(b)
    ensures ParseStops([At(a, "50%"), At(b, "50%")]) == [Stop(a, Some(Percent50)), Stop(b, Some(Percent50))]
    ensures Balanced(At(a, "50%")) && Balanced(At(b, "50%"))
    ensures RenderStops([Stop(a, Some(Percent50)), Stop(b, Some(Zero))]) == [At(a, "50%"), At(b, "0")]
  {
    AtLength(a, "50%", "50", "%");
    AtLength(b, "50%", "50", "%");
    AtZero(b);
    TwoParsed(At(a, "50%"), At(b, "50%"), Stop(a, Some(Percent50)), Stop(b, Some(Percent50)));
    TwoRendered(Stop(a, Some(Percent50)), Stop(b, Some(Zero)));
  }

  lemma SameLengthArguments(a: string, b: string)
    requires Word(a) && Word(b)
    ensures var args := Join(["45deg", At(a, "50%"), At(b, "50%")], ',');
      MinifyArguments(Linear, args) == Join(["45deg", At(a, "50%"), At(b, "0")], ',')
      && NoTopLevel(args, ')', 0) && DepthAfter(args, 0) == 0
  {
    SameLengthParsed(a, b);
    SameLengthStops(a, b);
    Angle45();
    PreludeThree(Linear, "45deg", At(a, "50%"), At(b, "50%"), At(a, "50%"), At(b, "0"));
  }

  /** `#ffe500 50%,#121 50%`: a position equal to the one before becomes `0`. */
  lemma SameLengthFixture(pre: string, name: string, a: string, b: string)
    requires Prefix(pre) && GradientName(name, Linear) && Word(a) && Word(b)
    ensures MinifyValue(Call(pre, name, Join(["45deg", At(a, "50%"), At(b, "50%")], ',')))
         == Call(pre, name, Join(["45deg", At(a, "50%"), At(b, "0")], ','))
  {
    SameLengthArguments(a, b);
    InCall(pre, name, Linear, Join(["45deg", At(a, "50%"), At(b, "50%")], ','));
  }

  // `45deg,#ffe500 50%,#121 25%`

  /** `50%` then `25%`: the second position is before the first and becomes `0`. */
  lemma ShorterStops(a: string, b: string)
    ensures Reduce([Stop(a, Some(Percent50)), Stop(b, Some(Percent25))]) == [Stop(a, Some(Percent50)), Stop(b, Some(Zero))]
  {
    assert DimOf(Percent50) == Dim(50.0, "%");
    assert DimOf(Percent25) == Dim(25.0, "%");
    TwoComparable(a, Percent50, b, Percent25);
  }

  lemma ShorterParsed(a: string, b: string)
    requires Word(a) && Word(b)
    ensures ParseStops([At(a, "50%"), At(b, "25%")]) == [Stop(a, Some(Percent50)), Stop(b, Some(Percent25))]
    ensures Balanced(At(a, "50%")) && Balanced(At(b, "25%"))
    ensures RenderStops([Stop(a, Some(Percent50)), Stop(b, Some(Zero))]) == [At(a, "50%"), At(b, "0")]
  {
    AtLength(a, "50%", "50", "%");
    AtLength(b, "25%", "25", "%");
    AtZero(b);
    TwoParsed(At(a, "50%"), At(b, "25%"), Stop(a, Some(Percent50)), Stop(b, Some(Percent25)));
    TwoRendered(Stop(a, Some(Percent50)), Stop(b, Some(Zero)));
  }

  lemma ShorterArguments(a: string, b: string)
    requires Word(a) && Word(b)
    ensures var args := Join(["45deg", At(a, "50%"), At(b, "25%")], ',');
      MinifyArguments(Linear, args) == Join(["45deg", At(a, "50%"), At(b, "0")], ',')
      && NoTopLevel(args, ')', 0) && DepthAfter(args, 0) == 0
  {
    ShorterParsed(a, b);
    ShorterStops(a, b);
    Angle45();
    PreludeThree(Linear, "45deg", At(a, "50%"), At(b, "25%"), At(a, "50%"), At(b, "0"));
  }

  /** `#ffe500 50%,#121 25%`: a position before the one before becomes `0`. */
  lemma ShorterFixture(pre: string, name: string, a: string, b: string)
    requires Prefix(pre) && GradientName(name, Linear) && Word(a) && Word(b)
    ensures MinifyValue(Call(pre, name, Join(["45deg", At(a, "50%"), At(b, "25%")], ',')))
         == Call(pre, name, Join(["45deg", At(a, "50%"), At(b, "0")], ','))
  {
    ShorterArguments(a, b);
    InCall(pre, name, Linear, Join(["45deg", At(a, "50%"), At(b, "25%")], ','));
  }

  // `45deg,#ffe500 25px,#121 20%`

  /** `25px` then `20%`: different units are never compared. */
  lemma OtherUnitStops(a: string, b: string)
    ensures Reduce([Stop(a, Some(Pixels25)), Stop(b, Some(Percent20))]) == [Stop(a, Some(Pixels25)), Stop(b, Some(Percent20))]
  {
    assert DimOf(Pixels25) == Dim(25.0, "px");
    assert DimOf(Percent20) == Dim(20.0, "%");
    TwoComparable(a, Pixels25, b, Percent20);
  }

  lemma OtherUnitParsed(a: string, b: string)
    requires Word(a) && Word(b)
    ensures ParseStops([At(a, "25px"), At(b, "20%")]) == [Stop(a, Some(Pixels25)), Stop(b, Some(Percent20))]
    ensures Balanced(At(a, "25px")) && Balanced(At(b, "20%"))
    ensures RenderStops([Stop(a, Some(Pixels25)), Stop(b, Some(Percent20))]) == [At(a, "25px"), At(b, "20%")]
  {
    AtLength(a, "25px", "25", "px");
    AtLength(b, "20%", "20", "%");
    TwoParsed(At(a, "25px"), At(b, "20%"), Stop(a, Some(Pixels25)), Stop(b, Some(Percent20)));
    TwoRendered(Stop(a, Some(Pixels25)), Stop(b, Some(Percent20)));
  }

  lemma OtherUnitArguments(a: string, b: string)
    requires Word(a) && Word(b)
    ensures var args := Join(["45deg", At(a, "25px"), At(b, "20%")], ',');
      MinifyArguments(Linear, args) == args && NoTopLevel(args, ')', 0) && DepthAfter(args, 0) == 0
  {
    OtherUnitParsed(a, b);
    OtherUnitStops(a, b);
    Angle45();
    PreludeThree(Linear, "45deg", At(a, "25px"), At(b, "20%"), At(a, "25px"), At(b, "20%"));
  }

  /** `#ffe500 25px,#121 20%`: positions in different units are kept. */
  lemma OtherUnitFixture(pre: string, name: string, a: string, b: string)
    requires Prefix(pre) && GradientName(name, Linear) && Word(a) && Word(b)
    ensures var args := Join(["45deg", At(a, "25px"), At(b, "20%")], ',');
      MinifyValue(Call(pre, name, args)) == Call(pre, name, args)
  {
    OtherUnitArguments(a, b);
    InCall(pre, name, Linear, Join(["45deg", At(a, "25px"), At(b, "20%")], ','));
  }

  // `#ffe500 0%,#121 100%`

  const Percent0: ValidPosition := Comparable(Numeral("", "0", None), "%")
  const Percent100: ValidPosition := Comparable(Numeral("", "100", None), "%")

  /** A leading `0%` and a trailing `100%` say where the gradient starts and ends anyway and are dropped. */
  lemma BoundaryStops(a: string, b: string)
    ensures Reduce([Stop(a, Some(Percent0)), Stop(b, Some(Percent100))]) == [Stop(a, None), Stop(b, None)]
  {
    assert DimOf(Percent0) == Dim(0.0, "%");
    assert DimOf(Percent100) == Dim(100.0, "%");
    TwoStops(Stop(a, Some(Percent0)), Stop(b, Some(Percent100)));
  }

  lemma BoundaryParsed(a: string, b: string)
    requires Colour(a) && Word(b)
    ensures ParseStops([At(a, "0%"), At(b, "100%")]) == [Stop(a, Some(Percent0)), Stop(b, Some(Percent100))]
    ensures Balanced(At(a, "0%")) && Balanced(At(b, "100%")) && !IsPrelude(Linear, At(a, "0%"))
    ensures RenderStops([Stop(a, None), Stop(b, None)]) == [a, b]
  {
    AtLength(a, "0%", "0", "%");
    AtLength(b, "100%", "100", "%");
    TwoParsed(At(a, "0%"), At(b, "100%"), Stop(a, Some(Percent0)), Stop(b, Some(Percent100)));
    TwoRendered(Stop(a, None), Stop(b, None));
  }

  lemma BoundaryArguments(a: string, b: string)
    requires Colour(a) && Word(b)
    ensures var args := Join([At(a, "0%"), At(b, "100%")], ',');
      MinifyArguments(Linear, args) == Join([a, b], ',') && NoTopLevel(args, ')', 0) && DepthAfter(args, 0) == 0
  {
    BoundaryParsed(a, b);
    BoundaryStops(a, b);
    WithoutPrelude(Linear, [At(a, "0%"), At(b, "100%")], [a, b]);
  }

  /** `#ffe500 0%,#121 100%` becomes `#ffe500,#121`. */
  lemma BoundaryFixture(pre: string, name: string, a: string, b: string)
    requires Prefix(pre) && GradientName(name, Linear) && Colour(a) && Word(b)
    ensures MinifyValue(Call(pre, name, Join([At(a, "0%"), At(b, "100%")], ','))) == Call(pre, name, Join([a, b], ','))
  {
    BoundaryArguments(a, b);
    InCall(pre, name, Linear, Join([At(a, "0%"), At(b, "100%")], ','));
  }

  // `#121,#121 5px,#ffe500 5px,#ffe500 10px`

  const Pixels5: ValidPosition := Comparable(Numeral("", "5", None), "px")
  const Pixels10: ValidPosition := Comparable(Numeral("", "10", None), "px")

  /** The stop without a position is passed over; the second `5px` becomes `0`; `10px` is after it and kept. */
  lemma RadialStops(a: string, b: string)
    ensures Reduce([Stop(a, None), Stop(a, Some(Pixels5)), Stop(b, Some(Pixels5)), Stop(b, Some(Pixels10))])
         == [Stop(a, None), Stop(a, Some(Pixels5)), Stop(b, Some(Zero)), Stop(b, Some(Pixels10))]
  {
    assert DimOf(Pixels5) == Dim(5.0, "px");
    assert DimOf(Pixels10) == Dim(10.0, "px");
    FourStops(Stop(a, None), Stop(a, Some(Pixels5)), Stop(b, Some(Pixels5)), Stop(b, Some(Pixels10)));
  }

  lemma RadialParsed(a: string, b: string)
    requires Colour(a) && Word(b)
    ensures ParseStops([a, At(a, "5px"), At(b, "5px"), At(b, "10px")])
         == [Stop(a, None), Stop(a, Some(Pixels5)), Stop(b, Some(Pixels5)), Stop(b, Some(Pixels10))]
    ensures Balanced(a) && Balanced(At(a, "5px")) && Balanced(At(b, "5px")) && Balanced(At(b, "10px")) && !IsPrelude(Radial, a)
    ensures RenderStops([Stop(a, None), Stop(a, Some(Pixels5)), Stop(b, Some(Zero)), Stop(b, Some(Pixels10))])
         == [a, At(a, "5px"), At(b, "0"), At(b, "10px")]
  {
    Bare(a);
    AtLength(a, "5px", "5", "px");
    AtLength(b, "5px", "5", "px");
    AtLength(b, "10px", "10", "px");
    AtZero(b);
    FourParsed(a, At(a, "5px"), At(b, "5px"), At(b, "10px"), Stop(a, None), Stop(a, Some(Pixels5)), Stop(b, Some(Pixels5)), Stop(b, Some(Pixels10)));
    FourRendered(Stop(a, None), Stop(a, Some(Pixels5)), Stop(b, Some(Zero)), Stop(b, Some(Pixels10)));
  }

  lemma RadialArguments(a: string, b: string)
    requires Colour(a) && Word(b)
    ensures var args := Join([a, At(a, "5px"), At(b, "5px"), At(b, "10px")], ',');
      MinifyArguments(Radial, args) == Join([a, At(a, "5px"), At(b, "0"), At(b, "10px")], ',')
      && NoTopLevel(args, ')', 0) && DepthAfter(args, 0) == 0
  {
    RadialParsed(a, b);
    RadialStops(a, b);
    WithoutPrelude(Radial, [a, At(a, "5px"), At(b, "5px"), At(b, "10px")], [a, At(a, "5px"), At(b, "0"), At(b, "10px")]);
  }

  /** `#121,#121 5px,#ffe500 5px,#ffe500 10px` in a radial gradient: the repeated `5px` becomes `0`. */
  lemma RadialFixture(pre: string, name: string, a: string, b: string)
    requires Prefix(pre) && GradientName(name, Radial) && Colour(a) && Word(b)
    ensures MinifyValue(Call(pre, name, Join([a, At(a, "5px"), At(b, "5px"), At(b, "10px")], ',')))
         == Call(pre, name, Join([a, At(a, "5px"), At(b, "0"), At(b, "10px")], ','))
  {
    RadialArguments(a, b);
    InCall(pre, name, Radial, Join([a, At(a, "5px"), At(b, "5px"), At(b, "10px")], ','));
  }

  // `#fff,#fff 2em,#ccc 2em,#ccc 2.1em,#fff 2.1em`

  const Ems2: ValidPosition := Comparable(Numeral("", "2", None), "em")
  const Ems21: ValidPosition := Comparable(Numeral("", "2", Some("1")), "em")

  /** `2.1em` is compared exactly: it is after `2em` and kept, and the second `2.1em` becomes `0`. */
  lemma FractionStops(a: string, b: string)
    ensures Reduce([Stop(a, None), Stop(a, Some(Ems2)), Stop(b, Some(Ems2)), Stop(b, Some(Ems21)), Stop(a, Some(Ems21))])
         == [Stop(a, None), Stop(a, Some(Ems2)), Stop(b, Some(Zero)), Stop(b, Some(Ems21)), Stop(a, Some(Zero))]
  {
    assert DimOf(Ems2) == Dim(2.0, "em");
    assert DimOf(Ems21) == Dim(2.1, "em");
    FiveStops(Stop(a, None), Stop(a, Some(Ems2)), Stop(b, Some(Ems2)), Stop(b, Some(Ems21)), Stop(a, Some(Ems21)));
  }

  lemma AtEms2(c: string)
    requires Word(c)
    ensures ParseStop(At(c, "2em")) == Stop(c, Some(Ems2)) && RenderStop(Stop(c, Some(Ems2))) == At(c, "2em")
    ensures Balanced(At(c, "2em"))
  {
    AtLength(c, "2em", "2", "em");
  }

  lemma AtEms21(c: string)
    requires Word(c)
    ensures ParseStop(At(c, "2.1em")) == Stop(c, Some(Ems21)) && RenderStop(Stop(c, Some(Ems21))) == At(c, "2.1em")
    ensures Balanced(At(c, "2.1em"))
  {
    AtFraction(c, "2.1em", "2", "1", "em");
  }

  lemma FractionParsed(a: string, b: string)
    requires Word(a) && Word(b)
    ensures ParseStops([a, At(a, "2em"), At(b, "2em"), At(b, "2.1em"), At(a, "2.1em")])
         == [Stop(a, None), Stop(a, Some(Ems2)), Stop(b, Some(Ems2)), Stop(b, Some(Ems21)), Stop(a, Some(Ems21))]
    ensures Balanced(a) && Balanced(At(a, "2em")) && Balanced(At(b, "2em")) && Balanced(At(b, "2.1em")) && Balanced(At(a, "2.1em"))
  {
    Bare(a);
    AtEms2(a);
    AtEms2(b);
    AtEms21(b);
    AtEms21(a);
    FiveParsed(a, At(a, "2em"), At(b, "2em"), At(b, "2.1em"), At(a, "2.1em"),
      Stop(a, None), Stop(a, Some(Ems2)), Stop(b, Some(Ems2)), Stop(b, Some(Ems21)), Stop(a, Some(Ems21)));
  }

  lemma FractionRendered(a: string, b: string)
    requires Colour(a) && Word(b)
    ensures RenderStops([Stop(a, None), Stop(a, Some(Ems2)), Stop(b, Some(Zero)), Stop(b, Some(Ems21)), Stop(a, Some(Zero))])
         == [a, At(a, "2em"), At(b, "0"), At(b, "2.1em"), At(a, "0")]
    ensures !IsPrelude(Linear, a)
  {
    Bare(a);
    AtEms2(a);
    AtEms21(b);
    AtZero(a);
    AtZero(b);
    FiveRendered(Stop(a, None), Stop(a, Some(Ems2)), Stop(b, Some(Zero)), Stop(b, Some(Ems21)), Stop(a, Some(Zero)));
  }

  lemma FractionArguments(a: string, b: string)
    requires Colour(a) && Word(b)
    ensures var args := Join([a, At(a, "2em"), At(b, "2em"), At(b, "2.1em"), At(a, "2.1em")], ',');
      MinifyArguments(Linear, args) == Join([a, At(a, "2em"), At(b, "0"), At(b, "2.1em"), At(a, "0")], ',')
      && NoTopLevel(args, ')', 0) && DepthAfter(args, 0) == 0
  {
    FractionParsed(a, b);
    FractionRendered(a, b);
    FractionStops(a, b);
    WithoutPrelude(Linear, [a, At(a, "2em"), At(b, "2em"), At(b, "2.1em"), At(a, "2.1em")],
      [a, At(a, "2em"), At(b, "0"), At(b, "2.1em"), At(a, "0")]);
  }

  /** `#fff,#fff 2em,#ccc 2em,#ccc 2.1em,#fff 2.1em`: `2.1em` is neither rounded nor mangled. */
  lemma FractionFixture(pre: string, name: string, a: string, b: string)
    requires Prefix(pre) && GradientName(name, Linear) && Colour(a) && Word(b)
    ensures MinifyValue(Call(pre, name, Join([a, At(a, "2em"), At(b, "2em"), At(b, "2.1em"), At(a, "2.1em")], ',')))
         == Call(pre, name, Join([a, At(a, "2em"), At(b, "0"), At(b, "2.1em"), At(a, "0")], ','))
  {
    FractionArguments(a, b);
    InCall(pre, name, Linear, Join([a, At(a, "2em"), At(b, "2em"), At(b, "2.1em"), At(a, "2.1em")], ','));
  }

  // `90deg,transparent,#00aeef 0`

  /** A `0` on the last stop, with no earlier position to compare it with, is kept. */
  lemma LastZeroStops(a: string, b: string)
    ensures Reduce([Stop(a, None), Stop(b, Some(Zero))]) == [Stop(a, None), Stop(b, Some(Zero))]
  {
    ZeroDimIsZero();
    TwoStops(Stop(a, None), Stop(b, Some(Zero)));
  }

  lemma LastZeroArguments(a: string, b: string)
    requires Word(a) && Word(b)
    ensures var args := Join(["90deg", a, At(b, "0")], ',');
      MinifyArguments(Linear, args) == args && NoTopLevel(args, ')', 0) && DepthAfter(args, 0) == 0
  {
    var x := At(b, "0");
    assert Balanced(a) && Balanced(x) && RenderStops(Reduce(ParseStops([a, x]))) == [a, x] by {
      Bare(a);
      AtZero(b);
      TwoParsed(a, x, Stop(a, None), Stop(b, Some(Zero)));
      LastZeroStops(a, b);
      TwoRendered(Stop(a, None), Stop(b, Some(Zero)));
    }
    assert Balanced("90deg") && IsPrelude(Linear, "90deg") && Normalize("90deg") == "90deg" by {
      assert Word("90deg");
      NumericPrelude(Linear, "90deg");
      WordFacts("90deg");
    }
    var args := Join(["90deg", a, x], ',');
    assert MinifyArguments(Linear, args) == Join([Normalize("90deg"), a, x], ',') && NoTopLevel(args, ')', 0) && DepthAfter(args, 0) == 0 by {
      PreludeThree(Linear, "90deg", a, x, a, x);
    }
  }

  /** `90deg,transparent,#00aeef 0` is kept as written. */
  lemma LastZeroFixture(pre: string, name: string, a: string, b: string)
    requires Prefix(pre) && GradientName(name, Linear) && Word(a) && Word(b)
    ensures var args := Join(["90deg", a, At(b, "0")], ',');
      MinifyValue(Call(pre, name, args)) == Call(pre, name, args)
  {
    LastZeroArguments(a, b);
    InCall(pre, name, Linear, Join(["90deg", a, At(b, "0")], ','));
  }

  // `to left bottom,transparent calc(50% - 2px),#a7a7a8 0,#a7a7a8 calc(50% + 2px),transparent 0`

  /** A corner direction such as `to left bottom`. */
  function CornerText(v: Side, h: Side): string {
    "to " + Keyword(v) + " " + Keyword(h)
  }

  /** A `calc(...)` expression. */
  function CalcText(e: string): string {
    "calc(" + e + ")"
  }

  /** The stops of the `calc(...)` fixture, for a colour `a`, a colour `b` and the two expressions `e` and `f`. */
  function CalcStopTexts(a: string, b: string, e: string, f: string): seq<string> {
    [At(a, CalcText(e)), At(b, "0"), At(b, CalcText(f)), At(a, "0")]
  }

  /** Around an opaque `calc(...)` position nothing is compared: every stop is kept. */
  lemma CalcStops(a: string, b: string, x: string, y: string)
    ensures Reduce([Stop(a, Some(Opaque(x))), Stop(b, Some(Zero)), Stop(b, Some(Opaque(y))), Stop(a, Some(Zero))])
         == [Stop(a, Some(Opaque(x))), Stop(b, Some(Zero)), Stop(b, Some(Opaque(y))), Stop(a, Some(Zero))]
  {
    ZeroDimIsZero();
    FourStops(Stop(a, Some(Opaque(x))), Stop(b, Some(Zero)), Stop(b, Some(Opaque(y))), Stop(a, Some(Zero)));
  }

  lemma CalcParsed(a: string, b: string, e: string, f: string)
    requires Word(a) && Word(b) && Flat(e) && ',' !in e && Flat(f) && ',' !in f
    ensures var stops := [Stop(a, Some(Opaque(CalcText(e)))), Stop(b, Some(Zero)), Stop(b, Some(Opaque(CalcText(f)))), Stop(a, Some(Zero))];
      ParseStops(CalcStopTexts(a, b, e, f)) == stops && RenderStops(stops) == CalcStopTexts(a, b, e, f)
    ensures Balanced(At(a, CalcText(e))) && Balanced(At(b, "0")) && Balanced(At(b, CalcText(f))) && Balanced(At(a, "0"))
  {
    var x, y := CalcText(e), CalcText(f);
    var s0, s1, s2, s3 := Stop(a, Some(Opaque(x))), Stop(b, Some(Zero)), Stop(b, Some(Opaque(y))), Stop(a, Some(Zero));
    assert ParseStop(At(a, x)) == s0 && RenderStop(s0) == At(a, x) && Balanced(At(a, x)) by { AtCalc(a, x, e); }
    assert ParseStop(At(b, "0")) == s1 && RenderStop(s1) == At(b, "0") && Balanced(At(b, "0")) by { AtZero(b); }
    assert ParseStop(At(b, y)) == s2 && RenderStop(s2) == At(b, y) && Balanced(At(b, y)) by { AtCalc(b, y, f); }
    assert ParseStop(At(a, "0")) == s3 && RenderStop(s3) == At(a, "0") && Balanced(At(a, "0")) by { AtZero(a); }
    FourParsed(At(a, x), At(b, "0"), At(b, y), At(a, "0"), s0, s1, s2, s3);
    FourRendered(s0, s1, s2, s3);
  }

  lemma CornerPrelude(v: Side, h: Side)
    ensures Balanced(CornerText(v, h)) && IsPrelude(Linear, CornerText(v, h)) && Normalize(CornerText(v, h)) == CornerText(v, h)
  {
    KeywordIsWord(v);
    KeywordIsWord(h);
    FlatBalanced(CornerText(v, h));
    CornerIsPrelude(v, h);
    NormalizeKeepsCorners(v, h);
  }

  lemma FourBalanced(x0: string, x1: string, x2: string, x3: string)
    requires Balanced(x0) && Balanced(x1) && Balanced(x2) && Balanced(x3)
    ensures forall i | 0 <= i < 4 :: Balanced([x0, x1, x2, x3][i])
  {
  }

  /** Every stop of the `calc(...)` fixture is balanced and kept by the reduction. */
  lemma CalcKept(a: string, b: string, e: string, f: string)
    requires Word(a) && Word(b) && Flat(e) && ',' !in e && Flat(f) && ',' !in f
    ensures var texts := CalcStopTexts(a, b, e, f);
      (forall i | 0 <= i < |texts| :: Balanced(texts[i])) && RenderStops(Reduce(ParseStops(texts))) == texts
  {
    var texts := CalcStopTexts(a, b, e, f);
    var stops := [Stop(a, Some(Opaque(CalcText(e)))), Stop(b, Some(Zero)), Stop(b, Some(Opaque(CalcText(f)))), Stop(a, Some(Zero))];
    assert ParseStops(texts) == stops && RenderStops(stops) == texts by { CalcParsed(a, b, e, f); }
    assert Reduce(stops) == stops by { CalcStops(a, b, CalcText(e), CalcText(f)); }
    assert Balanced(At(a, CalcText(e))) && Balanced(At(b, "0")) && Balanced(At(b, CalcText(f))) && Balanced(At(a, "0")) by {
      CalcParsed(a, b, e, f);
    }
    FourBalanced(At(a, CalcText(e)), At(b, "0"), At(b, CalcText(f)), At(a, "0"));
  }

  lemma CalcArguments(v: Side, h: Side, a: string, b: string, e: string, f: string)
    requires Word(a) && Word(b) && Flat(e) && ',' !in e && Flat(f) && ',' !in f
    ensures var args := Join([CornerText(v, h)] + CalcStopTexts(a, b, e, f), ',');
      MinifyArguments(Linear, args) == args && NoTopLevel(args, ')', 0) && DepthAfter(args, 0) == 0
  {
    var d := CornerText(v, h);
    var texts := CalcStopTexts(a, b, e, f);
    assert (forall i | 0 <= i < |texts| :: Balanced(texts[i])) && RenderStops(Reduce(ParseStops(texts))) == texts by {
      CalcKept(a, b, e, f);
    }
    assert Balanced(d) && IsPrelude(Linear, d) && Normalize(d) == d by { CornerPrelude(v, h); }
    var args := Join([d] + texts, ',');
    assert MinifyArguments(Linear, args) == Join([Normalize(d)] + texts, ',') && NoTopLevel(args, ')', 0) && DepthAfter(args, 0) == 0 by {
      WithPrelude(Linear, d, texts, texts);
    }
  }

  /** The `calc(...)` fixture is kept as written: a `0` after an opaque position is never reduced. */
  lemma CalcFixture(pre: string, name: string, v: Side, h: Side, a: string, b: string, e: string, f: string)
    requires Prefix(pre) && GradientName(name, Linear) && Word(a) && Word(b)
    requires Flat(e) && ',' !in e && Flat(f) && ',' !in f
    ensures var args := Join([CornerText(v, h)] + CalcStopTexts(a, b, e, f), ',');
      MinifyValue(Call(pre, name, args)) == Call(pre, name, args)
  {
    CalcArguments(v, h, a, b, e, f);
    InCall(pre, name, Linear, Join([CornerText(v, h)] + CalcStopTexts(a, b, e, f), ','));
  }

  // `linear-gradient()` and `radial-gradient()`

  /** An empty gradient call is kept as written. */
  lemma EmptyFixture(pre: string, name: string, kind: Kind)
    requires Prefix(pre) && GradientName(name, kind)
    ensures MinifyValue(Call(pre, name, "")) == Call(pre, name, "")
  {
    EmptyArguments(kind);
    InCall(pre, name, kind, "");
  }

  // ---------------------------------------------------------------------
  // The table's own words

  /** The two declarations of the table leave the scan at the gradient's name. */
  lemma TableDeclarations()
    ensures Prefix("background:") && Prefix("background: ")
  {
  }

  /** The four gradient functions' names, each with the kind it calls for. */
  lemma LinearName()
    ensures GradientName("linear-gradient", Linear)
  {
  }

  lemma {:induction false} NameCharsAppend(a: string, b: string)
    requires AllNameChars(a) && AllNameChars(b)
    ensures AllNameChars(a + b)
  {
    forall i | 0 <= i < |a + b| ensures IsNameChar((a + b)[i]) {
      if i < |a| {
        assert (a + b)[i] == a[i];
      } else {
        assert (a + b)[i] == b[i - |a|];
      }
    }
  }

  lemma RepeatingLinearName()
    ensures GradientName("repeating-linear-gradient", Linear)
  {
    LinearName();
    assert AllNameChars("repeating-");
    NameCharsAppend("repeating-", "linear-gradient");
    assert "repeating-" + "linear-gradient" == "repeating-linear-gradient";
  }

  lemma RadialName()
    ensures GradientName("radial-gradient", Radial)
  {
  }

  lemma RepeatingRadialName()
    ensures GradientName("repeating-radial-gradient", Radial)
  {
    RadialName();
    assert AllNameChars("repeating-");
    NameCharsAppend("repeating-", "radial-gradient");
    assert "repeating-" + "radial-gradient" == "repeating-radial-gradient";
  }

  /** The table's colours are colour words. */
  lemma TableColours()
    ensures Colour("#ffe500") && Colour("#121") && Colour("#fff") && Colour("#ccc")
  {
  }

  lemma TableCalcColours()
    ensures Colour("transparent") && Colour("#00aeef") && Colour("#a7a7a8")
  {
  }

  /** The table's sides, corners and `calc(...)` expressions, in the lemmas' terms. */
  lemma TableDirections()
    ensures Keyword(Top) == "top" && Keyword(Right) == "right" && Keyword(Bottom) == "bottom" && Keyword(Left) == "left"
    ensures AngleText(Top) == "0deg" && AngleText(Right) == "90deg" && AngleText(Bottom) == "180deg" && AngleText(Left) == "270deg"
    ensures CornerText(Top, Right) == "to top right" && CornerText(Bottom, Left) == "to bottom left"
    ensures CornerText(Left, Bottom) == "to left bottom"
  {
  }

  lemma TableCalc()
    ensures Flat("50% - 2px") && ',' !in "50% - 2px" && Flat("50% + 2px") && ',' !in "50% + 2px"
    ensures CalcText("50% - 2px") == "calc(50% - 2px)" && CalcText("50% + 2px") == "calc(50% + 2px)"
  {
  }
}
