/**
 * One gradient call's argument list: an optional leading argument (the
 * direction of a linear gradient, the shape of a radial one) followed by
 * colour stops, all separated by top-level commas. The minifier splits the
 * list, rewrites a single-side linear direction as its angle, reduces the
 * stop positions and joins the arguments again with bare commas.
 */
module Gradients {
  import opened Options
  import opened Scanner
  import opened Positions
  import opened Directions
  import opened Stops

  datatype Kind = Linear | Radial

  /** The gradient functions the minifier rewrites, with their kind; names are matched exactly. */
  const GradientKinds: map<string, Kind> := map[
    "linear-gradient" := Linear, "repeating-linear-gradient" := Linear,
    "radial-gradient" := Radial, "repeating-radial-gradient" := Radial]

  function KindOf(name: string): Option<Kind> {
    if name in GradientKinds then Some(GradientKinds[name]) else None
  }

  function FirstWord(arg: string): string {
    Split(arg, ' ')[0]
  }

  /** A word that starts like a number: an angle or a length. */
  predicate StartsNumeric(w: string) {
    w != [] && (IsDigit(w[0]) || w[0] == '.' || w[0] == '+' || w[0] == '-')
  }

  predicate RadialKeyword(w: string) {
    w in {"circle", "ellipse", "closest-side", "closest-corner", "farthest-side", "farthest-corner", "at"}
  }

  /**
   * The first argument is a direction or a shape rather than a colour stop:
   * for a linear gradient it starts with `to` or with an angle, for a radial
   * one with a shape or size keyword, `at`, or a length.
   */
  predicate IsPrelude(kind: Kind, arg: string) {
    var w := FirstWord(arg);
    StartsNumeric(w) || (if kind == Linear then w == "to" else RadialKeyword(w))
  }

  /** An argument list, read. */
  datatype Gradient = Gradient(prelude: Option<string>, stops: seq<Stop>)

  function ParseStops(args: seq<string>): seq<Stop> {
    seq(|args|, i requires 0 <= i < |args| => ParseStop(args[i]))
  }

  function RenderStops(stops: seq<Stop>): seq<string> {
    seq(|stops|, i requires 0 <= i < |stops| => RenderStop(stops[i]))
  }

  function ParseGradient(kind: Kind, text: string): Gradient {
    var args := Split(text, ',');
    if IsPrelude(kind, args[0]) then Gradient(Some(args[0]), ParseStops(args[1..]))
    else Gradient(None, ParseStops(args))
  }

  function Arguments(g: Gradient): seq<string> {
    (if g.prelude.Some? then [g.prelude.value] else []) + RenderStops(g.stops)
  }

  function RenderGradient(g: Gradient): string {
    Join(Arguments(g), ',')
  }

  /** Linear directions are normalised, radial shapes kept; the stops are reduced. */
  function Transform(kind: Kind, g: Gradient): Gradient {
    var prelude := if kind == Linear && g.prelude.Some? then Some(Normalize(g.prelude.value)) else g.prelude;
    Gradient(prelude, Reduce(g.stops))
  }

  /** The minified text of a gradient call's arguments. */
  function MinifyArguments(kind: Kind, text: string): string {
    RenderGradient(Transform(kind, ParseGradient(kind, text)))
  }

  /** The minified text of a comma-separated list of colour stops alone. */
  function MinifyStopList(text: string): string {
    Join(RenderStops(Reduce(ParseStops(Split(text, ',')))), ',')
  }

  // ---------------------------------------------------------------------
  // Reading and writing

  lemma RenderParseStops(args: seq<string>)
    ensures RenderStops(ParseStops(args)) == args
  {
    forall i | 0 <= i < |args| ensures RenderStops(ParseStops(args))[i] == args[i] {
      RenderParseStop(args[i]);
    }
  }

  /** Reading an argument list and writing it back gives the text unchanged. */
  lemma RenderParseGradient(kind: Kind, text: string)
    ensures RenderGradient(ParseGradient(kind, text)) == text
  {
    var args := Split(text, ',');
    JoinSplit(text, ',');
    if IsPrelude(kind, args[0]) {
      RenderParseStops(args[1..]);
      assert [args[0]] + args[1..] == args;
    } else {
      RenderParseStops(args);
      assert Arguments(ParseGradient(kind, text)) == RenderStops(ParseStops(args));
    }
  }

  // ---------------------------------------------------------------------
  // The direction

  /** Without a leading direction or shape every argument is a stop. */
  lemma MinifyWithoutPrelude(kind: Kind, text: string)
    requires !IsPrelude(kind, Split(text, ',')[0])
    ensures MinifyArguments(kind, text) == MinifyStopList(text)
  {
    var g := ParseGradient(kind, text);
    assert Arguments(Transform(kind, g)) == RenderStops(Reduce(g.stops));
  }

  /**
   * A leading direction or shape is split off and the remaining arguments
   * are minified as a stop list of their own; only a linear direction is
   * normalised.
   */
  lemma MinifyWithPrelude(kind: Kind, d: string, rest: string)
    requires NoTopLevel(d, ',', 0) && DepthAfter(d, 0) == 0 && IsPrelude(kind, d)
    ensures MinifyArguments(kind, d + "," + rest) == (if kind == Linear then Normalize(d) else d) + "," + MinifyStopList(rest)
  {
    SplitCons(d, rest, ',');
    var args := Split(d + "," + rest, ',');
    assert args[1..] == Split(rest, ',');
    var g := ParseGradient(kind, d + "," + rest);
    var p := if kind == Linear then Normalize(d) else d;
    var tail := RenderStops(Reduce(g.stops));
    assert Arguments(Transform(kind, g)) == [p] + tail;
    JoinCons(p, tail, ',');
  }

  lemma SideIsPrelude(s: Side)
    ensures IsPrelude(Linear, "to " + Keyword(s))
    ensures NoTopLevel("to " + Keyword(s), ',', 0) && DepthAfter("to " + Keyword(s), 0) == 0
  {
    var d := "to " + Keyword(s);
    KeywordIsWord(s);
    assert FirstWord(d) == "to" by { ToWords(Keyword(s)); }
    assert Flat(d) && ',' !in d by { CleanJoin("to ", Keyword(s)); }
    FlatNoTopLevel(d, ',', 0);
    FlatDepth(d, 0);
  }

  /**
   * In a linear or repeating linear gradient, a leading `to top`,
   * `to right`, `to bottom` or `to left` becomes 0deg, 90deg, 180deg or
   * 270deg, and the stops after it are minified exactly as on their own.
   */
  lemma LinearSide(s: Side, rest: string)
    ensures MinifyArguments(Linear, "to " + Keyword(s) + "," + rest) == AngleText(s) + "," + MinifyStopList(rest)
  {
    SideIsPrelude(s);
    MinifyWithPrelude(Linear, "to " + Keyword(s), rest);
    NormalizeSide(s);
  }

  /** Joining words without commas or parentheses gives such a word. */
  lemma CleanJoin(a: string, b: string)
    requires Flat(a) && Flat(b) && ',' !in a && ',' !in b
    ensures Flat(a + b) && ',' !in a + b
  {
  }

  lemma CornerFirstWord(a: Side, b: Side)
    ensures FirstWord("to " + Keyword(a) + " " + Keyword(b)) == "to"
  {
    WordIsSingle("to");
    assert "to " + Keyword(a) + " " + Keyword(b) == "to" + [' '] + (Keyword(a) + " " + Keyword(b));
    SplitCons("to", Keyword(a) + " " + Keyword(b), ' ');
  }

  lemma CornerIsPrelude(a: Side, b: Side)
    ensures var d := "to " + Keyword(a) + " " + Keyword(b);
      IsPrelude(Linear, d) && NoTopLevel(d, ',', 0) && DepthAfter(d, 0) == 0
  {
    var d := "to " + Keyword(a) + " " + Keyword(b);
    CornerFirstWord(a, b);
    KeywordIsWord(a);
    KeywordIsWord(b);
    CleanJoin("to ", Keyword(a));
    CleanJoin("to " + Keyword(a), " ");
    CleanJoin("to " + Keyword(a) + " ", Keyword(b));
    FlatNoTopLevel(d, ',', 0);
    FlatDepth(d, 0);
  }

  /** A two-side direction such as `to top right` is kept byte for byte. */
  lemma LinearCorner(a: Side, b: Side, rest: string)
    ensures var d := "to " + Keyword(a) + " " + Keyword(b);
      MinifyArguments(Linear, d + "," + rest) == d + "," + MinifyStopList(rest)
  {
    CornerIsPrelude(a, b);
    MinifyWithPrelude(Linear, "to " + Keyword(a) + " " + Keyword(b), rest);
    NormalizeKeepsCorners(a, b);
  }

  /** An empty argument list is left as it is. */
  lemma EmptyArguments(kind: Kind)
    ensures MinifyArguments(kind, "") == ""
  {
    SplitSingle("", ',');
    SplitSingle("", ' ');
    var g := ParseGradient(kind, "");
    assert g.stops == [Unparsed("")];
    assert Reduce(g.stops) == [Unparsed("")];
    assert Arguments(Transform(kind, g)) == [""];
  }

  // ---------------------------------------------------------------------
  // Reading the output back

  /** The minified leading argument is still a leading argument, free of top-level commas and balanced. */
  lemma PreludeKept(kind: Kind, d: string)
    requires IsPrelude(kind, d) && NoTopLevel(d, ',', 0)
    ensures var p := if kind == Linear then Normalize(d) else d;
      IsPrelude(kind, p) && NoTopLevel(p, ',', 0) && (DepthAfter(d, 0) == 0 ==> DepthAfter(p, 0) == 0)
  {
    if kind == Linear {
      NormalizeOnlySides(d);
      if Normalize(d) != d {
        var s: Side :| d == "to " + Keyword(s) && Normalize(d) == AngleText(s);
        AngleTextIsWord(s);
        WordIsSingle(AngleText(s));
        SplitSingle(AngleText(s), ' ');
        FlatNoTopLevel(AngleText(s), ',', 0);
      }
    }
  }

  /** A minified stop is free of top-level commas, and balanced, when its argument was. */
  lemma StopEntry(args: seq<string>, i: nat)
    requires i < |args|
    ensures var out := RenderStops(Reduce(ParseStops(args)));
      (NoTopLevel(args[i], ',', 0) ==> NoTopLevel(out[i], ',', 0))
      && (DepthAfter(args[i], 0) == 0 ==> DepthAfter(out[i], 0) == 0)
  {
    var stops := ParseStops(args);
    ReduceAt(stops, i);
    ReparseRewrite(args[i], PrevAt(stops, i), PlaceOf(i, |stops|));
  }

  /** Entry `k` of the minified argument list keeps the shape of the argument it came from. */
  lemma MinifiedEntry(kind: Kind, text: string, k: nat)
    requires k < |Split(text, ',')|
    ensures var out := Arguments(Transform(kind, ParseGradient(kind, text)));
      var arg := Split(text, ',')[k];
      |out| == |Split(text, ',')|
      && (NoTopLevel(arg, ',', 0) ==> NoTopLevel(out[k], ',', 0))
      && (DepthAfter(arg, 0) == 0 ==> DepthAfter(out[k], 0) == 0)
  {
    var args := Split(text, ',');
    var g := ParseGradient(kind, text);
    var out := Arguments(Transform(kind, g));
    SplitIsWell(text, ',');
    if g.prelude.Some? {
      var tail := RenderStops(Reduce(ParseStops(args[1..])));
      assert out == [out[0]] + tail;
      if k == 0 {
        PreludeKept(kind, args[0]);
      } else {
        StopEntry(args[1..], k - 1);
        assert out[k] == tail[k - 1];
      }
    } else {
      StopEntry(args, k);
      assert out == RenderStops(Reduce(ParseStops(args)));
    }
  }

  /** The minified arguments are again a proper top-level split of the output. */
  lemma MinifiedIsWell(kind: Kind, text: string)
    ensures WellSplit(Arguments(Transform(kind, ParseGradient(kind, text))), ',')
  {
    var args := Split(text, ',');
    var out := Arguments(Transform(kind, ParseGradient(kind, text)));
    SplitIsWell(text, ',');
    MinifiedEntry(kind, text, 0);
    forall k | 0 <= k < |out| ensures NoTopLevel(out[k], ',', 0) && (k < |out| - 1 ==> DepthAfter(out[k], 0) == 0) {
      MinifiedEntry(kind, text, k);
    }
  }

  /** The minified list has as many top-level arguments as the original. */
  lemma ArgumentCount(kind: Kind, text: string)
    ensures |Split(MinifyArguments(kind, text), ',')| == |Split(text, ',')|
  {
    MinifiedIsWell(kind, text);
    SplitJoin(Arguments(Transform(kind, ParseGradient(kind, text))), ',');
    MinifiedEntry(kind, text, 0);
  }

  /** The minified stops read back as themselves. */
  lemma ReparseStops(stops: seq<Stop>, args: seq<string>)
    requires stops == ParseStops(args)
    ensures ParseStops(RenderStops(Reduce(stops))) == Reduce(stops)
  {
    forall i | 0 <= i < |stops| ensures ParseStop(RenderStop(Reduce(stops)[i])) == Reduce(stops)[i] {
      ReduceAt(stops, i);
      ReparseRewrite(args[i], PrevAt(stops, i), PlaceOf(i, |stops|));
    }
  }

  /** The first word of the first stop is kept, so a stop never turns into a direction. */
  lemma FirstStopKept(kind: Kind, args: seq<string>)
    requires |args| >= 1 && !IsPrelude(kind, args[0])
    ensures !IsPrelude(kind, RenderStops(Reduce(ParseStops(args)))[0])
  {
    var stops := ParseStops(args);
    ReduceAt(stops, 0);
    ReparseRewrite(args[0], PrevAt(stops, 0), PlaceOf(0, |stops|));
  }

  /** The minified text reads back as the transformed gradient. */
  lemma ReparseMinified(kind: Kind, text: string)
    ensures ParseGradient(kind, MinifyArguments(kind, text)) == Transform(kind, ParseGradient(kind, text))
  {
    var args := Split(text, ',');
    var g := ParseGradient(kind, text);
    var h := Transform(kind, g);
    MinifiedIsWell(kind, text);
    SplitJoin(Arguments(h), ',');
    SplitIsWell(text, ',');
    if g.prelude.Some? {
      PreludeKept(kind, args[0]);
      ReparseStops(g.stops, args[1..]);
      assert Arguments(h)[1..] == RenderStops(h.stops);
    } else {
      FirstStopKept(kind, args);
      ReparseStops(g.stops, args);
    }
  }

  /**
   * Minifying twice gives the same text as minifying once, provided the only
   * unitless position is the bare `0` (as for valid lengths).
   */
  lemma MinifyIdempotent(kind: Kind, text: string)
    requires PlainZeros(ParseGradient(kind, text).stops)
    ensures MinifyArguments(kind, MinifyArguments(kind, text)) == MinifyArguments(kind, text)
  {
    var g := ParseGradient(kind, text);
    ReparseMinified(kind, text);
    ReduceIdempotent(g.stops);
    if kind == Linear && g.prelude.Some? {
      NormalizeIdempotent(g.prelude.value);
    }
    assert Transform(kind, Transform(kind, g)) == Transform(kind, g);
  }
}
