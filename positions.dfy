/**
 * Colour-stop positions. A position word is either a numeric literal with a
 * unit (`50%`, `2.1em`, `0`), kept digit for digit so that its text is never
 * mangled and compared by its exact decimal value, or an opaque expression
 * (`calc(50% - 2px)`) that is never compared.
 */
module Positions {
  import opened Options

  /** A decimal literal as written: sign (`""`, `"+"` or `"-"`), integer digits, optional fraction digits. */
  datatype Numeral = Numeral(sign: string, whole: string, fraction: Option<string>)

  datatype Position = Comparable(number: Numeral, unit: string) | Opaque(text: string)

  /** A magnitude with its unit: what the reduction compares. */
  datatype Dim = Dim(magnitude: real, unit: string)

  predicate IsDigit(c: char) { '0' <= c <= '9' }

  predicate IsLetter(c: char) { 'a' <= c <= 'z' || 'A' <= c <= 'Z' }

  predicate AllDigits(s: string) { forall i | 0 <= i < |s| :: IsDigit(s[i]) }

  predicate AllLetters(s: string) { forall i | 0 <= i < |s| :: IsLetter(s[i]) }

  /** A unit the reduction may compare: `%`, a word of letters, or none at all. */
  predicate IsUnit(u: string) { u == "%" || AllLetters(u) }

  function DigitValue(c: char): nat
    requires IsDigit(c)
  {
    (c as int - '0' as int) as nat
  }

  function Pow10(n: nat): (r: nat)
    ensures r >= 1
  {
    if n == 0 then 1 else 10 * Pow10(n - 1)
  }

  /** The value of a run of decimal digits. */
  function DigitsValue(s: string): nat
    requires AllDigits(s)
    decreases |s|
  {
    if s == [] then 0 else DigitValue(s[0]) * Pow10(|s| - 1) + DigitsValue(s[1..])
  }

  predicate WellFormed(n: Numeral) {
    (n.sign == "" || n.sign == "+" || n.sign == "-")
    && AllDigits(n.whole)
    && (n.fraction.Some? ==> AllDigits(n.fraction.value) && n.fraction.value != "")
    && (n.whole != "" || n.fraction.Some?)
  }

  /** The exact value of a numeral, as a rational number: no rounding ever happens. */
  function Magnitude(n: Numeral): real
    requires WellFormed(n)
  {
    var unsigned := DigitsValue(n.whole) as real
      + (if n.fraction.Some? then DigitsValue(n.fraction.value) as real / Pow10(|n.fraction.value|) as real else 0.0);
    if n.sign == "-" then -unsigned else unsigned
  }

  /** Fraction text written after the integer digits: `.` and the digits, or nothing. */
  function FractionText(f: Option<string>): string {
    if f.Some? then "." + f.value else ""
  }

  function NumeralText(n: Numeral): string {
    n.sign + n.whole + FractionText(n.fraction)
  }

  function Render(p: Position): string {
    match p
    case Comparable(n, u) => NumeralText(n) + u
    case Opaque(t) => t
  }

  /** Positions the reduction may compare hold well-formed numerals and units. */
  predicate Valid(p: Position) {
    p.Comparable? ==> WellFormed(p.number) && IsUnit(p.unit)
  }

  /** The positions a parse can produce. */
  type ValidPosition = p: Position | Valid(p) witness Opaque("")

  /** Length of the run of digits at the start of `s`. */
  function DigitRun(s: string): (k: nat)
    ensures k <= |s| && AllDigits(s[..k])
    ensures k < |s| ==> !IsDigit(s[k])
    decreases |s|
  {
    if s == [] || !IsDigit(s[0]) then 0
    else
      var k := 1 + DigitRun(s[1..]);
      assert forall i | 1 <= i < k :: s[..k][i] == s[1..][..k - 1][i - 1];
      k
  }

  /** The fraction at the front of `s`: a `.` followed by at least one digit. */
  function FractionOf(s: string): (f: Option<string>)
    ensures f.Some? ==> f.value != [] && AllDigits(f.value)
    ensures |FractionText(f)| <= |s|
  {
    if |s| >= 2 && s[0] == '.' && IsDigit(s[1]) then Some(s[1..][..DigitRun(s[1..])]) else None
  }

  /** The sign written at the front of `w`, if any. */
  function SignOf(w: string): (sign: string)
    ensures sign == "" || sign == "+" || sign == "-"
    ensures |sign| <= |w|
  {
    if |w| > 0 && w[0] == '+' then "+"
    else if |w| > 0 && w[0] == '-' then "-"
    else ""
  }

  /** A position word cut into sign, integer digits, fraction and the rest. */
  datatype Pieces = Pieces(sign: string, whole: string, fraction: Option<string>, rest: string)

  function PiecesText(p: Pieces): string {
    p.sign + p.whole + FractionText(p.fraction) + p.rest
  }

  lemma SignSplits(w: string)
    ensures w == SignOf(w) + w[|SignOf(w)|..]
  {
    if SignOf(w) != "" { assert w == [w[0]] + w[1..]; }
  }

  lemma FractionSplits(t: string)
    ensures t == FractionText(FractionOf(t)) + t[|FractionText(FractionOf(t))|..]
  {
    var f := FractionOf(t);
    if f.Some? {
      var m := DigitRun(t[1..]);
      assert f.value == t[1..][..m];
      assert t == [t[0]] + t[1..][..m] + t[1..][m..];
      assert t[|FractionText(f)|..] == t[1..][m..];
    } else {
      assert t[0..] == t;
    }
  }

  lemma TakeDrop(s: string, k: nat)
    requires k <= |s|
    ensures s == s[..k] + s[k..]
  {
  }

  /** Cuts `w` after its sign, its integer digits and its fraction. */
  function Cut(w: string): (p: Pieces)
    ensures AllDigits(p.whole)
    ensures p.fraction.Some? ==> p.fraction.value != [] && AllDigits(p.fraction.value)
    ensures p.sign == "" || p.sign == "+" || p.sign == "-"
  {
    var body := w[|SignOf(w)|..];
    var tail := body[DigitRun(body)..];
    Pieces(SignOf(w), body[..DigitRun(body)], FractionOf(tail), tail[|FractionText(FractionOf(tail))|..])
  }

  lemma Regroup(a: string, b: string, c: string, d: string, t: string, u: string, w: string)
    requires w == a + t && t == b + u && u == c + d
    ensures w == a + b + c + d
  {
  }

  /** The pieces of a cut make up the word again. */
  lemma CutJoins(w: string)
    ensures PiecesText(Cut(w)) == w
  {
    var sign := SignOf(w);
    var body := w[|sign|..];
    var k := DigitRun(body);
    var tail := body[k..];
    var f := FractionOf(tail);
    var rest := tail[|FractionText(f)|..];
    assert Cut(w) == Pieces(sign, body[..k], f, rest);
    assert w == sign + body by { SignSplits(w); }
    assert body == body[..k] + tail by { TakeDrop(body, k); }
    assert tail == FractionText(f) + rest by { FractionSplits(tail); }
    Regroup(sign, body[..k], FractionText(f), rest, body, tail, w);
  }

  /**
   * Reads one position word: an optional sign, integer digits, an optional
   * fraction, then a unit. Anything else (no digits, a unit that is not `%`
   * or letters, a nested call) is opaque. The text is kept: the result
   * renders exactly as `w` was written, so no number is ever reformatted.
   */
  function Parse(w: string): (p: ValidPosition)
    ensures Render(p) == w
  {
    var c := Cut(w);
    CutJoins(w);
    if (c.whole != [] || c.fraction.Some?) && IsUnit(c.rest) then Comparable(Numeral(c.sign, c.whole, c.fraction), c.rest)
    else Opaque(w)
  }

  /** The position written as a bare `0`, which the reduction puts in place of a redundant one. */
  const Zero: ValidPosition := Comparable(Numeral("", "0", None), "")

  function DimOf(p: ValidPosition): Dim
    requires p.Comparable?
  {
    Dim(Magnitude(p.number), p.unit)
  }

  /** A comparable percentage of exactly the given value (`0%`, `0.0%`, `100%`). */
  predicate IsPercent(p: ValidPosition, value: real) {
    p.Comparable? && p.unit == "%" && Magnitude(p.number) == value
  }

  /** The comparison rule: same unit and not larger than the previous comparable position. */
  predicate NotAfter(d: Dim, prev: Dim) {
    d.unit == prev.unit && d.magnitude <= prev.magnitude
  }

  // ---------------------------------------------------------------------
  // Reading literals: what a plain numeral followed by a unit parses to

  lemma {:induction false} DigitRunOf(d: string, u: string)
    requires AllDigits(d)
    requires u == [] || !IsDigit(u[0])
    ensures DigitRun(d + u) == |d|
    decreases |d|
  {
    if d != [] {
      assert (d + u)[1..] == d[1..] + u;
      assert (d + u)[0] == d[0];
      assert AllDigits(d[1..]) by {
        forall i | 0 <= i < |d[1..]| ensures IsDigit(d[1..][i]) { assert d[1..][i] == d[i + 1]; }
      }
      DigitRunOf(d[1..], u);
    } else {
      assert d + u == u;
    }
  }

  /** Does not start a fraction: neither a digit nor a `.` comes first. */
  predicate StartsUnit(u: string) {
    u == [] || (!IsDigit(u[0]) && u[0] != '.')
  }

  lemma FractionOfDigits(g: string, u: string)
    requires AllDigits(g) && g != [] && StartsUnit(u)
    ensures FractionOf("." + g + u) == Some(g)
  {
    var t := "." + g + u;
    assert t[1..] == g + u;
    assert t[1] == g[0];
    DigitRunOf(g, u);
    assert t[1..][..|g|] == g;
  }

  lemma FractionOfUnit(u: string)
    requires StartsUnit(u)
    ensures FractionOf(u) == None
  {
  }

  lemma CutOfNumeral(d: string, f: Option<string>, u: string)
    requires AllDigits(d) && d != [] && StartsUnit(u)
    requires f.Some? ==> AllDigits(f.value) && f.value != []
    ensures Cut(d + FractionText(f) + u) == Pieces("", d, f, u)
  {
    var rest := FractionText(f) + u;
    var w := d + rest;
    assert d + FractionText(f) + u == w;
    assert w[0] == d[0];
    assert SignOf(w) == "";
    assert w[0..] == w;
    assert rest == [] || !IsDigit(rest[0]) by {
      if f.Some? { assert rest[0] == '.'; }
    }
    DigitRunOf(d, rest);
    assert w[..|d|] == d;
    assert w[|d|..] == rest;
    if f.Some? {
      FractionOfDigits(f.value, u);
      assert rest == "." + f.value + u;
    } else {
      FractionOfUnit(u);
      assert rest == u;
    }
    assert rest[|FractionText(f)|..] == u;
  }

  /** An unsigned numeral followed by a unit parses to that numeral and unit. */
  lemma ParseNumeral(d: string, f: Option<string>, u: string)
    requires AllDigits(d) && d != [] && StartsUnit(u) && IsUnit(u)
    requires f.Some? ==> AllDigits(f.value) && f.value != []
    ensures Parse(d + FractionText(f) + u) == Comparable(Numeral("", d, f), u)
  {
    CutOfNumeral(d, f, u);
  }

  /** The bare `0` written by the reduction reads back as Zero. */
  lemma ZeroParses()
    ensures Parse("0") == Zero && Render(Zero) == "0"
  {
    assert AllDigits("0") by { assert "0"[0] == '0'; }
    ParseNumeral("0", None, "");
    assert "0" + FractionText(None) + "" == "0";
  }

  /** A word that starts with a letter, such as `calc(50% - 2px)`, holds no number and is opaque. */
  lemma LetterWordIsOpaque(w: string)
    requires w != [] && IsLetter(w[0])
    ensures Parse(w) == Opaque(w)
  {
    assert SignOf(w) == "";
    assert w[|SignOf(w)|..] == w;
    assert DigitRun(w) == 0;
    assert FractionOf(w) == None;
  }
}
