/**
 * Argument splitter: a single left-to-right scan that tracks parenthesis
 * depth, so that a separator inside `calc(...)`, `rgba(...)` and the like
 * never splits. A stray `)` at depth 0 is ignored, so unbalanced text is
 * split on a best-effort basis and never rejected.
 */
module Scanner {

  /** Nesting depth after reading `c` at depth `d`. */
  function Step(d: nat, c: char): nat {
    if c == '(' then d + 1 else if c == ')' && d > 0 then d - 1 else d
  }

  /** Nesting depth after reading all of `s`, starting at depth `d`. */
  function DepthAfter(s: string, d: nat): nat
    decreases |s|
  {
    if s == [] then d else DepthAfter(s[1..], Step(d, s[0]))
  }

  /** Reading `s` from depth `d` meets no `sep` at depth 0. */
  predicate NoTopLevel(s: string, sep: char, d: nat)
    decreases |s|
  {
    s == [] || ((s[0] != sep || d > 0) && NoTopLevel(s[1..], sep, Step(d, s[0])))
  }

  /** Text without parentheses: reading it never changes the depth. */
  predicate Flat(s: string) {
    '(' !in s && ')' !in s
  }

  /** Length of the longest prefix of `s` (read from depth `d`) before a top-level `sep`. */
  function SegmentLength(s: string, sep: char, d: nat): (k: nat)
    ensures k <= |s|
    ensures k < |s| ==> s[k] == sep
    decreases |s|
  {
    if s == [] || (s[0] == sep && d == 0) then 0
    else 1 + SegmentLength(s[1..], sep, Step(d, s[0]))
  }

  /** The pieces of `s` between top-level occurrences of `sep`. */
  function Split(s: string, sep: char): (parts: seq<string>)
    ensures |parts| >= 1
    decreases |s|
  {
    var k := SegmentLength(s, sep, 0);
    if k == |s| then [s] else [s[..k]] + Split(s[k + 1..], sep)
  }

  /** The pieces joined back together with `sep` between neighbours. */
  function Join(parts: seq<string>, sep: char): string
    decreases |parts|
  {
    if parts == [] then []
    else if |parts| == 1 then parts[0]
    else parts[0] + [sep] + Join(parts[1..], sep)
  }

  /**
   * What every piece produced by Split satisfies: no piece holds a top-level
   * `sep`, and every piece but the last closes all the parentheses it opens.
   */
  predicate WellSplit(parts: seq<string>, sep: char) {
    |parts| >= 1
    && (forall i :: 0 <= i < |parts| ==> NoTopLevel(parts[i], sep, 0))
    && (forall i :: 0 <= i < |parts| - 1 ==> DepthAfter(parts[i], 0) == 0)
  }

  // ---------------------------------------------------------------------
  // Reading a concatenation

  lemma {:induction false} DepthAfterAppend(a: string, b: string, d: nat)
    ensures DepthAfter(a + b, d) == DepthAfter(b, DepthAfter(a, d))
    decreases |a|
  {
    if a != [] {
      assert (a + b)[1..] == a[1..] + b;
      DepthAfterAppend(a[1..], b, Step(d, a[0]));
    } else {
      assert a + b == b;
    }
  }

  lemma {:induction false} NoTopLevelAppend(a: string, b: string, sep: char, d: nat)
    ensures NoTopLevel(a + b, sep, d) <==> NoTopLevel(a, sep, d) && NoTopLevel(b, sep, DepthAfter(a, d))
    decreases |a|
  {
    if a != [] {
      assert (a + b)[1..] == a[1..] + b;
      NoTopLevelAppend(a[1..], b, sep, Step(d, a[0]));
    } else {
      assert a + b == b;
    }
  }

  lemma {:induction false} FlatDepth(s: string, d: nat)
    requires Flat(s)
    ensures DepthAfter(s, d) == d
    decreases |s|
  {
    if s != [] {
      assert s[0] in s;
      assert forall c :: c in s[1..] ==> c in s;
      FlatDepth(s[1..], d);
    }
  }

  lemma {:induction false} FlatNoTopLevel(s: string, sep: char, d: nat)
    requires Flat(s)
    ensures NoTopLevel(s, sep, d) <==> (d > 0 || sep !in s)
    decreases |s|
  {
    if s != [] {
      assert s[0] in s;
      assert forall c :: c in s[1..] ==> c in s;
      assert forall c :: c in s ==> c == s[0] || c in s[1..];
      FlatNoTopLevel(s[1..], sep, d);
    }
  }

  /** A call `name(inner)` with flat name and inner text leaves the depth where it was. */
  lemma GroupDepth(name: string, inner: string, d: nat)
    requires Flat(name) && Flat(inner)
    ensures DepthAfter(name + "(" + inner + ")", d) == d
  {
    DepthAfterAppend(name + "(" + inner, ")", d);
    DepthAfterAppend(name + "(", inner, d);
    DepthAfterAppend(name, "(", d);
    FlatDepth(name, d);
    FlatDepth(inner, d + 1);
  }

  /** Inside `name(inner)` every separator other than `(` is nested, so only the name can hold a top-level one. */
  lemma GroupNoTopLevel(name: string, inner: string, sep: char, d: nat)
    requires Flat(name) && Flat(inner) && sep != '('
    ensures NoTopLevel(name + "(" + inner + ")", sep, d) <==> (d > 0 || sep !in name)
  {
    NoTopLevelAppend(name + "(" + inner, ")", sep, d);
    NoTopLevelAppend(name + "(", inner, sep, d);
    NoTopLevelAppend(name, "(", sep, d);
    DepthAfterAppend(name + "(", inner, d);
    DepthAfterAppend(name, "(", d);
    FlatDepth(name, d);
    FlatDepth(inner, d + 1);
    FlatNoTopLevel(name, sep, d);
    FlatNoTopLevel(inner, sep, d + 1);
  }

  // ---------------------------------------------------------------------
  // Segment lengths

  lemma {:induction false} SegmentLengthOfAppend(a: string, b: string, sep: char, d: nat)
    requires NoTopLevel(a, sep, d)
    ensures SegmentLength(a + b, sep, d) == |a| + SegmentLength(b, sep, DepthAfter(a, d))
    decreases |a|
  {
    if a != [] {
      assert (a + b)[1..] == a[1..] + b;
      assert (a + b)[0] == a[0];
      SegmentLengthOfAppend(a[1..], b, sep, Step(d, a[0]));
    } else {
      assert a + b == b;
    }
  }

  lemma {:induction false} SegmentIsClean(s: string, sep: char, d: nat)
    ensures NoTopLevel(s[..SegmentLength(s, sep, d)], sep, d)
    ensures SegmentLength(s, sep, d) < |s| ==> DepthAfter(s[..SegmentLength(s, sep, d)], d) == 0
    decreases |s|
  {
    var k := SegmentLength(s, sep, d);
    if s == [] || (s[0] == sep && d == 0) {
      assert s[..k] == [];
    } else {
      SegmentIsClean(s[1..], sep, Step(d, s[0]));
      assert s[..k] == [s[0]] + s[1..][..k - 1];
      assert s[..k][1..] == s[1..][..k - 1];
    }
  }

  // ---------------------------------------------------------------------
  // Round trips

  lemma SplitUnfold(s: string, sep: char)
    requires SegmentLength(s, sep, 0) < |s|
    ensures Split(s, sep) == [s[..SegmentLength(s, sep, 0)]] + Split(s[SegmentLength(s, sep, 0) + 1..], sep)
  {
  }

  lemma JoinCons(head: string, rest: seq<string>, sep: char)
    requires |rest| >= 1
    ensures Join([head] + rest, sep) == head + [sep] + Join(rest, sep)
  {
    var parts := [head] + rest;
    assert parts[0] == head && parts[1..] == rest;
  }

  lemma CutAt(s: string, sep: char, k: nat)
    requires k < |s| && s[k] == sep
    ensures s == s[..k] + [sep] + s[k + 1..]
  {
  }

  /** Joining the pieces of a split gives back the text exactly. */
  lemma {:induction false} JoinSplit(s: string, sep: char)
    ensures Join(Split(s, sep), sep) == s
    decreases |s|
  {
    var k := SegmentLength(s, sep, 0);
    if k < |s| {
      JoinSplit(s[k + 1..], sep);
      SplitUnfold(s, sep);
      JoinCons(s[..k], Split(s[k + 1..], sep), sep);
      CutAt(s, sep, k);
    }
  }

  /** Every split obeys the depth invariant. */
  lemma {:induction false} SplitIsWell(s: string, sep: char)
    ensures WellSplit(Split(s, sep), sep)
    decreases |s|
  {
    var k := SegmentLength(s, sep, 0);
    SegmentIsClean(s, sep, 0);
    if k == |s| {
      assert s[..k] == s;
    } else {
      SplitIsWell(s[k + 1..], sep);
      var parts := Split(s, sep);
      assert parts == [s[..k]] + Split(s[k + 1..], sep);
      forall i | 0 <= i < |parts|
        ensures NoTopLevel(parts[i], sep, 0)
        ensures i < |parts| - 1 ==> DepthAfter(parts[i], 0) == 0
      {
        if i > 0 {
          assert parts[i] == Split(s[k + 1..], sep)[i - 1];
        }
      }
    }
  }

  /** Splitting joined pieces that obey the depth invariant gives back the same pieces. */
  lemma {:induction false} SplitJoin(parts: seq<string>, sep: char)
    requires WellSplit(parts, sep)
    ensures Split(Join(parts, sep), sep) == parts
    decreases |parts|
  {
    var p := parts[0];
    assert NoTopLevel(p, sep, 0);
    if |parts| == 1 {
      SegmentLengthOfAppend(p, [], sep, 0);
      assert p + [] == p;
    } else {
      var rest := parts[1..];
      var s := Join(parts, sep);
      assert s == p + ([sep] + Join(rest, sep));
      assert DepthAfter(p, 0) == 0;
      SegmentLengthOfAppend(p, [sep] + Join(rest, sep), sep, 0);
      assert SegmentLength(s, sep, 0) == |p|;
      assert s[..|p|] == p;
      assert s[|p| + 1..] == Join(rest, sep);
      assert WellSplit(rest, sep) by {
        forall i | 0 <= i < |rest| ensures NoTopLevel(rest[i], sep, 0) {
          assert rest[i] == parts[i + 1];
        }
        forall i | 0 <= i < |rest| - 1 ensures DepthAfter(rest[i], 0) == 0 {
          assert rest[i] == parts[i + 1];
        }
      }
      SplitJoin(rest, sep);
    }
  }

  /** Text without a top-level separator is a single piece. */
  lemma SplitSingle(s: string, sep: char)
    requires NoTopLevel(s, sep, 0)
    ensures Split(s, sep) == [s]
  {
    SplitJoin([s], sep);
  }

  /** Two pieces without a top-level separator, the first closing what it opens, split apart again. */
  lemma SplitTwo(a: string, b: string, sep: char)
    requires NoTopLevel(a, sep, 0) && DepthAfter(a, 0) == 0 && NoTopLevel(b, sep, 0)
    ensures Split(a + [sep] + b, sep) == [a, b]
  {
    var parts := [a, b];
    assert WellSplit(parts, sep);
    SplitJoin(parts, sep);
    assert Join(parts, sep) == a + [sep] + Join([b], sep);
  }

  /** A first piece that has no top-level separator and closes what it opens splits off the front. */
  lemma SplitCons(a: string, b: string, sep: char)
    requires NoTopLevel(a, sep, 0) && DepthAfter(a, 0) == 0
    ensures Split(a + [sep] + b, sep) == [a] + Split(b, sep)
  {
    var s := a + [sep] + b;
    SegmentLengthOfAppend(a, [sep] + b, sep, 0);
    assert s == a + ([sep] + b);
    assert SegmentLength(s, sep, 0) == |a|;
    SplitUnfold(s, sep);
    assert s[..|a|] == a && s[|a| + 1..] == b;
  }
}
