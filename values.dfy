/**
 * A declaration value read as a stream of tokens, left to right: a word of
 * name characters directly followed by `(` opens a call. A call to one of the
 * four gradient functions has its argument list, up to the matching `)`,
 * handed to a rewrite; any other call is scanned on inside, so gradients
 * nested in it are found too. Everything else is kept as it was, and a
 * gradient whose `(` is never closed ends the scan with the rest of the value
 * kept. The walk is stated for any rewrite; the minifier is the walk with the
 * argument-list minifier as its rewrite.
 */
module Values {
  import opened Options
  import opened Scanner
  import opened Positions
  import opened Gradients

  predicate IsNameChar(c: char) {
    IsLetter(c) || IsDigit(c) || c == '-' || c == '_'
  }

  predicate AllNameChars(s: string) {
    forall i | 0 <= i < |s| :: IsNameChar(s[i])
  }

  /** Length of the run of name characters at the start of `s`. */
  function NameRun(s: string): (k: nat)
    ensures k <= |s| && AllNameChars(s[..k])
    ensures k < |s| ==> !IsNameChar(s[k])
    decreases |s|
  {
    if s == [] || !IsNameChar(s[0]) then 0
    else
      var k := 1 + NameRun(s[1..]);
      assert forall i | 1 <= i < k :: s[..k][i] == s[1..][..k - 1][i - 1];
      k
  }

  /** The value with every gradient call's argument list replaced by its rewrite. */
  function Walk(v: string, rewrite: (Kind, string) -> string): string
    decreases |v|, 0
  {
    if v == [] then []
    else
      var n := NameRun(v);
      if n < |v| && v[n] == '(' then v[..n + 1] + AfterOpen(KindOf(v[..n]), v[n + 1..], rewrite)
      else if n == 0 then [v[0]] + Walk(v[1..], rewrite)
      else v[..n] + Walk(v[n..], rewrite)
  }

  /**
   * The text after the `(` of a call of the given kind: a gradient's arguments
   * up to the matching `)` are rewritten and the scan goes on after it; any
   * other call is scanned on from its first argument.
   */
  function AfterOpen(kind: Option<Kind>, rest: string, rewrite: (Kind, string) -> string): string
    decreases |rest|, 1
  {
    if kind.None? then Walk(rest, rewrite)
    else
      var m := SegmentLength(rest, ')', 0);
      if m == |rest| then rest
      else rewrite(kind.value, rest[..m]) + ")" + Walk(rest[m + 1..], rewrite)
  }

  /** The value with each gradient call's arguments minified. */
  function MinifyValue(v: string): string {
    Walk(v, MinifyArguments)
  }

  // ---------------------------------------------------------------------
  // One token at a time

  lemma {:induction false} NameRunOfAppend(a: string, b: string)
    requires NameRun(a) < |a|
    ensures NameRun(a + b) == NameRun(a)
    decreases |a|
  {
    assert (a + b)[0] == a[0];
    if IsNameChar(a[0]) {
      assert (a + b)[1..] == a[1..] + b;
      NameRunOfAppend(a[1..], b);
    }
  }

  lemma {:induction false} NameRunOfName(name: string, tail: string)
    requires AllNameChars(name) && (tail == [] || !IsNameChar(tail[0]))
    ensures NameRun(name + tail) == |name|
    decreases |name|
  {
    if name != [] {
      assert (name + tail)[0] == name[0] && IsNameChar(name[0]);
      assert (name + tail)[1..] == name[1..] + tail;
      assert AllNameChars(name[1..]) by {
        forall i | 0 <= i < |name[1..]| ensures IsNameChar(name[1..][i]) { assert name[1..][i] == name[i + 1]; }
      }
      NameRunOfName(name[1..], tail);
    } else {
      assert name + tail == tail;
    }
  }

  /** The length of the first token of a non-empty `s` that is not a call: a word, or one other character. */
  function TokenLength(s: string): (k: nat)
    requires s != []
    ensures 0 < k <= |s|
  {
    if NameRun(s) == 0 then 1 else NameRun(s)
  }

  /** A character that is neither a name character nor `(` is kept. */
  lemma CharStep(v: string, rewrite: (Kind, string) -> string)
    requires v != [] && NameRun(v) == 0 && v[0] != '('
    ensures Walk(v, rewrite) == [v[0]] + Walk(v[1..], rewrite)
  {
  }

  /** A word not followed by `(` is kept. */
  lemma WordStep(v: string, n: nat, rewrite: (Kind, string) -> string)
    requires n == NameRun(v) && 0 < n && (n == |v| || v[n] != '(')
    ensures Walk(v, rewrite) == v[..n] + Walk(v[n..], rewrite)
  {
  }

  /** A word followed by `(` is a call: the name and the `(` are kept. */
  lemma CallStep(v: string, n: nat, rewrite: (Kind, string) -> string)
    requires n == NameRun(v) < |v| && v[n] == '('
    ensures Walk(v, rewrite) == v[..n + 1] + AfterOpen(KindOf(v[..n]), v[n + 1..], rewrite)
  {
  }

  lemma GradientStep(kind: Kind, rest: string, m: nat, rewrite: (Kind, string) -> string)
    requires m == SegmentLength(rest, ')', 0) < |rest|
    ensures AfterOpen(Some(kind), rest, rewrite) == rewrite(kind, rest[..m]) + ")" + Walk(rest[m + 1..], rewrite)
  {
  }

  lemma Reassociate(a: string, b: string, r: string)
    ensures a + (b + r) == a + b + r
  {
  }

  lemma Reassociate3(a: string, b: string, c: string, d: string)
    ensures a + (b + c + d) == a + b + c + d
  {
  }

  // ---------------------------------------------------------------------
  // What the scan keeps

  /** The first token of text that holds no `(` is kept. */
  lemma PlainStep(s: string, x: string, rewrite: (Kind, string) -> string)
    requires s != [] && '(' !in s && (x == [] || !IsNameChar(s[|s| - 1]))
    ensures Walk(s + x, rewrite) == s[..TokenLength(s)] + Walk(s[TokenLength(s)..] + x, rewrite)
  {
    var v := s + x;
    var n := NameRun(s);
    var k := TokenLength(s);
    if x != [] {
      assert !AllNameChars(s);
      assert NameRun(v) == n by { NameRunOfAppend(s, x); }
      assert v[n] == s[n] && s[n] in s;
    } else {
      assert v == s;
      assert n < |v| ==> s[n] in s;
    }
    assert v[..k] == s[..k] && v[k..] == s[k..] + x;
    if n == 0 {
      assert v[0] in s;
      CharStep(v, rewrite);
      assert [v[0]] == s[..k];
    } else {
      WordStep(v, n, rewrite);
    }
  }

  /**
   * Text that holds no `(` and does not end inside a word, followed by
   * anything: the text is kept and the scan goes on after it.
   */
  lemma {:induction false} WalkPrefix(pre: string, x: string, rewrite: (Kind, string) -> string)
    requires '(' !in pre && (x == [] || pre == [] || !IsNameChar(pre[|pre| - 1]))
    ensures Walk(pre + x, rewrite) == pre + Walk(x, rewrite)
    decreases |pre|
  {
    if pre != [] {
      var k := TokenLength(pre);
      var head := pre[..k];
      var shorter := pre[k..];
      assert Walk(pre + x, rewrite) == head + Walk(shorter + x, rewrite) by { PlainStep(pre, x, rewrite); }
      assert '(' !in shorter by {
        forall i | 0 <= i < |shorter| ensures shorter[i] != '(' { assert shorter[i] in pre; }
      }
      assert x == [] || shorter == [] || shorter[|shorter| - 1] == pre[|pre| - 1];
      assert Walk(shorter + x, rewrite) == shorter + Walk(x, rewrite) by { WalkPrefix(shorter, x, rewrite); }
      assert pre == head + shorter;
      Reassociate(head, shorter, Walk(x, rewrite));
    } else {
      assert pre + x == x;
    }
  }

  /** A value without parentheses holds no call and is kept. */
  lemma MinifyPlain(v: string)
    requires '(' !in v
    ensures MinifyValue(v) == v
  {
    WalkPrefix(v, [], MinifyArguments);
    assert v + [] == v;
  }

  /** A word directly followed by `(` is a call, whatever its name. */
  lemma CallOf(name: string, rest: string, rewrite: (Kind, string) -> string)
    requires AllNameChars(name)
    ensures Walk(name + "(" + rest, rewrite) == name + "(" + AfterOpen(KindOf(name), rest, rewrite)
  {
    var v := name + "(" + rest;
    assert v == name + ("(" + rest);
    assert NameRun(v) == |name| by { NameRunOfName(name, "(" + rest); }
    assert v[|name|] == '(' && v[..|name|] == name && v[..|name| + 1] == name + "(" && v[|name| + 1..] == rest;
    CallStep(v, |name|, rewrite);
  }

  /** The first top-level `)` after balanced arguments is the one that closes them. */
  lemma ClosingParen(inner: string, post: string)
    requires NoTopLevel(inner, ')', 0) && DepthAfter(inner, 0) == 0
    ensures var rest := inner + ")" + post;
      SegmentLength(rest, ')', 0) == |inner| < |rest| && rest[..|inner|] == inner && rest[|inner| + 1..] == post
  {
    var rest := inner + ")" + post;
    SegmentLengthOfAppend(inner, ")" + post, ')', 0);
    assert rest == inner + (")" + post);
  }

  /** After a gradient's `(`: the balanced arguments up to the first top-level `)` are rewritten. */
  lemma GradientAfter(kind: Kind, inner: string, post: string, rewrite: (Kind, string) -> string)
    requires NoTopLevel(inner, ')', 0) && DepthAfter(inner, 0) == 0
    ensures AfterOpen(Some(kind), inner + ")" + post, rewrite) == rewrite(kind, inner) + ")" + Walk(post, rewrite)
  {
    var rest := inner + ")" + post;
    var m := |inner|;
    assert SegmentLength(rest, ')', 0) == m < |rest| && rest[..m] == inner && rest[m + 1..] == post by {
      ClosingParen(inner, post);
    }
    GradientStep(kind, rest, m, rewrite);
  }

  /**
   * A gradient call: the name and the parentheses are kept, the arguments up
   * to the matching `)` are rewritten, and the text after the call is
   * scanned on its own.
   */
  lemma WalkGradient(kind: Kind, name: string, inner: string, post: string, rewrite: (Kind, string) -> string)
    requires KindOf(name) == Some(kind) && AllNameChars(name)
    requires NoTopLevel(inner, ')', 0) && DepthAfter(inner, 0) == 0
    ensures Walk(name + "(" + inner + ")" + post, rewrite) == name + "(" + rewrite(kind, inner) + ")" + Walk(post, rewrite)
  {
    var rest := inner + ")" + post;
    var rewritten := rewrite(kind, inner);
    assert name + "(" + inner + ")" + post == name + "(" + rest by { Reassociate3(name + "(", inner, ")", post); }
    assert Walk(name + "(" + rest, rewrite) == name + "(" + AfterOpen(KindOf(name), rest, rewrite) by { CallOf(name, rest, rewrite); }
    assert AfterOpen(Some(kind), rest, rewrite) == rewritten + ")" + Walk(post, rewrite) by {
      GradientAfter(kind, inner, post, rewrite);
    }
    Reassociate3(name + "(", rewritten, ")", Walk(post, rewrite));
  }

  /** Any other call is scanned on inside its parentheses. */
  lemma WalkOtherCall(name: string, rest: string, rewrite: (Kind, string) -> string)
    requires KindOf(name) == None && AllNameChars(name)
    ensures Walk(name + "(" + rest, rewrite) == name + "(" + Walk(rest, rewrite)
  {
    CallOf(name, rest, rewrite);
  }

  /** A gradient whose `(` is never closed ends the scan: the rest of the value is kept. */
  lemma WalkUnclosed(kind: Kind, name: string, rest: string, rewrite: (Kind, string) -> string)
    requires KindOf(name) == Some(kind) && AllNameChars(name) && NoTopLevel(rest, ')', 0)
    ensures Walk(name + "(" + rest, rewrite) == name + "(" + rest
  {
    assert Walk(name + "(" + rest, rewrite) == name + "(" + AfterOpen(KindOf(name), rest, rewrite) by { CallOf(name, rest, rewrite); }
    assert AfterOpen(Some(kind), rest, rewrite) == rest by {
      SegmentLengthOfAppend(rest, [], ')', 0);
      assert rest + [] == rest;
    }
  }

  lemma Prepend(a: string, b: string, c: string, d: string, e: string, f: string)
    ensures a + (b + c + d + e + f) == a + b + c + d + e + f
  {
  }

  /** A gradient call after plain text, as a declaration value holds it: its arguments are minified. */
  lemma MinifyCall(pre: string, kind: Kind, name: string, inner: string, post: string)
    requires '(' !in pre && (pre == [] || !IsNameChar(pre[|pre| - 1]))
    requires KindOf(name) == Some(kind) && AllNameChars(name)
    requires NoTopLevel(inner, ')', 0) && DepthAfter(inner, 0) == 0
    ensures MinifyValue(pre + name + "(" + inner + ")" + post) == pre + name + "(" + MinifyArguments(kind, inner) + ")" + MinifyValue(post)
  {
    var call := name + "(" + inner + ")" + post;
    var minified := MinifyArguments(kind, inner);
    assert pre + name + "(" + inner + ")" + post == pre + call by { Prepend(pre, name, "(", inner, ")", post); }
    assert Walk(pre + call, MinifyArguments) == pre + Walk(call, MinifyArguments) by { WalkPrefix(pre, call, MinifyArguments); }
    assert Walk(call, MinifyArguments) == name + "(" + minified + ")" + Walk(post, MinifyArguments) by {
      WalkGradient(kind, name, inner, post, MinifyArguments);
    }
    Prepend(pre, name, "(", minified, ")", MinifyValue(post));
  }
}
