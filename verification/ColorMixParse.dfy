// Every balanced text is the print of a well-formed tree, so the tree reading
// of the rewriter covers every balanced value.
module ColorMixParse {
  import opened Wrappers
  import opened Text
  import opened ColorMix
  import opened ColorMixTree
  import opened ColorMixBalance

  // No comma at depth zero, entering at depth `d`.
  predicate TopFree(s: string, d: int) {
    s == [] || (var e := Deeper(d, s[0]); !(e == 0 && s[0] == ',') && TopFree(s[1..], e))
  }

  lemma {:induction false} PartsTopFree(s: string, d: int)
    ensures var parts := SplitTop(s, d, Comma());
            TopFree(parts[0], d) && forall k | 1 <= k < |parts| :: TopFree(parts[k], 0)
  {
    if s != [] {
      var e := Deeper(d, s[0]);
      PartsTopFree(s[1..], e);
      var tail := SplitTop(s[1..], e, Comma());
      assert ([s[0]] + tail[0])[1..] == tail[0];
    }
  }

  lemma {:induction false} JoinSplit(s: string, d: int)
    ensures Join(SplitTop(s, d, Comma()), ",") == s
  {
    if s != [] {
      var e := Deeper(d, s[0]);
      var tail := SplitTop(s[1..], e, Comma());
      JoinSplit(s[1..], e);
      assert s == [s[0]] + s[1..];
      if e == 0 && s[0] == ',' {
        assert ([[]] + tail)[1..] == tail;
        assert [] + "," + Join(tail, ",") == s;
      } else if |tail| > 1 {
        var parts := [[s[0]] + tail[0]] + tail[1..];
        assert parts[1..] == tail[1..];
        assert [s[0]] + tail[0] + "," + Join(tail[1..], ",") == [s[0]] + (tail[0] + "," + Join(tail[1..], ","));
      }
    }
  }

  lemma {:induction false} TopFreeSplits(a: string, b: string, d: nat)
    requires TopFree(a + b, d) && Depth(a, d).Some?
    ensures TopFree(a, d) && TopFree(b, Depth(a, d).value)
  {
    if a == [] {
      assert a + b == b;
    } else {
      assert (a + b)[1..] == a[1..] + b;
      TopFreeSplits(a[1..], b, Deeper(d, a[0]));
    }
  }

  lemma {:induction false} TopFreePlain(s: string)
    requires TopFree(s, 0) && forall k | 0 <= k < |s| :: !IsParen(s[k])
    ensures forall k | 0 <= k < |s| :: s[k] != ','
  {
    if s != [] {
      TopFreePlain(s[1..]);
      assert forall k | 1 <= k < |s| :: s[k] == s[1..][k - 1];
    }
  }

  lemma {:induction false} DepthCloses(u: string, d: nat)
    requires d > 0 && Depth(u, d) == Some(0)
    ensures MatchClose(u, d).Some?
  {
    if Deeper(d, u[0]) > 0 {
      DepthCloses(u[1..], Deeper(d, u[0]));
    }
  }

  function Bracketed(inner: string, rest: string): string {
    "(" + (inner + (")" + rest))
  }

  // The first parenthesis of a balanced text and what it encloses.
  lemma FirstGroup(s: string, n: nat) returns (inner: string, rest: string)
    requires Balanced(s) && n < |s| && IsParen(s[n]) && forall k | 0 <= k < n :: !IsParen(s[k])
    ensures s == s[..n] + Bracketed(inner, rest)
    ensures Balanced(inner) && Balanced(rest) && |inner| + |rest| < |s|
  {
    SliceApart(s, 0, n, |s|);
    SliceApart(s, n, n + 1, |s|);
    DepthConcat(s[..n], s[n..], 0);
    DepthPlain(s[..n], 0);
    DepthChar(s[n], s[n + 1..], 0);
    hide Depth;
    inner, rest := Enclosed(s[n + 1..]);
  }

  lemma Enclosed(u: string) returns (inner: string, rest: string)
    requires Depth(u, 1) == Some(0)
    ensures u == inner + (")" + rest) && Balanced(inner) && Balanced(rest)
  {
    DepthCloses(u, 1);
    MatchBalanced(u, 1);
    MatchWithin(u, 1);
    hide Depth, MatchClose;
    var c := MatchClose(u, 1).value;
    inner, rest := u[..c], u[c + 1..];
    CutAround(u, c);
    assert [u[c]] == ")";
    EnclosedDepths(inner, rest);
  }

  lemma CutAround(u: string, c: nat)
    requires c < |u|
    ensures u == u[..c] + ([u[c]] + u[c + 1..])
  {
  }

  lemma EnclosedDepths(inner: string, rest: string)
    requires Depth(inner, 0) == Some(0) && Depth(inner + (")" + rest), 1) == Some(0)
    ensures Depth(rest, 0) == Some(0)
  {
    DepthConcat(inner, ")" + rest, 1);
    DepthRaised(inner, 0, 1);
    DepthChar(')', rest, 1);
    hide Depth;
  }

  lemma DepthChar(c: char, y: string, d: nat)
    ensures var e := Deeper(d, c);
            Depth([c] + y, d) == if e < 0 then None else Depth(y, e)
  {
    assert ([c] + y)[1..] == y;
  }

  // The text before the first parenthesis.
  function TextLength(s: string): (n: nat)
    ensures n <= |s| && (forall k | 0 <= k < n :: !IsParen(s[k]))
    ensures n < |s| ==> IsParen(s[n])
  {
    var n := Span(s, c => !IsParen(c));
    assert forall k | 0 <= k < n :: s[k] == s[..n][k];
    n
  }

  lemma PlainBefore(s: string, n: nat, inArg: bool)
    requires n <= |s| && (forall k | 0 <= k < n :: !IsParen(s[k]) && (inArg ==> s[k] != ','))
    ensures s[..n] != [] ==> PlainText(s[..n], inArg)
    ensures EndsWith(s[..n], STEM) ==>
              n >= 9 && s[..n] == s[..n - 9] + STEM && (s[..n - 9] != [] ==> PlainText(s[..n - 9], inArg))
  {
    if EndsWith(s[..n], STEM) {
      assert s[..n] == s[..n - 9] + s[..n][n - 9..];
    }
  }

  // The tree of a balanced text.
  lemma {:induction false} TreeOf(s: string, inArg: bool) returns (v: Value)
    requires Balanced(s) && (inArg ==> TopFree(s, 0))
    ensures WellFormed(v, inArg) && Print(v) == s
    decreases |s|, 0, 0
  {
    hide Depth, Balanced, TopFree, WellFormed, PrintOnto, Bracketed, PlainText, Print, EndsWith;
    var n := TextLength(s);
    if n == |s| {
      if inArg {
        TopFreePlain(s);
      }
      PlainBefore(s, n, inArg);
      assert s[..n] == s;
      v := Leaf(s, inArg);
    } else {
      var inner, rest := FirstGroup(s, n);
      if inArg {
        TextAndRestFree(s[..n], inner, rest);
        assert forall k | 0 <= k < n :: s[k] == s[..n][k];
      }
      PlainBefore(s, n, inArg);
      var after := TreeOf(rest, inArg);
      v := GroupOrMix(s[..n], inner, rest, after, inArg, |s|);
    }
  }

  // The first group of a text and the run in front of it: a mix exactly when
  // that run ends as a marker begins.
  lemma GroupOrMix(text: string, inner: string, rest: string, after: Value, inArg: bool, bound: nat) returns (v: Value)
    requires Balanced(inner) && |inner| < bound && WellFormed(after, inArg) && Print(after) == rest
    requires text != [] ==> PlainText(text, inArg)
    requires EndsWith(text, STEM) ==>
               |text| >= 9 && text == text[..|text| - 9] + STEM
               && (text[..|text| - 9] != [] ==> PlainText(text[..|text| - 9], inArg))
    ensures WellFormed(v, inArg) && Print(v) == text + Bracketed(inner, rest)
    decreases |inner|, 3, 0
  {
    hide Depth, Balanced, TopFree, WellFormed, PrintOnto, Bracketed, PlainText, Print, EndsWith;
    if EndsWith(text, STEM) {
      var head := text[..|text| - 9];
      var args := ArgsIn(inner);
      v := MixAfter(head, args, inner, after, rest, inArg);
      Associate(head, STEM, Bracketed(inner, rest));
    } else {
      var items := TreeOf(inner, false);
      v := GroupAfter(text, items, inner, after, rest, inArg);
    }
  }

  lemma Leaf(s: string, inArg: bool) returns (v: Value)
    requires s != [] ==> PlainText(s, inArg)
    ensures WellFormed(v, inArg) && Print(v) == s
  {
    v := if s == [] then End else Run(s, End);
    assert s + PrintOnto(End, []) == s;
  }

  // The arguments of a mix.
  lemma ArgsIn(inner: string) returns (args: Args)
    requires Balanced(inner)
    ensures WellFormedArgs(args) && PrintArgsOnto(args, "") == inner
    decreases |inner|, 2, 0
  {
    SplitBalanced(inner, 0, Comma());
    PartsTopFree(inner, 0);
    JoinSplit(inner, 0);
    args := ArgsOf(SplitTop(inner, 0, Comma()), |inner|);
  }

  lemma Associate(a: string, b: string, c: string)
    ensures (a + b) + c == a + (b + c)
  {
  }

  lemma TextAndRestFree(text: string, inner: string, rest: string)
    requires TopFree(text + Bracketed(inner, rest), 0)
    requires Balanced(inner) && forall k | 0 <= k < |text| :: !IsParen(text[k])
    ensures TopFree(rest, 0) && forall k | 0 <= k < |text| :: text[k] != ','
  {
    DepthPlain(text, 0);
    TopFreeSplits(text, Bracketed(inner, rest), 0);
    TopFreePlain(text);
    TopFreeBracketed(inner, rest);
  }

  lemma TopFreeBracketed(inner: string, rest: string)
    requires TopFree(Bracketed(inner, rest), 0) && Balanced(inner)
    ensures TopFree(rest, 0)
  {
    DepthRaised(inner, 0, 1);
    hide Depth, TopFree;
    TopFreeChar('(', inner + (")" + rest), 0);
    TopFreeSplits(inner, ")" + rest, 1);
    TopFreeChar(')', rest, 1);
  }

  lemma TopFreeChar(c: char, y: string, d: int)
    requires TopFree([c] + y, d)
    ensures TopFree(y, Deeper(d, c))
  {
    assert ([c] + y)[1..] == y;
  }

  lemma GroupAfter(text: string, items: Value, inner: string, after: Value, rest: string, inArg: bool)
      returns (v: Value)
    requires WellFormed(items, false) && Print(items) == inner && WellFormed(after, inArg) && Print(after) == rest
    requires text != [] ==> PlainText(text, inArg)
    requires !EndsWith(text, STEM)
    ensures WellFormed(v, inArg) && Print(v) == text + Bracketed(inner, rest)
  {
    var g := Group(items, after);
    PrintOntoAppends(items, ")" + rest);
    assert Print(g) == Bracketed(inner, rest);
    v := Behind(text, g, inArg);
  }

  // A text run, if there is one, in front of a node.
  lemma Behind(text: string, g: Value, inArg: bool) returns (v: Value)
    requires WellFormed(g, inArg) && !g.Run? && (text != [] ==> PlainText(text, inArg))
    requires g.Group? ==> !EndsWith(text, STEM)
    ensures WellFormed(v, inArg) && Print(v) == text + Print(g)
  {
    if text == [] {
      v := g;
      assert text + Print(g) == Print(g);
    } else {
      v := Run(text, g);
    }
  }

  lemma MixAfter(text: string, args: Args, inner: string, after: Value, rest: string, inArg: bool) returns (v: Value)
    requires WellFormedArgs(args) && PrintArgsOnto(args, "") == inner && WellFormed(after, inArg)
        && Print(after) == rest
    requires text != [] ==> PlainText(text, inArg)
    ensures WellFormed(v, inArg) && Print(v) == text + (STEM + Bracketed(inner, rest))
  {
    var g := Mix(args, after);
    ArgsOntoAppends(args, ")" + rest);
    assert Print(g) == Opening(inner + (")" + rest)) == STEM + Bracketed(inner, rest);
    v := Behind(text, g, inArg);
  }

  lemma {:induction false} ArgsOf(parts: seq<string>, bound: nat) returns (a: Args)
    requires |parts| >= 1 && forall k | 0 <= k < |parts| ::
        Balanced(parts[k]) && TopFree(parts[k], 0) && |parts[k]| <= bound
    ensures WellFormedArgs(a) && PrintArgsOnto(a, "") == Join(parts, ",")
    decreases bound, 1, |parts|
  {
    var v := TreeOf(parts[0], true);
    if |parts| == 1 {
      a := Last(v);
    } else {
      var others := ArgsOf(parts[1..], bound);
      a := More(v, others);
      PrintOntoAppends(v, "," + Join(parts[1..], ","));
      Associate(parts[0], ",", Join(parts[1..], ","));
    }
  }

  // Flattening any balanced value is collapsing the tree it is the text of.
  lemma BalancedValues(s: string)
    requires Balanced(s)
    ensures exists v :: WellFormed(v, false) && Print(v) == s && Flatten(s) == Collapse(v)
    ensures Balanced(Flatten(s))
  {
    var v := TreeOf(s, false);
    FlattenIsCollapse(v, false);
    FlattenKeepsDepth(s, 0);
  }
}
