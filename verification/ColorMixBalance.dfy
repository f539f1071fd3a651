// Parenthesis balance: flattening keeps it, and the balanced values are
// exactly the texts of trees, so the tree reading covers all of them.
module ColorMixBalance {
  import opened Wrappers
  import opened Text
  import opened ColorMix
  import opened ColorMixTree

  // The depth `s` leads to from depth `d`, unless it closes more than is open.
  function Depth(s: string, d: nat): Option<nat> {
    if s == [] then Some(d)
    else
      var e := Deeper(d, s[0]);
      if e < 0 then None else Depth(s[1..], e)
  }

  predicate Balanced(s: string) {
    Depth(s, 0) == Some(0)
  }

  predicate IsParen(c: char) {
    c == '(' || c == ')'
  }

  lemma {:induction false} DepthConcat(a: string, b: string, d: nat)
    ensures Depth(a + b, d) == match Depth(a, d) case None => None case Some(e) => Depth(b, e)
  {
    if a == [] {
      assert a + b == b;
    } else {
      assert (a + b)[1..] == a[1..] + b;
      if Deeper(d, a[0]) >= 0 {
        DepthConcat(a[1..], b, Deeper(d, a[0]));
      }
    }
  }

  lemma {:induction false} DepthPlain(s: string, d: nat)
    requires forall k | 0 <= k < |s| :: !IsParen(s[k])
    ensures Depth(s, d) == Some(d)
  {
    if s != [] {
      DepthPlain(s[1..], d);
    }
  }

  lemma {:induction false} DepthRaised(s: string, d: nat, k: nat)
    requires Depth(s, d).Some?
    ensures Depth(s, d + k) == Some(Depth(s, d).value + k)
  {
    if s != [] {
      DepthRaised(s[1..], Deeper(d, s[0]), k);
    }
  }

  lemma {:induction false} MatchBalanced(s: string, depth: nat)
    requires depth > 0 && MatchClose(s, depth).Some?
    ensures var c := MatchClose(s, depth).value;
            c < |s| && s[c] == ')' && Depth(s[..c], depth - 1) == Some(0)
  {
    var e := Deeper(depth, s[0]);
    if e != 0 {
      MatchBalanced(s[1..], e);
      var c := MatchClose(s, depth).value;
      assert s[..c][1..] == s[1..][..c - 1];
    }
  }

  lemma {:induction false} SplitBalanced(s: string, d: nat, sep: char -> bool)
    requires Depth(s, d) == Some(0) && !sep('(') && !sep(')')
    ensures var parts := SplitTop(s, d, sep);
            Depth(parts[0], d) == Some(0) && forall k | 1 <= k < |parts| :: Balanced(parts[k])
  {
    if s != [] {
      var e := Deeper(d, s[0]);
      SplitBalanced(s[1..], e, sep);
      var tail := SplitTop(s[1..], e, sep);
      assert ([s[0]] + tail[0])[1..] == tail[0];
    }
  }

  lemma TrimBalanced(s: string)
    requires Balanced(s)
    ensures Balanced(Trim(s))
  {
    var n := Span(s, IsSpace);
    SpacesArePlain();
    hide Depth, Balanced, IsSpace, IsParen, TrimEnd;
    assert s[..n] + s[n..] + [] == s;
    PlainAround(s[..n], s[n..], []);
    TrimEndBalanced(s[n..]);
  }

  lemma {:induction false} TrimEndBalanced(s: string)
    requires Balanced(s)
    ensures Balanced(TrimEnd(s))
  {
    hide Depth, Balanced;
    if s != [] && IsSpace(s[|s| - 1]) {
      var r := s[..|s| - 1];
      assert [] + r + [s[|s| - 1]] == s;
      PlainAround([], r, [s[|s| - 1]]);
      TrimEndBalanced(r);
    }
  }

  lemma SpacesArePlain()
    ensures forall c | IsSpace(c) :: !IsParen(c)
  {
  }

  lemma PlainAround(a: string, s: string, b: string)
    requires forall k | 0 <= k < |a| :: !IsParen(a[k])
    requires forall k | 0 <= k < |b| :: !IsParen(b[k])
    ensures Balanced(a + s + b) <==> Balanced(s)
  {
    DepthConcat(a + s, b, 0);
    DepthConcat(a, s, 0);
    DepthPlain(a, 0);
    if Depth(s, 0).Some? {
      DepthPlain(b, Depth(s, 0).value);
    }
  }

  predicate AllBalanced(ts: seq<string>) {
    forall k | 0 <= k < |ts| :: Balanced(ts[k])
  }

  lemma {:induction false} NonEmptyBalanced(ts: seq<string>)
    requires AllBalanced(ts)
    ensures AllBalanced(NonEmpty(ts))
  {
    if ts != [] {
      NonEmptyBalanced(ts[1..]);
    }
  }

  lemma {:induction false} TakeShareBalanced(ts: seq<string>, share: Option<Num>)
    requires AllBalanced(ts)
    ensures AllBalanced(TakeShare(ts, share).0)
  {
    if ts != [] {
      var share' := if share.None? && IsPercent(ts[0]) then Some(PercentValue(ts[0])) else share;
      TakeShareBalanced(ts[1..], share');
    }
  }

  lemma {:induction false} JoinBalanced(ts: seq<string>)
    requires AllBalanced(ts)
    ensures Balanced(Join(ts, " "))
  {
    if |ts| > 1 {
      JoinBalanced(ts[1..]);
      DepthConcat(ts[0] + " ", Join(ts[1..], " "), 0);
      DepthConcat(ts[0], " ", 0);
      DepthPlain(" ", 0);
    }
  }

  lemma OperandBalanced(s: string)
    requires Balanced(s)
    ensures Balanced(OperandOf(s).color)
  {
    TrimBalanced(s);
    SplitBalanced(Trim(s), 0, IsSpace);
    var tokens := NonEmpty(SplitTop(Trim(s), 0, IsSpace));
    NonEmptyBalanced(SplitTop(Trim(s), 0, IsSpace));
    TakeShareBalanced(tokens, None);
    JoinBalanced(TakeShare(tokens, None).0);
  }

  lemma CallBalanced(name: string)
    requires forall k | 0 <= k < |name| :: !IsParen(name[k])
    ensures Balanced(VarOf(name))
  {
    DepthConcat("var(" + name, ")", 0);
    DepthConcat("var(", name, 0);
    DepthConcat("var", "(", 0);
    assert "var" + "(" == "var(";
    DepthPlain("var", 0);
    DepthPlain(name, 1);
  }

  lemma ThemedBalanced(name: Option<string>)
    ensures Themed(name).Some? ==> Balanced(Themed(name).value)
  {
    CallBalanced("--xc-info-bg");
    CallBalanced("--xc-danger-bg");
    CallBalanced("--xc-success-bg");
    CallBalanced("--xc-warning-bg");
    hide Balanced, VarOf;
  }

  lemma BlendBalanced(x: string, y: string)
    requires Balanced(x) && Balanced(y)
    ensures Balanced(Blend(x, y))
  {
    OperandBalanced(x);
    OperandBalanced(y);
    ThemedBalanced(TokenName(OperandOf(x).color));
    ThemedBalanced(TokenName(OperandOf(y).color));
  }

  // A mix and its pieces, as cut out of any text.
  lemma SiteBalanced(s: string)
    requires FirstMix(s).Site?
    ensures var m := FirstMix(s);
            && s == m.before + m.whole + m.after
            && Balanced(m.whole)
            && AllBalanced(m.args)
  {
    SiteCovers(s);
    var inner := SiteInner(s);
    hide FindMarker, MatchClose, SplitTop, FirstMix;
    SplitBalanced(inner, 0, Comma());
    MixBalanced(inner);
  }

  lemma SiteCovers(s: string)
    requires FirstMix(s).Site?
    ensures var m := FirstMix(s); s == m.before + m.whole + m.after
  {
    var k := FindMarker(s).value;
    MatchWithin(s[k + WIDTH..], 1);
    hide FindMarker, MatchClose, SplitTop, MARKER;
    var after := k + WIDTH + MatchClose(s[k + WIDTH..], 1).value + 1;
    SliceApart(s, 0, k, after);
    SliceApart(s, 0, after, |s|);
  }

  lemma SiteInner(s: string) returns (inner: string)
    requires FirstMix(s).Site?
    ensures Balanced(inner)
    ensures FirstMix(s).args == SplitTop(inner, 0, Comma()) && FirstMix(s).whole == MARKER + (inner + ")")
  {
    SiteIs(s);
    hide *;
    var k := FindMarker(s).value;
    var from := k + WIDTH;
    var c := MatchClose(s[from..], 1).value;
    inner := s[from..from + c];
    MarkerAt(s);
    InnerBalanced(s, from, c);
    assert [s[from + c]] == ")";
    CutTwice(s, k, from, from + c);
  }

  // Where the leftmost mix lies.
  lemma SiteIs(s: string)
    requires FirstMix(s).Site?
    ensures FindMarker(s).Some?
    ensures var k := FindMarker(s).value; var from := k + WIDTH;
            && MatchClose(s[from..], 1).Some? && from + MatchClose(s[from..], 1).value < |s|
            && var c := MatchClose(s[from..], 1).value;
               FirstMix(s).args == SplitTop(s[from..from + c], 0, Comma()) && FirstMix(s).whole == s[k..from + c + 1]
  {
    var from := FindMarker(s).value + WIDTH;
    MatchWithin(s[from..], 1);
    hide FindMarker, MatchClose, SplitTop, MARKER;
  }

  lemma InnerBalanced(s: string, from: nat, c: nat)
    requires from + c < |s| && MatchClose(s[from..], 1) == Some(c)
    ensures Balanced(s[from..from + c]) && s[from + c] == ')'
  {
    MatchBalanced(s[from..], 1);
    assert s[from..from + c] == s[from..][..c] && s[from + c] == s[from..][c];
    hide MatchClose, Depth;
  }

  lemma CutTwice(s: string, a: nat, b: nat, c: nat)
    requires a <= b <= c < |s|
    ensures s[a..c + 1] == s[a..b] + (s[b..c] + [s[c]])
  {
  }

  lemma SliceApart(s: string, a: nat, b: nat, c: nat)
    requires a <= b <= c <= |s|
    ensures s[a..c] == s[a..b] + s[b..c]
    ensures c == b + 1 ==> s[b..c] == [s[b]]
    ensures a == 0 ==> s[..c] == s[..b] + s[b..c]
    ensures c == |s| ==> s[a..] == s[a..b] + s[b..]
    ensures a == 0 && c == |s| ==> s == s[..b] + s[b..]
  {
  }

  lemma MarkerAt(s: string)
    requires FindMarker(s).Some?
    ensures var k := FindMarker(s).value; s[k..k + WIDTH] == MARKER
  {
    FindOccurs(s, MARKER);
    var k := FindMarker(s).value;
    assert s[k..][..WIDTH] == MARKER;
  }

  lemma MixBalanced(inner: string)
    requires Balanced(inner)
    ensures Balanced(MARKER + (inner + ")"))
  {
    StemBalanced();
    assert MARKER + (inner + ")") == STEM + ("(" + (inner + ")")) by {
      hide Depth, Balanced;
    }
    hide MARKER, STEM, Depth;
    DepthConcat(STEM, "(" + (inner + ")"), 0);
    DepthBracketed(inner);
  }

  lemma StemBalanced()
    ensures Depth(STEM, 0) == Some(0)
  {
    DepthPlain(STEM, 0);
    hide Depth;
  }

  lemma DepthBracketed(inner: string)
    requires Balanced(inner)
    ensures Depth("(" + (inner + ")"), 0) == Some(0)
  {
    assert ("(" + (inner + ")"))[1..] == inner + ")";
    DepthConcat(inner, ")", 1);
    DepthRaised(inner, 0, 1);
  }

  // Whatever the text, balanced or not, flattening leaves its depth profile as
  // it was: a balanced value stays balanced and an unbalanced one stays so.
  lemma {:induction false} FlattenKeepsDepth(s: string, d: nat)
    ensures Depth(Flatten(s), d) == Depth(s, d)
    decreases |s|
  {
    FlattenSite(s);
    var m := FirstMix(s);
    if m.Site? {
      SiteBalanced(s);
      var mix := MixText(m.args, m.whole);
      if |m.args| == 3 {
        FlattenKeepsDepth(m.args[1], 0);
        FlattenKeepsDepth(m.args[2], 0);
        BlendBalanced(Flatten(m.args[1]), Flatten(m.args[2]));
      }
      hide Flatten, FirstMix, Blend;
      assert Balanced(mix) && Balanced(m.whole);
      DepthReplaced(m.before, m.whole, m.after, mix, Flatten(m.after), d);
      if Depth(m.before, d).Some? {
        FlattenKeepsDepth(m.after, Depth(m.before, d).value);
      }
    }
  }

  lemma DepthReplaced(a: string, x: string, b: string, y: string, c: string, d: nat)
    requires Balanced(x) && Balanced(y)
    ensures Depth(a + x + b, d) == match Depth(a, d) case None => None case Some(e) => Depth(b, e)
    ensures Depth(a + y + c, d) == match Depth(a, d) case None => None case Some(e) => Depth(c, e)
  {
    DepthConcat(a + x, b, d);
    DepthConcat(a, x, d);
    DepthConcat(a + y, c, d);
    DepthConcat(a, y, d);
    if Depth(a, d).Some? {
      DepthRaised(x, 0, Depth(a, d).value);
      DepthRaised(y, 0, Depth(a, d).value);
    }
  }
}
