// CSS values as trees, and the rewriter of ColorMix read on them: flattening
// the printed text is the same as collapsing the tree inside-out.
module ColorMixTree {
  import opened Wrappers
  import opened Text
  import opened ColorMix

  // A value is a list of text runs, parenthesised groups and mixes.
  datatype Value =
    | End
    | Run(text: string, rest: Value)
    | Group(items: Value, rest: Value)
    | Mix(args: Args, rest: Value)

  datatype Args = Last(arg: Value) | More(arg: Value, others: Args)

  function Opening(t: string): string {
    MARKER + t
  }

  // The text of a value in front of the text `t`.
  function PrintOnto(v: Value, t: string): string {
    match v
    case End => t
    case Run(text, rest) => text + PrintOnto(rest, t)
    case Group(items, rest) => "(" + PrintOnto(items, ")" + PrintOnto(rest, t))
    case Mix(args, rest) => Opening(PrintArgsOnto(args, ")" + PrintOnto(rest, t)))
  }

  function PrintArgsOnto(a: Args, t: string): string {
    match a
    case Last(v) => PrintOnto(v, t)
    case More(v, others) => PrintOnto(v, "," + PrintArgsOnto(others, t))
  }

  function Print(v: Value): string {
    PrintOnto(v, "")
  }

  function List(a: Args): (vs: seq<Value>)
    ensures |vs| >= 1 && forall k | 0 <= k < |vs| :: vs[k] < a
  {
    match a
    case Last(v) => [v]
    case More(v, others) => [v] + List(others)
  }

  predicate PlainText(s: string, inArg: bool) {
    s != [] && forall k | 0 <= k < |s| :: s[k] != '(' && s[k] != ')' && (inArg ==> s[k] != ',')
  }

  // The trees that are read back as they were printed: text runs hold no
  // parenthesis (nor, directly in an argument, a comma), do not touch each
  // other, and do not turn the group after them into a mix.
  predicate WellFormed(v: Value, inArg: bool) {
    match v
    case End => true
    case Run(text, rest) =>
      PlainText(text, inArg) && !rest.Run? && (rest.Group? ==> !EndsWith(text, STEM)) && WellFormed(rest, inArg)
    case Group(items, rest) => WellFormed(items, false) && WellFormed(rest, inArg)
    case Mix(args, rest) => WellFormedArgs(args) && WellFormed(rest, inArg)
  }

  predicate WellFormedArgs(a: Args) {
    match a
    case Last(v) => WellFormed(v, true)
    case More(v, others) => WellFormed(v, true) && WellFormedArgs(others)
  }

  // The value with every three-argument mix replaced by what its arguments
  // collapse to, the inner ones first, in front of the text `t`; a mix of
  // another arity keeps its text.
  function CollapseOnto(v: Value, t: string): string
    decreases v, 0
  {
    match v
    case End => t
    case Run(text, rest) => text + CollapseOnto(rest, t)
    case Group(items, rest) => "(" + CollapseOnto(items, ")" + CollapseOnto(rest, t))
    case Mix(args, rest) => CollapseMixOnto(args, CollapseOnto(rest, t))
  }

  function CollapseMixOnto(args: Args, t: string): string
    decreases args, 0
  {
    var vs := List(args);
    if |vs| == 3 then Blend(Collapse(vs[1]), Collapse(vs[2])) + t
    else Opening(PrintArgsOnto(args, ")" + t))
  }

  function Collapse(v: Value): string
    decreases v, 1
  {
    CollapseOnto(v, "")
  }

  // ------------------------------------------------------------ where markers are

  // Text that cannot run into a marker with what follows it.
  predicate Apart(s: string, u: string) {
    || u == []
    || u[0] == ')'
    || MARKER <= u
    || (u[0] == '(' && !EndsWith(s, STEM))
  }

  // A marker that starts in a text run ends past it.
  lemma MarkerStraddles(s: string, u: string, k: nat)
    requires PlainText(s, false) && k < |s| && OccursAt(s + u, MARKER, k)
    ensures |s| - k < WIDTH && u != [] && u[0] == MARKER[|s| - k] && s[k..] == MARKER[..|s| - k]
  {
    var w := (s + u)[k..];
    assert forall j | 0 <= j < WIDTH :: w[j] == MARKER[j] && w[j] == (s + u)[k + j];
    assert MARKER[9] == '(' == (s + u)[k + 9];
  }

  lemma MarkerTails()
    ensures forall m | 1 <= m < WIDTH :: MARKER[m] != 'c' && MARKER[m] != ')' && (MARKER[m] == '(' ==> m == 9)
    ensures MARKER[..9] == STEM && MARKER[0] == 'c'
  {
  }

  // No marker starts inside a text run that stands apart from what follows.
  lemma NoMarkerInText(s: string, u: string, k: nat)
    requires PlainText(s, false) && Apart(s, u) && k < |s|
    ensures !OccursAt(s + u, MARKER, k)
  {
    MarkerTails();
    if OccursAt(s + u, MARKER, k) {
      MarkerStraddles(s, u, k);
      assert false;
    }
  }

  lemma OccursBehind(s: string, u: string, p: string, k: nat)
    requires k <= |u|
    ensures OccursAt(s + u, p, |s| + k) <==> OccursAt(u, p, k)
  {
    assert (s + u)[|s| + k..] == u[k..];
  }

  // A pattern that does not start in `s` is first found where it is in `u`.
  lemma FindBehind(s: string, u: string, p: string)
    requires forall k | 0 <= k < |s| :: !OccursAt(s + u, p, k)
    ensures Find(s + u, p) == Shift(Find(u, p), |s|)
  {
    hide OccursAt, Find;
    FindOccurs(u, p);
    var w := s + u;
    if Find(u, p).Some? {
      var at := Find(u, p).value;
      OccursBehind(s, u, p, at);
      forall k | 0 <= k < |s| + at
        ensures !OccursAt(w, p, k)
      {
        if k >= |s| {
          OccursBehind(s, u, p, k - |s|);
        }
      }
      FindUnique(w, p, |s| + at);
    } else {
      forall k | 0 <= k <= |w|
        ensures !OccursAt(w, p, k)
      {
        if k >= |s| {
          OccursBehind(s, u, p, k - |s|);
        }
      }
      FindNone(w, p);
    }
  }

  lemma FindSkips(s: string, u: string)
    requires forall k | 0 <= k < |s| :: !OccursAt(s + u, MARKER, k)
    ensures FindMarker(s + u) == Shift(FindMarker(u), |s|)
  {
    FindBehind(s, u, MARKER);
    hide Find, OccursAt;
  }

  lemma FlattenSkips(s: string, u: string)
    requires FindMarker(s + u) == Shift(FindMarker(u), |s|)
    ensures Flatten(s + u) == s + Flatten(u)
  {
    var w := s + u;
    if FindMarker(u).None? {
      FlattenPlain(u);
      FlattenPlain(w);
    } else {
      FirstMixShifts(s, u, FindMarker(u).value);
      FlattenSite(u);
      FlattenSite(w);
      hide *;
      if FirstMix(u).Site? {
        var m := MixText(FirstMix(u).args, FirstMix(u).whole);
        RegroupLeft(s, FirstMix(u).before, m, Flatten(FirstMix(u).after));
      }
    }
  }

  lemma Reassociate(a: string, b: string, c: string)
    ensures a + b + c == a + (b + c)
  {
  }

  lemma RegroupLeft(a: string, b: string, c: string, d: string)
    ensures (a + b) + c + d == a + (b + c + d)
  {
  }

  lemma FlattenSite(s: string)
    ensures match FirstMix(s)
            case NoMix => Flatten(s) == s
            case Site(before, args, whole, after) => Flatten(s) == before + MixText(args, whole) + Flatten(after)
  {
    hide FirstMix, Blend;
  }

  lemma FirstMixShifts(s: string, u: string, k: nat)
    requires FindMarker(u) == Some(k) && FindMarker(s + u) == Some(|s| + k)
    ensures match FirstMix(u)
            case NoMix => FirstMix(s + u) == NoMix
            case Site(before, args, whole, after) => FirstMix(s + u) == Site(s + before, args, whole, after)
  {
    hide FindMarker, MatchClose, SplitTop;
    var w := s + u;
    var from := k + WIDTH;
    assert w[|s| + from..] == u[from..];
    match MatchClose(u[from..], 1)
    case None =>
    case Some(c) =>
      MatchWithin(u[from..], 1);
      assert w[..|s| + k] == s + u[..k];
      assert w[|s| + from..|s| + from + c] == u[from..from + c];
      assert w[|s| + k..|s| + from + c + 1] == u[k..from + c + 1];
      assert w[|s| + from + c + 1..] == u[from + c + 1..];
  }

  lemma FlattenText(s: string, u: string)
    requires PlainText(s, false) && Apart(s, u)
    ensures Flatten(s + u) == s + Flatten(u)
  {
    forall k | 0 <= k < |s|
      ensures !OccursAt(s + u, MARKER, k)
    {
      NoMarkerInText(s, u, k);
    }
    FindSkips(s, u);
    FlattenSkips(s, u);
  }

  lemma FlattenParen(c: char, u: string)
    requires c == '(' || c == ')'
    ensures Flatten([c] + u) == [c] + Flatten(u)
  {
    assert !OccursAt([c] + u, MARKER, 0) by {
      assert ([c] + u)[0..] == [c] + u && MARKER[0] == 'c';
    }
    FindSkips([c], u);
    FlattenSkips([c], u);
  }

  // ------------------------------------------------------ scanning printed trees

  function Size(v: Value): nat {
    match v
    case End => 0
    case Run(text, rest) => |text| + Size(rest)
    case Group(items, rest) => Size(items) + Size(rest) + 2
    case Mix(args, rest) => WIDTH + SizeArgs(args) + Size(rest) + 1
  }

  function SizeArgs(a: Args): nat {
    match a
    case Last(v) => Size(v)
    case More(v, others) => Size(v) + SizeArgs(others) + 1
  }

  lemma MatchChar(c: char, y: string, d: nat)
    requires d > 0
    ensures var e := Deeper(d, c);
            MatchClose([c] + y, d) == if e == 0 then Some(0) else Shift(MatchClose(y, e), 1)
  {
    assert ([c] + y)[1..] == y;
  }

  lemma MatchText(s: string, y: string, d: nat)
    requires d > 0 && forall k | 0 <= k < |s| :: s[k] != '(' && s[k] != ')'
    ensures MatchClose(s + y, d) == Shift(MatchClose(y, d), |s|)
  {
    hide MatchClose;
    if s == [] {
      assert s + y == y;
    } else {
      assert s + y == [s[0]] + (s[1..] + y);
      MatchChar(s[0], s[1..] + y, d);
      MatchText(s[1..], y, d);
    }
  }

  // A printed value closes every parenthesis it opens and no other.
  lemma {:induction false} MatchOver(v: Value, inArg: bool, y: string, d: nat)
    requires WellFormed(v, inArg) && d > 0
    ensures MatchClose(PrintOnto(v, y), d) == Shift(MatchClose(y, d), Size(v))
  {
    hide MatchClose, Opening;
    match v
    case End =>
    case Run(text, rest) =>
      MatchText(text, PrintOnto(rest, y), d);
      MatchOver(rest, inArg, y, d);
    case Group(items, rest) =>
      var z := PrintOnto(rest, y);
      MatchOpen(PrintOnto(items, ")" + z), d);
      MatchOver(items, false, ")" + z, d + 1);
      MatchShut(z, d);
      MatchOver(rest, inArg, y, d);
    case Mix(args, rest) =>
      MatchMix(args, PrintOnto(rest, y), d);
      MatchOver(rest, inArg, y, d);
  }

  lemma MatchOpen(y: string, d: nat)
    requires d > 0
    ensures MatchClose("(" + y, d) == Shift(MatchClose(y, d + 1), 1)
  {
    MatchChar('(', y, d);
  }

  lemma MatchShut(y: string, d: nat)
    requires d > 0
    ensures MatchClose(")" + y, d + 1) == Shift(MatchClose(y, d), 1)
  {
    MatchChar(')', y, d + 1);
  }

  lemma MatchMarker(y: string, d: nat)
    requires d > 0
    ensures MatchClose(Opening(y), d) == Shift(MatchClose(y, d + 1), WIDTH)
  {
    StemOpens(y);
    StemPlain();
    hide MatchClose, Opening, MARKER, STEM;
    MatchText(STEM, "(" + y, d);
    MatchOpen(y, d);
  }

  lemma MatchMix(args: Args, z: string, d: nat)
    requires WellFormedArgs(args) && d > 0
    ensures MatchClose(Opening(PrintArgsOnto(args, ")" + z)), d) == Shift(MatchClose(z, d), WIDTH + SizeArgs(args) + 1)
    decreases args, 1
  {
    hide MatchClose, PrintArgsOnto, Opening, WellFormedArgs, SizeArgs;
    MatchMarker(PrintArgsOnto(args, ")" + z), d);
    MatchOverArgs(args, ")" + z, d + 1);
    MatchChar(')', z, d + 1);
  }

  lemma {:induction false} MatchOverArgs(a: Args, y: string, d: nat)
    requires WellFormedArgs(a) && d > 0
    ensures MatchClose(PrintArgsOnto(a, y), d) == Shift(MatchClose(y, d), SizeArgs(a))
    decreases a, 0
  {
    hide MatchClose;
    match a
    case Last(v) => MatchOver(v, true, y, d);
    case More(v, others) =>
      var z := PrintArgsOnto(others, y);
      MatchOver(v, true, "," + z, d);
      MatchChar(',', z, d);
      MatchOverArgs(others, y, d);
  }

  lemma SplitChar(c: char, y: string, d: int, sep: char -> bool)
    ensures var e := Deeper(d, c);
            var tail := SplitTop(y, e, sep);
            SplitTop([c] + y, d, sep) == if e == 0 && sep(c) then [[]] + tail else [[c] + tail[0]] + tail[1..]
  {
    assert ([c] + y)[1..] == y;
  }

  // A character at which nothing is split and no parenthesis opens or closes.
  lemma SplitPlain(c: char, y: string, d: nat)
    requires c != '(' && c != ')' && (d == 0 ==> c != ',')
    ensures var tail := SplitTop(y, d, Comma());
            SplitTop([c] + y, d, Comma()) == [[c] + tail[0]] + tail[1..]
  {
    SplitChar(c, y, d, Comma());
    hide SplitTop;
  }

  lemma PrefixFirst(s: string, tail: seq<string>)
    requires tail != []
    ensures [[] + tail[0]] + tail[1..] == tail
    ensures var shifted := [s + tail[0]] + tail[1..];
            shifted[0] == s + tail[0] && shifted[1..] == tail[1..]
  {
    assert [] + tail[0] == tail[0];
    assert [tail[0]] + tail[1..] == tail;
  }

  lemma SplitText(s: string, y: string, d: nat)
    requires forall k | 0 <= k < |s| :: s[k] != '(' && s[k] != ')' && (d == 0 ==> s[k] != ',')
    ensures var tail := SplitTop(y, d, Comma());
            SplitTop(s + y, d, Comma()) == [s + tail[0]] + tail[1..]
  {
    hide SplitTop, Comma;
    var tail := SplitTop(y, d, Comma());
    if s == [] {
      assert s + y == y;
      PrefixFirst(s, tail);
    } else {
      var c, rest := s[0], s[1..];
      assert s + y == [c] + (rest + y) && s == [c] + rest;
      SplitPlain(c, rest + y, d);
      SplitText(rest, y, d);
      PrefixFirst(rest, tail);
      Reassociate([c], rest, tail[0]);
    }
  }

  // A printed value directly in an argument has no comma to split at, nor has
  // any printed value inside parentheses: it stays in front of the first piece.
  lemma {:induction false} SplitOver(v: Value, inArg: bool, y: string, d: nat)
    requires WellFormed(v, inArg) && (d == 0 ==> inArg)
    ensures var tail := SplitTop(y, d, Comma());
            SplitTop(PrintOnto(v, y), d, Comma()) == [PrintOnto(v, tail[0])] + tail[1..]
    decreases v, 0
  {
    hide SplitTop, Opening;
    match v
    case End =>
    case Run(text, rest) =>
      SplitText(text, PrintOnto(rest, y), d);
      SplitOver(rest, inArg, y, d);
    case Group(items, rest) =>
      var z := PrintOnto(rest, y);
      SplitOver(rest, inArg, y, d);
      SplitChar(')', z, d + 1, Comma());
      SplitOver(items, false, ")" + z, d + 1);
      SplitChar('(', PrintOnto(items, ")" + z), d, Comma());
    case Mix(args, rest) =>
      SplitOver(rest, inArg, y, d);
      SplitMix(args, PrintOnto(rest, y), d);
  }

  lemma SplitMix(args: Args, z: string, d: nat)
    requires WellFormedArgs(args)
    ensures var tail := SplitTop(z, d, Comma());
            SplitTop(Opening(PrintArgsOnto(args, ")" + z)), d, Comma())
                == [Opening(PrintArgsOnto(args, ")" + tail[0]))] + tail[1..]
    decreases args, 1
  {
    hide SplitTop, PrintArgsOnto, Opening;
    var tail := SplitTop(z, d, Comma());
    var inside := PrintArgsOnto(args, ")" + z);
    SplitChar(')', z, d + 1, Comma());
    SplitOverArgs(args, ")" + z, d + 1);
    SplitMarker(inside, d);
  }

  lemma SplitMarker(y: string, d: nat)
    ensures var tail := SplitTop(y, d + 1, Comma());
            SplitTop(Opening(y), d, Comma()) == [Opening(tail[0])] + tail[1..]
  {
    var tail := SplitTop(y, d + 1, Comma());
    StemOpens(y);
    StemOpens(tail[0]);
    StemPlain();
    hide SplitTop, Comma, Opening, MARKER, STEM;
    SplitText(STEM, "(" + y, d);
    SplitChar('(', y, d, Comma());
  }

  lemma StemOpens(y: string)
    ensures Opening(y) == STEM + ("(" + y)
  {
  }

  lemma StemPlain()
    ensures |STEM| + 1 == WIDTH && forall k | 0 <= k < |STEM| :: STEM[k] != '(' && STEM[k] != ')' && STEM[k] != ','
  {
  }

  lemma {:induction false} SplitOverArgs(a: Args, y: string, d: nat)
    requires WellFormedArgs(a) && d > 0
    ensures var tail := SplitTop(y, d, Comma());
            SplitTop(PrintArgsOnto(a, y), d, Comma()) == [PrintArgsOnto(a, tail[0])] + tail[1..]
    decreases a, 0
  {
    hide SplitTop;
    match a
    case Last(v) => SplitOver(v, true, y, d);
    case More(v, others) =>
      var z := PrintArgsOnto(others, y);
      SplitOverArgs(others, y, d);
      SplitChar(',', z, d, Comma());
      SplitOver(v, true, "," + z, d);
  }

  function Prints(a: Args): seq<string> {
    match a
    case Last(v) => [Print(v)]
    case More(v, others) => [Print(v)] + Prints(others)
  }

  // Splitting the inside of a printed mix gives back its printed arguments.
  lemma {:induction false} SplitArgs(a: Args)
    requires WellFormedArgs(a)
    ensures SplitTop(PrintArgsOnto(a, ""), 0, Comma()) == Prints(a)
  {
    match a
    case Last(v) =>
      SplitOver(v, true, "", 0);
    case More(v, others) =>
      var z := PrintArgsOnto(others, "");
      SplitArgs(others);
      SplitChar(',', z, 0, Comma());
      SplitOver(v, true, "," + z, 0);
  }

  // ------------------------------------------------------------- the main result

  lemma {:induction false} PrintOntoAppends(v: Value, t: string)
    ensures PrintOnto(v, t) == Print(v) + t && |Print(v)| == Size(v)
  {
    match v
    case End =>
    case Run(text, rest) => PrintOntoAppends(rest, t);
    case Group(items, rest) =>
      PrintOntoAppends(rest, t);
      PrintOntoAppends(items, ")" + PrintOnto(rest, t));
      PrintOntoAppends(items, ")" + PrintOnto(rest, ""));
    case Mix(args, rest) =>
      PrintOntoAppends(rest, t);
      ArgsOntoAppends(args, ")" + PrintOnto(rest, t));
      ArgsOntoAppends(args, ")" + PrintOnto(rest, ""));
  }

  lemma {:induction false} ArgsOntoAppends(a: Args, t: string)
    ensures PrintArgsOnto(a, t) == PrintArgsOnto(a, "") + t && |PrintArgsOnto(a, "")| == SizeArgs(a)
  {
    match a
    case Last(v) => PrintOntoAppends(v, t);
    case More(v, others) =>
      ArgsOntoAppends(others, t);
      PrintOntoAppends(v, "," + PrintArgsOnto(others, t));
      PrintOntoAppends(v, "," + PrintArgsOnto(others, ""));
  }

  // Flattening a printed value, followed by anything that ends it, collapses
  // the tree and goes on with the rest.
  lemma {:induction false} FlattenOver(v: Value, inArg: bool, t: string)
    requires WellFormed(v, inArg) && (t == [] || t[0] == ')')
    ensures Flatten(PrintOnto(v, t)) == CollapseOnto(v, Flatten(t))
    decreases v, 0
  {
    hide Flatten, Opening;
    match v
    case End =>
    case Run(text, rest) =>
      StandsApart(text, rest, t);
      FlattenText(text, PrintOnto(rest, t));
      FlattenOver(rest, inArg, t);
    case Group(items, rest) =>
      var z := PrintOnto(rest, t);
      FlattenParen('(', PrintOnto(items, ")" + z));
      FlattenOver(items, false, ")" + z);
      FlattenParen(')', z);
      FlattenOver(rest, inArg, t);
    case Mix(args, rest) =>
      FlattenMix(args, PrintOnto(rest, t));
      FlattenOver(rest, inArg, t);
  }

  lemma StandsApart(text: string, rest: Value, t: string)
    requires !rest.Run? && (rest.Group? ==> !EndsWith(text, STEM))
    requires t == [] || t[0] == ')'
    ensures Apart(text, PrintOnto(rest, t))
  {
  }

  lemma FlattenMix(args: Args, z: string)
    requires WellFormedArgs(args)
    ensures Flatten(Opening(PrintArgsOnto(args, ")" + z))) == CollapseMixOnto(args, Flatten(z))
    decreases args, 1
  {
    var vs := List(args);
    var p := Opening(PrintArgsOnto(args, ")"));
    SiteOfMix(args, z);
    FlattenSite(Opening(PrintArgsOnto(args, ")" + z)));
    PrintsOfList(args);
    ListWellFormed(args);
    MixKept(args, Flatten(z));
    hide Flatten, FirstMix, Blend, CollapseOnto, PrintOnto, PrintArgsOnto;
    if |vs| == 3 {
      FlattenIsCollapse(vs[1], true);
      FlattenIsCollapse(vs[2], true);
    }
    assert [] + MixText(Prints(args), p) == MixText(Prints(args), p);
  }

  lemma MixKept(args: Args, t: string)
    ensures Opening(PrintArgsOnto(args, ")")) + t == Opening(PrintArgsOnto(args, ")" + t))
  {
    ArgsOntoAppends(args, ")");
    ArgsOntoAppends(args, ")" + t);
    assert PrintArgsOnto(args, "") + (")" + t) == (PrintArgsOnto(args, "") + ")") + t;
  }

  lemma PrintsOfList(a: Args)
    ensures |Prints(a)| == |List(a)| && forall k | 0 <= k < |List(a)| :: Prints(a)[k] == Print(List(a)[k])
  {
    if a.More? {
      PrintsOfList(a.others);
    }
  }

  lemma ListWellFormed(a: Args)
    requires WellFormedArgs(a)
    ensures forall k | 0 <= k < |List(a)| :: WellFormed(List(a)[k], true)
  {
    if a.More? {
      ListWellFormed(a.others);
    }
  }

  lemma SiteOfMix(args: Args, z: string)
    requires WellFormedArgs(args)
    ensures FirstMix(Opening(PrintArgsOnto(args, ")" + z)))
        == Site([], Prints(args), Opening(PrintArgsOnto(args, ")")), z)
  {
    var p := PrintArgsOnto(args, "");
    var s := Opening(PrintArgsOnto(args, ")" + z));
    ArgsOntoAppends(args, ")" + z);
    ArgsOntoAppends(args, ")");
    hide FindMarker, MatchClose, SplitTop, PrintArgsOnto, Prints, Opening;
    OpeningFound(p + (")" + z));
    MatchOverArgs(args, ")" + z, 1);
    MatchChar(')', z, 1);
    SplitArgs(args);
    OpeningSlices(p, z);
    assert s[..0] == [];
  }

  lemma OpeningFound(t: string)
    ensures FindMarker(Opening(t)) == Some(0) && |Opening(t)| == WIDTH + |t| && Opening(t)[WIDTH..] == t
  {
    assert MARKER <= Opening(t);
  }

  // Where the parts of a printed mix lie.
  lemma OpeningSlices(p: string, z: string)
    ensures var s, n := Opening(p + (")" + z)), |p|;
            && s[WIDTH..WIDTH + n] == p
            && s[0..WIDTH + n + 1] == Opening(p + ")")
            && s[WIDTH + n + 1..] == z
  {
    var s := Opening(p + (")" + z));
    assert s == MARKER + p + ")" + z;
    assert Opening(p + ")") == MARKER + p + ")";
    hide MARKER;
  }

  // Flattening the text of any well-formed value, nested to any depth, is
  // collapsing its tree.
  lemma FlattenIsCollapse(v: Value, inArg: bool)
    requires WellFormed(v, inArg)
    ensures Flatten(Print(v)) == Collapse(v)
    decreases v, 1
  {
    FlattenOver(v, inArg, "");
    FlattenPlainEnd();
  }
}
