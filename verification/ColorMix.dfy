// `color-mix()` flattening, packages/web/cssFallbacks.js: the string functions
// that specify the rewriter, and its loops proved against them.
module ColorMix {
  import opened Wrappers
  import opened Text

  const MARKER := "color-mix("
  const WIDTH: nat := 10
  const STEM := "color-mix"

  // Where the leftmost marker is.
  function FindMarker(s: string): (r: Option<nat>)
    ensures r.Some? ==> r.value + WIDTH <= |s|
  {
    FindOccurs(s, MARKER);
    Find(s, MARKER)
  }

  function Deeper(depth: int, c: char): int {
    if c == '(' then depth + 1 else if c == ')' then depth - 1 else depth
  }

  // The pieces of `s` between separators at parenthesis depth zero, when `s`
  // is entered at depth `depth`.
  function SplitTop(s: string, depth: int, isSep: char -> bool): (parts: seq<string>)
    ensures |parts| >= 1
    ensures forall k | 0 <= k < |parts| :: |parts[k]| <= |s|
  {
    if s == [] then [[]]
    else
      var d := Deeper(depth, s[0]);
      var tail := SplitTop(s[1..], d, isSep);
      if d == 0 && isSep(s[0]) then [[]] + tail
      else [[s[0]] + tail[0]] + tail[1..]
  }

  function Comma(): char -> bool {
    c => c == ','
  }

  // Where the parenthesis `depth` levels up closes, if it does.
  function MatchClose(s: string, depth: nat): Option<nat>
    requires depth > 0
  {
    if s == [] then None
    else
      var d := Deeper(depth, s[0]);
      if d == 0 then Some(0)
      else
        match MatchClose(s[1..], d)
        case None => None
        case Some(k) => Some(k + 1)
  }

  lemma MatchWithin(s: string, depth: nat)
    requires depth > 0 && MatchClose(s, depth).Some?
    ensures MatchClose(s, depth).value < |s|
  {
  }

  // ----------------------------------------------------------------- operands

  // A percentage as JavaScript's Number reads it.
  datatype Num = NaN | Val(v: real)

  predicate IsNumeral(c: char) {
    IsDigit(c) || c == '.'
  }

  // A token that is one signed run of digits and dots followed by '%'.
  predicate IsPercent(t: string) {
    var n := |t| - 1;
    var sign := if t != [] && t[0] == '-' then 1 else 0;
    n > sign && t[n] == '%' && All(t[sign..n], IsNumeral)
  }

  function Dots(s: string): nat {
    if s == [] then 0 else (if s[0] == '.' then 1 else 0) + Dots(s[1..])
  }

  // The value of a run of digits with at most one dot; `unit` is the weight of
  // the next digit once the dot has been passed.
  function Value(s: string, acc: real, unit: real): real {
    if s == [] then acc
    else if s[0] == '.' then Value(s[1..], acc, 0.1)
    else if unit == 1.0 then Value(s[1..], acc * 10.0 + DigitValue(s[0]), unit)
    else Value(s[1..], acc + DigitValue(s[0]) * unit, unit / 10.0)
  }

  function DigitValue(c: char): real {
    if IsDigit(c) then (c as int - '0' as int) as real else 0.0
  }

  function PercentValue(t: string): Num
    requires IsPercent(t)
  {
    var negative := t[0] == '-';
    var body := if negative then t[1..|t| - 1] else t[..|t| - 1];
    if Dots(body) > 1 || Dots(body) == |body| then NaN
    else Val(if negative then -Value(body, 0.0, 1.0) else Value(body, 0.0, 1.0))
  }

  datatype Operand = Operand(color: string, share: Option<Num>)

  // The first percentage among the tokens is the operand's share; every other
  // token belongs to its colour.
  function TakeShare(tokens: seq<string>, share: Option<Num>): (seq<string>, Option<Num>) {
    if tokens == [] then ([], share)
    else if share.None? && IsPercent(tokens[0]) then TakeShare(tokens[1..], Some(PercentValue(tokens[0])))
    else
      var (rest, got) := TakeShare(tokens[1..], share);
      ([tokens[0]] + rest, got)
  }

  function NonEmpty(tokens: seq<string>): seq<string> {
    if tokens == [] then []
    else if tokens[0] == [] then NonEmpty(tokens[1..])
    else [tokens[0]] + NonEmpty(tokens[1..])
  }

  function OperandOf(s: string): Operand {
    var (rest, share) := TakeShare(NonEmpty(SplitTop(Trim(s), 0, IsSpace)), None);
    Operand(Join(rest, " "), share)
  }

  // The custom property a `var()` colour names.
  function TokenName(color: string): Option<string> {
    if !("var(" <= color) then None
    else
      var arg := TrimStart(color[4..]);
      if !("--" <= arg) then None
      else
        var n := Span(arg[2..], c => IsWord(c) || c == '-');
        if n == 0 then None else Some(arg[..2 + n])
  }

  function VarOf(name: string): string {
    "var(" + name + ")"
  }

  // The palette's precomputed translucent tokens.
  function Themed(name: Option<string>): Option<string> {
    match name
    case None => None
    case Some(n) =>
      if n == "--xc-accent-primary" then Some(VarOf("--xc-info-bg"))
      else if n == "--xc-danger" then Some(VarOf("--xc-danger-bg"))
      else if n == "--xc-success" then Some(VarOf("--xc-success-bg"))
      else if n == "--xc-warning" then Some(VarOf("--xc-warning-bg"))
      else None
  }

  predicate IsTransparent(color: string) {
    LowerAll(color) == "transparent"
  }

  function Complement(share: Num): Num {
    match share
    case NaN => NaN
    case Val(v) => Val(100.0 - v)
  }

  // The shares of both operands, an unstated one being what the other leaves.
  function Shares(a: Option<Num>, b: Option<Num>): (Num, Num) {
    match (a, b)
    case (None, None) => (Val(50.0), Val(50.0))
    case (None, Some(q)) => (Complement(q), q)
    case (Some(p), None) => (p, Complement(p))
    case (Some(p), Some(q)) => (p, q)
  }

  predicate Exceeds(p: Num, q: Num) {
    p.Val? && q.Val? && p.v > q.v
  }

  function FallbackOf(a: Operand, b: Operand): string {
    var (pa, pb) := Shares(a.share, b.share);
    var themedA := if IsTransparent(b.color) then Themed(TokenName(a.color)) else None;
    var themedB := if IsTransparent(a.color) then Themed(TokenName(b.color)) else None;
    if themedA.Some? then themedA.value
    else if themedB.Some? then themedB.value
    else if Exceeds(pb, pa) then b.color else a.color
  }

  // What two flattened arguments of a mix collapse to.
  function Blend(x: string, y: string): string {
    FallbackOf(OperandOf(x), OperandOf(y))
  }

  // Dominance in the terms a stylesheet is written in: where no theme token
  // stands for the mix, the second operand wins exactly when its stated share
  // is the larger one, or, with one share unstated, when the stated one puts it
  // above a half. A colour without a theme token keeps its place beside
  // `transparent`.
  lemma DominantOperand(a: Operand, b: Operand)
    requires a.color != b.color
    requires IsTransparent(b.color) ==> Themed(TokenName(a.color)).None?
    requires IsTransparent(a.color) ==> Themed(TokenName(b.color)).None?
    ensures FallbackOf(a, b) == b.color <==>
              match (a.share, b.share)
              case (Some(Val(p)), Some(Val(q))) => q > p
              case (Some(Val(p)), None) => p < 50.0
              case (None, Some(Val(q))) => q > 50.0
              case _ => false
    ensures FallbackOf(a, b) == b.color || FallbackOf(a, b) == a.color
  {
    hide Themed, TokenName, IsTransparent;
  }

  // A `var()` of any custom property is read as that property's name, with or
  // without a fallback value after it.
  lemma TokenOfVar(word: string, rest: string)
    requires word != [] && All(word, c => IsWord(c) || c == '-')
    requires rest != [] && !IsWord(rest[0]) && rest[0] != '-'
    ensures TokenName("var(" + ("--" + word + rest)) == Some("--" + word)
  {
    var arg := "--" + word + rest;
    var color := "var(" + arg;
    assert color[4..] == arg;
    assert Span(arg, IsSpace) == 0;
    assert arg[2..] == word + rest;
    SpanOver(word, rest, c => IsWord(c) || c == '-');
    assert arg[..2 + |word|] == "--" + word;
  }

  lemma {:induction false} SpanOver(s: string, rest: string, p: char -> bool)
    requires All(s, p) && rest != [] && !p(rest[0])
    ensures Span(s + rest, p) == |s|
  {
    if s == [] {
      assert s + rest == rest;
    } else {
      assert (s + rest)[1..] == s[1..] + rest;
      SpanOver(s[1..], rest, p);
    }
  }

  // A themed colour mixed with transparent becomes its precomputed token,
  // whichever side it stands on and whatever the percentages.
  lemma TranslucentTakesToken(color: string, clear: string, p: Option<Num>, q: Option<Num>)
    requires IsTransparent(clear) && Themed(TokenName(color)).Some?
    ensures FallbackOf(Operand(color, p), Operand(clear, q)) == Themed(TokenName(color)).value
    ensures FallbackOf(Operand(clear, p), Operand(color, q)) == Themed(TokenName(color)).value
  {
    assert color[0] == 'v';
    assert LowerAll(color)[0] == 'v';
    hide Themed, TokenName, Shares;
  }

  // ---------------------------------------------------------------- the rewriter

  // A value cut at its leftmost mix.
  datatype Site = NoMix | Site(before: string, args: seq<string>, whole: string, after: string)

  // The leftmost mix of `s`; an unclosed one does not count.
  function FirstMix(s: string): (r: Site)
    ensures r.Site? ==> |r.after| < |s| && forall k | 0 <= k < |r.args| :: |r.args[k]| < |s|
  {
    match FindMarker(s)
    case None => NoMix
    case Some(k) =>
      var from := k + WIDTH;
      match MatchClose(s[from..], 1)
      case None => NoMix
      case Some(c) =>
        MatchWithin(s[from..], 1);
        Site(s[..k], SplitTop(s[from..from + c], 0, Comma()), s[k..from + c + 1], s[from + c + 1..])
  }

  // Every mix replaced, read from the left, innermost first; a mix with other
  // than three arguments is left as written.
  function Flatten(s: string): string
    decreases |s|
  {
    match FirstMix(s)
    case NoMix => s
    case Site(before, args, whole, after) =>
      before
      + (if |args| != 3 then whole else Blend(Flatten(args[1]), Flatten(args[2])))
      + Flatten(after)
  }

  // A mix that is not closed stays as written, with all that follows it.
  lemma UnclosedStays(s: string, k: nat)
    requires FindMarker(s) == Some(k) && MatchClose(s[k + WIDTH..], 1).None?
    ensures Flatten(s) == s
  {
    hide FindMarker, MatchClose;
  }

  method SplitTopLevel(str: string, isSep: char -> bool) returns (parts: seq<string>)
    ensures parts == SplitTop(str, 0, isSep)
  {
    parts := [];
    var depth, current := 0, "";
    GlueStart(SplitTop(str, 0, isSep));
    assert str[0..] == str;
    for i := 0 to |str|
      invariant Glue(parts, current, SplitTop(str[i..], depth, isSep)) == SplitTop(str, 0, isSep)
    {
      var ch := str[i];
      assert str[i..][1..] == str[i + 1..];
      depth := if ch == '(' then depth + 1 else if ch == ')' then depth - 1 else depth;
      ghost var next := SplitTop(str[i + 1..], depth, isSep);
      if depth == 0 && isSep(ch) {
        GlueCut(parts, current, next);
        parts := parts + [current];
        current := "";
      } else {
        GlueGrow(parts, current, ch, next);
        current := current + [ch];
      }
    }
    parts := parts + [current];
    assert str[|str|..] == [] && current + [] == current;
  }

  // The pieces found so far, the piece being read, and the pieces to come.
  ghost function Glue(parts: seq<string>, current: string, tail: seq<string>): seq<string>
    requires |tail| >= 1
  {
    parts + [current + tail[0]] + tail[1..]
  }

  lemma GlueStart(tail: seq<string>)
    requires |tail| >= 1
    ensures Glue([], [], tail) == tail
  {
    assert [] + tail[0] == tail[0];
  }

  lemma GlueCut(parts: seq<string>, current: string, next: seq<string>)
    requires |next| >= 1
    ensures Glue(parts, current, [[]] + next) == Glue(parts + [current], [], next)
  {
    assert current + [] == current && [] + next[0] == next[0];
    assert ([[]] + next)[1..] == next;
  }

  lemma GlueGrow(parts: seq<string>, current: string, ch: char, next: seq<string>)
    requires |next| >= 1
    ensures Glue(parts, current, [[ch] + next[0]] + next[1..]) == Glue(parts, current + [ch], next)
  {
    assert current + ([ch] + next[0]) == current + [ch] + next[0];
    assert ([[ch] + next[0]] + next[1..])[1..] == next[1..];
  }

  // A share found after the tokens `rest` were set aside.
  ghost function Behind(rest: seq<string>, found: (seq<string>, Option<Num>)): (seq<string>, Option<Num>) {
    (rest + found.0, found.1)
  }

  lemma TakeNone(tokens: seq<string>)
    ensures TakeShare(tokens, None) == Behind([], TakeShare(tokens[0..], None))
  {
    hide TakeShare;
    assert tokens[0..] == tokens;
    assert [] + TakeShare(tokens, None).0 == TakeShare(tokens, None).0;
  }

  lemma TakeOne(tokens: seq<string>, i: nat, rest: seq<string>, pct: Option<Num>)
    requires i < |tokens|
    ensures Behind(rest, TakeShare(tokens[i..], pct))
         == if pct.None? && IsPercent(tokens[i])
             then Behind(rest, TakeShare(tokens[i + 1..], Some(PercentValue(tokens[i]))))
            else Behind(rest + [tokens[i]], TakeShare(tokens[i + 1..], pct))
  {
    assert tokens[i..][0] == tokens[i] && tokens[i..][1..] == tokens[i + 1..];
    hide IsPercent, PercentValue;
    var later := TakeShare(tokens[i + 1..], pct).0;
    assert rest + ([tokens[i]] + later) == rest + [tokens[i]] + later;
  }

  lemma TakeEnd(tokens: seq<string>, rest: seq<string>, pct: Option<Num>)
    ensures Behind(rest, TakeShare(tokens[|tokens|..], pct)) == (rest, pct)
  {
    assert tokens[|tokens|..] == [] && rest + [] == rest;
  }

  lemma OperandIs(operand: string, pieces: seq<string>, rest: seq<string>, pct: Option<Num>)
    requires pieces == SplitTop(Trim(operand), 0, IsSpace) && TakeShare(NonEmpty(pieces), None) == (rest, pct)
    ensures OperandOf(operand) == Operand(Join(rest, " "), pct)
  {
    hide Trim, SplitTop, NonEmpty, TakeShare, Join;
  }

  method ParseOperand(operand: string) returns (r: Operand)
    ensures r == OperandOf(operand)
  {
    hide *;
    var pieces := SplitTopLevel(Trim(operand), IsSpace);
    var tokens := NonEmpty(pieces);
    var pct: Option<Num> := None;
    var rest: seq<string> := [];
    TakeNone(tokens);
    for i := 0 to |tokens|
      invariant TakeShare(tokens, None) == Behind(rest, TakeShare(tokens[i..], pct))
    {
      TakeOne(tokens, i, rest, pct);
      if pct.None? && IsPercent(tokens[i]) {
        pct := Some(PercentValue(tokens[i]));
      } else {
        rest := rest + [tokens[i]];
      }
    }
    TakeEnd(tokens, rest, pct);
    r := Operand(Join(rest, " "), pct);
    OperandIs(operand, pieces, rest, pct);
  }

  // Walk from just inside an opening parenthesis to just past its match, or to
  // the end of the string.
  method ScanMix(value: string, from: nat) returns (j: nat, closed: bool)
    requires from <= |value|
    ensures from <= j <= |value|
    ensures closed ==> j > from && MatchClose(value[from..], 1) == Some(j - 1 - from)
    ensures !closed ==> j == |value| && MatchClose(value[from..], 1) == None
  {
    MatchEmpty();
    hide MatchClose;
    var depth: nat := 1;
    j := from;
    while j < |value| && depth > 0
      invariant from <= j <= |value| && (depth == 0 ==> j > from)
      invariant depth == 0 ==> MatchClose(value[from..], 1) == Some(j - 1 - from)
      invariant depth > 0 ==> MatchClose(value[from..], 1) == Shift(MatchClose(value[j..], depth), j - from)
    {
      MatchStep(value, j, depth);
      depth := if value[j] == '(' then depth + 1 else if value[j] == ')' then depth - 1 else depth;
      j := j + 1;
    }
    closed := depth == 0;
    assert depth > 0 ==> value[j..] == [];
  }

  ghost function Shift(r: Option<nat>, n: nat): Option<nat> {
    match r case None => None case Some(k) => Some(k + n)
  }

  lemma MatchEmpty()
    ensures forall depth: nat | depth > 0 :: MatchClose([], depth) == None
  {
  }

  lemma MatchStep(value: string, j: nat, depth: nat)
    requires j < |value| && depth > 0
    ensures var d := Deeper(depth, value[j]);
            MatchClose(value[j..], depth) == if d == 0 then Some(0) else Shift(MatchClose(value[j + 1..], d), 1)
  {
    assert value[j..][0] == value[j] && value[j..][1..] == value[j + 1..];
  }

  method FlattenColorMix(value: string) returns (out: string)
    ensures out == Flatten(value)
    decreases |value|, 1
  {
    hide *;
    out := "";
    var i := 0;
    FlattenWhole(value);
    while i < |value|
      invariant 0 <= i <= |value|
      invariant out + Flatten(value[i..]) == Flatten(value)
    {
      var found := FindMarker(value[i..]);
      if found.None? {
        FlattenPlain(value[i..]);
        out := out + value[i..];
        return;
      }
      var start := i + found.value;
      var mix, j := ReplaceMix(value, i, found.value);
      FlattenOn(value, i, start, mix, j, out);
      out := out + value[i..start] + mix;
      i := j;
    }
    FlattenDone(value, out);
  }

  lemma FlattenOn(value: string, i: nat, start: nat, mix: string, j: nat, out: string)
    requires i <= start <= |value| && j <= |value| && out + Flatten(value[i..]) == Flatten(value)
    requires Flatten(value[i..]) == value[i..start] + mix + Flatten(value[j..])
    ensures out + value[i..start] + mix + Flatten(value[j..]) == Flatten(value)
  {
    hide Flatten;
    Regroup(out, value[i..start], mix, Flatten(value[j..]));
  }

  lemma FlattenWhole(value: string)
    ensures "" + Flatten(value[0..]) == Flatten(value)
  {
    hide Flatten;
    assert value[0..] == value;
    assert "" + Flatten(value) == Flatten(value);
  }

  lemma FlattenDone(value: string, out: string)
    ensures out + Flatten(value[|value|..]) == out
  {
    hide Flatten;
    assert value[|value|..] == [];
    FlattenPlainEnd();
  }

  // One round of the loop: the text that replaces the mix `k` characters past
  // `i`, and where reading goes on.
  method ReplaceMix(value: string, i: nat, k: nat) returns (mix: string, j: nat)
    requires i <= |value| && FindMarker(value[i..]) == Some(k)
    ensures i + k < j <= |value|
    ensures Flatten(value[i..]) == value[i..i + k] + mix + Flatten(value[j..])
    decreases |value|, 0
  {
    var from := i + k + WIDTH;
    var closed;
    j, closed := ScanMix(value, from);
    mix := value[i + k..j];
    if closed {
      var args := SplitTopLevel(value[from..j - 1], Comma());
      if |args| == 3 {
        var x := FlattenColorMix(args[1]);
        var y := FlattenColorMix(args[2]);
        var a := ParseOperand(x);
        var b := ParseOperand(y);
        mix := FallbackOf(a, b);
      }
    }
    FlattenAt(value, i, k, j, closed);
  }

  ghost function MixText(args: seq<string>, whole: string): string {
    if |args| != 3 then whole else Blend(Flatten(args[1]), Flatten(args[2]))
  }

  lemma Regroup(a: string, b: string, c: string, d: string)
    ensures a + (b + c + d) == a + b + c + d
  {
  }

  lemma FlattenPlain(s: string)
    requires FindMarker(s) == None
    ensures Flatten(s) == s
  {
  }

  lemma FlattenPlainEnd()
    ensures Flatten([]) == []
  {
  }

  // One round of the loop: what is left to flatten at `i`.
  lemma FlattenAt(value: string, i: nat, k: nat, j: nat, closed: bool)
    requires i <= |value| && FindMarker(value[i..]) == Some(k)
    requires i + k + WIDTH <= j <= |value|
    requires closed ==> j > i + k + WIDTH && MatchClose(value[i + k + WIDTH..], 1) == Some(j - 1 - (i + k + WIDTH))
    requires !closed ==> j == |value| && MatchClose(value[i + k + WIDTH..], 1) == None
    ensures var whole := value[i + k..j];
            var mix := if closed then MixText(SplitTop(value[i + k + WIDTH..j - 1], 0, Comma()), whole) else whole;
            Flatten(value[i..]) == value[i..i + k] + mix + Flatten(value[j..])
  {
    FirstMixAt(value, i, k, j, closed);
    hide FirstMix, MatchClose, SplitTop, FindMarker, Blend;
    if !closed {
      FlattenPlainEnd();
      assert value[j..] == [];
      assert value[i..i + k] + value[i + k..j] + [] == value[i..];
    }
  }

  // The leftmost mix of a tail, in positions of the whole value.
  lemma FirstMixAt(value: string, i: nat, k: nat, j: nat, closed: bool)
    requires i <= |value| && FindMarker(value[i..]) == Some(k)
    requires i + k + WIDTH <= j <= |value|
    requires closed ==> j > i + k + WIDTH && MatchClose(value[i + k + WIDTH..], 1) == Some(j - 1 - (i + k + WIDTH))
    requires !closed ==> MatchClose(value[i + k + WIDTH..], 1) == None
    ensures FirstMix(value[i..]) ==
            if closed then Site(value[i..i + k], SplitTop(value[i + k + WIDTH..j - 1], 0, Comma()), value[i + k..j],
                value[j..])
            else NoMix
  {
    hide MatchClose, SplitTop, FindMarker;
    var from := k + WIDTH;
    SliceOfTail(value, i, 0, k);
    SliceOfTail(value, i, from, |value| - i);
    if closed {
      SliceOfTail(value, i, from, j - 1 - i);
      SliceOfTail(value, i, k, j - i);
      SliceOfTail(value, i, j - i, |value| - i);
    }
  }

  lemma SliceOfTail(value: string, i: nat, a: nat, b: nat)
    requires i <= |value| && a <= b <= |value| - i
    ensures value[i..][a..b] == value[i + a..i + b]
    ensures b == |value| - i ==> value[i..][a..] == value[i + a..]
    ensures a == 0 ==> value[i..][..b] == value[i..i + b]
  {
  }
}
