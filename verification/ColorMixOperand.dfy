// How one operand of a mix is read: its words, its percentage, the theme token
// of its colour, and the fallback they select, in terms of the text itself.
module ColorMixOperand {
  import opened Wrappers
  import opened Text
  import opened ColorMix
  import opened ColorMixTree
  import opened ColorMixBalance

  // -------------------------------------------------------------- theme tokens

  lemma ThemeTokens(name: string)
    ensures Themed(Some("--xc-accent-primary")) == Some("var(--xc-info-bg)")
    ensures Themed(Some("--xc-danger")) == Some("var(--xc-danger-bg)")
    ensures Themed(Some("--xc-success")) == Some("var(--xc-success-bg)")
    ensures Themed(Some("--xc-warning")) == Some("var(--xc-warning-bg)")
    ensures Themed(Some(name)).Some?
            <==> name in {"--xc-accent-primary", "--xc-danger", "--xc-success", "--xc-warning"}
    ensures Themed(None).None?
  {
    TokensAsWritten();
    NamesDiffer();
    hide VarOf;
  }

  lemma TokensAsWritten()
    ensures VarOf("--xc-info-bg") == "var(--xc-info-bg)" && VarOf("--xc-danger-bg") == "var(--xc-danger-bg)"
    ensures VarOf("--xc-success-bg") == "var(--xc-success-bg)" && VarOf("--xc-warning-bg") == "var(--xc-warning-bg)"
  {
    InfoToken();
    DangerToken();
    SuccessToken();
    WarningToken();
    hide VarOf;
  }

  lemma InfoToken()
    ensures VarOf("--xc-info-bg") == "var(--xc-info-bg)"
  {
  }

  lemma DangerToken()
    ensures VarOf("--xc-danger-bg") == "var(--xc-danger-bg)"
  {
  }

  lemma SuccessToken()
    ensures VarOf("--xc-success-bg") == "var(--xc-success-bg)"
  {
  }

  lemma WarningToken()
    ensures VarOf("--xc-warning-bg") == "var(--xc-warning-bg)"
  {
  }

  lemma NamesDiffer()
    ensures "--xc-success" != "--xc-warning"
  {
    assert "--xc-success"[5] == 's' && "--xc-warning"[5] == 'w';
  }

  // A colour that opens with `var(`, blanks and, `k` characters in, the custom
  // property `n` in full.
  ghost predicate NamesAt(color: string, k: nat, n: string) {
    && 4 <= k && k + |n| <= |color|
    && color[..4] == "var(" && All(color[4..k], IsSpace)
    && color[k..k + |n|] == n
    && |n| > 2 && n[..2] == "--" && All(n[2..], c => IsWord(c) || c == '-')
    && (k + |n| < |color| ==> !IsWord(color[k + |n|]) && color[k + |n|] != '-')
  }

  lemma TokenNameIff(color: string, n: string)
    ensures TokenName(color) == Some(n) <==> exists k :: NamesAt(color, k, n)
  {
    if TokenName(color) == Some(n) {
      TokenNamed(color, n);
      assert NamesAt(color, 4 + Span(color[4..], IsSpace), n);
    }
    if k :| NamesAt(color, k, n) {
      NamedIsToken(color, k, n);
    }
    hide TokenName, NamesAt;
  }

  lemma ArgumentOf(color: string, gap: nat)
    requires |color| >= 4 && gap == Span(color[4..], IsSpace)
    ensures TrimStart(color[4..]) == color[4 + gap..] && All(color[4..4 + gap], IsSpace)
  {
    assert color[4..4 + gap] == color[4..][..gap];
    hide IsSpace;
  }

  lemma SlicesOf(color: string, gap: nat, n: string)
    requires 4 + gap <= |color| && n <= color[4 + gap..]
    ensures 4 + gap + |n| <= |color| && color[4 + gap..4 + gap + |n|] == n
    ensures 4 + gap + |n| < |color| ==> color[4 + gap + |n|] == color[4 + gap..][|n|]
  {
    assert color[4 + gap..4 + gap + |n|] == color[4 + gap..][..|n|];
  }

  lemma ArgumentNamed(arg: string, n: string)
    requires "--" <= arg
    requires var m := Span(arg[2..], c => IsWord(c) || c == '-'); m > 0 && n == arg[..2 + m]
    ensures |n| > 2 && n[..2] == "--" && n <= arg && All(n[2..], c => IsWord(c) || c == '-')
    ensures |n| < |arg| ==> !IsWord(arg[|n|]) && arg[|n|] != '-'
  {
    assert n[2..] == arg[2..][..|n| - 2];
    if |n| < |arg| {
      assert arg[|n|] == arg[2..][|n| - 2];
    }
    hide IsWord;
  }

  lemma TokenNamed(color: string, n: string)
    requires TokenName(color) == Some(n)
    ensures |color| >= 4 && NamesAt(color, 4 + Span(color[4..], IsSpace), n)
  {
    hide IsSpace, IsWord, Span;
    var gap := Span(color[4..], IsSpace);
    var arg := color[4 + gap..];
    ArgumentOf(color, gap);
    ArgumentNamed(arg, n);
    SlicesOf(color, gap, n);
  }

  lemma DashInked()
    ensures !IsSpace('-')
  {
  }

  lemma NamedIsToken(color: string, k: nat, n: string)
    requires NamesAt(color, k, n)
    ensures TokenName(color) == Some(n)
  {
    DashInked();
    hide IsSpace, IsWord, Span;
    var arg := color[k..];
    assert color[4..][..k - 4] == color[4..k];
    assert n[..2][0] == n[0] && n[..2][1] == n[1];
    assert arg[..|n|] == n && n[0] == '-' && n[1] == '-' && arg[0] == n[0] && arg[1] == n[1];
    SpanIs(color[4..], k - 4, IsSpace);
    assert TrimStart(color[4..]) == arg;
    assert arg[2..][..|n| - 2] == n[2..];
    SpanIs(arg[2..], |n| - 2, c => IsWord(c) || c == '-');
    assert color[..4] <= color;
  }

  lemma {:induction false} SpanIs(s: string, n: nat, p: char -> bool)
    requires n <= |s| && All(s[..n], p) && (n < |s| ==> !p(s[n]))
    ensures Span(s, p) == n
  {
    if n > 0 {
      assert s[0] == s[..n][0];
      assert s[1..][..n - 1] == s[..n][1..];
      SpanIs(s[1..], n - 1, p);
    }
  }

  // `transparent` in any mixture of cases.
  lemma TransparentIff(color: string)
    ensures IsTransparent(color)
            <==> && |color| == 11
                 && forall k | 0 <= k < 11 :: color[k] == "transparent"[k] || color[k] == "TRANSPARENT"[k]
  {
    var small, capital := "transparent", "TRANSPARENT";
    assert forall k | 0 <= k < 11 :: capital[k] == (small[k] as int - 32) as char;
    if |color| == 11 {
      assert forall k | 0 <= k < 11 :: LowerAll(color)[k] == Lower(color[k]);
    }
  }

  // ---------------------------------------------------------------- percentages

  // A token whose text before the percent sign is a run of digits, with or
  // without a dot and more digits.
  lemma WholePercent(digits: string)
    requires digits != [] && All(digits, IsDigit)
    ensures IsPercent(digits + "%") && PercentValue(digits + "%") == Val(ValueOf(digits) as real)
    ensures IsPercent("-" + digits + "%") && PercentValue("-" + digits + "%") == Val(-(ValueOf(digits) as real))
  {
    WholeRead(digits, "");
    assert digits + "" == digits;
    NoDots(digits);
    PercentOf(digits);
  }

  // The value of the digits after the dot.
  function Tenths(s: string): real {
    if s == [] then 0.0 else (DigitValue(s[0]) + Tenths(s[1..])) / 10.0
  }

  lemma FractionPercent(whole: string, fraction: string)
    requires All(whole, IsDigit) && All(fraction, IsDigit) && whole + fraction != []
    ensures var body, v := whole + "." + fraction, ValueOf(whole) as real + Tenths(fraction);
            && IsPercent(body + "%") && PercentValue(body + "%") == Val(v)
            && IsPercent("-" + body + "%") && PercentValue("-" + body + "%") == Val(-v)
  {
    hide *;
    var body := whole + "." + fraction;
    NumeralBody(whole, fraction);
    PercentOf(body);
    SignedIs(ValueOf(whole) as real + Tenths(fraction));
  }

  lemma NumeralBody(whole: string, fraction: string)
    requires All(whole, IsDigit) && All(fraction, IsDigit) && whole + fraction != []
    ensures var body := whole + "." + fraction;
            body != [] && All(body, IsNumeral) && Number(body) == Val(ValueOf(whole) as real + Tenths(fraction))
  {
    OneDot(whole, fraction);
    ReadAtDot(whole, fraction);
    hide ColorMix.Value, Dots, ValueOf, Tenths;
  }

  lemma SignedIs(v: real)
    ensures Signed(1.0, Val(v)) == Val(v) && Signed(-1.0, Val(v)) == Val(-v)
  {
  }

  // Without a digit, or with two dots, there is no number.
  lemma NotANumber(t: string, i: nat, j: nat)
    requires IsPercent(t)
    requires i < j < |t| && t[i] == '.' && t[j] == '.'
    ensures PercentValue(t).NaN?
  {
    var body := if t[0] == '-' then t[1..|t| - 1] else t[..|t| - 1];
    var sign := if t[0] == '-' then 1 else 0;
    TwoDots(body, i - sign, j - sign);
  }

  lemma LoneDot()
    ensures IsPercent(".%") && PercentValue(".%").NaN? && IsPercent("-.%") && PercentValue("-.%").NaN?
  {
    assert Dots(".") == 1 && ".%"[..1] == "." && "-.%"[1..2] == ".";
    assert All(".", IsNumeral);
  }

  // The words that are percentages.
  lemma PercentIff(t: string)
    ensures IsPercent(t) <==>
            exists body :: (t == body + "%" || t == "-" + body + "%") && body != [] && All(body, IsNumeral)
  {
    if IsPercent(t) {
      var body := if t[0] == '-' then t[1..|t| - 1] else t[..|t| - 1];
      assert t == body + "%" || t == "-" + body + "%";
    }
    if body :| (t == body + "%" || t == "-" + body + "%") && body != [] && All(body, IsNumeral) {
      PercentOf(body);
    }
  }

  lemma PercentOf(body: string)
    requires body != [] && All(body, IsNumeral)
    ensures IsPercent(body + "%") && IsPercent("-" + body + "%")
    ensures PercentValue(body + "%") == Signed(1.0, Number(body))
    ensures PercentValue("-" + body + "%") == Signed(-1.0, Number(body))
  {
    SignedParts(body);
    hide ColorMix.Value, Dots;
  }

  lemma SignedParts(body: string)
    requires body != [] && All(body, IsNumeral)
    ensures var t := body + "%"; t[0] != '-' && t[|t| - 1] == '%' && t[0..|t| - 1] == body && t[..|t| - 1] == body
    ensures var m := "-" + body + "%"; m[0] == '-' && m[|m| - 1] == '%' && m[1..|m| - 1] == body
  {
    assert (body + "%")[0] == body[0];
  }

  // The number a run of digits and dots writes, and the number with a sign.
  function Number(body: string): Num {
    if Dots(body) > 1 || Dots(body) == |body| then NaN else Val(ColorMix.Value(body, 0.0, 1.0))
  }

  function Signed(sign: real, n: Num): Num {
    match n case NaN => NaN case Val(v) => Val(sign * v)
  }

  lemma {:induction false} NoDots(s: string)
    requires All(s, IsDigit)
    ensures Dots(s) == 0
  {
    if s != [] {
      NoDots(s[1..]);
    }
  }

  lemma {:induction false} OneDot(whole: string, fraction: string)
    requires All(whole, IsDigit) && All(fraction, IsDigit)
    ensures Dots(whole + "." + fraction) == 1
  {
    var s := whole + "." + fraction;
    if whole == [] {
      assert s[1..] == fraction;
      NoDots(fraction);
    } else {
      assert s[1..] == whole[1..] + "." + fraction;
      OneDot(whole[1..], fraction);
    }
  }

  lemma {:induction false} TwoDots(s: string, i: nat, j: nat)
    requires i < j < |s| && s[i] == '.' && s[j] == '.'
    ensures Dots(s) > 1
  {
    if i > 0 {
      TwoDots(s[1..], i - 1, j - 1);
    } else {
      SomeDot(s[1..], j - 1);
    }
  }

  lemma {:induction false} SomeDot(s: string, j: nat)
    requires j < |s| && s[j] == '.'
    ensures Dots(s) > 0
  {
    if j > 0 {
      SomeDot(s[1..], j - 1);
    }
  }

  // The digits of a number, read from the left with `n` read before.
  function ReadOn(n: nat, s: string): nat
    requires All(s, IsDigit)
    decreases s
  {
    if s == [] then n else ReadOn(10 * n + (s[0] - '0') as nat, s[1..])
  }

  lemma {:induction false} ReadOnLast(n: nat, s: string)
    requires s != [] && All(s, IsDigit)
    ensures ReadOn(n, s) == 10 * ReadOn(n, s[..|s| - 1]) + (s[|s| - 1] - '0') as nat
    decreases s
  {
    if |s| > 1 {
      ReadOnLast(10 * n + (s[0] - '0') as nat, s[1..]);
      assert s[1..][..|s| - 2] == s[..|s| - 1][1..];
    }
  }

  lemma {:induction false} ReadIsValue(s: string)
    requires All(s, IsDigit)
    ensures ReadOn(0, s) == ValueOf(s)
  {
    if s != [] {
      ReadOnLast(0, s);
      ReadIsValue(s[..|s| - 1]);
    }
  }

  lemma {:induction false} WholeReadOn(n: nat, digits: string, rest: string)
    requires All(digits, IsDigit)
    ensures ColorMix.Value(digits + rest, n as real, 1.0) == ColorMix.Value(rest, ReadOn(n, digits) as real, 1.0)
    decreases digits
  {
    if digits == [] {
      assert digits + rest == rest;
    } else {
      var s := digits + rest;
      var m := 10 * n + (digits[0] - '0') as nat;
      assert s[0] == digits[0] && s[1..] == digits[1..] + rest;
      assert n as real * 10.0 + DigitValue(s[0]) == m as real;
      WholeReadOn(m, digits[1..], rest);
    }
  }

  lemma WholeRead(digits: string, rest: string)
    requires All(digits, IsDigit)
    ensures ColorMix.Value(digits + rest, 0.0, 1.0) == ColorMix.Value(rest, ValueOf(digits) as real, 1.0)
  {
    WholeReadOn(0, digits, rest);
    ReadIsValue(digits);
  }

  // acc + 10 * unit * t
  function Reached(acc: real, unit: real, t: real): real {
    acc + 10.0 * unit * t
  }

  // A digit of weight `unit` more, and a digit in front of some tenths.
  function Added(acc: real, d: real, unit: real): real {
    acc + d * unit
  }

  function Shifted(d: real, tail: real): real {
    (d + tail) / 10.0
  }

  lemma Scaled(acc: real, unit: real, d: real, tail: real)
    ensures Reached(Added(acc, d, unit), unit / 10.0, tail) == Reached(acc, unit, Shifted(d, tail))
  {
    assert 10.0 * (unit / 10.0) == unit;
    assert 10.0 * unit * ((d + tail) / 10.0) == unit * (d + tail);
    assert unit * (d + tail) == unit * d + unit * tail;
  }

  lemma ReadEnds(acc: real, unit: real)
    ensures ColorMix.Value("", acc, unit) == Reached(acc, unit, Tenths(""))
  {
  }

  lemma ReadsOn(s: string, acc: real, unit: real) returns (next: real, weight: real)
    requires s != [] && All(s, IsDigit) && unit < 1.0
    ensures ColorMix.Value(s, acc, unit) == ColorMix.Value(s[1..], next, weight)
    ensures next == Added(acc, DigitValue(s[0]), unit) && weight == unit / 10.0 && weight < 1.0
    ensures All(s[1..], IsDigit)
  {
    next, weight := acc + DigitValue(s[0]) * unit, unit / 10.0;
    assert IsDigit(s[0]);
    hide DigitValue;
  }

  lemma TenthsOn(s: string)
    requires s != []
    ensures Tenths(s) == Shifted(DigitValue(s[0]), Tenths(s[1..]))
  {
    hide DigitValue;
  }

  lemma ReadDigit(s: string, acc: real, unit: real) returns (next: real, weight: real)
    requires s != [] && All(s, IsDigit) && unit < 1.0
    ensures ColorMix.Value(s, acc, unit) == ColorMix.Value(s[1..], next, weight)
    ensures Reached(next, weight, Tenths(s[1..])) == Reached(acc, unit, Tenths(s))
    ensures All(s[1..], IsDigit) && weight < 1.0
  {
    hide *;
    var d := DigitValue(s[0]);
    next, weight := ReadsOn(s, acc, unit);
    TenthsOn(s);
    Scaled(acc, unit, d, Tenths(s[1..]));
  }

  // Past the dot, with `unit` the weight of the next digit.
  lemma {:induction false} FractionRead(fraction: string, acc: real, unit: real)
    requires All(fraction, IsDigit) && unit < 1.0
    ensures ColorMix.Value(fraction, acc, unit) == Reached(acc, unit, Tenths(fraction))
  {
    hide *;
    if fraction == [] {
      ReadEnds(acc, unit);
    } else {
      var next, weight := ReadDigit(fraction, acc, unit);
      FractionRead(fraction[1..], next, weight);
    }
  }

  lemma FromTenth(acc: real, t: real)
    ensures Reached(acc, 0.1, t) == acc + t
  {
  }

  lemma ReadAtDot(whole: string, fraction: string)
    requires All(whole, IsDigit) && All(fraction, IsDigit)
    ensures ColorMix.Value(whole + "." + fraction, 0.0, 1.0) == ValueOf(whole) as real + Tenths(fraction)
  {
    var rest := "." + fraction;
    assert whole + rest == whole + "." + fraction;
    WholeRead(whole, rest);
    assert rest[0] == '.' && rest[1..] == fraction;
    FractionRead(fraction, ValueOf(whole) as real, 0.1);
    FromTenth(ValueOf(whole) as real, Tenths(fraction));
    hide ValueOf, Tenths, Reached;
  }

  // ---------------------------------------------------------------------- words

  // No separator at depth zero, entering at depth `d`.
  predicate Quiet(s: string, d: nat, isSep: char -> bool) {
    || s == []
    || (var e := Deeper(d, s[0]); e >= 0 && !(e == 0 && isSep(s[0])) && Quiet(s[1..], e, isSep))
  }

  lemma {:induction false} QuietJoins(a: string, rest: string, d: nat, isSep: char -> bool)
    requires Quiet(a, d, isSep) && Depth(a, d).Some?
    ensures var tail := SplitTop(rest, Depth(a, d).value, isSep);
            SplitTop(a + rest, d, isSep) == [a + tail[0]] + tail[1..]
  {
    if a == [] {
      assert a + rest == rest;
      var tail := SplitTop(rest, d, isSep);
      assert [] + tail[0] == tail[0] && [tail[0]] + tail[1..] == tail;
    } else {
      var e := Deeper(d, a[0]);
      assert (a + rest)[1..] == a[1..] + rest;
      QuietJoins(a[1..], rest, e, isSep);
      var tail := SplitTop(rest, Depth(a, d).value, isSep);
      assert [a[0]] + (a[1..] + tail[0]) == a + tail[0];
    }
  }

  // A balanced text is cut at a separator that stands behind it, and where no
  // separator stands at depth zero it is one piece.
  lemma CutBehind(a: string, c: char, rest: string, isSep: char -> bool)
    requires Balanced(a) && Quiet(a, 0, isSep)
    ensures SplitTop(a, 0, isSep) == [a]
    ensures isSep(c) && !IsParen(c) ==> SplitTop(a + [c] + rest, 0, isSep) == [a] + SplitTop(rest, 0, isSep)
  {
    QuietJoins(a, [], 0, isSep);
    assert a + [] == a && SplitTop([], 0, isSep) == [[]];
    if isSep(c) && !IsParen(c) {
      QuietJoins(a, [c] + rest, 0, isSep);
      assert a + ([c] + rest) == a + [c] + rest && ([c] + rest)[1..] == rest;
      assert ([[]] + SplitTop(rest, 0, isSep))[1..] == SplitTop(rest, 0, isSep);
    }
  }

  predicate IsToken(w: string) {
    w != [] && Balanced(w) && Trimmed(w) && Quiet(w, 0, IsSpace)
  }

  predicate IsGap(g: string) {
    g != [] && All(g, IsSpace)
  }

  // The words with the gaps between them.
  function Spread(words: seq<string>, gaps: seq<string>): string
    requires |words| == |gaps| + 1
  {
    if gaps == [] then words[0] else words[0] + (gaps[0] + Spread(words[1..], gaps[1..]))
  }

  lemma {:induction false} BlanksVanish(g: string, s: string)
    requires All(g, IsSpace)
    ensures NonEmpty(SplitTop(g + s, 0, IsSpace)) == NonEmpty(SplitTop(s, 0, IsSpace))
  {
    if g == [] {
      assert g + s == s;
    } else {
      assert (g + s)[1..] == g[1..] + s;
      BlanksVanish(g[1..], s);
      var tail := SplitTop(g[1..] + s, 0, IsSpace);
      assert !IsParen(g[0]);
      assert ([[]] + tail)[1..] == tail;
    }
  }

  lemma {:induction false} SpreadReads(words: seq<string>, gaps: seq<string>)
    requires |words| == |gaps| + 1
    requires (forall w | w in words :: IsToken(w)) && (forall g | g in gaps :: IsGap(g))
    ensures NonEmpty(SplitTop(Spread(words, gaps), 0, IsSpace)) == words
    ensures Spread(words, gaps) != [] && Trimmed(Spread(words, gaps))
  {
    assert words[0] in words;
    if gaps == [] {
      CutBehind(words[0], ' ', [], IsSpace);
      NonEmptyOne(words[0], []);
      assert words == [words[0]];
    } else {
      var g, rest := gaps[0], Spread(words[1..], gaps[1..]);
      assert g in gaps;
      SpreadReads(words[1..], gaps[1..]);
      SpreadTwo(words[0], g, rest);
      assert words == [words[0]] + words[1..];
    }
  }

  lemma NonEmptyOne(w: string, rest: seq<string>)
    requires w != []
    ensures NonEmpty([w] + rest) == [w] + NonEmpty(rest)
    ensures NonEmpty([w]) == [w]
  {
    assert ([w] + rest)[1..] == rest;
  }

  lemma SpreadTwo(w: string, g: string, rest: string)
    requires IsToken(w) && IsGap(g) && rest != [] && Trimmed(rest)
    ensures NonEmpty(SplitTop(w + (g + rest), 0, IsSpace)) == [w] + NonEmpty(SplitTop(rest, 0, IsSpace))
    ensures Trimmed(w + (g + rest))
  {
    var s := w + (g + rest);
    assert s == w + [g[0]] + (g[1..] + rest);
    assert s[0] == w[0] && s[|s| - 1] == rest[|rest| - 1];
    SpacesArePlain();
    CutBehind(w, g[0], g[1..] + rest, IsSpace);
    BlanksVanish(g[1..], rest);
    NonEmptyOne(w, SplitTop(g[1..] + rest, 0, IsSpace));
    hide SplitTop, NonEmpty, Quiet, IsSpace;
  }

  // The first percentage is taken out; every other word stays, in order.
  lemma {:induction false} ShareTaken(before: seq<string>, p: string, after: seq<string>)
    requires (forall w | w in before :: !IsPercent(w)) && IsPercent(p)
    ensures TakeShare(before + [p] + after, None) == (before + after, Some(PercentValue(p)))
  {
    hide IsPercent, PercentValue;
    if before == [] {
      assert (before + [p] + after)[1..] == after && before + after == after;
      NothingTaken(after, Some(PercentValue(p)));
    } else {
      assert before[0] in before;
      assert (before + [p] + after)[1..] == before[1..] + [p] + after;
      ShareTaken(before[1..], p, after);
      assert [before[0]] + (before[1..] + after) == before + after;
    }
  }

  lemma {:induction false} NothingTaken(words: seq<string>, share: Option<Num>)
    requires share.Some? || forall w | w in words :: !IsPercent(w)
    ensures TakeShare(words, share) == (words, share)
  {
    hide IsPercent, PercentValue;
    if words != [] {
      assert words[0] in words;
      NothingTaken(words[1..], share);
      assert [words[0]] + words[1..] == words;
    }
  }

  lemma PercentIsToken(p: string)
    requires IsPercent(p)
    ensures IsToken(p)
  {
    assert forall k | 0 <= k < |p| :: IsNumeral(p[k]) || p[k] == '-' || p[k] == '%';
    DepthPlain(p, 0);
    QuietPlain(p);
  }

  lemma {:induction false} QuietPlain(s: string)
    requires forall k | 0 <= k < |s| :: !IsParen(s[k]) && !IsSpace(s[k])
    ensures Quiet(s, 0, IsSpace)
  {
    if s != [] {
      QuietPlain(s[1..]);
    }
  }

  // An operand as it is written: words, at most one percentage that counts
  // among them, and white space around and between.
  datatype Written = Written(lead: string, before: seq<string>, share: Option<string>, after: seq<string>,
      gaps: seq<string>, trail: string)
  {
    function Words(): seq<string> {
      match share
      case None => before + after
      case Some(p) => before + [p] + after
    }

    predicate WellFormed() {
      && |Words()| == |gaps| + 1
      && All(lead, IsSpace) && All(trail, IsSpace)
      && (forall g | g in gaps :: IsGap(g))
      && (forall w | w in before :: IsToken(w) && !IsPercent(w))
      && (forall w | w in after :: IsToken(w) && (share.None? ==> !IsPercent(w)))
      && (share.Some? ==> IsPercent(share.value))
    }

    function Text(): string
      requires WellFormed()
    {
      lead + Spread(Words(), gaps) + trail
    }
  }

  // The colour is the words without the percentage, one space apart, and the
  // share is that percentage.
  lemma ReadsAsWritten(x: Written)
    requires x.WellFormed()
    ensures OperandOf(x.Text())
         == Operand(Join(x.before + x.after, " "),
                match x.share case None => None case Some(p) => Some(PercentValue(p)))
  {
    var words := x.Words();
    forall w | w in words
      ensures IsToken(w)
    {
      if x.share.Some? {
        PercentIsToken(x.share.value);
      }
    }
    hide IsToken, IsPercent, PercentValue, SplitTop, NonEmpty, TakeShare, Trim, Trimmed, Spread, Join, IsSpace;
    SpreadReads(words, x.gaps);
    TrimOfPadded(x.lead, Spread(words, x.gaps), x.trail);
    match x.share
    case None => NothingTaken(words, None);
    case Some(p) => ShareTaken(x.before, p, x.after);
  }

  // ------------------------------------------------------------- one written mix

  lemma Lifted(a: string, d: nat)
    requires a != [] && Depth(a, d).Some?
    ensures Deeper(d, a[0]) >= 0 && Depth(a[1..], Deeper(d, a[0])) == Depth(a, d)
    ensures Deeper(d + 1, a[0]) == Deeper(d, a[0]) + 1
  {
  }

  lemma DepthOfEmpty(d: nat)
    ensures Depth("", d) == Some(d) && forall r: Option<nat> :: Shift(r, 0) == r
  {
  }

  lemma ShiftTwice(r: Option<nat>, n: nat)
    ensures Shift(Shift(r, n), 1) == Shift(r, n + 1)
  {
  }

  lemma {:induction false} MatchPast(a: string, rest: string, d: nat)
    requires Depth(a, d).Some?
    ensures MatchClose(a + rest, d + 1) == Shift(MatchClose(rest, Depth(a, d).value + 1), |a|)
  {
    hide *;
    if a == [] {
      assert a + rest == rest;
      DepthOfEmpty(d);
    } else {
      var e := Deeper(d, a[0]);
      assert a + rest == [a[0]] + (a[1..] + rest);
      Lifted(a, d);
      MatchChar(a[0], a[1..] + rest, d + 1);
      MatchPast(a[1..], rest, e);
      ShiftTwice(MatchClose(rest, Depth(a, d).value + 1), |a| - 1);
    }
  }

  // An argument that holds no mix, and in which the mix is not cut.
  predicate IsArgument(s: string) {
    Balanced(s) && Quiet(s, 0, Comma()) && FindMarker(s).None?
  }

  lemma CommaCuts()
    ensures Comma()(',') && !IsParen(',')
    ensures forall s | IsArgument(s) :: Balanced(s) && Quiet(s, 0, Comma())
  {
    hide Balanced, Quiet, FindMarker;
  }

  lemma BalancedPair(a: string, b: string)
    requires Balanced(a) && Balanced(b)
    ensures Balanced(a + "," + b)
  {
    DepthPlain(",", 0);
    DepthConcat(a + ",", b, 0);
    DepthConcat(a, ",", 0);
    hide Depth;
  }

  lemma ThreeArguments(space: string, x: string, y: string)
    requires IsArgument(space) && IsArgument(x) && IsArgument(y)
    ensures var inner := space + "," + x + "," + y;
            Balanced(inner) && SplitTop(inner, 0, Comma()) == [space, x, y]
  {
    hide *;
    var tail := x + "," + y;
    assert space + "," + x + "," + y == space + "," + tail;
    CommaCuts();
    CutBehind(space, ',', tail, Comma());
    CutBehind(x, ',', y, Comma());
    CutBehind(y, ',', [], Comma());
    BalancedPair(x, y);
    BalancedPair(space, tail);
  }

  lemma OfThree(space: string, x: string, y: string, whole: string)
    requires IsArgument(x) && IsArgument(y)
    ensures MixText([space, x, y], whole) == Blend(x, y)
  {
    hide Flatten, Blend, FindMarker;
    FlattenPlain(x);
    FlattenPlain(y);
  }

  lemma Unopened(inner: string, after: string)
    ensures Opening(inner + (")" + after)) == "color-mix(" + inner + ")" + after
  {
    assert MARKER == "color-mix(";
    hide MARKER;
  }

  lemma Leads(a: string, b: string)
    ensures "" + a + b == a + b
  {
  }

  lemma MatchShutsAt(inner: string, after: string)
    requires Balanced(inner)
    ensures Depth(inner, 0) == Some(0) && Shift(MatchClose(")" + after, 1), |inner|) == Some(|inner|)
  {
    MatchChar(')', after, 1);
    hide MatchClose, Depth;
  }

  lemma SiteAt(s: string, c: nat)
    requires WIDTH + c < |s| && FindMarker(s) == Some(0) && MatchClose(s[WIDTH..], 1) == Some(c)
    ensures FirstMix(s)
         == Site("", SplitTop(s[WIDTH..WIDTH + c], 0, Comma()), s[0..WIDTH + c + 1], s[WIDTH + c + 1..])
  {
    assert s[..0] == [];
    hide FindMarker, MatchClose, SplitTop, Comma;
  }

  lemma SiteWritten(inner: string, after: string)
    requires Balanced(inner)
    ensures FirstMix(Opening(inner + (")" + after)))
         == Site("", SplitTop(inner, 0, Comma()), Opening(inner + ")"), after)
  {
    hide *;
    OpeningFound(inner + (")" + after));
    MatchShutsAt(inner, after);
    MatchPast(inner, ")" + after, 0);
    OpeningSlices(inner, after);
    SiteAt(Opening(inner + (")" + after)), |inner|);
  }

  // Whatever follows it, a mix of two colours without mixes in them becomes
  // what the fallback selects.
  lemma MixFlattens(space: string, x: string, y: string, after: string)
    requires IsArgument(space) && IsArgument(x) && IsArgument(y)
    ensures Flatten("color-mix(" + (space + "," + x + "," + y) + ")" + after) == Blend(x, y) + Flatten(after)
  {
    hide *;
    var inner := space + "," + x + "," + y;
    var s := Opening(inner + (")" + after));
    ThreeArguments(space, x, y);
    SiteWritten(inner, after);
    FlattenSite(s);
    OfThree(space, x, y, Opening(inner + ")"));
    Unopened(inner, after);
    Leads(Blend(x, y), Flatten(after));
  }
}
