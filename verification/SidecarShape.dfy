// The texts the sidecar cut goes by, in literals: the loader's first line, an
// `else` on either side, and the comments and strings in which no bracket
// counts.
module SidecarShape {
  import opened Wrappers
  import opened Text
  import opened SidecarStrip

  lemma QuotesAndBrackets(c: char)
    ensures IsQuote(c) <==> c == '\'' || c == '"' || c == '`'
    ensures Closing(c)
         == if c == '(' then Some(')') else if c == '{' then Some('}') else if c == '[' then Some(']') else None
  {
  }

  // Only white space from `n` up to `m`.
  predicate BlankTo(code: string, n: nat, m: nat) {
    n <= m <= |code| && forall k | n <= k < m :: IsSpace(code[k])
  }

  // `word` from `n` on.
  predicate Reads(code: string, n: nat, word: string) {
    n + |word| <= |code| && code[n..n + |word|] == word
  }

  // No word character at `n`.
  predicate ApartAt(code: string, n: nat) {
    n < |code| ==> !IsWord(code[n])
  }

  lemma {:induction false} SkipsTo(code: string, n: nat, m: nat)
    requires BlankTo(code, n, m) && (m < |code| ==> !IsSpace(code[m]))
    ensures SkipSpace(code, n) == m
    decreases m - n
  {
    hide IsSpace;
    if n < m {
      SkipsTo(code, n + 1, m);
    }
  }

  lemma WordReads(code: string, n: nat, word: string)
    ensures WordAt(code, n, word) && n + |word| <= |code| <==> Reads(code, n, word)
    ensures word != [] ==> (WordAt(code, n, word) <==> Reads(code, n, word))
    ensures Reads(code, n, word) ==> n + |word| <= |code|
    ensures Reads(code, n, word) ==> forall k | 0 <= k < |word| :: code[n + k] == word[k]
  {
    if n <= |code| && word <= code[n..] {
      assert code[n..][..|word|] == word;
    }
    if Reads(code, n, word) {
      assert code[n..][..|word|] == word;
      var slice := code[n..n + |word|];
      assert forall k | 0 <= k < |word| :: slice[k] == code[n + k];
    }
  }

  // An `else` behind the body: white space, the word, no further word character.
  predicate ElseAt(rest: string, n: nat) {
    BlankTo(rest, 0, n) && Reads(rest, n, "else") && ApartAt(rest, n + 4)
  }

  lemma ElseFollowsIff(rest: string)
    ensures ElseFollows(rest) <==> exists n: nat :: ElseAt(rest, n)
  {
    WordReads(rest, SkipSpace(rest, 0), "else");
    if ElseFollows(rest) {
      assert ElseAt(rest, SkipSpace(rest, 0));
    }
    if n: nat :| ElseAt(rest, n) {
      WordReads(rest, n, "else");
      assert rest[n + 0] == 'e';
      SkipsTo(rest, 0, n);
    }
    hide WordAt, IsWord, SkipSpace;
  }

  // An `else` before the loader: the word on its own, then white space.
  predicate ElseUpTo(before: string, n: nat) {
    Reads(before, n, "else") && BlankTo(before, n + 4, |before|) && (n > 0 ==> !IsWord(before[n - 1]))
  }

  lemma ElsePrecedesIff(before: string)
    ensures ElsePrecedes(before) <==> exists n: nat :: ElseUpTo(before, n)
  {
    if ElsePrecedes(before) {
      var n := |TrimEnd(before)| - 4;
      assert before[n..n + 4] == TrimEnd(before)[n..];
      assert ElseUpTo(before, n);
    }
    if n: nat :| ElseUpTo(before, n) {
      EndsAtElse(before, n);
    }
    hide ElsePrecedes, ElseUpTo;
  }

  lemma EndsAtElse(before: string, n: nat)
    requires ElseUpTo(before, n)
    ensures ElsePrecedes(before)
  {
    var t := before[..n + 4];
    WordReads(before, n, "else");
    assert before[n + 3] == 'e' && t[|t| - 1] == before[n + 3];
    assert before == t + before[n + 4..];
    TrimEndOfPadded(t, before[n + 4..]);
    assert t[n..] == before[n..n + 4];
    hide IsWord, TrimEnd;
  }

  // `fullnode`, a dot and the property's name, with white space between them
  // and no further word character.
  predicate GuardSpans(code: string, n: nat, name: nat, dot: nat, key: nat) {
    && BlankTo(code, n, name) && Reads(code, name, "fullnode")
    && BlankTo(code, name + 8, dot) && dot < |code| && code[dot] == '.'
    && BlankTo(code, dot + 1, key) && Reads(code, key, "$regtestSidecar") && ApartAt(code, key + 15)
  }

  // `if`, an opening parenthesis, and the above.
  predicate LoaderSpans(code: string, start: nat, paren: nat, name: nat, dot: nat, key: nat) {
    && Reads(code, start, "if")
    && BlankTo(code, start + 2, paren) && paren < |code| && code[paren] == '('
    && GuardSpans(code, paren + 1, name, dot, key)
  }

  lemma LoaderIff(code: string, start: nat)
    ensures LoaderAt(code, start)
            <==> exists paren: nat, name: nat, dot: nat, key: nat :: LoaderSpans(code, start, paren, name, dot, key)
  {
    if LoaderAt(code, start) {
      var paren, name, dot, key := LoaderSpread(code, start);
    }
    if paren: nat, name: nat, dot: nat, key: nat :| LoaderSpans(code, start, paren, name, dot, key) {
      SpreadIsLoader(code, start, paren, name, dot, key);
    }
    hide LoaderAt, LoaderSpans;
  }

  lemma Inked()
    ensures !IsSpace('(') && !IsSpace('f') && !IsSpace('.') && !IsSpace('$')
    ensures |"fullnode"| == 8 && |"$regtestSidecar"| == 15 && |"if"| == 2
    ensures "fullnode"[0] == 'f' && "$regtestSidecar"[0] == '$'
    ensures FULLNODE == "fullnode" && SIDECAR_KEY == "$regtestSidecar" && IF == "if"
  {
  }

  lemma GuardParts(code: string, n: nat)
    requires n <= |code|
    ensures GuardAt(code, n)
            <==> var name := SkipSpace(code, n);
                 && Reads(code, name, FULLNODE) && name + |FULLNODE| <= |code|
                 && var dot := SkipSpace(code, name + |FULLNODE|);
                    && dot < |code| && code[dot] == '.'
                    && var key := SkipSpace(code, dot + 1);
                       Reads(code, key, SIDECAR_KEY) && ApartAt(code, key + |SIDECAR_KEY|)
  {
    hide IsSpace, IsWord, WordAt, SkipSpace, FULLNODE, SIDECAR_KEY, Reads;
    var name := SkipSpace(code, n);
    WordReads(code, name, FULLNODE);
    if Reads(code, name, FULLNODE) {
      var dot := SkipSpace(code, name + |FULLNODE|);
      if dot < |code| {
        var key := SkipSpace(code, dot + 1);
        WordReads(code, key, SIDECAR_KEY);
        assert ApartAt(code, key + |SIDECAR_KEY|)
            <==> (key + |SIDECAR_KEY| >= |code| || !IsWord(code[key + |SIDECAR_KEY|]));
      } else {
      }
    } else {
    }
  }

  lemma Blanked(code: string, n: nat)
    requires n <= |code|
    ensures BlankTo(code, n, SkipSpace(code, n))
  {
    hide IsSpace;
  }

  lemma SpansOf(code: string, n: nat, name: nat, dot: nat, key: nat)
    requires BlankTo(code, n, name) && Reads(code, name, "fullnode")
    requires BlankTo(code, name + 8, dot) && dot < |code| && code[dot] == '.'
    requires BlankTo(code, dot + 1, key) && Reads(code, key, "$regtestSidecar") && ApartAt(code, key + 15)
    ensures GuardSpans(code, n, name, dot, key)
  {
    hide Reads, BlankTo, ApartAt;
  }

  lemma GuardSpread(code: string, n: nat) returns (name: nat, dot: nat, key: nat)
    requires n <= |code| && GuardAt(code, n)
    ensures GuardSpans(code, n, name, dot, key)
  {
    hide *;
    Inked();
    GuardParts(code, n);
    name := SkipSpace(code, n);
    Blanked(code, n);
    dot := SkipSpace(code, name + 8);
    Blanked(code, name + 8);
    key := SkipSpace(code, dot + 1);
    Blanked(code, dot + 1);
    SpansOf(code, n, name, dot, key);
  }

  lemma SpreadIsGuard(code: string, n: nat, name: nat, dot: nat, key: nat)
    requires n <= |code| && GuardSpans(code, n, name, dot, key)
    ensures GuardAt(code, n)
  {
    Inked();
    WordReads(code, name, "fullnode");
    WordReads(code, key, "$regtestSidecar");
    assert code[name + 0] == "fullnode"[0] && code[key + 0] == "$regtestSidecar"[0];
    hide IsSpace, IsWord, WordAt, SkipSpace, FULLNODE, SIDECAR_KEY, GuardAt, ApartAt;
    SkipsTo(code, n, name);
    SkipsTo(code, name + 8, dot);
    SkipsTo(code, dot + 1, key);
    GuardParts(code, n);
  }

  lemma LoaderParts(code: string, start: nat)
    ensures LoaderAt(code, start)
            <==> && Reads(code, start, IF)
                 && var paren := SkipSpace(code, start + 2);
                    paren < |code| && code[paren] == '(' && GuardAt(code, paren + 1)
  {
    Inked();
    WordReads(code, start, IF);
    hide IsSpace, WordAt, SkipSpace, GuardAt, IF;
  }

  lemma LoaderSpread(code: string, start: nat) returns (paren: nat, name: nat, dot: nat, key: nat)
    requires LoaderAt(code, start)
    ensures LoaderSpans(code, start, paren, name, dot, key)
  {
    Inked();
    LoaderParts(code, start);
    hide IsSpace, WordAt, SkipSpace, GuardAt, GuardSpans, IF, LoaderAt, BlankTo;
    paren := SkipSpace(code, start + 2);
    Blanked(code, start + 2);
    name, dot, key := GuardSpread(code, paren + 1);
  }

  lemma SpreadIsLoader(code: string, start: nat, paren: nat, name: nat, dot: nat, key: nat)
    requires LoaderSpans(code, start, paren, name, dot, key)
    ensures LoaderAt(code, start)
  {
    Inked();
    hide IsSpace, WordAt, SkipSpace, GuardAt, GuardSpans, IF, LoaderAt;
    SkipsTo(code, start + 2, paren);
    SpreadIsGuard(code, paren + 1, name, dot, key);
    LoaderParts(code, start);
  }

  // --------------------------------------------------- what the lexer passes over

  // From code mode, a text after which code goes on and in which it does not.
  predicate PassedOver(code: string, from: nat, n: nat, end: nat)
    requires from <= n <= end <= |code|
  {
    ModeAt(code, from, end) == Code && forall k | n < k < end :: ModeAt(code, from, k) != Code
  }

  // A line comment, up to and with its newline.
  lemma LineCommentPassed(code: string, from: nat, n: nat, end: nat)
    requires from <= n && n + 2 < end <= |code| && ModeAt(code, from, n) == Code
    requires code[n] == '/' && code[n + 1] == '/' && code[end - 1] == '\n'
    requires forall k | n + 2 <= k < end - 1 :: code[k] != '\n'
    ensures PassedOver(code, from, n, end)
  {
    assert ModeAt(code, from, n + 1) == LineComment && ModeAt(code, from, n + 2) == LineComment;
    LineGoesOn(code, from, n + 2, end - 1);
    assert ModeAt(code, from, end - 1) == LineComment;
  }

  lemma {:induction false} LineGoesOn(code: string, from: nat, n: nat, end: nat)
    requires from <= n <= end <= |code| && ModeAt(code, from, n) == LineComment
    requires forall k | n <= k < end :: code[k] != '\n'
    ensures forall k | n <= k <= end :: ModeAt(code, from, k) == LineComment
  {
    if n < end {
      LineGoesOn(code, from, n, end - 1);
    }
  }

  // A block comment, up to and with its first terminator.
  lemma BlockCommentPassed(code: string, from: nat, n: nat, end: nat)
    requires from <= n && n + 4 <= end <= |code| && ModeAt(code, from, n) == Code
    requires code[n] == '/' && code[n + 1] == '*' && code[end - 2] == '*' && code[end - 1] == '/'
    requires forall k | n + 2 <= k < end - 2 :: !(code[k] == '*' && code[k + 1] == '/')
    ensures PassedOver(code, from, n, end)
  {
    assert ModeAt(code, from, n + 1) == BlockOpen && ModeAt(code, from, n + 2) == Block;
    BlockGoesOn(code, from, n + 2, end - 2);
    assert ModeAt(code, from, end - 1) == BlockClose;
  }

  lemma {:induction false} BlockGoesOn(code: string, from: nat, n: nat, end: nat)
    requires from <= n <= end < |code| && ModeAt(code, from, n) == Block
    requires forall k | n <= k < end :: !(code[k] == '*' && code[k + 1] == '/')
    ensures forall k | n <= k <= end :: ModeAt(code, from, k) == Block
  {
    if n < end {
      BlockGoesOn(code, from, n, end - 1);
    }
  }

  // Characters of a string in quotes `q`, each plain or behind a backslash.
  predicate StringBody(s: string, q: char) {
    || s == []
    || (s[0] == '\\' && |s| > 1 && StringBody(s[2..], q))
    || (s[0] != '\\' && s[0] != q && StringBody(s[1..], q))
  }

  // A string in single, double or back quotes, up to and with its closing one.
  lemma StringPassed(code: string, from: nat, n: nat, end: nat)
    requires from <= n && n + 2 <= end <= |code| && ModeAt(code, from, n) == Code
    requires code[n] == '\'' || code[n] == '"' || code[n] == '`'
    requires code[end - 1] == code[n] && StringBody(code[n + 1..end - 1], code[n])
    ensures PassedOver(code, from, n, end)
  {
    assert ModeAt(code, from, n + 1) == Quoted(code[n]);
    StringGoesOver(code, from, n + 1, end - 1, code[n]);
  }

  lemma {:induction false} StringGoesOver(code: string, from: nat, n: nat, end: nat, q: char)
    requires from <= n <= end <= |code| && ModeAt(code, from, n) == Quoted(q) && StringBody(code[n..end], q)
    ensures ModeAt(code, from, end) == Quoted(q)
    ensures forall k | n <= k < end :: ModeAt(code, from, k) != Code
    decreases end - n
  {
    var s := code[n..end];
    if n < end {
      assert s[0] == code[n];
      if s[0] == '\\' {
        assert ModeAt(code, from, n + 1) == Escaped(q) && ModeAt(code, from, n + 2) == Quoted(q);
        assert s[2..] == code[n + 2..end];
        StringGoesOver(code, from, n + 2, end, q);
      } else {
        assert ModeAt(code, from, n + 1) == Quoted(q);
        assert s[1..] == code[n + 1..end];
        StringGoesOver(code, from, n + 1, end, q);
      }
    }
  }

  // Any other character leaves the lexer in code.
  lemma PlainCharacter(code: string, from: nat, n: nat)
    requires from <= n < |code| && ModeAt(code, from, n) == Code
    requires code[n] != '\'' && code[n] != '"' && code[n] != '`'
    requires code[n] == '/' && n + 1 < |code| ==> code[n + 1] != '/' && code[n + 1] != '*'
    ensures ModeAt(code, from, n + 1) == Code
  {
  }
}
