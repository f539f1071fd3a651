// Cutting one `if` block out of a dependency's source: matchDelimiter and
// removeSidecarLoader in packages/web/regtestSidecar.js, against a lexer that
// reads one character at a time.
module SidecarStrip {
  import opened Wrappers
  import opened Text

  // ------------------------------------------------------------------- the lexer

  // BlockOpen: the `*` of the opener is next. BlockClose: the `/` of the
  // terminator is next. Escaped: the character after a backslash is next.
  datatype Mode = Code | LineComment | BlockOpen | Block | BlockClose | Quoted(quote: char) | Escaped(quote: char)

  predicate IsQuote(c: char) {
    c == '\'' || c == '"' || c == '`'
  }

  function Next(mode: Mode, c: char, following: Option<char>): Mode {
    match mode
    case Code =>
      if c == '/' && following == Some('/') then LineComment
      else if c == '/' && following == Some('*') then BlockOpen
      else if IsQuote(c) then Quoted(c)
      else Code
    case LineComment => if c == '\n' then Code else LineComment
    case BlockOpen => Block
    case Block => if c == '*' && following == Some('/') then BlockClose else Block
    case BlockClose => Code
    case Quoted(q) => if c == '\\' then Escaped(q) else if c == q then Code else mode
    case Escaped(q) => Quoted(q)
  }

  function CharAt(code: string, n: nat): Option<char> {
    if n < |code| then Some(code[n]) else None
  }

  // The mode in which character `n` is read, lexing from `from` on.
  function ModeAt(code: string, from: nat, n: nat): Mode
    requires from <= n <= |code|
  {
    if n == from then Code else Next(ModeAt(code, from, n - 1), code[n - 1], CharAt(code, n))
  }

  function Closing(c: char): Option<char> {
    if c == '(' then Some(')') else if c == '{' then Some('}') else if c == '[' then Some(']') else None
  }

  predicate OpensAt(code: string, open: int) {
    0 <= open < |code| && Closing(code[open]).Some?
  }

  // How deep in brackets of the kind at `open` the lexer is before character `n`.
  function Depth(code: string, open: nat, n: nat): int
    requires OpensAt(code, open) && open <= n <= |code|
  {
    if n == open then 0
    else
      var d, c := Depth(code, open, n - 1), code[n - 1];
      if ModeAt(code, open, n - 1) != Code then d
      else if c == code[open] then d + 1
      else if Some(c) == Closing(code[open]) then d - 1
      else d
  }

  // `end` is just past the bracket that first brings the depth back to zero.
  predicate ClosesAt(code: string, open: int, end: int) {
    && OpensAt(code, open) && open < end <= |code|
    && Depth(code, open, end) == 0
    && forall k | open < k < end :: Depth(code, open, k) != 0
  }

  // ------------------------------------------------------------- skipping ahead

  // From a point inside a comment or a string, up to where it may end, neither
  // the mode nor the depth changes.
  predicate Steady(code: string, open: nat, from: nat, to: nat)
    requires OpensAt(code, open) && open <= from <= to <= |code|
  {
    forall k | from <= k <= to ::
      ModeAt(code, open, k) == ModeAt(code, open, from) && Depth(code, open, k) == Depth(code, open, from)
  }

  lemma {:induction false} LineIsSteady(code: string, open: nat, from: nat, to: nat)
    requires OpensAt(code, open) && open <= from <= to <= |code|
    requires ModeAt(code, open, from).LineComment? && forall k | from <= k < to :: code[k] != '\n'
    ensures Steady(code, open, from, to)
  {
    if from < to {
      LineIsSteady(code, open, from, to - 1);
      assert ModeAt(code, open, to - 1).LineComment?;
    }
  }

  predicate EndsBlock(code: string, k: nat) {
    k + 1 < |code| && code[k] == '*' && code[k + 1] == '/'
  }

  lemma {:induction false} BlockIsSteady(code: string, open: nat, from: nat, to: nat)
    requires OpensAt(code, open) && open <= from <= to <= |code|
    requires ModeAt(code, open, from).Block?
    requires forall k | from <= k < to :: !EndsBlock(code, k)
    ensures Steady(code, open, from, to)
  {
    if from < to {
      BlockIsSteady(code, open, from, to - 1);
      assert ModeAt(code, open, to - 1).Block? && !EndsBlock(code, to - 1);
    }
  }

  lemma TwoSteps(code: string, open: nat, n: nat)
    requires OpensAt(code, open) && open <= n && n + 2 <= |code|
    ensures ModeAt(code, open, n + 2)
        == Next(Next(ModeAt(code, open, n), code[n], Some(code[n + 1])), code[n + 1], CharAt(code, n + 2))
    ensures ModeAt(code, open, n) == Code && code[n] == '/' && code[n + 1] == '*' ==>
              ModeAt(code, open, n + 1) == BlockOpen && Depth(code, open, n + 1) == Depth(code, open, n)
              && Depth(code, open, n + 2) == Depth(code, open, n)
    ensures ModeAt(code, open, n).Block? && code[n] == '*' && code[n + 1] == '/' ==>
              ModeAt(code, open, n + 1) == BlockClose && Depth(code, open, n + 1) == Depth(code, open, n)
              && Depth(code, open, n + 2) == Depth(code, open, n)
  {
    assert ModeAt(code, open, n + 1) == Next(ModeAt(code, open, n), code[n], Some(code[n + 1]));
  }

  // indexOf of a newline, and of a block terminator, from `from` on.
  lemma NewlineFrom(code: string, from: nat)
    requires from <= |code|
    ensures match Find(code[from..], "\n")
            case Some(k) =>
              from + k < |code| && code[from + k] == '\n' && forall j | from <= j < from + k :: code[j] != '\n'
            case None => forall j | from <= j < |code| :: code[j] != '\n'
  {
    FindOccurs(code[from..], "\n");
    forall j | from <= j < |code|
      ensures OccursAt(code[from..], "\n", j - from) <==> code[j] == '\n'
    {
      assert code[from..][j - from..][0] == code[j];
    }
  }

  lemma TerminatorFrom(code: string, from: nat)
    requires from <= |code|
    ensures match Find(code[from..], "*/")
            case Some(k) => EndsBlock(code, from + k) && forall j | from <= j < from + k :: !EndsBlock(code, j)
            case None => forall j | from <= j < |code| :: !EndsBlock(code, j)
  {
    FindOccurs(code[from..], "*/");
    forall j | from <= j <= |code|
      ensures OccursAt(code[from..], "*/", j - from) <==> EndsBlock(code, j)
    {
      assert code[from..][j - from..] == code[j..];
      if EndsBlock(code, j) {
        assert code[j..][..2] == "*/";
      }
    }
  }

  // The bracket at `open` has not closed before character `n`.
  predicate StillOpen(code: string, open: nat, n: nat)
    requires OpensAt(code, open) && open <= n <= |code|
  {
    forall k | open < k <= n :: Depth(code, open, k) != 0
  }

  lemma SteadyStaysOpen(code: string, open: nat, from: nat, to: nat)
    requires OpensAt(code, open) && open < from <= to <= |code|
    requires Steady(code, open, from, to) && StillOpen(code, open, from)
    ensures StillOpen(code, open, to)
  {
    hide ModeAt, Depth;
    assert Depth(code, open, from) != 0;
  }

  lemma NeverCloses(code: string, open: nat)
    requires OpensAt(code, open) && StillOpen(code, open, |code|)
    ensures forall end :: !ClosesAt(code, open, end)
  {
    hide ModeAt, Depth;
  }

  // One lexed step from code mode to code mode.
  predicate Reaches(code: string, open: nat, depth: int, n: nat)
    requires OpensAt(code, open) && open <= n <= |code|
  {
    && ModeAt(code, open, n) == Code && Depth(code, open, n) == depth && StillOpen(code, open, n)
    && depth >= 0 && (n > open ==> depth > 0)
  }

  // Past a line comment that starts at `i`: at the newline, or never.
  lemma PastLine(code: string, open: nat, depth: int, i: nat)
    requires OpensAt(code, open) && open <= i && i + 1 < |code| && Reaches(code, open, depth, i)
    requires code[i] == '/' && code[i + 1] == '/'
    ensures match Find(code[i..], "\n")
            case Some(k) => i + k + 1 <= |code| && Reaches(code, open, depth, i + k + 1)
            case None => forall end :: !ClosesAt(code, open, end)
  {
    NewlineFrom(code, i);
    assert i > open;
    assert ModeAt(code, open, i + 1).LineComment? && Depth(code, open, i + 1) == depth;
    assert StillOpen(code, open, i + 1);
    var to := if Find(code[i..], "\n").Some? then i + Find(code[i..], "\n").value else |code|;
    LineIsSteady(code, open, i + 1, to);
    SteadyStaysOpen(code, open, i + 1, to);
    if to < |code| {
      assert ModeAt(code, open, to).LineComment?;
      assert ModeAt(code, open, to + 1) == Code && Depth(code, open, to + 1) == depth;
    } else {
      NeverCloses(code, open);
    }
  }

  lemma BlockOpens(code: string, open: nat, depth: int, i: nat)
    requires OpensAt(code, open) && open <= i && i + 1 < |code| && Reaches(code, open, depth, i)
    requires code[i] == '/' && code[i + 1] == '*'
    ensures i > open && ModeAt(code, open, i + 2) == Block && Depth(code, open, i + 2) == depth
        && StillOpen(code, open, i + 2)
  {
    TwoSteps(code, open, i);
    assert i > open;
  }

  lemma BlockCloses(code: string, open: nat, depth: int, to: nat)
    requires OpensAt(code, open) && open < to && EndsBlock(code, to) && depth > 0
    requires ModeAt(code, open, to).Block? && Depth(code, open, to) == depth && StillOpen(code, open, to)
    ensures Reaches(code, open, depth, to + 2)
  {
    TwoSteps(code, open, to);
    assert StillOpen(code, open, to + 2);
  }

  lemma PastBlock(code: string, open: nat, depth: int, i: nat)
    requires OpensAt(code, open) && open <= i && i + 1 < |code| && Reaches(code, open, depth, i)
    requires code[i] == '/' && code[i + 1] == '*'
    ensures match Find(code[i + 2..], "*/")
            case Some(k) => i + k + 4 <= |code| && Reaches(code, open, depth, i + k + 4)
            case None => forall end :: !ClosesAt(code, open, end)
  {
    TerminatorFrom(code, i + 2);
    BlockOpens(code, open, depth, i);
    hide ModeAt, Depth, Find, ClosesAt;
    var to := if Find(code[i + 2..], "*/").Some? then i + 2 + Find(code[i + 2..], "*/").value else |code|;
    BlockIsSteady(code, open, i + 2, to);
    SteadyStaysOpen(code, open, i + 2, to);
    if to < |code| {
      BlockCloses(code, open, depth, to);
    } else {
      NeverCloses(code, open);
    }
  }

  // Inside a string that opened in code mode.
  predicate InString(code: string, open: nat, depth: int, q: char, n: nat)
    requires OpensAt(code, open) && open <= n <= |code|
  {
    ModeAt(code, open, n) == Quoted(q) && Depth(code, open, n) == depth && StillOpen(code, open, n) && depth > 0
        && n > open
  }

  lemma StringOpens(code: string, open: nat, depth: int, i: nat)
    requires OpensAt(code, open) && open <= i < |code| && Reaches(code, open, depth, i) && IsQuote(code[i])
    ensures InString(code, open, depth, code[i], i + 1)
  {
    assert i > open;
  }

  lemma StringGoesOn(code: string, open: nat, depth: int, q: char, j: nat)
    requires OpensAt(code, open) && open <= j < |code| && InString(code, open, depth, q, j) && IsQuote(q)
    ensures code[j] == q ==> Reaches(code, open, depth, j + 1)
    ensures code[j] != q && code[j] != '\\' ==> InString(code, open, depth, q, j + 1)
    ensures code[j] == '\\' && j + 1 < |code| ==> InString(code, open, depth, q, j + 2)
    ensures code[j] == '\\' && j + 1 == |code| ==> StillOpen(code, open, |code|)
  {
    var n := j + 1;
    assert Depth(code, open, n) == depth;
    if code[j] == '\\' && n < |code| {
      assert ModeAt(code, open, n) == Escaped(q);
      assert ModeAt(code, open, n + 1) == Quoted(q) && Depth(code, open, n + 1) == depth;
    }
  }

  lemma StringLeftOpen(code: string, open: nat, depth: int, q: char)
    requires OpensAt(code, open) && InString(code, open, depth, q, |code|)
    ensures StillOpen(code, open, |code|)
  {
    hide ModeAt, Depth;
  }

  lemma ReachesOpen(code: string, open: nat, depth: int)
    requires OpensAt(code, open) && Reaches(code, open, depth, |code|)
    ensures StillOpen(code, open, |code|)
  {
    hide ModeAt, Depth;
  }

  // A character that opens no comment and no string.
  lemma PlainStep(code: string, open: nat, depth: int, i: nat)
    requires OpensAt(code, open) && open <= i < |code| && Reaches(code, open, depth, i)
    requires !IsQuote(code[i])
        && !(code[i] == '/' && (CharAt(code, i + 1) == Some('/') || CharAt(code, i + 1) == Some('*')))
    ensures var d := if code[i] == code[open] then depth + 1
                     else if Some(code[i]) == Closing(code[open]) then depth - 1
                     else depth;
            && (d > 0 ==> Reaches(code, open, d, i + 1))
            && (d <= 0 ==>
               d == 0 && ClosesAt(code, open, i + 1) && code[i] != code[open] && Some(code[i]) == Closing(code[open]))
  {
    assert ModeAt(code, open, i + 1) == Code;
    assert i == open ==> code[i] == code[open];
  }

  lemma ClosesOnce(code: string, open: int, a: int, b: int)
    requires ClosesAt(code, open, a) && ClosesAt(code, open, b)
    ensures a == b
  {
    hide Depth;
  }

  // The quote that ends the string opened at `start`; past the end when there
  // is none, and then the bracket at `open` never closes.
  method StringEnd(code: string, ghost open: nat, start: nat, ghost depth: int) returns (i: nat)
    requires OpensAt(code, open) && open <= start < |code| && Reaches(code, open, depth, start) && IsQuote(code[start])
    ensures i < |code| ==> i > start && Reaches(code, open, depth, i + 1)
    ensures i >= |code| ==> forall end :: !ClosesAt(code, open, end)
  {
    hide ModeAt, Depth, Reaches, ClosesAt, InString, StillOpen;
    StringOpens(code, open, depth, start);
    i := start + 1;
    while i < |code| && code[i] != code[start]
      invariant start < i <= |code| + 1
      invariant i <= |code| ==> InString(code, open, depth, code[start], i)
      invariant i == |code| + 1 ==> StillOpen(code, open, |code|)
    {
      StringGoesOn(code, open, depth, code[start], i);
      i := if code[i] == '\\' then i + 2 else i + 1;
    }
    if i >= |code| {
      if i == |code| {
        StringLeftOpen(code, open, depth, code[start]);
      }
      NeverCloses(code, open);
    } else {
      StringGoesOn(code, open, depth, code[start], i);
    }
  }

  // Index just past the delimiter matching the one at `open`: the first point
  // where the lexer's depth is back at zero, and -1 exactly when there is none.
  method MatchDelimiter(code: string, open: int) returns (r: int)
    ensures r == -1 || ClosesAt(code, open, r)
    ensures r == -1 ==> forall end :: !ClosesAt(code, open, end)
  {
    if !(0 <= open < |code|) || Closing(code[open]).None? { return -1; }
    var close := Closing(code[open]).value;
    var depth, i := 0, open;
    assert Reaches(code, open, depth, i);
    hide ModeAt, Depth, Reaches, ClosesAt, Find, InString, StillOpen, IsQuote, Closing;
    while i < |code|
      invariant open <= i <= |code| && Reaches(code, open, depth, i)
    {
      var ch := code[i];
      if ch == '/' && i + 1 < |code| && code[i + 1] == '/' {
        PastLine(code, open, depth, i);
        var newline := Find(code[i..], "\n");
        if newline.None? { return -1; }
        i := i + newline.value + 1;
      } else if ch == '/' && i + 1 < |code| && code[i + 1] == '*' {
        PastBlock(code, open, depth, i);
        var terminator := Find(code[i + 2..], "*/");
        if terminator.None? { return -1; }
        i := i + terminator.value + 4;
      } else if IsQuote(ch) {
        i := StringEnd(code, open, i, depth);
        if i >= |code| { return -1; }
        i := i + 1;
      } else {
        PlainStep(code, open, depth, i);
        if ch == code[open] {
          depth := depth + 1;
        } else if ch == close {
          depth := depth - 1;
          if depth == 0 { return i + 1; }
        }
        i := i + 1;
      }
    }
    ReachesOpen(code, open, depth);
    NeverCloses(code, open);
    return -1;
  }

  // --------------------------------------------------------------- the loader block

  function SkipSpace(code: string, n: nat): (r: nat)
    requires n <= |code|
    ensures n <= r <= |code|
    ensures forall k | n <= k < r :: IsSpace(code[k])
    ensures r < |code| ==> !IsSpace(code[r])
    decreases |code| - n
  {
    if n < |code| && IsSpace(code[n]) then SkipSpace(code, n + 1) else n
  }

  predicate WordAt(code: string, n: nat, word: string) {
    n <= |code| && word <= code[n..]
  }

  const IF := "if"

  const FULLNODE := "fullnode"

  const SIDECAR_KEY := "$regtestSidecar"

  // The condition's opening parenthesis.
  function ParenAt(code: string, start: nat): nat
    requires start + 2 <= |code|
  {
    SkipSpace(code, start + 2)
  }

  // LOADER_START.
  predicate LoaderAt(code: string, start: nat) {
    && start + 2 <= |code| && WordAt(code, start, IF)
    && var paren := ParenAt(code, start);
    && paren < |code| && code[paren] == '('
    && GuardAt(code, paren + 1)
  }

  // `fullnode . $regtestSidecar` and no further word character.
  predicate GuardAt(code: string, n: nat)
    requires n <= |code|
  {
    var name := SkipSpace(code, n);
    && WordAt(code, name, FULLNODE) && name + |FULLNODE| <= |code|
    && var dot := SkipSpace(code, name + |FULLNODE|);
    && dot < |code| && code[dot] == '.'
    && var key := SkipSpace(code, dot + 1);
    && WordAt(code, key, SIDECAR_KEY) && key + |SIDECAR_KEY| <= |code|
    && (key + |SIDECAR_KEY| == |code| || !IsWord(code[key + |SIDECAR_KEY|]))
  }

  function FirstLoader(code: string, from: nat): (r: Option<nat>)
    requires from <= |code|
    ensures r.Some? ==> from <= r.value <= |code| && LoaderAt(code, r.value)
    ensures forall k | from <= k < (if r.Some? then r.value else |code| + 1) :: !LoaderAt(code, k)
    decreases |code| - from
  {
    if LoaderAt(code, from) then Some(from)
    else if from == |code| then None
    else FirstLoader(code, from + 1)
  }

  const ELSE := "else"

  predicate ElseFollows(rest: string) {
    var n := SkipSpace(rest, 0);
    && WordAt(rest, n, ELSE) && n + |ELSE| <= |rest|
    && (n + |ELSE| == |rest| || !IsWord(rest[n + |ELSE|]))
  }

  predicate ElsePrecedes(before: string) {
    var t := TrimEnd(before);
    EndsWith(t, ELSE) && (|t| == |ELSE| || !IsWord(t[|t| - |ELSE| - 1]))
  }

  predicate IsFirstLoader(code: string, start: nat) {
    start <= |code| && LoaderAt(code, start) && forall k | 0 <= k < start :: !LoaderAt(code, k)
  }

  // The one shape that is cut: the first loader `if`, its condition closed at
  // `cond` and its braced body at `end`, with no `else` on either side.
  predicate IsLoaderBlock(code: string, start: nat, cond: nat, end: nat) {
    && IsFirstLoader(code, start)
    && ClosesAt(code, ParenAt(code, start), cond)
    && var brace := SkipSpace(code, cond);
    && ClosesAt(code, brace, end) && code[brace] == '{'
    && !ElseFollows(code[end..]) && !ElsePrecedes(code[..start])
  }

  // indexOf of one character from `from`, when only other characters precede it.
  lemma FirstOf(code: string, from: nat, at: nat, c: char)
    requires from <= at < |code| && code[at] == c
    requires forall k | from <= k < at :: code[k] != c
    ensures Find(code[from..], [c]) == Some(at - from)
  {
    var s := code[from..];
    assert s[at - from..][0] == c;
    forall k | 0 <= k < at - from
      ensures !OccursAt(s, [c], k)
    {
      assert s[k..][0] == code[from + k];
    }
    FindUnique(s, [c], at - from);
  }

  lemma ParenIsFirst(code: string, start: nat)
    requires IsFirstLoader(code, start)
    ensures Find(code[start..], "(") == Some(ParenAt(code, start) - start)
  {
    var paren := ParenAt(code, start);
    assert code[start] == code[start..][0] == 'i' && code[start + 1] == code[start..][1] == 'f';
    forall k | start <= k < paren
      ensures code[k] != '('
    {
      assert k < start + 2 || IsSpace(code[k]);
    }
    hide GuardAt, SkipSpace;
    FirstOf(code, start, paren, '(');
  }

  lemma BraceIsFirst(code: string, cond: nat)
    requires cond <= |code|
    requires var brace := SkipSpace(code, cond); brace < |code| && code[brace] == '{'
    ensures Find(code[cond..], "{") == Some(SkipSpace(code, cond) - cond)
  {
    hide Find;
    FirstOf(code, cond, SkipSpace(code, cond), '{');
  }

  ghost predicate NoBlock(code: string) {
    forall start, cond, end :: !IsLoaderBlock(code, start, cond, end)
  }

  lemma FirstLoaderIsOne(code: string, a: nat, b: nat)
    requires IsFirstLoader(code, a) && IsFirstLoader(code, b)
    ensures a == b
  {
    hide LoaderAt;
  }

  lemma CondNeverCloses(code: string, start: nat)
    requires IsFirstLoader(code, start) && forall end :: !ClosesAt(code, ParenAt(code, start), end)
    ensures NoBlock(code)
  {
    hide IsFirstLoader, ClosesAt, ElseFollows, ElsePrecedes, SkipSpace;
    forall a: nat, cond: nat, end: nat
      ensures !IsLoaderBlock(code, a, cond, end)
    {
      if IsLoaderBlock(code, a, cond, end) {
        FirstLoaderIsOne(code, start, a);
      }
    }
  }

  // What follows the condition is not a braced body that closes with no `else`
  // on either side.
  lemma BodyUnfit(code: string, start: nat, cond: nat)
    requires IsFirstLoader(code, start) && ClosesAt(code, ParenAt(code, start), cond)
    requires var brace := SkipSpace(code, cond);
             || !(brace < |code| && code[brace] == '{')
             || forall end | ClosesAt(code, brace, end) :: ElseFollows(code[end..]) || ElsePrecedes(code[..start])
    ensures NoBlock(code)
  {
    hide IsFirstLoader, ClosesAt, ElseFollows, ElsePrecedes, SkipSpace;
    forall a: nat, b: nat, end: nat
      ensures !IsLoaderBlock(code, a, b, end)
    {
      if IsLoaderBlock(code, a, b, end) {
        FirstLoaderIsOne(code, start, a);
        ClosesOnce(code, ParenAt(code, start), cond, b);
        ClosesInside(code, SkipSpace(code, cond), end);
      }
    }
  }

  lemma ClosesInside(code: string, open: int, end: int)
    requires ClosesAt(code, open, end)
    ensures 0 <= open < end <= |code|
  {
    hide Depth;
  }

  lemma ArmUnfit(code: string, start: nat, cond: nat, end: nat)
    requires IsFirstLoader(code, start) && ClosesAt(code, ParenAt(code, start), cond)
    requires ClosesAt(code, SkipSpace(code, cond), end) && (ElseFollows(code[end..]) || ElsePrecedes(code[..start]))
    ensures NoBlock(code)
  {
    hide IsFirstLoader, Depth, ElseFollows, ElsePrecedes, SkipSpace;
    forall e | ClosesAt(code, SkipSpace(code, cond), e)
      ensures ElseFollows(code[e..]) || ElsePrecedes(code[..start])
    {
      ClosesOnce(code, SkipSpace(code, cond), e, end);
      ClosesInside(code, SkipSpace(code, cond), e);
    }
    BodyUnfit(code, start, cond);
  }

  // Cuts exactly the loader's block, or changes nothing because there is none
  // of that shape.
  method RemoveSidecarLoader(code: string) returns (out: string, removed: bool)
    ensures removed ==> exists start: nat, cond: nat, end: nat ::
              IsLoaderBlock(code, start, cond, end) && out == code[..start] + code[end..]
    ensures !removed ==> out == code && NoBlock(code)
  {
    hide LoaderAt, Depth, ElseFollows, ElsePrecedes, Find, SkipSpace, NoBlock, FirstLoader;
    out, removed := code, false;
    var first := FirstLoader(code, 0);
    if first.None? {
      NoLoader(code);
      return;
    }
    var start := first.value;
    ParenIsFirst(code, start);
    var openParen := start + Find(code[start..], "(").value;
    var afterCond := MatchDelimiter(code, openParen);
    if afterCond == -1 {
      CondNeverCloses(code, start);
      return;
    }
    ClosesInside(code, openParen, afterCond);
    var bodyAt := SkipSpace(code, afterCond);
    if bodyAt == |code| || code[bodyAt] != '{' {
      BodyUnfit(code, start, afterCond);
      return;
    }
    BraceIsFirst(code, afterCond);
    var braceAt := afterCond + Find(code[afterCond..], "{").value;
    var afterBody := MatchDelimiter(code, braceAt);
    if afterBody == -1 {
      BodyUnfit(code, start, afterCond);
      return;
    }
    ClosesInside(code, braceAt, afterBody);
    if ElseFollows(code[afterBody..]) || ElsePrecedes(code[..start]) {
      ArmUnfit(code, start, afterCond, afterBody);
      return;
    }
    assert IsLoaderBlock(code, start, afterCond, afterBody);
    return code[..start] + code[afterBody..], true;
  }

  lemma NoLoader(code: string)
    requires FirstLoader(code, 0).None?
    ensures NoBlock(code)
  {
    assert forall k: nat :: k <= |code| ==> !LoaderAt(code, k);
    hide LoaderAt, ClosesAt, ElseFollows, ElsePrecedes, SkipSpace;
  }

  // -------------------------------------------- what follows the cut is lexed alike

  // Lexing on from a point in code mode is lexing afresh.
  lemma {:induction false} LexesAfresh(code: string, from: nat, mid: nat, n: nat)
    requires from <= mid <= n <= |code| && ModeAt(code, from, mid) == Code
    ensures ModeAt(code, from, n) == ModeAt(code, mid, n)
  {
    if mid < n {
      LexesAfresh(code, from, mid, n - 1);
    }
  }

  // Characters that open nothing keep the lexer in code mode.
  lemma {:induction false} PlainText(code: string, from: nat, n: nat)
    requires from <= n <= |code|
    requires forall k | from <= k < n :: code[k] != '/' && !IsQuote(code[k])
    ensures ModeAt(code, from, n) == Code
  {
    if from < n {
      PlainText(code, from, n - 1);
    }
  }

  // A bracket closes in code mode.
  lemma ClosesInCode(code: string, open: nat, end: nat)
    requires ClosesAt(code, open, end)
    ensures ModeAt(code, open, end) == Code
  {
    assert Depth(code, open, end - 1) != Depth(code, open, end) by {
      if end == open + 1 {
        assert code[open] != '/';
      }
    }
    assert code[end - 1] == code[open] || Some(code[end - 1]) == Closing(code[open]);
  }

  // The block starts and ends in code mode.
  lemma BlockIsCode(code: string, start: nat, cond: nat, end: nat)
    requires IsLoaderBlock(code, start, cond, end)
    ensures start < end <= |code| && ModeAt(code, start, end) == Code
  {
    var paren, brace := ParenAt(code, start), SkipSpace(code, cond);
    BlockShape(code, start, cond, end);
    hide *;
    PlainText(code, start, paren);
    ClosesInCode(code, paren, cond);
    LexesAfresh(code, start, paren, cond);
    PlainText(code, cond, brace);
    LexesAfresh(code, start, cond, brace);
    ClosesInCode(code, brace, end);
    LexesAfresh(code, start, brace, end);
  }

  lemma BlockShape(code: string, start: nat, cond: nat, end: nat)
    requires IsLoaderBlock(code, start, cond, end)
    ensures var paren, brace := ParenAt(code, start), SkipSpace(code, cond);
            && start < paren < cond <= brace < end <= |code|
            && ClosesAt(code, paren, cond) && ClosesAt(code, brace, end)
            && (forall k | start <= k < paren :: code[k] != '/' && !IsQuote(code[k]))
            && (forall k | cond <= k < brace :: code[k] != '/' && !IsQuote(code[k]))
            && code[start] == 'i'
  {
    hide Depth, ModeAt, GuardAt, ElseFollows, ElsePrecedes;
    var paren := ParenAt(code, start);
    assert code[start] == code[start..][0] && code[start + 1] == code[start..][1];
    forall k | start <= k < paren
      ensures code[k] != '/' && !IsQuote(code[k])
    {
      assert k < start + 2 || IsSpace(code[k]);
    }
  }

  // The cut brings a slash before the block next to a character after it that
  // makes the two a comment opener.
  predicate Joins(code: string, start: nat, end: nat)
    requires start <= end <= |code|
  {
    && start > 0 && ModeAt(code, 0, start - 1) == Code && code[start - 1] == '/'
    && end < |code| && (code[end] == '/' || code[end] == '*')
  }

  // Every character after the cut is lexed as it was.
  predicate LexesAlike(code: string, start: nat, end: nat)
    requires start <= end <= |code|
  {
    forall n | end <= n <= |code| :: ModeAt(code[..start] + code[end..], 0, n - (end - start)) == ModeAt(code, 0, n)
  }

  lemma {:induction false} SamePrefix(code: string, start: nat, end: nat, n: nat)
    requires n < start <= end <= |code|
    ensures ModeAt(code[..start] + code[end..], 0, n) == ModeAt(code, 0, n)
  {
    if n > 0 {
      SamePrefix(code, start, end, n - 1);
    }
  }

  // At the seam the two lexers agree unless a comment opener was made there.
  lemma AtTheSeam(code: string, start: nat, end: nat)
    requires start < end <= |code| && ModeAt(code, 0, start) == Code && code[start] == 'i'
    ensures ModeAt(code[..start] + code[end..], 0, start) == Code <==> !Joins(code, start, end)
  {
    var cut := code[..start] + code[end..];
    if start > 0 {
      SamePrefix(code, start, end, start - 1);
      assert CharAt(cut, start) == CharAt(code, end);
      assert cut[start - 1] == code[start - 1];
    }
  }

  lemma {:induction false} SameTail(code: string, start: nat, end: nat, n: nat)
    requires start <= end <= n <= |code|
    ensures ModeAt(code[..start] + code[end..], start, n - (end - start)) == ModeAt(code, end, n)
  {
    var cut, m := code[..start] + code[end..], n - (end - start);
    if n > end {
      SameTail(code, start, end, n - 1);
      assert cut[m - 1] == code[n - 1] && CharAt(cut, m) == CharAt(code, n);
    }
  }

  lemma TailAlike(code: string, start: nat, end: nat, n: nat)
    requires start <= end <= n <= |code| && ModeAt(code, 0, end) == Code
    requires ModeAt(code[..start] + code[end..], 0, start) == Code
    ensures ModeAt(code[..start] + code[end..], 0, n - (end - start)) == ModeAt(code, 0, n)
  {
    hide ModeAt;
    LexesAfresh(code[..start] + code[end..], 0, start, n - (end - start));
    LexesAfresh(code, 0, end, n);
    SameTail(code, start, end, n);
  }

  lemma SeamDecides(code: string, start: nat, end: nat)
    requires start <= end <= |code| && ModeAt(code, 0, end) == Code
    ensures LexesAlike(code, start, end) <==> ModeAt(code[..start] + code[end..], 0, start) == Code
  {
    hide ModeAt;
    var cut := code[..start] + code[end..];
    if ModeAt(cut, 0, start) == Code {
      forall n | end <= n <= |code|
        ensures ModeAt(cut, 0, n - (end - start)) == ModeAt(code, 0, n)
      {
        TailAlike(code, start, end, n);
      }
    } else {
      assert ModeAt(cut, 0, end - (end - start)) != ModeAt(code, 0, end);
    }
  }

  // Where the loader stands in code, cutting it never opens or closes a comment
  // or a string in what follows, save in the one case that two characters it
  // kept apart come together as a comment opener.
  lemma CutKeepsLexing(code: string, start: nat, cond: nat, end: nat)
    requires IsLoaderBlock(code, start, cond, end) && ModeAt(code, 0, start) == Code
    ensures start <= end <= |code|
    ensures LexesAlike(code, start, end) <==> !Joins(code, start, end)
  {
    BlockIsCode(code, start, cond, end);
    BlockShape(code, start, cond, end);
    hide *;
    AtTheSeam(code, start, end);
    LexesAfresh(code, 0, start, end);
    SeamDecides(code, start, end);
  }

  // A bracket around plain text closes at once.
  lemma ShortGroup(code: string, open: nat, end: nat)
    requires OpensAt(code, open) && open + 1 < end <= |code| && Some(code[end - 1]) == Closing(code[open])
    requires forall k | open < k < end - 1 ::
               code[k] != '/' && !IsQuote(code[k]) && code[k] != code[open] && Some(code[k]) != Closing(code[open])
    ensures ClosesAt(code, open, end)
  {
    forall k | open < k < end
      ensures ModeAt(code, open, k) == Code && Depth(code, open, k) == 1
    {
      InGroup(code, open, k);
    }
  }

  lemma {:induction false} InGroup(code: string, open: nat, n: nat)
    requires OpensAt(code, open) && open < n <= |code|
    requires forall k | open < k < n ::
               code[k] != '/' && !IsQuote(code[k]) && code[k] != code[open] && Some(code[k]) != Closing(code[open])
    ensures ModeAt(code, open, n) == Code && Depth(code, open, n) == 1
  {
    if n > open + 1 {
      InGroup(code, open, n - 1);
    }
  }

  // That case, in a module a parser accepts: no slash can stand directly before
  // an `if` statement, but one can open a regular expression that reads like
  // the loader. Its text is x=/if(fullnode.$regtestSidecar){2}/; and cutting
  // the block leaves a line comment.
  function RegexModule(): string {
    "x=/" + (IF + ("(" + (Guard() + RegexTail())))
  }

  function Guard(): (r: string)
    ensures |r| == 24
  {
    FULLNODE + ("." + SIDECAR_KEY)
  }

  function RegexTail(): (r: string)
    ensures |r| == 6 && r[0] == ')' && r[1] == '{' && r[2] == '2' && r[3] == '}' && r[4] == '/' && r[5] == ';'
  {
    "){2}/;"
  }

  // How `code` goes on at `n`.
  lemma GoesOn(code: string, n: nat, word: string, rest: string)
    requires n <= |code| && code[n..] == word + rest
    ensures WordAt(code, n, word) && n + |word| <= |code| && code[n + |word|..] == rest
    ensures forall k | 0 <= k < |word| :: code[n + k] == word[k]
    ensures word != [] ==> code[n] == word[0]
    ensures rest != [] ==> code[n + |word|] == rest[0]
  {
    assert forall k | 0 <= k < |word| :: code[n + k] == code[n..][k];
    assert rest != [] ==> code[n + |word|] == code[n..][|word|];
  }

  lemma RegexPieces()
    ensures var code := RegexModule();
            && |code| == 36 && code[0] == 'x' && code[1] == '=' && code[2] == '/' && code[..3] == "x=/"
            && code[3..] == IF + ("(" + (Guard() + RegexTail()))
            && WordAt(code, 3, IF) && code[3] == 'i' && code[4] == 'f' && code[5] == '('
            && code[6..] == Guard() + RegexTail() && code[30..] == RegexTail()
  {
    hide Guard, RegexTail;
    var code := RegexModule();
    GoesOn(code, 0, "x=/", IF + ("(" + (Guard() + RegexTail())));
    GoesOn(code, 3, IF, "(" + (Guard() + RegexTail()));
    GoesOn(code, 5, "(", Guard() + RegexTail());
    GoesOn(code, 6, Guard(), RegexTail());
  }

  lemma NoSpaceToSkip(code: string, n: nat)
    requires n < |code| && !IsSpace(code[n])
    ensures SkipSpace(code, n) == n
  {
  }

  lemma RegexGuard()
    ensures GuardAt(RegexModule(), 6)
  {
    hide *;
    var code := RegexModule();
    RegexPieces();
    GuardThenTail();
    GoesOn(code, 6, FULLNODE, "." + (SIDECAR_KEY + RegexTail()));
    GoesOn(code, 14, ".", SIDECAR_KEY + RegexTail());
    GoesOn(code, 15, SIDECAR_KEY, RegexTail());
    CloseIsNoWord();
    assert "."[0] == '.' && code[30] == RegexTail()[0] == ')';
    GuardFrom(code, 6);
  }

  lemma GuardThenTail()
    ensures Guard() + RegexTail() == FULLNODE + ("." + (SIDECAR_KEY + RegexTail()))
    ensures |FULLNODE| == 8 && FULLNODE[0] == 'f' && |SIDECAR_KEY| == 15 && SIDECAR_KEY[0] == '$'
  {
  }

  lemma CloseIsNoWord()
    ensures !IsWord(')')
  {
  }

  // The guard written without white space.
  lemma GuardFrom(code: string, n: nat)
    requires n + 24 < |code| && WordAt(code, n, FULLNODE) && code[n] == 'f' && code[n + 8] == '.'
    requires WordAt(code, n + 9, SIDECAR_KEY) && code[n + 9] == '$' && !IsWord(code[n + 24])
    requires |FULLNODE| == 8 && |SIDECAR_KEY| == 15
    ensures GuardAt(code, n)
  {
    NoSpaceToSkip(code, n);
    NoSpaceToSkip(code, n + 8);
    NoSpaceToSkip(code, n + 9);
    hide FULLNODE, SIDECAR_KEY, WordAt, SkipSpace;
  }

  lemma RegexIsLoader()
    ensures IsFirstLoader(RegexModule(), 3) && ParenAt(RegexModule(), 3) == 5
  {
    var code := RegexModule();
    RegexPieces();
    RegexGuard();
    hide RegexModule, GuardAt, SkipSpace, Guard, RegexTail;
    NoSpaceToSkip(code, 5);
    forall k | 0 <= k < 3
      ensures !LoaderAt(code, k)
    {
      assert code[k..][0] == code[k] != 'i';
    }
  }

  predicate Plain(c: char) {
    c != '/' && !IsQuote(c) && Closing(c).None? && c != ')' && c != '}' && c != ']'
  }

  lemma GuardPlain()
    ensures All(Guard(), Plain)
  {
    assert All(FULLNODE, Plain);
    assert All(SIDECAR_KEY, Plain);
    hide FULLNODE, SIDECAR_KEY;
  }

  lemma RegexBrackets()
    ensures ClosesAt(RegexModule(), 5, 31) && ClosesAt(RegexModule(), 31, 34)
  {
    var code := RegexModule();
    RegexPieces();
    GuardPlain();
    hide RegexModule, ClosesAt, Guard, RegexTail;
    forall k | 6 <= k < 30
      ensures Plain(code[k])
    {
      assert code[k] == code[6..][k - 6] == Guard()[k - 6];
    }
    assert forall k | 30 <= k < 36 :: code[k] == code[30..][k - 30];
    ShortGroup(code, 5, 31);
    ShortGroup(code, 31, 34);
  }

  lemma RegexLiteralJoins()
    ensures var code := RegexModule();
            IsLoaderBlock(code, 3, 31, 34) && ModeAt(code, 0, 3) == Code && Joins(code, 3, 34)
  {
    var code := RegexModule();
    RegexPieces();
    hide RegexModule, Guard, RegexTail, ClosesAt, IsFirstLoader, ParenAt, SkipSpace, ElseFollows, ElsePrecedes;
    assert forall k | 30 <= k < 36 :: code[k] == code[30..][k - 30];
    assert ModeAt(code, 0, 2) == Code && ModeAt(code, 0, 3) == Code by {
      assert ModeAt(code, 0, 1) == Code;
    }
    RegexIsLoader();
    RegexBrackets();
    NoSpaceToSkip(code, 31);
    RegexHasNoElse();
  }

  lemma RegexHasNoElse()
    ensures var code := RegexModule(); |code| == 36 && !ElseFollows(code[34..]) && !ElsePrecedes(code[..3])
  {
    var code := RegexModule();
    RegexPieces();
    hide RegexModule;
    assert code[34..][0] == code[34] == code[30..][4] == '/';
    NoSpaceToSkip(code[34..], 0);
    assert |TrimEnd("x=/")| <= 3;
    hide SkipSpace, TrimEnd;
  }
}
