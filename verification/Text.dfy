// JavaScript string operations the modelled code uses, on Dafny strings.
module Text {
  import opened Wrappers

  // Characters of the regular expression class \s, which trim() also removes.
  predicate IsSpace(c: char) {
    || c == ' ' || ('\t' <= c <= '\r') || c == '\U{00A0}' || c == '\U{1680}'
    || '\U{2000}' <= c <= '\U{200A}' || c == '\U{2028}' || c == '\U{2029}'
    || c == '\U{202F}' || c == '\U{205F}' || c == '\U{3000}' || c == '\U{FEFF}'
  }

  // Characters the regular expression `.` does not match.
  predicate IsLineEnd(c: char) {
    c == '\n' || c == '\r' || c == '\U{2028}' || c == '\U{2029}'
  }

  predicate IsDigit(c: char) {
    '0' <= c <= '9'
  }

  // Characters of the class \w.
  predicate IsWord(c: char) {
    IsDigit(c) || 'a' <= c <= 'z' || 'A' <= c <= 'Z' || c == '_'
  }

  // The classes by code point.
  lemma CharacterClasses(c: char)
    ensures var n := c as int;
            IsSpace(c) <==> || 9 <= n <= 13 || n == 32 || n == 0xA0 || n == 0x1680 || 0x2000 <= n <= 0x200A
                            || n == 0x2028 || n == 0x2029 || n == 0x202F || n == 0x205F || n == 0x3000 || n == 0xFEFF
    ensures var n := c as int; IsLineEnd(c) <==> n == 10 || n == 13 || n == 0x2028 || n == 0x2029
    ensures IsDigit(c) <==> 48 <= c as int <= 57
    ensures IsWord(c) <==> 48 <= c as int <= 57 || 65 <= c as int <= 90 || 97 <= c as int <= 122 || c as int == 95
  {
  }

  predicate All(s: string, p: char -> bool) {
    forall k | 0 <= k < |s| :: p(s[k])
  }

  function Lower(c: char): char {
    if 'A' <= c <= 'Z' then c + 32 as char else c
  }

  function LowerAll(s: string): (r: string)
    ensures |r| == |s|
  {
    seq(|s|, i requires 0 <= i < |s| => Lower(s[i]))
  }

  // The k-th capital letter goes to the k-th small one; nothing else changes.
  lemma LowerLetters(c: char, k: nat)
    ensures k < 26 ==> Lower('A' + k as char) == 'a' + k as char
    ensures c < 'A' || 'Z' < c ==> Lower(c) == c
  {
  }

  // How many leading characters satisfy `p`.
  function Span(s: string, p: char -> bool): (n: nat)
    ensures n <= |s| && All(s[..n], p)
    ensures n < |s| ==> !p(s[n])
  {
    if s == [] || !p(s[0]) then 0
    else
      var n := Span(s[1..], p);
      assert s[..n + 1] == [s[0]] + s[1..][..n];
      1 + n
  }

  function TrimStart(s: string): string {
    s[Span(s, IsSpace)..]
  }

  function TrimEnd(s: string): (r: string)
    ensures r <= s && (r != [] ==> !IsSpace(r[|r| - 1]))
    ensures forall k | |r| <= k < |s| :: IsSpace(s[k])
  {
    if s == [] || !IsSpace(s[|s| - 1]) then s else TrimEnd(s[..|s| - 1])
  }

  function Trim(s: string): string {
    TrimEnd(TrimStart(s))
  }

  predicate Trimmed(s: string) {
    s == [] || (!IsSpace(s[0]) && !IsSpace(s[|s| - 1]))
  }

  lemma TrimOfTrimmed(s: string)
    requires Trimmed(s)
    ensures Trim(s) == s
  {
    if s != [] {
      assert Span(s, IsSpace) == 0;
      assert TrimStart(s) == s;
    }
  }

  // Blanks around a trimmed text are removed, and nothing else.
  lemma TrimOfPadded(lead: string, s: string, trail: string)
    requires All(lead, IsSpace) && All(trail, IsSpace) && Trimmed(s)
    ensures Trim(lead + s + trail) == s
  {
    var t := lead + s + trail;
    var n := Span(t, IsSpace);
    hide Span, TrimEnd, IsSpace;
    if s == [] {
      assert forall k | 0 <= k < |t| :: IsSpace(t[k]);
      assert n == |t|;
    } else {
      assert t[|lead|] == s[0];
      assert n == |lead|;
      assert t[n..] == s + trail;
    }
    TrimEndOfPadded(s, trail);
  }

  lemma {:induction false} TrimEndOfPadded(s: string, trail: string)
    requires All(trail, IsSpace) && (s == [] || !IsSpace(s[|s| - 1]))
    ensures TrimEnd(s + trail) == s
  {
    hide IsSpace;
    if trail == [] {
      assert s + trail == s;
    } else {
      var shorter := trail[..|trail| - 1];
      assert (s + trail)[..|s + trail| - 1] == s + shorter;
      TrimEndOfPadded(s, shorter);
    }
  }

  predicate OccursAt(s: string, p: string, k: int) {
    0 <= k <= |s| && p <= s[k..]
  }

  // indexOf: the leftmost occurrence of `p`.
  function Find(s: string, p: string): Option<nat> {
    if p <= s then Some(0)
    else if s == [] then None
    else
      match Find(s[1..], p)
      case None => None
      case Some(k) => Some(k + 1)
  }

  predicate Contains(s: string, p: string) {
    Find(s, p).Some?
  }

  lemma {:induction false} FindOccurs(s: string, p: string)
    ensures match Find(s, p)
            case Some(k) => OccursAt(s, p, k) && forall j | 0 <= j < k :: !OccursAt(s, p, j)
            case None => forall j :: !OccursAt(s, p, j)
  {
    assert s[0..] == s;
    if !(p <= s) && s != [] {
      FindOccurs(s[1..], p);
      forall j | OccursAt(s, p, j)
        ensures j > 0 && OccursAt(s[1..], p, j - 1)
      {
        assert s[1..][j - 1..] == s[j..];
      }
      if Find(s, p).Some? {
        assert s[1..][Find(s, p).value - 1..] == s[Find(s, p).value..];
      }
    }
  }

  lemma FindUnique(s: string, p: string, k: nat)
    requires OccursAt(s, p, k) && forall j | 0 <= j < k :: !OccursAt(s, p, j)
    ensures Find(s, p) == Some(k)
  {
    FindOccurs(s, p);
  }

  lemma FindNone(s: string, p: string)
    requires forall k | 0 <= k <= |s| :: !OccursAt(s, p, k)
    ensures Find(s, p) == None
  {
    FindOccurs(s, p);
  }

  predicate EndsWith(s: string, p: string) {
    |p| <= |s| && s[|s| - |p|..] == p
  }

  // split(sep): cut at successive leftmost occurrences.
  function Split(s: string, sep: string): (parts: seq<string>)
    requires sep != []
    ensures |parts| >= 1
    decreases |s|
  {
    FindOccurs(s, sep);
    match Find(s, sep)
    case None => [s]
    case Some(k) => [s[..k]] + Split(s[k + |sep|..], sep)
  }

  function Join(parts: seq<string>, sep: string): string {
    if |parts| == 0 then []
    else if |parts| == 1 then parts[0]
    else parts[0] + sep + Join(parts[1..], sep)
  }

  // String(n) for an integer.
  function Digits(n: nat): (s: string)
    ensures s != [] && All(s, IsDigit)
  {
    var last := '0' + (n % 10) as char;
    if n < 10 then [last] else Digits(n / 10) + [last]
  }

  // The number a run of digits writes.
  function ValueOf(s: string): nat
    requires All(s, IsDigit)
  {
    if s == [] then 0 else 10 * ValueOf(s[..|s| - 1]) + (s[|s| - 1] - '0') as nat
  }

  function Pow10(n: nat): nat {
    if n == 0 then 1 else 10 * Pow10(n - 1)
  }

  lemma {:induction false} DigitsValue(n: nat)
    ensures ValueOf(Digits(n)) == n
    ensures n > 0 ==> Digits(n)[0] != '0'
    ensures |Digits(n)| >= 1 && n < Pow10(|Digits(n)|)
    ensures n > 0 ==> Pow10(|Digits(n)| - 1) <= n
  {
    var d := Digits(n);
    var last := d[|d| - 1];
    assert last == '0' + (n % 10) as char;
    if n >= 10 {
      DigitsValue(n / 10);
      assert d[..|d| - 1] == Digits(n / 10);
    } else {
      assert d[..0] == [];
      assert Pow10(1) == 10;
    }
  }

  // One more digit: ten times the number and that digit.
  lemma DigitsOn(n: nat, d: nat)
    requires d < 10
    ensures Digits(10 * n + d) == if n == 0 then [(48 + d) as char] else Digits(n) + [(48 + d) as char]
  {
    assert (10 * n + d) / 10 == n && (10 * n + d) % 10 == d;
  }

  function Decimal(n: int): (s: string)
    ensures s != [] && forall k | 0 <= k < |s| :: IsDigit(s[k]) || s[k] == '-'
  {
    if n < 0 then "-" + Digits(-n) else Digits(n)
  }
}
