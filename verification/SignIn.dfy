// Sign-in challenges: formatSignInChallenge and parseSignInChallenge in
// packages/bridge-spec/src/runtime.js. Times are integers; reading a number
// back is JavaScript's Number(), of which only the integers are used.
module SignIn {
  import opened Wrappers
  import opened Text

  datatype Challenge = Challenge(version: int, appId: string, origin: string, address: string, nonce: string,
      timestamp: int, expiresAt: int)

  datatype FormatError = UnsupportedVersion | ReservedSeparator(field: string)

  const VERSION := 2

  const PREFIX := "XChain Sign-In v2"

  type NonEmpty = s: string | s != [] witness " "

  const SEPARATOR: NonEmpty := " | "

  type Numbers = string -> Option<int>

  ghost predicate ReadsIntegers(num: Numbers) {
    forall n: int :: num(Decimal(n)) == Some(n)
  }

  function Fields(p: Challenge): seq<string> {
    [p.appId, p.origin, p.address, p.nonce, Decimal(p.timestamp), Decimal(p.expiresAt)]
  }

  // The first field that holds the separator.
  function Reserved(fields: seq<string>): Option<string> {
    if fields == [] then None
    else if Contains(fields[0], SEPARATOR) then Some(fields[0])
    else Reserved(fields[1..])
  }

  function Format(p: Challenge): Result<string, FormatError> {
    if p.version != VERSION then Err(UnsupportedVersion)
    else
      match Reserved(Fields(p))
      case Some(field) => Err(ReservedSeparator(field))
      case None => Ok(Join([PREFIX] + Fields(p), SEPARATOR))
  }

  function Parse(text: string, num: Numbers): Option<Challenge> {
    var s := Split(text, SEPARATOR);
    if |s| != 7 || s[0] != PREFIX || num(s[5]).None? || num(s[6]).None? then None
    else Some(Challenge(VERSION, s[1], s[2], s[3], s[4], num(s[5]).value, num(s[6]).value))
  }

  // ------------------------------------------------------------------ split and join

  lemma SeparatorChars(s: string, k: nat)
    ensures OccursAt(s, SEPARATOR, k) <==> k + 2 < |s| && s[k] == ' ' && s[k + 1] == '|' && s[k + 2] == ' '
  {
    if k + 2 < |s| && s[k] == ' ' && s[k + 1] == '|' && s[k + 2] == ' ' {
      assert s[k..][..3] == SEPARATOR;
    }
  }

  // Does the field end in all of the separator but its last character?
  predicate EndsInStub(f: string) {
    |f| >= 2 && f[|f| - 2] == ' ' && f[|f| - 1] == '|'
  }

  lemma Occurrence(f: string, rest: string, k: nat)
    requires !Contains(f, SEPARATOR) && k <= |f|
    ensures OccursAt(f + SEPARATOR + rest, SEPARATOR, k) <==> k == |f| || (EndsInStub(f) && k == |f| - 2)
  {
    var s := f + SEPARATOR + rest;
    SeparatorChars(s, k);
    FindOccurs(f, SEPARATOR);
    if k + 2 < |f| {
      SeparatorChars(f, k);
      assert s[k] == f[k] && s[k + 1] == f[k + 1] && s[k + 2] == f[k + 2];
    }
    hide Find;
  }

  lemma FindAfter(f: string, rest: string)
    requires !Contains(f, SEPARATOR)
    ensures Find(f + SEPARATOR + rest, SEPARATOR) == Some(if EndsInStub(f) then |f| - 2 else |f|)
  {
    var s := f + SEPARATOR + rest;
    var at := if EndsInStub(f) then |f| - 2 else |f|;
    forall k | 0 <= k <= at
      ensures OccursAt(s, SEPARATOR, k) <==> k == at
    {
      Occurrence(f, rest, k);
    }
    FindUnique(s, SEPARATOR, at);
  }

  lemma SplitAfter(f: string, rest: string)
    requires !Contains(f, SEPARATOR)
    ensures var parts := Split(f + SEPARATOR + rest, SEPARATOR);
            if EndsInStub(f) then parts[0] != f else parts == [f] + Split(rest, SEPARATOR)
  {
    var s := f + SEPARATOR + rest;
    FindAfter(f, rest);
    if EndsInStub(f) {
      assert |s[..|f| - 2]| != |f|;
    } else {
      assert s[..|f|] == f && s[|f| + |SEPARATOR|..] == rest;
    }
    hide Find, SEPARATOR;
  }

  predicate NoneContains(fields: seq<string>) {
    forall k | 0 <= k < |fields| :: !Contains(fields[k], SEPARATOR)
  }

  // May `fields` be cut apart again? The last one is not followed by a separator.
  predicate Separable(fields: seq<string>) {
    forall k | 0 <= k < |fields| - 1 :: !EndsInStub(fields[k])
  }

  // Some field that ends in a space and a bar is not given back.
  ghost predicate LosesOne(fields: seq<string>, parts: seq<string>) {
    exists k | 0 <= k < |fields| - 1 :: EndsInStub(fields[k]) && (|parts| <= k || parts[k] != fields[k])
  }

  lemma LosesLater(first: string, rest: seq<string>, parts: seq<string>)
    requires LosesOne(rest, parts)
    ensures LosesOne([first] + rest, [first] + parts)
  {
    hide EndsInStub;
    var k :| 0 <= k < |rest| - 1 && EndsInStub(rest[k]) && (|parts| <= k || parts[k] != rest[k]);
    assert ([first] + rest)[k + 1] == rest[k];
  }

  // Splitting what was joined gives the fields back exactly when no field but
  // the last ends in a space and a bar; otherwise such a field is lost.
  lemma {:induction false} SplitJoin(fields: seq<string>)
    requires fields != [] && NoneContains(fields)
    ensures var parts := Split(Join(fields, SEPARATOR), SEPARATOR);
            if Separable(fields) then parts == fields else LosesOne(fields, parts)
  {
    if |fields| == 1 {
      assert fields == [fields[0]];
      assert Find(fields[0], SEPARATOR) == None;
    } else {
      var rest := fields[1..];
      assert fields == [fields[0]] + rest;
      assert Join(fields, SEPARATOR) == fields[0] + SEPARATOR + Join(rest, SEPARATOR);
      RestSeparable(fields);
      SplitJoin(rest);
      SplitAfter(fields[0], Join(rest, SEPARATOR));
      hide Split, Separable, NoneContains, SEPARATOR, EndsInStub, Contains, Join;
      if !EndsInStub(fields[0]) && !Separable(rest) {
        LosesLater(fields[0], rest, Split(Join(rest, SEPARATOR), SEPARATOR));
        hide LosesOne;
      }
    }
  }

  lemma RestSeparable(fields: seq<string>)
    requires |fields| > 1 && NoneContains(fields)
    ensures NoneContains(fields[1..]) && !Contains(fields[0], SEPARATOR)
    ensures Separable(fields) <==> !EndsInStub(fields[0]) && Separable(fields[1..])
  {
    hide Contains, EndsInStub;
    assert forall k | 0 <= k < |fields| - 1 :: fields[1..][k] == fields[k + 1];
    assert forall k | 0 < k < |fields| :: fields[k] == fields[1..][k - 1];
  }

  // --------------------------------------------------------------------- round trip

  lemma {:induction false} ReservedIff(fields: seq<string>)
    ensures Reserved(fields).None? <==> NoneContains(fields)
  {
    hide Contains;
    if fields != [] {
      ReservedIff(fields[1..]);
      assert forall k | 0 < k < |fields| :: fields[k] == fields[1..][k - 1];
      assert forall k | 0 <= k < |fields| - 1 :: fields[1..][k] == fields[k + 1];
    }
  }

  // A field the comment on the format rules out is refused: formatting succeeds
  // exactly on version 2 with the separator in no field.
  lemma FormatsIff(p: Challenge)
    ensures Format(p).Ok? <==> p.version == VERSION && !Contains(p.appId, SEPARATOR) && !Contains(p.origin, SEPARATOR)
                               && !Contains(p.address, SEPARATOR) && !Contains(p.nonce, SEPARATOR)
  {
    ReservedIff(Fields(p));
    NumbersAreClean(p.timestamp);
    NumbersAreClean(p.expiresAt);
    var f := Fields(p);
    assert NoneContains(f) <==> !Contains(f[0], SEPARATOR) && !Contains(f[1], SEPARATOR) && !Contains(f[2], SEPARATOR)
                                && !Contains(f[3], SEPARATOR) && !Contains(f[4], SEPARATOR)
                                   && !Contains(f[5], SEPARATOR);
    hide Contains, Decimal, Join;
  }

  lemma SeparatorHasBlank(s: string)
    requires Contains(s, SEPARATOR)
    ensures ' ' in s && '|' in s
  {
    FindOccurs(s, SEPARATOR);
    SeparatorChars(s, Find(s, SEPARATOR).value);
    hide Find;
  }

  lemma NumbersAreClean(n: int)
    ensures !Contains(Decimal(n), SEPARATOR) && !EndsInStub(Decimal(n))
  {
    var d := Decimal(n);
    assert ' ' !in d && '|' !in d;
    hide Decimal, Contains, SEPARATOR;
    if Contains(d, SEPARATOR) {
      SeparatorHasBlank(d);
    }
  }

  // Can the text be read back?
  predicate ReadsBack(p: Challenge) {
    !EndsInStub(p.appId) && !EndsInStub(p.origin) && !EndsInStub(p.address) && !EndsInStub(p.nonce)
  }

  lemma Seven(f: seq<string>)
    requires |f| == 7
    ensures NoneContains(f) <==> !Contains(f[0], SEPARATOR) && NoneContains(f[1..])
    ensures Separable(f) <==> !EndsInStub(f[0]) && !EndsInStub(f[1]) && !EndsInStub(f[2])
                              && !EndsInStub(f[3]) && !EndsInStub(f[4]) && !EndsInStub(f[5])
  {
    hide Contains, EndsInStub, SEPARATOR;
    assert forall k | 0 < k < 7 :: f[k] == f[1..][k - 1];
    assert forall k | 0 <= k < 6 :: f[1..][k] == f[k + 1];
  }

  // The seven segments of a challenge that was formatted.
  function Segments(p: Challenge): (f: seq<string>)
    ensures |f| == 7 && f[1..] == Fields(p)
    ensures f[0] == PREFIX && f[1] == p.appId && f[2] == p.origin && f[3] == p.address && f[4] == p.nonce
    ensures f[5] == Decimal(p.timestamp) && f[6] == Decimal(p.expiresAt)
  {
    [PREFIX] + Fields(p)
  }

  lemma FormatsSegments(p: Challenge)
    requires Format(p).Ok?
    ensures p.version == VERSION && NoneContains(Fields(p)) && Format(p).value == Join(Segments(p), SEPARATOR)
  {
    ReservedIff(Fields(p));
    hide Join, Fields, Reserved, PREFIX, SEPARATOR;
  }

  lemma ChallengeFields(p: Challenge)
    requires Format(p).Ok?
    ensures NoneContains(Segments(p)) && (Separable(Segments(p)) <==> ReadsBack(p))
    ensures !EndsInStub(Segments(p)[0]) && !EndsInStub(Segments(p)[5])
  {
    FormatsSegments(p);
    PrefixIsClean();
    NumbersAreClean(p.timestamp);
    Seven(Segments(p));
    hide Format, PREFIX, Contains, EndsInStub, Decimal, SEPARATOR, NoneContains, Separable, Segments;
  }

  lemma PrefixIsClean()
    ensures !Contains(PREFIX, SEPARATOR) && !EndsInStub(PREFIX)
  {
    assert '|' !in PREFIX;
    hide PREFIX, Contains, SEPARATOR;
    if Contains(PREFIX, SEPARATOR) {
      SeparatorHasBlank(PREFIX);
    }
  }

  // The round trip: whatever is formatted parses back to the same challenge
  // exactly when appId, origin, address and nonce do not end in " |". The check
  // made at format time rules out the whole separator only.
  lemma RoundTrip(p: Challenge, num: Numbers)
    requires ReadsIntegers(num) && Format(p).Ok?
    ensures Parse(Format(p).value, num) == Some(p) <==> ReadsBack(p)
  {
    hide *;
    FormatsSegments(p);
    ChallengeFields(p);
    SplitJoin(Segments(p));
    var text := Format(p).value;
    if ReadsBack(p) {
      ParsesSegments(text, p, num);
    } else {
      LostSegment(p, Split(text, SEPARATOR));
      if Parse(text, num) == Some(p) {
        ParsedSegments(text, p, num);
      }
    }
  }

  // Such a field, which formats and is not read back.
  lemma TrailingBarIsLost(num: Numbers)
    requires ReadsIntegers(num)
    ensures var p := Challenge(VERSION, "a |", "o", "b", "n", 0, 1);
            Format(p).Ok? && Parse(Format(p).value, num) != Some(p)
  {
    var p := Challenge(VERSION, "a |", "o", "b", "n", 0, 1);
    ShortHasNoSeparator(p.appId);
    ShortHasNoSeparator(p.origin);
    ShortHasNoSeparator(p.address);
    ShortHasNoSeparator(p.nonce);
    assert p.version == VERSION && !ReadsBack(p);
    hide *;
    FormatsIff(p);
    RoundTrip(p, num);
  }

  lemma ShortHasNoSeparator(s: string)
    requires |s| < 3 || (|s| == 3 && s[0] != ' ')
    ensures !Contains(s, SEPARATOR)
  {
    FindOccurs(s, SEPARATOR);
    if Contains(s, SEPARATOR) {
      SeparatorChars(s, Find(s, SEPARATOR).value);
    }
    hide Find;
  }

  lemma ParsesSegments(text: string, p: Challenge, num: Numbers)
    requires ReadsIntegers(num) && p.version == VERSION && Split(text, SEPARATOR) == Segments(p)
    ensures Parse(text, num) == Some(p)
  {
    hide Split, SEPARATOR, PREFIX, Decimal, Segments;
    assert num(Decimal(p.timestamp)) == Some(p.timestamp) && num(Decimal(p.expiresAt)) == Some(p.expiresAt);
  }

  lemma ParsedSegments(text: string, p: Challenge, num: Numbers)
    requires Parse(text, num) == Some(p)
    ensures var parts := Split(text, SEPARATOR);
            |parts| == 7 && parts[1] == p.appId && parts[2] == p.origin && parts[3] == p.address && parts[4] == p.nonce
  {
    hide Split, SEPARATOR, PREFIX;
  }

  lemma LostSegment(p: Challenge, parts: seq<string>)
    requires !EndsInStub(Segments(p)[0]) && !EndsInStub(Segments(p)[5]) && LosesOne(Segments(p), parts)
    ensures !(|parts| == 7 && parts[1] == p.appId && parts[2] == p.origin && parts[3] == p.address
        && parts[4] == p.nonce)
  {
    hide EndsInStub, Decimal, PREFIX, Segments;
  }
}
