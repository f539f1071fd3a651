// The text of a sign-in challenge, written out, and what a text that parses
// must look like.
module SignInText {
  import opened Wrappers
  import opened Text
  import opened SignIn

  // The signed text of every challenge that is formatted.
  lemma FormattedText(p: Challenge)
    requires Format(p).Ok?
    ensures p.version == 2
    ensures Format(p).value
         == "XChain Sign-In v2" + " | " + (p.appId + " | " + (p.origin + " | " + (p.address + " | "
            + (p.nonce + " | " + (Decimal(p.timestamp) + " | " + Decimal(p.expiresAt))))))
  {
    FormatsSegments(p);
    JoinOfSeven(Segments(p), " | ");
    hide Decimal;
  }

  lemma JoinOfSeven(f: seq<string>, sep: string)
    requires |f| == 7
    ensures Join(f, sep)
         == f[0] + sep + (f[1] + sep + (f[2] + sep + (f[3] + sep + (f[4] + sep + (f[5] + sep + f[6])))))
  {
    JoinStep(f, sep);
    JoinStep(f[1..], sep);
    JoinStep(f[2..], sep);
    JoinStep(f[3..], sep);
    JoinStep(f[4..], sep);
    JoinStep(f[5..], sep);
    assert f[1..][1..] == f[2..] && f[2..][1..] == f[3..] && f[3..][1..] == f[4..] && f[4..][1..] == f[5..];
    assert f[5..][1..] == f[6..] && f[6..] == [f[6]];
    hide Join;
    JoinOne(f[6], sep);
  }

  lemma JoinOne(s: string, sep: string)
    ensures Join([s], sep) == s
  {
  }

  lemma JoinStep(f: seq<string>, sep: string)
    requires |f| > 1
    ensures Join(f, sep) == f[0] + sep + Join(f[1..], sep)
  {
  }

  // A version other than 2 is refused; otherwise the first field that holds
  // the separator is.
  lemma FormatErrors(p: Challenge)
    ensures Format(p) == Err(UnsupportedVersion) <==> p.version != 2
    ensures forall field ::
              Format(p) == Err(ReservedSeparator(field)) <==> p.version == 2 && Reserved(Fields(p)) == Some(field)
  {
    hide Reserved, Fields, Join;
  }

  lemma {:induction false} ReservedIsFirst(fields: seq<string>)
    ensures match Reserved(fields)
            case None => forall k | 0 <= k < |fields| :: !Contains(fields[k], " | ")
            case Some(f) =>
              exists k | 0 <= k < |fields| ::
                fields[k] == f && Contains(f, " | ") && forall j | 0 <= j < k :: !Contains(fields[j], " | ")
  {
    hide Contains;
    if fields != [] && !Contains(fields[0], " | ") {
      ReservedIsFirst(fields[1..]);
      assert forall j | 0 < j < |fields| :: fields[j] == fields[1..][j - 1];
      if Reserved(fields).Some? {
        var k :| 0 <= k < |fields[1..]| && fields[1..][k] == Reserved(fields).value
            && forall j | 0 <= j < k :: !Contains(fields[1..][j], " | ");
        assert fields[k + 1] == fields[1..][k];
      }
    }
  }

  // Joining what was split gives the text back, and no piece holds the
  // separator.
  lemma {:induction false} JoinSplit(s: string, sep: string)
    requires sep != []
    ensures Join(Split(s, sep), sep) == s
    ensures forall k | 0 <= k < |Split(s, sep)| :: !Contains(Split(s, sep)[k], sep)
    decreases |s|
  {
    FindOccurs(s, sep);
    if Find(s, sep).Some? {
      var k := Find(s, sep).value;
      var rest := s[k + |sep|..];
      CutAt(s, sep, k);
      JoinSplit(rest, sep);
      FirstHasNone(s, sep, k);
      var tail := Split(rest, sep);
      assert Split(s, sep) == [s[..k]] + tail;
      JoinCons(s[..k], tail, sep);
      hide Split, Find, Contains, Join;
      forall j | 0 <= j < |tail| + 1
        ensures !Contains(([s[..k]] + tail)[j], sep)
      {
        if j > 0 {
          assert ([s[..k]] + tail)[j] == tail[j - 1];
        }
      }
    } else {
      assert Split(s, sep) == [s];
      assert !Contains(s, sep);
      JoinOne(s, sep);
    }
  }

  lemma JoinCons(first: string, tail: seq<string>, sep: string)
    requires tail != []
    ensures Join([first] + tail, sep) == first + sep + Join(tail, sep)
  {
    JoinStep([first] + tail, sep);
    assert ([first] + tail)[1..] == tail;
    hide Join;
  }

  lemma CutAt(s: string, sep: string, k: nat)
    requires OccursAt(s, sep, k)
    ensures k + |sep| <= |s| && s == s[..k] + sep + s[k + |sep|..]
  {
    assert s[k..][..|sep|] == sep;
    assert s[k..k + |sep|] == sep;
  }

  lemma OccursInWhole(s: string, sep: string, k: nat, j: nat)
    requires k <= |s| && sep != []
    ensures OccursAt(s[..k], sep, j) ==> j < k && OccursAt(s, sep, j)
  {
    if OccursAt(s[..k], sep, j) {
      CutAt(s[..k], sep, j);
      assert s[j..][..|sep|] == s[..k][j..j + |sep|];
    }
  }

  lemma FirstHasNone(s: string, sep: string, k: nat)
    requires sep != [] && OccursAt(s, sep, k) && forall j | 0 <= j < k :: !OccursAt(s, sep, j)
    ensures !Contains(s[..k], sep)
  {
    FindOccurs(s[..k], sep);
    forall j | 0 <= j <= k
      ensures !OccursAt(s[..k], sep, j)
    {
      OccursInWhole(s, sep, k, j);
    }
    hide Find;
  }

  // The seven segments a text that parses was made of.
  ghost predicate IsText(text: string, p: Challenge, num: Numbers, issued: string, expires: string) {
    && p.version == 2
    && text == Join(["XChain Sign-In v2", p.appId, p.origin, p.address, p.nonce, issued, expires], " | ")
    && num(issued) == Some(p.timestamp) && num(expires) == Some(p.expiresAt)
  }

  // A text parses only as what it says: it is the version's prefix, the four
  // fields and two numbers, separated.
  lemma ParsedIsWritten(text: string, p: Challenge, num: Numbers)
    requires Parse(text, num) == Some(p)
    ensures exists issued, expires :: IsText(text, p, num, issued, expires)
  {
    hide *;
    JoinSplit(text, " | ");
    ParsedParts(text, p, num);
    var s := Split(text, " | ");
    SevenSegments(s);
    IsTextOf(text, s, p, num);
  }

  lemma ParsedParts(text: string, p: Challenge, num: Numbers)
    requires Parse(text, num) == Some(p)
    ensures var s := Split(text, " | ");
            && |s| == 7 && s[0] == "XChain Sign-In v2" && s[1] == p.appId && s[2] == p.origin && s[3] == p.address
            && s[4] == p.nonce && num(s[5]) == Some(p.timestamp) && num(s[6]) == Some(p.expiresAt) && p.version == 2
  {
    hide Split;
  }

  lemma SevenSegments(s: seq<string>)
    requires |s| == 7
    ensures s == [s[0], s[1], s[2], s[3], s[4], s[5], s[6]]
  {
  }

  lemma IsTextOf(text: string, s: seq<string>, p: Challenge, num: Numbers)
    requires |s| == 7 && p.version == 2 && text == Join(s, " | ")
    requires s == ["XChain Sign-In v2", p.appId, p.origin, p.address, p.nonce, s[5], s[6]]
    requires num(s[5]) == Some(p.timestamp) && num(s[6]) == Some(p.expiresAt)
    ensures IsText(text, p, num, s[5], s[6])
  {
    hide Join;
  }
}
