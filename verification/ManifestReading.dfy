// How a release manifest's lines are read and which texts are refused, in
// terms of the text itself.
module ManifestReading {
  import opened Wrappers
  import opened Text
  import opened Manifest

  // ------------------------------------------------------------------------ lines

  // The lines are the text between its newlines, all of it.
  lemma {:induction false} LinesAreTheText(text: string)
    ensures Join(Lines(text), "\n") == text
    ensures forall k | 0 <= k < |Lines(text)| :: '\n' !in Lines(text)[k]
  {
    if text != [] {
      var rest := Lines(text[1..]);
      LinesAreTheText(text[1..]);
      assert text == [text[0]] + text[1..];
      if text[0] == '\n' {
        assert ([[]] + rest)[1..] == rest;
        assert [] + "\n" + Join(rest, "\n") == text;
      } else {
        JoinFirst(text[0], rest);
      }
    }
  }

  lemma JoinFirst(c: char, rest: seq<string>)
    requires |rest| >= 1
    ensures Join([[c] + rest[0]] + rest[1..], "\n") == [c] + Join(rest, "\n")
  {
    var parts := [[c] + rest[0]] + rest[1..];
    assert parts[0] == [c] + rest[0] && parts[1..] == rest[1..];
    JoinOn(parts);
    JoinOn(rest);
    hide Join;
    if |rest| > 1 {
      Regroup([c], rest[0], "\n", Join(rest[1..], "\n"));
    }
  }

  lemma JoinOn(parts: seq<string>)
    requires |parts| >= 1
    ensures Join(parts, "\n") == if |parts| == 1 then parts[0] else parts[0] + "\n" + Join(parts[1..], "\n")
  {
  }

  lemma Regroup(a: string, b: string, c: string, d: string)
    ensures a + b + c + d == a + (b + c + d)
  {
  }

  // One carriage return at the end of a line is dropped.
  lemma CarriageReturn(line: string)
    ensures WithoutCr(line + "\r") == line
    ensures line == [] || line[|line| - 1] != '\r' ==> WithoutCr(line) == line
  {
  }

  // ------------------------------------------------------------------- hash lines

  predicate IsHexOfAnyCase(c: char) {
    '0' <= c <= '9' || 'a' <= c <= 'f' || 'A' <= c <= 'F'
  }

  // A hash of 64 hexadecimal digits, two spaces, and a name.
  ghost predicate HashForm(line: string, hash: string, name: string) {
    && line == hash + "  " + name
    && |hash| == 64 && All(hash, IsHexOfAnyCase)
    && name != [] && forall k | 0 <= k < |name| :: !IsLineEnd(name[k])
  }

  lemma HashLineIff(line: string)
    ensures IsHashLine(line) <==> exists hash, name :: HashForm(line, hash, name)
  {
    if IsHashLine(line) {
      HashLineParts(line);
    }
    if hash, name :| HashForm(line, hash, name) {
      FormIsHashLine(line, hash, name);
    }
  }

  lemma HashLineParts(line: string)
    requires IsHashLine(line)
    ensures HashForm(line, line[..64], line[66..])
  {
    assert line == line[..64] + [line[64], line[65]] + line[66..];
    forall k | 0 <= k < 64
      ensures IsHexOfAnyCase(line[..64][k])
    {
      assert IsHex(Lower(line[k]));
    }
  }

  lemma FormIsHashLine(line: string, hash: string, name: string)
    requires HashForm(line, hash, name)
    ensures IsHashLine(line) && line[..64] == hash && line[66..] == name
  {
    assert forall k | 0 <= k < 64 :: line[k] == hash[k];
    assert forall k | 66 <= k < |line| :: line[k] == name[k - 66];
  }

  // A leading `./` and white space around the name do not belong to it.
  lemma NameIsBare(lead: string, name: string, trail: string)
    requires All(lead, IsSpace) && All(trail, IsSpace) && Trimmed(name)
    ensures NormalizeName("./" + (lead + name + trail)) == name
    ensures !("./" <= lead + name + trail) ==> NormalizeName(lead + name + trail) == name
  {
    TrimOfPadded(lead, name, trail);
    DotSlash(lead + name + trail);
    hide Trim, IsSpace, Trimmed;
  }

  lemma DotSlash(s: string)
    ensures var t := "./" + s; |t| >= 2 && t[0] == '.' && t[1] == '/' && t[2..] == s
    ensures |s| >= 2 && s[0] == '.' && s[1] == '/' <==> "./" <= s
  {
  }

  // The entry of a hash line: its name without `./` and blanks, its hash in
  // small letters.
  lemma HashLineReads(line: string, hash: string, name: string)
    requires HashForm(line, hash, name) && WithoutCr(line) == line
    ensures ReadLine(line) == Hashed(NormalizeName(name), LowerAll(hash))
  {
    FormIsHashLine(line, hash, name);
    assert line[0] == hash[0] && IsHexOfAnyCase(hash[0]) && !IsSpace(line[0]) && line[0] != '#';
    TrimKeepsInk(line, 0);
    hide Trim, IsHashLine, NormalizeName, LowerAll, IsSpace;
  }

  predicate ColonBlankAt(line: string, k: nat) {
    k + 1 < |line| && line[k] == ':' && line[k + 1] == ' '
  }

  lemma IsComment(line: string)
    requires WithoutCr(line) == line && line != [] && line[0] == '#'
    ensures ReadLine(line) == ReadComment(line)
  {
    assert !IsSpace(line[0]);
    TrimKeepsInk(line, 0);
    hide Trim, IsSpace, ReadComment;
  }

  // A comment is a header field when its first colon and blank stand behind at
  // least one character of a key, and a remark otherwise.
  lemma CommentReads(line: string, i: nat)
    requires WithoutCr(line) == line && line != [] && line[0] == '#'
    requires ColonBlankAt(line, i) && forall k: nat | k < i :: !ColonBlankAt(line, k)
    ensures ReadLine(line) == if i >= 2 then Field(Trim(line[2..i]), Trim(line[i + 2..])) else Remark
  {
    hide *;
    IsComment(line);
    SeparatorFound(line, i);
    CommentAt(line, i);
  }

  lemma CommentAt(line: string, i: nat)
    requires i + 2 <= |line| && Find(line, SEPARATOR) == Some(i)
    ensures ReadComment(line) == if i >= 2 then Field(Trim(line[2..i]), Trim(line[i + 2..])) else Remark
  {
    hide Find, Trim;
  }

  lemma SeparatorFound(line: string, i: nat)
    requires ColonBlankAt(line, i) && forall k: nat | k < i :: !ColonBlankAt(line, k)
    ensures i + 2 <= |line| && Find(line, SEPARATOR) == Some(i)
  {
    hide OccursAt, SEPARATOR, Find;
    forall k | 0 <= k < i
      ensures !OccursAt(line, SEPARATOR, k)
    {
      SeparatorChars(line, k);
      assert !ColonBlankAt(line, k);
    }
    SeparatorChars(line, i);
    FindUnique(line, SEPARATOR, i);
  }

  lemma NoFieldReads(line: string)
    requires WithoutCr(line) == line && line != [] && line[0] == '#'
    requires forall k: nat :: !ColonBlankAt(line, k)
    ensures ReadLine(line) == Remark
  {
    IsComment(line);
    hide OccursAt, SEPARATOR, Find, Trim;
    forall k | 0 <= k <= |line|
      ensures !OccursAt(line, SEPARATOR, k)
    {
      SeparatorChars(line, k);
      assert !ColonBlankAt(line, k);
    }
    FindNone(line, SEPARATOR);
  }

  // A line is malformed exactly when it is neither blank, nor a comment, nor of
  // the form of a hash line.
  lemma MalformedIff(raw: string)
    ensures ReadLine(raw).Malformed?
            <==> var line := WithoutCr(raw);
                 && (exists k :: 0 <= k < |line| && !IsSpace(line[k]))
                 && line[0] != '#' && !exists hash, name :: HashForm(line, hash, name)
  {
    var line := WithoutCr(raw);
    HashLineIff(line);
    BlankIff(line);
    hide Trim, IsHashLine, NormalizeName, LowerAll, IsSpace;
  }

  lemma BlankIff(line: string)
    ensures Trim(line) != [] <==> exists k :: 0 <= k < |line| && !IsSpace(line[k])
  {
    if Trim(line) != [] {
      var n := Span(line, IsSpace);
      assert n < |line| && !IsSpace(line[n]);
    }
    if k :| 0 <= k < |line| && !IsSpace(line[k]) {
      TrimKeepsInk(line, k);
    }
  }

  // --------------------------------------------------------------------- refusals

  predicate SomeMalformed(lines: seq<string>) {
    exists k | 0 <= k < |lines| :: ReadLine(lines[k]).Malformed?
  }

  // One malformed line anywhere is fatal, and nothing else is.
  lemma {:induction false} GatheredIff(lines: seq<string>)
    ensures Gathered(lines).None? <==> SomeMalformed(lines)
  {
    hide ReadLine;
    if lines != [] {
      var front, last := lines[..|lines| - 1], lines[|lines| - 1];
      assert front + [last] == lines;
      GatheredIff(front);
      if k :| 0 <= k < |lines| && ReadLine(lines[k]).Malformed? {
        assert k < |front| ==> front[k] == lines[k];
      }
      if k :| 0 <= k < |front| && ReadLine(front[k]).Malformed? {
        assert lines[k] == front[k];
      }
    }
  }

  // Which text is refused for what, and what an accepted one holds.
  lemma ParsedCases(text: string, num: Numbers)
    ensures var lines, r := Lines(text), Parsed(text, num);
            if forall k | 0 <= k < |text| :: IsSpace(text[k]) then r == Err(EmptyManifest)
            else if SomeMalformed(lines) then r == Err(MalformedLine)
            else
              && Gathered(lines).Some?
              && var c := Gathered(lines).value;
                 if !("manifest-version" in c.header) || c.header["manifest-version"] == "" then r == Err(NoHeader)
                 else if c.entries == map[] then r == Err(CoversNothing)
                 else if "artifacts" in c.header && num(c.header["artifacts"]) == Some(|c.entries|) then r == Ok(c)
                 else r == Err(WrongCount)
  {
    BlankIff(text);
    GatheredIff(Lines(text));
    hide Trim, IsSpace, Lines, Gathered, SomeMalformed;
  }
}
