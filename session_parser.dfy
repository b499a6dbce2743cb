/** The session parser: listing text is split into lines and every line
    must match `^(?P<attached>[01]) (?P<timestamp>[0-9]+) (?P<name>.*)$`;
    the first line that does not aborts the whole parse. */
module SessionParser {
  import opened Base
  import opened Text

  /** The three named groups of one matched line, as strings. */
  datatype Session = Session(attached: string, timestamp: string, name: string)

  const ParseErrorPrefix := "parse error: "

  /** The line boundaries of Python's str.splitlines(). */
  predicate IsLineBreak(c: char) {
    || c == '\n' || c == '\r' || c == '\U{0B}' || c == '\U{0C}'
    || c == '\U{1C}' || c == '\U{1D}' || c == '\U{1E}'
    || c == '\U{85}' || c == '\U{2028}' || c == '\U{2029}'
  }

  predicate NoBreaks(s: string) {
    forall i :: 0 <= i < |s| ==> !IsLineBreak(s[i])
  }

  /** The index of the first line boundary in s, or |s| if there is none. */
  function BreakIndex(s: string): (k: nat)
    ensures k <= |s|
  {
    if s == [] || IsLineBreak(s[0]) then 0 else 1 + BreakIndex(s[1..])
  }

  /** BreakIndex finds the first boundary: none comes before it. */
  lemma {:induction false} BreakIndexIsFirst(s: string)
    ensures forall j :: 0 <= j < BreakIndex(s) ==> !IsLineBreak(s[j])
    ensures BreakIndex(s) < |s| ==> IsLineBreak(s[BreakIndex(s)])
  {
    if s != [] && !IsLineBreak(s[0]) {
      BreakIndexIsFirst(s[1..]);
      assert forall j :: 1 <= j < BreakIndex(s) ==> s[j] == s[1..][j - 1];
    }
  }

  /** Where the line after a boundary at index k starts: "\r\n" is one
      boundary. */
  function NextStart(text: string, k: nat): (next: nat)
    requires k < |text|
    ensures k < next <= |text|
  {
    if text[k] == '\r' && k + 1 < |text| && text[k + 1] == '\n' then k + 2 else k + 1
  }

  /** str.splitlines(): the lines of text without their boundaries, where
      a final boundary does not start a line. */
  function Lines(text: string): seq<string>
    decreases |text|
  {
    if text == [] then []
    else if BreakIndex(text) == |text| then [text]
    else [text[..BreakIndex(text)]] + Lines(text[NextStart(text, BreakIndex(text))..])
  }

  /** No line holds a boundary, and only the empty text has no lines. */
  lemma {:induction false} LinesHaveNoBreaks(text: string)
    ensures forall i :: 0 <= i < |Lines(text)| ==> NoBreaks(Lines(text)[i])
    ensures text == [] <==> Lines(text) == []
    decreases |text|
  {
    if text != [] {
      var k := BreakIndex(text);
      BreakIndexIsFirst(text);
      assert NoBreaks(text[..k]);
      if k < |text| {
        LinesHaveNoBreaks(text[NextStart(text, k)..]);
      } else {
        assert text[..k] == text;
      }
    }
  }

  /** Lines as the listing prints them: each followed by a newline. */
  function JoinLines(lines: seq<string>): string {
    if lines == [] then "" else lines[0] + "\n" + JoinLines(lines[1..])
  }

  /** The index of the first boundary is determined by the boundary
      characters alone. */
  lemma BreakIndexOfFirst(s: string, k: nat)
    requires k <= |s| && forall j :: 0 <= j < k ==> !IsLineBreak(s[j])
    requires k < |s| ==> IsLineBreak(s[k])
    ensures BreakIndex(s) == k
  {
    BreakIndexIsFirst(s);
  }

  lemma BreakIndexAt(line: string, rest: string)
    requires NoBreaks(line)
    ensures BreakIndex(line + "\n" + rest) == |line|
  {
    var t := line + "\n" + rest;
    assert t[|line|] == '\n';
    assert forall j :: 0 <= j < |line| ==> t[j] == line[j];
    BreakIndexOfFirst(t, |line|);
  }

  /** A line without boundaries followed by a newline is the first line. */
  lemma LinesCons(line: string, rest: string)
    requires NoBreaks(line)
    ensures Lines(line + "\n" + rest) == [line] + Lines(rest)
  {
    var t := line + "\n" + rest;
    var k := |line|;
    BreakIndexAt(line, rest);
    assert t[k] == '\n';
    assert NextStart(t, k) == k + 1;
    assert t[..k] == line;
    assert t[k + 1..] == rest;
  }

  /** Splitting undoes joining: n lines printed one per row come back as
      the same n lines, in the same order. */
  lemma {:induction false} LinesOfJoined(lines: seq<string>)
    requires forall i :: 0 <= i < |lines| ==> NoBreaks(lines[i])
    ensures Lines(JoinLines(lines)) == lines
  {
    if lines != [] {
      LinesCons(lines[0], JoinLines(lines[1..]));
      LinesOfJoined(lines[1..]);
      assert lines == [lines[0]] + lines[1..];
    }
  }

  lemma {:induction false} BreakIndexAppend(a: string, b: string)
    ensures BreakIndex(a + b) == if BreakIndex(a) < |a| then BreakIndex(a) else |a| + BreakIndex(b)
  {
    if a == [] {
      assert a + b == b;
    } else {
      assert (a + b)[0] == a[0];
      if !IsLineBreak(a[0]) {
        assert (a + b)[1..] == a[1..] + b;
        BreakIndexAppend(a[1..], b);
      }
    }
  }

  /** One final newline adds no line. */
  lemma {:induction false} TrailingNewlineAddsNoLine(text: string)
    requires text != [] && !IsLineBreak(text[|text| - 1])
    ensures Lines(text + "\n") == Lines(text)
    decreases |text|
  {
    var t := text + "\n";
    var k := BreakIndex(text);
    assert BreakIndex(t) == k by {
      BreakIndexAppend(text, "\n");
    }
    if k == |text| {
      assert t[..k] == text;
      assert NextStart(t, k) == |t|;
      assert t[|t|..] == [];
    } else {
      BreakIndexIsFirst(text);
      assert k < |text| - 1;
      var next := NextStart(text, k);
      assert next < |text|;
      assert NextStart(t, k) == next;
      assert t[..k] == text[..k];
      assert t[next..] == text[next..] + "\n";
      TrailingNewlineAddsNoLine(text[next..]);
    }
  }

  /** The end of the run of digits that starts at index i. */
  function DigitsEnd(s: string, i: nat): (k: nat)
    requires i <= |s|
    ensures i <= k <= |s|
    ensures forall j :: i <= j < k ==> IsDigit(s[j])
    ensures k < |s| ==> !IsDigit(s[k])
    decreases |s| - i
  {
    if i < |s| && IsDigit(s[i]) then DigitsEnd(s, i + 1) else i
  }

  /** The line tmux prints for a session with the format
      "#{session_attached} #{session_created} #{session_name}". */
  function Render(s: Session): string {
    s.attached + " " + s.timestamp + " " + s.name
  }

  /** What a matched line's groups can be: attached is "0" or "1", the
      timestamp one or more digits, and the name the rest of the line, which
      may hold spaces or be empty but holds no newline. */
  predicate IsRecord(s: Session) {
    && (s.attached == "0" || s.attached == "1")
    && IsNumeral(s.timestamp)
    && '\n' !in s.name
  }

  /** line matches the pattern with the groups of s (`$` also allows one
      final newline). */
  predicate MatchesAs(line: string, s: Session) {
    IsRecord(s) && (line == Render(s) || line == Render(s) + "\n")
  }

  /** parse_session_line: the groups of a matching line, or a TmuxParseError
      naming the line. */
  function ParseLine(line: string): Result<Session> {
    if |line| >= 2 && (line[0] == '0' || line[0] == '1') && line[1] == ' ' then
      var k := DigitsEnd(line, 2);
      if 2 < k < |line| && line[k] == ' ' then
        var name := DropFinalNewline(line[k + 1..]);
        if '\n' !in name then
          Ok(Session(line[..1], line[2..k], name))
        else Err(TmuxParseError(ParseErrorPrefix + line))
      else Err(TmuxParseError(ParseErrorPrefix + line))
    else Err(TmuxParseError(ParseErrorPrefix + line))
  }

  /** What ParseLine accepts matches the pattern with exactly the groups it
      returns, and what it rejects is reported with the line. */
  lemma ParseLineSound(line: string)
    ensures ParseLine(line).Ok? ==> MatchesAs(line, ParseLine(line).value)
    ensures ParseLine(line).Err? ==> ParseLine(line).error == TmuxParseError(ParseErrorPrefix + line)
  {
    if ParseLine(line).Ok? {
      AcceptedMatches(line, DigitsEnd(line, 2));
    }
  }

  /** A line cut at its first two spaces, at indices 1 and k. */
  lemma HeadOfLine(line: string, k: nat)
    requires 2 <= k < |line| && line[1] == ' ' && line[k] == ' '
    ensures line[..k + 1] == line[..1] + " " + line[2..k] + " "
  {
    assert line[..k + 1] == line[..2] + line[2..k] + line[k..k + 1];
    assert line[..2] == line[..1] + " ";
  }

  /** The groups ParseLine takes from a line that passes its checks do
      match that line. */
  lemma AcceptedMatches(line: string, k: nat)
    requires |line| >= 2 && (line[0] == '0' || line[0] == '1') && line[1] == ' '
    requires k == DigitsEnd(line, 2) && 2 < k < |line| && line[k] == ' '
    requires '\n' !in DropFinalNewline(line[k + 1..])
    ensures MatchesAs(line, Session(line[..1], line[2..k], DropFinalNewline(line[k + 1..])))
  {
    var s := Session(line[..1], line[2..k], DropFinalNewline(line[k + 1..]));
    assert s.attached == [line[0]];
    DigitsAreNumeral(line, 2, k);
    HeadOfLine(line, k);
    assert line == line[..k + 1] + line[k + 1..];
    MatchesFromParts(line, line[..k + 1], line[k + 1..], s);
  }

  lemma DigitsAreNumeral(s: string, i: nat, k: nat)
    requires i <= |s| && k == DigitsEnd(s, i) && i < k
    ensures IsNumeral(s[i..k])
  {
    assert forall j :: 0 <= j < k - i ==> s[i..k][j] == s[j + i];
  }

  /** A line made of a record's head and a rest whose final newline, if
      any, leaves the record's name. */
  lemma MatchesFromParts(line: string, head: string, rest: string, s: Session)
    requires IsRecord(s) && line == head + rest
    requires head == s.attached + " " + s.timestamp + " "
    requires s.name == DropFinalNewline(rest)
    ensures MatchesAs(line, s)
  {
    if rest != s.name {
      assert head + s.name + "\n" == head + (s.name + "\n");
    }
  }

  /** Where the parts of a rendered record lie in a line that matches it. */
  lemma MatchedParts(line: string, s: Session)
    requires MatchesAs(line, s)
    ensures |line| >= 2 + |s.timestamp| + 1
    ensures line[..1] == s.attached && line[1] == ' '
    ensures DigitsEnd(line, 2) == 2 + |s.timestamp|
    ensures line[2..2 + |s.timestamp|] == s.timestamp && line[2 + |s.timestamp|] == ' '
    ensures DropFinalNewline(line[2 + |s.timestamp| + 1..]) == s.name
  {
    MatchedHead(line, s);
    HeadFields(line, s.attached, s.timestamp);
  }

  /** A matching line is the record's head followed by its name. */
  lemma MatchedHead(line: string, s: Session)
    requires MatchesAs(line, s)
    ensures |line| >= 2 + |s.timestamp| + 1
    ensures line[..2 + |s.timestamp| + 1] == s.attached + " " + s.timestamp + " "
    ensures DropFinalNewline(line[2 + |s.timestamp| + 1..]) == s.name
  {
    var head := s.attached + " " + s.timestamp + " ";
    var rest := if line == Render(s) then s.name else s.name + "\n";
    assert line == head + rest by {
      if line != Render(s) {
        assert Render(s) + "\n" == head + (s.name + "\n");
      }
    }
    assert line[|head|..] == rest;
    DropNewlineOf(s.name, rest);
  }

  /** The fields of a head: flag, space, digits, space. */
  lemma HeadFields(line: string, attached: string, ts: string)
    requires |attached| == 1 && IsNumeral(ts)
    requires |line| >= 2 + |ts| + 1 && line[..2 + |ts| + 1] == attached + " " + ts + " "
    ensures line[..1] == attached && line[1] == ' '
    ensures DigitsEnd(line, 2) == 2 + |ts|
    ensures line[2..2 + |ts|] == ts && line[2 + |ts|] == ' '
  {
    var k := 2 + |ts|;
    var head := attached + " " + ts + " ";
    assert line[..1] == head[..1];
    assert line[1] == head[1];
    assert line[k] == head[k];
    assert line[2..k] == head[2..k];
    assert forall j :: 2 <= j < k ==> line[j] == ts[j - 2];
    DigitsEndAt(line, 2, k);
  }

  /** DigitsEnd is the end of the run: digits up to k, then no digit. */
  lemma DigitsEndAt(s: string, i: nat, k: nat)
    requires i <= k <= |s|
    requires forall j :: i <= j < k ==> IsDigit(s[j])
    requires k < |s| ==> !IsDigit(s[k])
    ensures DigitsEnd(s, i) == k
  {
  }

  /** Dropping the final newline of a name without newlines, or of that
      name followed by one newline, gives the name. */
  lemma DropNewlineOf(name: string, rest: string)
    requires '\n' !in name
    requires rest == name || rest == name + "\n"
    ensures DropFinalNewline(rest) == name
  {
    if rest == name && name != [] {
      assert name[|name| - 1] in name;
    } else if rest != name {
      assert rest[..|rest| - 1] == name;
    }
  }

  /** Every line of the right shape is accepted, with exactly its parts as
      the fields: together with ParseLine's contract, a line is accepted iff
      it is "0" or "1", a space, digits, a space and then anything. */
  lemma ParseLineComplete(line: string, s: Session)
    requires MatchesAs(line, s)
    ensures ParseLine(line) == Ok(s)
  {
    MatchedParts(line, s);
  }

  /** The first line, in order, that does not match. */
  predicate FirstMalformed(lines: seq<string>, k: int) {
    && 0 <= k < |lines|
    && ParseLine(lines[k]).Err?
    && forall j :: 0 <= j < k ==> ParseLine(lines[j]).Ok?
  }

  /** The list comprehension of parse_sessions over the given lines: all
      lines parse, giving one record per line in order, or the first
      failure propagates. */
  function ParseAll(lines: seq<string>): (r: Result<seq<Session>>)
    ensures r.Ok? <==> forall i :: 0 <= i < |lines| ==> ParseLine(lines[i]).Ok?
    ensures r.Ok? ==> |r.value| == |lines|
    ensures r.Ok? ==> forall i :: 0 <= i < |lines| ==> ParseLine(lines[i]) == Ok(r.value[i])
  {
    if lines == [] then Ok([])
    else
      match ParseLine(lines[0])
      case Err(e) => Err(e)
      case Ok(s) =>
        match ParseAll(lines[1..])
        case Err(e) => Err(e)
        case Ok(rest) => Ok([s] + rest)
  }

  /** Every record of a successful parse is a well-formed record. */
  lemma ParsedAreRecords(lines: seq<string>)
    ensures ParseAll(lines).Ok? ==> forall i :: 0 <= i < |ParseAll(lines).value| ==> IsRecord(ParseAll(lines).value[i])
  {
    if ParseAll(lines).Ok? {
      forall i | 0 <= i < |lines| ensures IsRecord(ParseAll(lines).value[i]) {
        ParseLineSound(lines[i]);
      }
    }
  }

  /** All or nothing: if any line is malformed the parse fails with no
      records, and the error names the first malformed line. */
  lemma {:induction false} FirstMalformedReported(lines: seq<string>, k: int)
    requires FirstMalformed(lines, k)
    ensures ParseAll(lines) == Err(TmuxParseError(ParseErrorPrefix + lines[k]))
  {
    if k > 0 {
      assert ParseLine(lines[0]).Ok?;
      assert FirstMalformed(lines[1..], k - 1);
      FirstMalformedReported(lines[1..], k - 1);
    }
  }

  /** parse_sessions. */
  function ParseSessions(text: string): (r: Result<seq<Session>>)
    ensures text == [] ==> r == Ok([])
  {
    ParseAll(Lines(text))
  }

  /** A record printed by tmux is one line. */
  lemma RenderedIsOneLine(s: Session)
    requires IsRecord(s) && NoBreaks(s.name)
    ensures NoBreaks(Render(s))
  {
    var line := Render(s);
    var n := |s.attached| + 1 + |s.timestamp| + 1;
    assert line == (s.attached + " " + s.timestamp + " ") + s.name;
    forall j | 0 <= j < |line| ensures !IsLineBreak(line[j]) {
      if j < n {
        assert line[j] == (s.attached + " " + s.timestamp + " ")[j];
      } else {
        assert line[j] == s.name[j - n];
      }
    }
  }

  /** Parsing recovers the records tmux printed: n records, one per line,
      come back as exactly those n records in the listing's order. */
  lemma ParseRendered(records: seq<Session>)
    requires forall i :: 0 <= i < |records| ==> IsRecord(records[i]) && NoBreaks(records[i].name)
    ensures ParseSessions(JoinLines(seq(|records|, i requires 0 <= i < |records| => Render(records[i]))))
            == Ok(records)
  {
    var lines := seq(|records|, i requires 0 <= i < |records| => Render(records[i]));
    forall i | 0 <= i < |lines|
      ensures NoBreaks(lines[i]) && ParseLine(lines[i]) == Ok(records[i])
    {
      RenderedIsOneLine(records[i]);
      ParseLineComplete(lines[i], records[i]);
    }
    LinesOfJoined(lines);
    var r := ParseAll(lines);
    assert r.Ok?;
    assert r.value == records;
  }

  /** A flag other than 0 or 1 is rejected. */
  lemma RejectsFlag(line: string)
    requires line != [] && line[0] != '0' && line[0] != '1'
    ensures ParseLine(line) == Err(TmuxParseError(ParseErrorPrefix + line))
  {
  }

  /** A line that ends after the timestamp has no name field and is
      rejected ("1 5"). */
  lemma RejectsMissingName(flag: char, ts: string)
    requires IsNumeral(ts)
    ensures ParseLine([flag, ' '] + ts) == Err(TmuxParseError(ParseErrorPrefix + [flag, ' '] + ts))
  {
    var line := [flag, ' '] + ts;
    ParseLineSound(line);
    assert ParseErrorPrefix + line == ParseErrorPrefix + [flag, ' '] + ts;
  }

  /** An empty name is accepted ("1 5 "). */
  lemma AcceptsEmptyName(flag: string, ts: string)
    requires (flag == "0" || flag == "1") && IsNumeral(ts)
    ensures ParseLine(flag + " " + ts + " ") == Ok(Session(flag, ts, ""))
  {
    ParseLineComplete(flag + " " + ts + " ", Session(flag, ts, ""));
  }
}
