/** Shell quoting of session names (pipes.quote, the same function as
    shlex.quote), the `%` substitution into the command template, and a
    model of the tokenizer that later splits the command into arguments
    (GLib's g_shell_parse_argv, which applies shell quoting rules without
    running a shell). */
module ShellQuote {
  import opened Base
  import opened Text

  /** The characters shlex.quote leaves unquoted: `[\w@%+=:,./-]` in ASCII. */
  predicate IsSafe(c: char) {
    || ('a' <= c <= 'z') || ('A' <= c <= 'Z') || ('0' <= c <= '9')
    || c == '_' || c == '@' || c == '%' || c == '+' || c == '='
    || c == ':' || c == ',' || c == '.' || c == '/' || c == '-'
  }

  predicate AllSafe(s: string) {
    forall i :: 0 <= i < |s| ==> IsSafe(s[i])
  }

  /** s.replace("'", "'\"'\"'"): each single quote closes the quoted text,
      is given inside double quotes, and the quoted text is reopened. */
  function Escape(s: string): string {
    if s == [] then ""
    else (if s[0] == '\'' then "'\"'\"'" else [s[0]]) + Escape(s[1..])
  }

  /** shlex.quote: '' for the empty string, the string itself if every
      character is safe, and otherwise the string in single quotes. */
  function Quote(s: string): string {
    if s == [] then "''"
    else if AllSafe(s) then s
    else "'" + Escape(s) + "'"
  }

  /** The template holds exactly one conversion, `%s`, and no other `%`. */
  predicate HasOneSlot(template: string) {
    var k := IndexOf(template, '%');
    k + 1 < |template| && template[k + 1] == 's' && '%' !in template[k + 2..]
  }

  /** template % arg, for a template with a single `%s`. */
  function Substitute(template: string, arg: string): string
    requires HasOneSlot(template)
  {
    var k := IndexOf(template, '%');
    template[..k] + arg + template[k + 2..]
  }

  /** A template is text, `%s` and text, and substitution puts the argument
      in place of the `%s` and changes nothing else. */
  lemma SubstituteParts(before: string, after: string, arg: string)
    requires '%' !in before && '%' !in after
    ensures HasOneSlot(before + "%s" + after)
    ensures Substitute(before + "%s" + after, arg) == before + arg + after
  {
    var t := before + "%s" + after;
    var k := IndexOf(t, '%');
    IndexOfIsFirst(t, '%');
    assert t[|before|] == '%';
    assert forall i :: 0 <= i < |before| ==> t[i] == before[i];
    assert k == |before|;
    assert t[..k] == before;
    assert t[k + 2..] == after;
  }

  // The tokenizer.

  /** Characters that separate arguments. */
  predicate IsBlank(c: char) {
    c == ' ' || c == '\t' || c == '\n'
  }

  /** Characters with no special meaning inside an unquoted word. */
  predicate IsOrdinary(c: char) {
    !IsBlank(c) && c != '\'' && c != '"' && c != '\\'
  }

  /** Where the tokenizer is: between or inside unquoted text, just after
      a backslash, inside single or double quotes (just after a backslash
      there), or in a comment. */
  datatype Mode = Plain | Escaped | InSingle | InDouble | InDoubleEscaped | Comment

  /** The tokenizer's state: the mode, the argument being read (None
      between arguments) and the arguments completed so far. */
  datatype State = State(mode: Mode, word: Option<string>, words: seq<string>)

  const Start := State(Plain, None, [])

  /** Reading one character. */
  function Step(st: State, c: char): State {
    var cur := if st.word.Some? then st.word.value else "";
    match st.mode
    case Plain =>
      if IsBlank(c) then
        (if st.word.Some? then State(Plain, None, st.words + [st.word.value]) else st)
      else if c == '#' && st.word.None? then State(Comment, None, st.words)
      else if c == '\'' then State(InSingle, Some(cur), st.words)
      else if c == '"' then State(InDouble, Some(cur), st.words)
      else if c == '\\' then State(Escaped, st.word, st.words)
      else State(Plain, Some(cur + [c]), st.words)
    case Escaped =>
      if c == '\n' then State(Plain, st.word, st.words)
      else State(Plain, Some(cur + [c]), st.words)
    case InSingle =>
      if c == '\'' then State(Plain, st.word, st.words)
      else State(InSingle, Some(cur + [c]), st.words)
    case InDouble =>
      if c == '"' then State(Plain, st.word, st.words)
      else if c == '\\' then State(InDoubleEscaped, st.word, st.words)
      else State(InDouble, Some(cur + [c]), st.words)
    case InDoubleEscaped =>
      if c == '\n' then State(InDouble, st.word, st.words)
      else if c == '$' || c == '`' || c == '"' || c == '\\' then State(InDouble, Some(cur + [c]), st.words)
      else State(InDouble, Some(cur + ['\\', c]), st.words)
    case Comment =>
      if c == '\n' then State(Plain, None, st.words) else st
  }

  function Run(s: string, st: State): State
    decreases |s|
  {
    if s == [] then st else Run(s[1..], Step(st, s[0]))
  }

  /** The arguments of a command line, or None for an unterminated quote or
      a final backslash. */
  function Tokenize(s: string): Option<seq<string>> {
    var st := Run(s, Start);
    match st.mode
    case Plain => Some(if st.word.Some? then st.words + [st.word.value] else st.words)
    case Comment => Some(st.words)
    case _ => None
  }

  lemma {:induction false} RunConcat(a: string, b: string, st: State)
    ensures Run(a + b, st) == Run(b, Run(a, st))
    decreases |a|
  {
    if a == [] {
      assert a + b == b;
    } else {
      assert (a + b)[0] == a[0];
      assert (a + b)[1..] == a[1..] + b;
      RunConcat(a[1..], b, Step(st, a[0]));
    }
  }

  /** The state with the arguments `words` completed before those it holds. */
  function Shift(st: State, words: seq<string>): State {
    State(st.mode, st.word, words + st.words)
  }

  /** One character read after some completed arguments acts as it would
      with none. */
  lemma StepKeepsWords(st: State, c: char, words: seq<string>)
    ensures Step(Shift(st, words), c) == Shift(Step(st, c), words)
  {
    if st.mode == Plain && IsBlank(c) && st.word.Some? {
      assert words + st.words + [st.word.value] == words + (st.words + [st.word.value]);
    }
  }

  /** Arguments completed before do not influence the rest of the reading. */
  lemma {:induction false} RunKeepsWords(s: string, st: State, words: seq<string>)
    ensures Run(s, Shift(st, words)) == Shift(Run(s, st), words)
    decreases |s|
  {
    if s != [] {
      StepKeepsWords(st, s[0], words);
      RunKeepsWords(s[1..], Step(st, s[0]), words);
    }
  }

  /** Ordinary characters extend the current argument. */
  lemma {:induction false} RunOrdinary(s: string, w: string, words: seq<string>)
    requires forall i :: 0 <= i < |s| ==> IsOrdinary(s[i])
    ensures Run(s, State(Plain, Some(w), words)) == State(Plain, Some(w + s), words)
    decreases |s|
  {
    if s == [] {
      assert w + s == w;
    } else {
      assert IsOrdinary(s[0]);
      assert Step(State(Plain, Some(w), words), s[0]) == State(Plain, Some(w + [s[0]]), words);
      assert Run(s, State(Plain, Some(w), words)) == Run(s[1..], State(Plain, Some(w + [s[0]]), words));
      assert w + [s[0]] + s[1..] == w + s;
      RunOrdinary(s[1..], w + [s[0]], words);
    }
  }

  /** An unquoted word that does not start a comment is read as itself. */
  lemma RunWord(s: string, words: seq<string>)
    requires s != [] && s[0] != '#'
    requires forall i :: 0 <= i < |s| ==> IsOrdinary(s[i])
    ensures Run(s, State(Plain, None, words)) == State(Plain, Some(s), words)
  {
    assert IsOrdinary(s[0]);
    assert "" + [s[0]] == [s[0]];
    assert Step(State(Plain, None, words), s[0]) == State(Plain, Some([s[0]]), words);
    assert Run(s, State(Plain, None, words)) == Run(s[1..], State(Plain, Some([s[0]]), words));
    assert [s[0]] + s[1..] == s;
    RunOrdinary(s[1..], [s[0]], words);
  }

  lemma RunCons(c: char, s: string, st: State)
    ensures Run([c] + s, st) == Run(s, Step(st, c))
  {
    assert ([c] + s)[1..] == s;
  }

  /** Inside single quotes, the replacement of one single quote reads back
      as that quote. */
  lemma RunQuotedQuote(w: string, words: seq<string>)
    ensures Run("'\"'\"'", State(InSingle, Some(w), words)) == State(InSingle, Some(w + "'"), words)
  {
    var w' := w + "'";
    RunCons('\'', [], State(Plain, Some(w'), words));
    RunCons('"', "'", State(InDouble, Some(w'), words));
    RunCons('\'', "\"'", State(InDouble, Some(w), words));
    RunCons('"', "'\"'", State(Plain, Some(w), words));
    RunCons('\'', "\"'\"'", State(InSingle, Some(w), words));
    assert "'\"'\"'" == ['\''] + "\"'\"'";
    assert "\"'\"'" == ['"'] + "'\"'";
    assert "'\"'" == ['\''] + "\"'";
    assert "\"'" == ['"'] + "'";
    assert "'" == ['\''] + [];
  }

  /** Inside single quotes, escaped text reads back as the original. */
  lemma {:induction false} RunEscape(s: string, w: string, words: seq<string>)
    ensures Run(Escape(s), State(InSingle, Some(w), words)) == State(InSingle, Some(w + s), words)
    decreases |s|
  {
    if s == [] {
      assert w + s == w;
    } else {
      var head := if s[0] == '\'' then "'\"'\"'" else [s[0]];
      assert Escape(s) == head + Escape(s[1..]);
      RunConcat(head, Escape(s[1..]), State(InSingle, Some(w), words));
      if s[0] == '\'' {
        RunQuotedQuote(w, words);
      } else {
        RunCons(s[0], [], State(InSingle, Some(w), words));
      }
      assert Run(head, State(InSingle, Some(w), words)) == State(InSingle, Some(w + [s[0]]), words);
      assert w + [s[0]] + s[1..] == w + s;
      RunEscape(s[1..], w + [s[0]], words);
    }
  }

  /** The quoted string, read where an argument may start, is exactly one
      argument whose text is the original string. */
  lemma QuoteReadsBack(s: string, words: seq<string>)
    ensures Run(Quote(s), State(Plain, None, words)) == State(Plain, Some(s), words)
  {
    if s == [] {
    } else if AllSafe(s) {
      RunWord(s, words);
    } else {
      var open := State(InSingle, Some(""), words);
      RunConcat("'", Escape(s) + "'", State(Plain, None, words));
      RunConcat(Escape(s), "'", open);
      assert "'" + Escape(s) + "'" == "'" + (Escape(s) + "'");
      RunEscape(s, "", words);
      assert "" + s == s;
    }
  }

  /** Whatever characters a session name holds, once quoted and put into a
      command line at a point where an argument may start and followed by
      nothing or by a blank, it comes back from the tokenizer as exactly one
      argument equal to the name, between the arguments before it and those
      after it. */
  lemma QuotedArgument(before: string, name: string, after: string)
    requires Run(before, Start).mode == Plain && Run(before, Start).word == None
    requires after == [] || IsBlank(after[0])
    ensures var ws := Run(before, Start).words;
            Tokenize(before + Quote(name) + after) ==
              if Tokenize(after).Some? then Some(ws + [name] + Tokenize(after).value) else None
  {
    var ws := Run(before, Start).words;
    RunConcat(before, Quote(name) + after, Start);
    assert before + Quote(name) + after == before + (Quote(name) + after);
    RunConcat(Quote(name), after, State(Plain, None, ws));
    QuoteReadsBack(name, ws);
    if after == [] {
      assert Run(before + Quote(name) + after, Start) == State(Plain, Some(name), ws);
      assert Tokenize(after) == Some([]);
      assert ws + [name] + [] == ws + [name];
    } else {
      assert after == [after[0]] + after[1..];
      RunCons(after[0], after[1..], State(Plain, Some(name), ws));
      RunCons(after[0], after[1..], Start);
      assert Step(Start, after[0]) == Start;
      var r := Run(after[1..], Start);
      assert Run(after, Start) == r;
      RunKeepsWords(after[1..], Start, ws + [name]);
      assert Shift(Start, ws + [name]) == State(Plain, None, ws + [name]);
      var st := Run(before + Quote(name) + after, Start);
      assert st == State(r.mode, r.word, ws + [name] + r.words);
      assert (ws + [name] + r.words) + (if r.word.Some? then [r.word.value] else [])
          == ws + [name] + (r.words + (if r.word.Some? then [r.word.value] else []));
    }
  }

  /** The same for a template: a quoted name substituted for a `%s` that
      stands at the start of an argument comes back as one argument. */
  lemma SubstitutedName(template: string, name: string)
    requires HasOneSlot(template)
    requires var k := IndexOf(template, '%');
      && Run(template[..k], Start).mode == Plain && Run(template[..k], Start).word == None
      && (k + 2 == |template| || IsBlank(template[k + 2]))
    ensures var k := IndexOf(template, '%');
            var after := template[k + 2..];
            Tokenize(Substitute(template, Quote(name))) ==
              if Tokenize(after).Some? then Some(Run(template[..k], Start).words + [name] + Tokenize(after).value)
              else None
  {
    var k := IndexOf(template, '%');
    QuotedArgument(template[..k], name, template[k + 2..]);
  }
}
