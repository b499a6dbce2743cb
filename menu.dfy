/** The menu renderer and the entry point: sessions become menu items that
    reattach to them, and every failure becomes a menu of one item that
    shows the failure's message. The menu is modelled as the list of its
    items; serialising it as XML and writing it out are not modelled. */
module Menu {
  import opened Base
  import opened Text
  import opened Lister
  import opened SessionParser
  import opened Resolver
  import opened ShellQuote

  /** One `item` element: its label attribute (text), and the command of its Execute action
      if it has one. */
  datatype Item = Item(text: string, command: Option<string>)

  type Menu = seq<Item>

  const NoSessions := "no sessions"
  const StartedAt := " started at "
  const AttachedMark := " (attached)"

  /** error_message_to_xml: a menu of one item, labelled with the message,
      that does nothing. */
  function ErrorMessageMenu(message: string): (menu: Menu)
    ensures |menu| == 1 && menu[0].text == message && menu[0].command.None?
  {
    [Item(message, None)]
  }

  /** session_label: the name, " started at " and the creation time as
      local ISO 8601 text (given by isoTime), followed by " (attached)"
      when int() of the attached field is not zero. */
  function SessionLabel(s: Session, isoTime: string -> string): string
    requires IsNumeral(s.attached)
  {
    var stem := s.name + StartedAt + isoTime(s.timestamp);
    if DecimalValue(s.attached) != 0 then stem + AttachedMark else stem
  }

  /** The label is the stem with the mark exactly when int() of the
      attached field is not zero, and the bare stem exactly when it is zero;
      for a parsed record, the mark appears exactly when that field is "1". */
  lemma SessionLabelAttached(s: Session, isoTime: string -> string)
    requires IsNumeral(s.attached)
    ensures var stem := s.name + StartedAt + isoTime(s.timestamp);
            var caption := SessionLabel(s, isoTime);
            && (caption == stem + AttachedMark <==> DecimalValue(s.attached) != 0)
            && (caption == stem <==> DecimalValue(s.attached) == 0)
            && (IsRecord(s) ==> (caption == stem + AttachedMark <==> s.attached == "1"))
  {
    var stem := s.name + StartedAt + isoTime(s.timestamp);
    assert DecimalValue("0") == 0 && DecimalValue("1") == 1;
    assert |stem + AttachedMark| != |stem|;
  }

  /** The item for one session: its label, and the template with the
      shell-quoted session name put in place of `%s`. */
  function SessionItem(s: Session, template: string, isoTime: string -> string): Item
    requires IsNumeral(s.attached) && HasOneSlot(template)
  {
    Item(SessionLabel(s, isoTime), Some(Substitute(template, Quote(s.name))))
  }

  /** The template resolution succeeds with a template that has one `%s`
      and no other `%`, or fails. */
  predicate TemplateFits(configured: Option<string>, pathEnv: Option<string>, existing: set<string>) {
    var t := AttachTemplate(configured, pathEnv, existing);
    t.Ok? ==> HasOneSlot(t.value)
  }

  /** session_list_to_xml: no sessions give the "no sessions" menu without
      resolving the template; otherwise the template is resolved (its
      ConfigError propagates) and there is one item per session, in order. */
  method SessionListToMenu(sessions: seq<Session>, configured: Option<string>, pathEnv: Option<string>,
                           existing: set<string>, isoTime: string -> string)
    returns (r: Result<Menu>)
    requires forall i :: 0 <= i < |sessions| ==> IsNumeral(sessions[i].attached)
    requires sessions != [] ==> TemplateFits(configured, pathEnv, existing)
    ensures sessions == [] ==> r == Ok(ErrorMessageMenu(NoSessions))
    ensures sessions != [] && AttachTemplate(configured, pathEnv, existing).Err? ==>
              r == Err(ConfigError(NoTerminal))
    ensures sessions != [] && AttachTemplate(configured, pathEnv, existing).Ok? ==>
              && r.Ok? && |r.value| == |sessions|
              && forall i :: 0 <= i < |sessions| ==>
                   r.value[i] == SessionItem(sessions[i], AttachTemplate(configured, pathEnv, existing).value, isoTime)
    ensures sessions != [] && AttachTemplate(configured, pathEnv, existing).Ok? ==>
              r == Ok(ItemsOf(sessions, AttachTemplate(configured, pathEnv, existing).value, isoTime))
  {
    if sessions == [] {
      return Ok(ErrorMessageMenu(NoSessions));
    }
    var template := ReattachCmdTemplate(configured, pathEnv, existing);
    if template.Err? {
      return Err(template.error);
    }
    var item := SessionItemOf(template.value, isoTime);
    var items: Menu := [];
    for i := 0 to |sessions|
      invariant items == Map(item, sessions[..i])
    {
      PrefixOfPrefix(sessions, i, i + 1);
      items := items + [SessionItem(sessions[i], template.value, isoTime)];
    }
    assert sessions[..|sessions|] == sessions;
    ItemsOfItem(sessions, template.value, isoTime);
    return Ok(items);
  }

  /** The item of a session under a template, as a function of the session. */
  function SessionItemOf(template: string, isoTime: string -> string): Session --> Item {
    (s: Session) requires IsNumeral(s.attached) && HasOneSlot(template) => SessionItem(s, template, isoTime)
  }

  /** The items of the sessions, one per session, in order. */
  function ItemsOf(sessions: seq<Session>, template: string, isoTime: string -> string): Menu
    requires forall i :: 0 <= i < |sessions| ==> IsNumeral(sessions[i].attached)
    requires HasOneSlot(template)
  {
    Map(SessionItemOf(template, isoTime), sessions)
  }

  /** Item i of the menu is the item of session i. */
  lemma ItemsOfItem(sessions: seq<Session>, template: string, isoTime: string -> string)
    requires forall i :: 0 <= i < |sessions| ==> IsNumeral(sessions[i].attached)
    requires HasOneSlot(template)
    ensures |ItemsOf(sessions, template, isoTime)| == |sessions|
    ensures forall i :: 0 <= i < |sessions| ==>
              ItemsOf(sessions, template, isoTime)[i] == SessionItem(sessions[i], template, isoTime)
  {
  }

  /** The menu has one item per session, in order: the session's label,
      and the template with the session's quoted name. */
  lemma ItemsOfAt(sessions: seq<Session>, template: string, isoTime: string -> string)
    requires forall i :: 0 <= i < |sessions| ==> IsNumeral(sessions[i].attached)
    requires HasOneSlot(template)
    ensures var items := ItemsOf(sessions, template, isoTime);
            && |items| == |sessions|
            && forall i :: 0 <= i < |sessions| ==>
                 && items[i].text == SessionLabel(sessions[i], isoTime)
                 && items[i].command == Some(Substitute(template, Quote(sessions[i].name)))
  {
  }

  /** parse_sessions(list_sessions_cmd()): the sessions, or the first
      TmuxError raised on the way. */
  function ListedSessions(listing: Outcome): (r: Result<seq<Session>>)
    ensures ClassifyListing(listing).Err? ==> r == Err(ClassifyListing(listing).error)
    ensures r.Ok? ==> forall i :: 0 <= i < |r.value| ==> IsRecord(r.value[i])
  {
    match ClassifyListing(listing)
    case Err(e) => Err(e)
    case Ok(text) =>
      ParsedAreRecords(Lines(text));
      ParseSessions(text)
  }

  /** Parsed records carry a decimal attached field. */
  lemma RecordsAreNumeral(sessions: seq<Session>)
    requires forall i :: 0 <= i < |sessions| ==> IsRecord(sessions[i])
    ensures forall i :: 0 <= i < |sessions| ==> IsNumeral(sessions[i].attached)
  {
    forall i | 0 <= i < |sessions| ensures IsNumeral(sessions[i].attached) {
      assert IsRecord(sessions[i]);
    }
  }

  /** The listing gives at least one session, the only case in which main
      resolves the template and substitutes into it. */
  predicate ListsSessions(listing: Outcome) {
    ListedSessions(listing).Ok? && ListedSessions(listing).value != []
  }

  /** What main prints: the menu of the listed sessions, or the menu of one
      item naming the TmuxError or ConfigError that stopped it. */
  function MenuFor(listing: Outcome, configured: Option<string>, pathEnv: Option<string>,
                   existing: set<string>, isoTime: string -> string): Menu
    requires ListsSessions(listing) ==> TemplateFits(configured, pathEnv, existing)
  {
    match ListedSessions(listing)
    case Err(e) => ErrorMessageMenu(e.message)
    case Ok(sessions) =>
      if sessions == [] then ErrorMessageMenu(NoSessions)
      else
        match AttachTemplate(configured, pathEnv, existing)
        case Err(e) => ErrorMessageMenu(e.message)
        case Ok(template) =>
          RecordsAreNumeral(sessions);
          ItemsOf(sessions, template, isoTime)
  }

  /** main: lists the sessions, builds the menu and catches TmuxError and
      ConfigError, turning them into a one-item menu. */
  method PipeMenu(listing: Outcome, configured: Option<string>, pathEnv: Option<string>,
                  existing: set<string>, isoTime: string -> string)
    returns (menu: Menu)
    requires ListsSessions(listing) ==> TemplateFits(configured, pathEnv, existing)
    ensures menu == MenuFor(listing, configured, pathEnv, existing, isoTime)
  {
    var text := ClassifyListing(listing);
    if text.Err? {
      return ErrorMessageMenu(text.error.message);
    }
    var sessions := ParseSessions(text.value);
    if sessions.Err? {
      return ErrorMessageMenu(sessions.error.message);
    }
    assert ListedSessions(listing) == sessions;
    RecordsAreNumeral(sessions.value);
    var items := SessionListToMenu(sessions.value, configured, pathEnv, existing, isoTime);
    if items.Err? {
      return ErrorMessageMenu(items.error.message);
    }
    return items.value;
  }

  /** The menu is never empty: it is either a single item without a command
      or all its items have one. */
  lemma MenuShape(listing: Outcome, configured: Option<string>, pathEnv: Option<string>,
                  existing: set<string>, isoTime: string -> string)
    requires ListsSessions(listing) ==> TemplateFits(configured, pathEnv, existing)
    ensures var menu := MenuFor(listing, configured, pathEnv, existing, isoTime);
            && |menu| >= 1
            && ((|menu| == 1 && menu[0].command.None?) || forall i :: 0 <= i < |menu| ==> menu[i].command.Some?)
  {
    var listed := ListedSessions(listing);
    var template := AttachTemplate(configured, pathEnv, existing);
    if listed.Ok? && listed.value != [] && template.Ok? {
      RecordsAreNumeral(listed.value);
      ItemsOfAt(listed.value, template.value, isoTime);
    }
  }

  /** What main prints when the listing does not succeed: a failure to run
      tmux shows its stripped detail; a failing exit whose standard error
      says "no server running" or is the missing-socket message shows
      "no sessions"; any other failing exit shows its stripped standard
      error. */
  lemma MenuOfFailedListing(listing: Outcome, configured: Option<string>, pathEnv: Option<string>,
                            existing: set<string>, isoTime: string -> string)
    ensures listing.SpawnFailed? ==>
              MenuFor(listing, configured, pathEnv, existing, isoTime) == ErrorMessageMenu(Strip(listing.detail))
    ensures listing.Exited? && listing.code != 0 && (SaysNoServer(listing.err) || IsConnectError(listing.err)) ==>
              ListedSessions(listing) == Ok([])
    ensures listing.Exited? && listing.code != 0 && (SaysNoServer(listing.err) || IsConnectError(listing.err)) ==>
              MenuFor(listing, configured, pathEnv, existing, isoTime) == ErrorMessageMenu(NoSessions)
    ensures listing.Exited? && listing.code != 0 && !SaysNoServer(listing.err) && !IsConnectError(listing.err) ==>
              ListedSessions(listing) == Err(TmuxCommandError(Strip(listing.err)))
    ensures listing.Exited? && listing.code != 0 && !SaysNoServer(listing.err) && !IsConnectError(listing.err) ==>
              MenuFor(listing, configured, pathEnv, existing, isoTime) == ErrorMessageMenu(Strip(listing.err))
  {
    ListingOutcomes(listing);
    if listing.Exited? && listing.code != 0 && ClassifyListing(listing).Ok? {
      assert Lines("") == [];
      assert ListedSessions(listing) == Ok([]);
    }
  }

  /** An empty listing gives the "no sessions" menu whatever the template,
      which is then never resolved: one without `%s` is accepted too. */
  lemma EmptyListingMenu(err: string, configured: Option<string>, pathEnv: Option<string>,
                         existing: set<string>, isoTime: string -> string)
    ensures ListedSessions(Exited(0, "", err)) == Ok([])
    ensures MenuFor(Exited(0, "", err), configured, pathEnv, existing, isoTime) == ErrorMessageMenu(NoSessions)
  {
    assert Lines("") == [];
  }

  /** With sessions listed, the menu is the one item "can't find terminal
      emulator" exactly when the template resolution fails. */
  lemma MenuFailsWithTemplate(listing: Outcome, configured: Option<string>, pathEnv: Option<string>,
                              existing: set<string>, isoTime: string -> string)
    requires TemplateFits(configured, pathEnv, existing)
    requires ListedSessions(listing).Ok? && ListedSessions(listing).value != []
    ensures MenuFor(listing, configured, pathEnv, existing, isoTime) == ErrorMessageMenu(NoTerminal) <==>
              AttachTemplate(configured, pathEnv, existing).Err?
  {
    var sessions := ListedSessions(listing).value;
    var template := AttachTemplate(configured, pathEnv, existing);
    if template.Ok? {
      RecordsAreNumeral(sessions);
      ItemsOfAt(sessions, template.value, isoTime);
      assert MenuFor(listing, configured, pathEnv, existing, isoTime)[0].command.Some?;
    }
  }

  /** With sessions listed and no configured template, the menu is the one
      item "can't find terminal emulator" exactly when neither urxvt nor
      xterm exists in any searched directory. */
  lemma MenuWithoutTerminal(listing: Outcome, pathEnv: Option<string>, existing: set<string>,
                            isoTime: string -> string)
    requires TemplateFits(None, pathEnv, existing)
    requires ListedSessions(listing).Ok? && ListedSessions(listing).value != []
    ensures MenuFor(listing, None, pathEnv, existing, isoTime) == ErrorMessageMenu(NoTerminal) <==>
              forall i, j :: 0 <= i < |Terminals| && 0 <= j < |PathDirs(pathEnv)| ==>
                PathJoin(PathDirs(pathEnv)[j], Terminals[i]) !in existing
  {
    MenuFailsWithTemplate(listing, None, pathEnv, existing, isoTime);
    NoTerminalIff(pathEnv, existing);
  }

  /** A listing of n records printed by tmux, read back, gives those n
      records. */
  lemma ListedRecords(records: seq<Session>, err: string)
    requires forall i :: 0 <= i < |records| ==> IsRecord(records[i]) && NoBreaks(records[i].name)
    ensures var text := JoinLines(seq(|records|, i requires 0 <= i < |records| => Render(records[i])));
            ListedSessions(Exited(0, text, err)) == Ok(records)
  {
    ParseRendered(records);
  }

  /** With sessions listed and a template resolved, the menu has one item
      per session, in the same order: the session's label, and the template
      with the session's quoted name. */
  lemma MenuOfSessions(listing: Outcome, configured: Option<string>, pathEnv: Option<string>,
                       existing: set<string>, isoTime: string -> string)
    requires TemplateFits(configured, pathEnv, existing)
    requires ListedSessions(listing).Ok? && ListedSessions(listing).value != []
    requires AttachTemplate(configured, pathEnv, existing).Ok?
    ensures var sessions := ListedSessions(listing).value;
            var template := AttachTemplate(configured, pathEnv, existing).value;
            var menu := MenuFor(listing, configured, pathEnv, existing, isoTime);
            && |menu| == |sessions|
            && forall i :: 0 <= i < |sessions| ==>
                 && (IsNumeral(sessions[i].attached) && menu[i].text == SessionLabel(sessions[i], isoTime))
                 && menu[i].command == Some(Substitute(template, Quote(sessions[i].name)))
  {
    var sessions := ListedSessions(listing).value;
    RecordsAreNumeral(sessions);
    ItemsOfAt(sessions, AttachTemplate(configured, pathEnv, existing).value, isoTime);
  }

  /** A malformed line anywhere in a successful listing discards the whole
      listing: the menu is the single item naming the first such line. */
  lemma MalformedListing(out: string, err: string, k: int, configured: Option<string>,
                         pathEnv: Option<string>, existing: set<string>, isoTime: string -> string)
    requires FirstMalformed(Lines(out), k)
    ensures ListedSessions(Exited(0, out, err)) == Err(TmuxParseError(ParseErrorPrefix + Lines(out)[k]))
    ensures MenuFor(Exited(0, out, err), configured, pathEnv, existing, isoTime) ==
              ErrorMessageMenu(ParseErrorPrefix + Lines(out)[k])
  {
    FirstMalformedReported(Lines(out), k);
  }

  /** A template made from a found terminal has its one `%s`, provided the
      terminal's path has no `%`. */
  lemma SearchedTemplateFits(term: string)
    requires '%' !in term
    ensures HasOneSlot(term + AttachSuffix)
  {
    AttachSuffixParts();
    assert term + AttachSuffix == (term + AttachArgs) + "%s" + "";
    SubstituteParts(term + AttachArgs, "", "");
  }

  /** Reading a blank and then an unquoted word ends the current argument
      and starts the next. */
  lemma RunBlankWord(w: string, x: string, words: seq<string>)
    requires w != [] && w[0] != '#'
    requires forall i :: 0 <= i < |w| ==> IsOrdinary(w[i])
    ensures Run(" " + w, State(Plain, Some(x), words)) == State(Plain, Some(w), words + [x])
  {
    RunCons(' ', w, State(Plain, Some(x), words));
    RunWord(w, words + [x]);
  }

  /** The fixed part of the synthesised template, before `%s`. */
  const AttachArgs := " -e tmux attach -d -t "

  lemma AttachSuffixParts()
    ensures AttachSuffix == AttachArgs + "%s" + ""
    ensures '%' !in AttachArgs
  {
  }

  /** An argument the tokenizer reads as it stands: non-empty, not opening
      a comment, and free of blanks, quotes and backslashes. */
  predicate PlainWord(w: string) {
    w != [] && w[0] != '#' && forall i :: 0 <= i < |w| ==> IsOrdinary(w[i])
  }

  /** The words, each preceded by one blank. */
  function Spaced(ws: seq<string>): (r: string)
    ensures |r| >= |ws|
  {
    if ws == [] then "" else " " + ws[0] + Spaced(ws[1..])
  }

  lemma SpacedCons(p: string, ws: seq<string>)
    requires ws != []
    ensures p + (Spaced(ws) + " ") == (p + (" " + ws[0])) + (Spaced(ws[1..]) + " ")
  {
    Regroup(p, " " + ws[0], Spaced(ws[1..]), " ");
  }

  /** The fixed tmux arguments of the synthesised template. */
  const FixedArgs := ["-e", "tmux", "attach", "-d", "-t"]

  lemma FixedArgsSpaced()
    ensures AttachArgs == Spaced(FixedArgs) + " "
  {
  }

  lemma FixedWordsPlain()
    ensures PlainWord("-e") && PlainWord("tmux") && PlainWord("attach") && PlainWord("-d") && PlainWord("-t")
  {
  }

  lemma FixedArgsPlain()
    ensures forall i :: 0 <= i < |FixedArgs| ==> PlainWord(FixedArgs[i])
  {
    FixedWordsPlain();
  }

  /** A final blank closes the open argument. */
  lemma RunFinalBlank(p: string, x: string, words: seq<string>)
    requires Run(p, Start) == State(Plain, Some(x), words)
    ensures Run(p + " ", Start) == State(Plain, None, words + [x])
  {
    RunConcat(p, " ", Start);
    RunCons(' ', [], State(Plain, Some(x), words));
    assert [' '] + [] == " ";
  }

  /** A blank and a plain word close the open argument and open the word. */
  lemma RunNextWord(p: string, x: string, words: seq<string>, w: string)
    requires PlainWord(w)
    requires Run(p, Start) == State(Plain, Some(x), words)
    ensures Run(p + (" " + w), Start) == State(Plain, Some(w), words + [x])
  {
    RunConcat(p, " " + w, Start);
    RunBlankWord(w, x, words);
  }

  /** After a prefix that ends inside an unquoted argument `x`, further
      blank-separated plain words and a final blank close `x` and each of
      the words, in order. */
  lemma {:induction false} RunSpaced(p: string, x: string, words: seq<string>, ws: seq<string>)
    requires forall i :: 0 <= i < |ws| ==> PlainWord(ws[i])
    requires Run(p, Start) == State(Plain, Some(x), words)
    ensures Run(p + (Spaced(ws) + " "), Start) == State(Plain, None, words + [x] + ws)
    decreases |ws|
  {
    if ws == [] {
      assert Spaced(ws) + " " == " ";
      RunFinalBlank(p, x, words);
      assert words + [x] + ws == words + [x];
    } else {
      var w := ws[0];
      assert PlainWord(w);
      RunNextWord(p, x, words, w);
      RunSpaced(p + (" " + w), w, words + [x], ws[1..]);
      SpacedCons(p, ws);
      assert words + [x] + [w] + ws[1..] == words + [x] + ws;
    }
  }

  /** A plain word followed by blank-separated plain words and a final
      blank reads as those words, with no argument left open. */
  lemma RunPlainWords(first: string, rest: string, ws: seq<string>)
    requires PlainWord(first)
    requires rest == Spaced(ws) + " "
    requires forall i :: 0 <= i < |ws| ==> PlainWord(ws[i])
    ensures Run(first + rest, Start) == State(Plain, None, [first] + ws)
  {
    RunWord(first, []);
    RunSpaced(first, first, [], ws);
    assert [] + [first] + ws == [first] + ws;
  }

  /** Reading the terminal and the fixed arguments leaves the tokenizer
      between arguments, with those arguments read. */
  lemma RunAttachArgs(term: string)
    requires PlainWord(term)
    ensures Run(term + AttachArgs, Start) == State(Plain, None, [term] + FixedArgs)
  {
    FixedArgsSpaced();
    FixedArgsPlain();
    RunPlainWords(term, AttachArgs, FixedArgs);
  }

  /** The command of a session item when the template was made from a
      found terminal: the tokenizer gives the terminal, the fixed tmux
      arguments and the session name as the last argument, whatever
      characters the name holds. The terminal path must be a plain word
      (no blanks, quotes or backslashes, not starting with '#'). */
  lemma AttachCommandArguments(term: string, name: string)
    requires PlainWord(term) && '%' !in term
    ensures HasOneSlot(term + AttachSuffix)
    ensures Tokenize(Substitute(term + AttachSuffix, Quote(name))) == Some([term] + FixedArgs + [name])
  {
    AttachSuffixParts();
    var before := term + AttachArgs;
    assert term + AttachSuffix == before + "%s" + "";
    SubstituteParts(before, "", Quote(name));
    RunAttachArgs(term);
    QuotedArgument(before, name, "");
    assert Tokenize("") == Some([]);
    assert [term] + FixedArgs + [name] + [] == [term] + FixedArgs + [name];
  }
}
