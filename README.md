# openbox-tmux-pipe-menu, modelled in Dafny

`openbox-tmux-pipe-menu.py` is an Openbox pipe menu that lists the running
tmux sessions. Each menu item reattaches to one session in a terminal
emulator. The program:

- runs `tmux list-sessions` with the format
  `#{session_attached} #{session_created} #{session_name}` and classifies the
  outcome: listing text, "no sessions" (no server running, or the socket is
  missing), or a `TmuxCommandError`;
- splits the text into lines (`str.splitlines`) and parses each line against
  `^([01]) ([0-9]+) (.*)$`; the first line that does not match raises a
  `TmuxParseError`;
- resolves the command template, either the `attach-command-template` option
  of section `pipe-menu` in the configuration file or
  `<terminal> -e tmux attach -d -t %s`, where `<terminal>` is the first of
  `urxvt` and `xterm` found on `PATH` (`find_executable`); a missing terminal
  raises a `ConfigError`;
- builds one item per session, labelled `name started at <ISO time>`, plus
  ` (attached)` when attached. The item's command is the template with
  `pipes.quote(name)` substituted for `%s`;
- turns every `TmuxError` or `ConfigError` into a one-item menu labelled with
  the error's message.

The model has seven modules:

- `Base`: `Option`, `Result`, the three exception classes, and a generic
  `Map`.
- `Text`: `str.strip`, the `in` substring test, the search for a character and decimal digits.
- `Lister`: `list_sessions_cmd` after the process has run.
- `SessionParser`: `parse_sessions` and `parse_session_line`.
- `Resolver`: `find_executable` and `reattach_cmd_template`.
- `ShellQuote`: `pipes.quote`, the `%` substitution, and a tokenizer in the
  manner of GLib's `g_shell_parse_argv`. Openbox splits the command with that
  function, so the model proves that a quoted session name comes back as
  exactly one argument.
- `Menu`: `session_label`, `session_list_to_xml`, `error_message_to_xml` and
  `main`.

`find_executable`, `reattach_cmd_template`, `session_list_to_xml` and `main`
are loops or sequences of steps that raise. They are methods, each proved
against a specification function: `FirstExisting`, `AttachTemplate`,
`ItemsOf` and `MenuFor`. The methods follow the source statement by
statement, with a `raise` as an early return of an error. The functions
state the same result as one expression, and the lemmas about the program's
behaviour are proved about the functions, since a lemma cannot call a
method. The rest is pure and is modelled by functions and lemmas.

Points where the program's behaviour is worth noting:

- The error item's label is `str(err)`, the message alone, with no error kind.
  Under Python 3 an exception has no `message` attribute, so
  `hasattr(err, 'message')` is always false.
- Only a missing section or option falls back to the terminal search. Any
  other configuration problem propagates out of `main` and is not modelled.
- A line with an empty session name (`"1 5 "`) is accepted.
- The attached field must be `0` or `1`. Any other count makes the whole
  listing fail to parse.

## Model

| member | source | states |
|---|---|---|
| Lister.ListingOutcomes | openbox-tmux-pipe-menu.py:40-48 | A failure to run tmux gives `TmuxCommandError` of the stripped detail. Exit 0 gives stdout unchanged. A failing exit whose stderr contains "no server running", or matches the missing-socket message, gives empty text. Any other failing exit gives `TmuxCommandError` of the stripped stderr. |
| Lister.MatchesAnchoredIff | openbox-tmux-pipe-menu.py:46 | The scanning matcher accepts stderr exactly when it is the prefix, a non-empty middle without newlines and the suffix. One final newline is allowed, as `$` allows it. |
| Lister.MatchesAnchoredSound | openbox-tmux-pipe-menu.py:46 | Whatever the matcher accepts is the anchored pattern. |
| Lister.MatchesAnchoredComplete | openbox-tmux-pipe-menu.py:46 | Every text of the anchored shape is accepted. |
| Lister.MissingSocketMeansNoSessions | openbox-tmux-pipe-menu.py:46-47 | A failing exit with the missing-socket message, for any socket path on one line, gives empty text, with or without a final newline. |
| Lister.MalformedSocketMessage | openbox-tmux-pipe-menu.py:46 | An empty socket path, or one that spans lines, does not match the missing-socket pattern. |
| Text.StripSpec | openbox-tmux-pipe-menu.py:48 | `strip` gives a slice of the input that neither starts nor ends with white space, with only white space around it. |
| Text.TrimLeftSpec | openbox-tmux-pipe-menu.py:48 | `lstrip` keeps a suffix and drops only white space, and the suffix does not start with white space. |
| Text.TrimRightSpec | openbox-tmux-pipe-menu.py:48 | `rstrip` keeps a prefix and drops only white space, and the prefix does not end with white space. |
| Text.IndexOfIsFirst | openbox-tmux-pipe-menu.py:105 | The index found is that of the first occurrence of the character, or the length when there is none; it splits PATH at ':' and finds the `%s` of a template. |
| Text.ContainsIff | openbox-tmux-pipe-menu.py:44 | The `in` scan succeeds exactly when the substring occurs at some index. |
| SessionParser.LinesHaveNoBreaks | openbox-tmux-pipe-menu.py:51 | No line from `splitlines` holds a line boundary. Only empty text has no lines. |
| SessionParser.LinesOfJoined | openbox-tmux-pipe-menu.py:51 | Lines without boundaries, each printed with a newline, split back into exactly those lines. |
| SessionParser.TrailingNewlineAddsNoLine | openbox-tmux-pipe-menu.py:51 | One final newline adds no line. |
| SessionParser.LinesCons | openbox-tmux-pipe-menu.py:51 | A line without boundaries followed by a newline is the first line, and the rest splits on its own. |
| SessionParser.ParseLineSound | openbox-tmux-pipe-menu.py:53-60 | An accepted line matches the pattern with exactly the returned groups. A rejected line raises `TmuxParseError("parse error: " + line)`. |
| SessionParser.ParseLineComplete | openbox-tmux-pipe-menu.py:54-60 | Every line that matches the pattern with some groups is accepted with those groups. |
| SessionParser.AcceptedMatches | openbox-tmux-pipe-menu.py:54-57 | The groups cut out of a line that passes the checks match it. |
| SessionParser.ParseAll | openbox-tmux-pipe-menu.py:51 | The list comprehension succeeds exactly when every line parses. It then returns one session per line, in order, each the line's own parse. |
| SessionParser.ParsedAreRecords | openbox-tmux-pipe-menu.py:55 | Every parsed session has attached "0" or "1", a decimal timestamp and no newline in its name. |
| SessionParser.FirstMalformedReported | openbox-tmux-pipe-menu.py:50-59 | If any line is malformed, the parse fails with the error of the first such line and returns no sessions. |
| SessionParser.ParseSessions | openbox-tmux-pipe-menu.py:50-51 | Empty text gives no sessions. |
| SessionParser.ParseRendered | openbox-tmux-pipe-menu.py:50-60 | The records tmux prints in the list format, one per line, parse back to the same records, in order. |
| SessionParser.RenderedIsOneLine | openbox-tmux-pipe-menu.py:29 | A printed record holds no line boundary. |
| SessionParser.RejectsFlag | openbox-tmux-pipe-menu.py:55-59 | A line whose first character is neither 0 nor 1 is rejected. |
| SessionParser.RejectsMissingName | openbox-tmux-pipe-menu.py:55-59 | A line that ends right after the timestamp is rejected. |
| SessionParser.AcceptsEmptyName | openbox-tmux-pipe-menu.py:55-60 | A flag, a timestamp and a trailing space give a session with an empty name. |
| Resolver.SplitPathJoins | openbox-tmux-pipe-menu.py:105 | The PATH pieces hold no ':', and joined back with ':' they give the original string. |
| Resolver.PathJoinParts | openbox-tmux-pipe-menu.py:108 | The joined path ends with the name. An absolute name is the whole path. Otherwise the path starts with the directory. |
| Resolver.FirstExistingNone | openbox-tmux-pipe-menu.py:104-110 | The search finds nothing exactly when no name exists in any directory. |
| Resolver.FirstExistingHit | openbox-tmux-pipe-menu.py:104-110 | The search returns the first hit in search order: names outer, directories inner. |
| Resolver.FindExecutable | openbox-tmux-pipe-menu.py:104-110 | The nested loops return what the search order specifies. |
| Resolver.AttachTemplate | openbox-tmux-pipe-menu.py:86-96 | A failed resolution is `ConfigError("can't find terminal emulator")`. |
| Resolver.ReattachCmdTemplate | openbox-tmux-pipe-menu.py:86-96 | The method returns the specified template resolution. |
| Resolver.ConfiguredWins | openbox-tmux-pipe-menu.py:89-90 | A configured template is used verbatim, whatever the search would find. |
| Resolver.NoTerminalIff | openbox-tmux-pipe-menu.py:93-95 | Without a configured template, resolution fails exactly when neither urxvt nor xterm exists in any searched directory. |
| Resolver.UrxvtPreferred | openbox-tmux-pipe-menu.py:93-96 | urxvt from its first directory wins, even when xterm sits in an earlier one. |
| Resolver.XtermFallback | openbox-tmux-pipe-menu.py:93-96 | Without urxvt anywhere, xterm from its first directory is used. |
| ShellQuote.SubstituteParts | openbox-tmux-pipe-menu.py:76 | A template of text, `%s` and text without other `%` has one slot. Substitution puts the argument in place of `%s` and changes nothing else. |
| ShellQuote.QuoteReadsBack | openbox-tmux-pipe-menu.py:73-76 | The tokenizer reads a quoted string back as one argument equal to the original, whatever characters it holds. |
| ShellQuote.QuotedArgument | openbox-tmux-pipe-menu.py:73-76 | A quoted name placed where an argument starts, followed by nothing or a blank, comes back as one argument between the arguments around it. |
| ShellQuote.SubstitutedName | openbox-tmux-pipe-menu.py:73-76 | The same holds for a name substituted into a template whose `%s` stands at the start of an argument. |
| ShellQuote.RunKeepsWords | openbox-tmux-pipe-menu.py:73-76 | Arguments completed earlier stay in front, unchanged, whatever follows: the tokenizer only appends. |
| Menu.ErrorMessageMenu | openbox-tmux-pipe-menu.py:98-102 | The error menu is one item labelled with the message, with no action. |
| Menu.SessionLabelAttached | openbox-tmux-pipe-menu.py:79-84 | The label is the name, " started at " and the time, plus " (attached)" exactly when int() of the attached field is not zero. For a parsed session that is exactly when the field is "1". |
| Menu.SessionListToMenu | openbox-tmux-pipe-menu.py:62-77 | No sessions give the "no sessions" menu, whatever the template. Otherwise a failed template propagates its `ConfigError`. Otherwise the items are `ItemsOf` the sessions: one per session, in order, each with the session's label and command. |
| Menu.ItemsOfAt | openbox-tmux-pipe-menu.py:67-76 | The items are the sessions' labels and substituted commands, one per session, in order. |
| Menu.ListedSessions | openbox-tmux-pipe-menu.py:114 | A listing error propagates unchanged. Listed sessions are well-formed records. |
| Menu.PipeMenu | openbox-tmux-pipe-menu.py:112-117 | `main` prints the specified menu for every outcome of the listing and the resolution. |
| Menu.MenuShape | openbox-tmux-pipe-menu.py:112-117 | The menu is never empty. It is either a single item without a command, or every item has a command. |
| Menu.MenuOfFailedListing | openbox-tmux-pipe-menu.py:112-117 | Whatever the template: a failure to run tmux shows its stripped detail. A "no server" or missing-socket failure lists no sessions and shows "no sessions". Any other failing exit raises `TmuxCommandError` and shows its stripped stderr. |
| Menu.EmptyListingMenu | openbox-tmux-pipe-menu.py:62-64 | An empty listing lists no sessions and gives the "no sessions" menu, whatever the template, even one without `%s`. |
| Menu.MenuFailsWithTemplate | openbox-tmux-pipe-menu.py:112-117 | With sessions listed, the menu is "can't find terminal emulator" exactly when the template resolution fails. |
| Menu.MenuWithoutTerminal | openbox-tmux-pipe-menu.py:93-95 | With sessions listed and no configured template, that happens exactly when neither terminal exists anywhere on the path. |
| Menu.MenuOfSessions | openbox-tmux-pipe-menu.py:62-84 | With sessions listed and a template resolved, there is one item per session, in order: its label, and the template with its quoted name. |
| Menu.ListedRecords | openbox-tmux-pipe-menu.py:42-60 | The records tmux prints, listed with exit 0, are the sessions read back. |
| Menu.MalformedListing | openbox-tmux-pipe-menu.py:112-117 | Whatever the template, a malformed line anywhere in a successful listing discards it: the menu is the single item naming the first such line. |
| Menu.SearchedTemplateFits | openbox-tmux-pipe-menu.py:96 | A template built from a found terminal has exactly one `%s`, provided the terminal path has no `%`. |
| Menu.AttachCommandArguments | openbox-tmux-pipe-menu.py:73-76 | The command built from a found terminal tokenizes as the terminal, `-e tmux attach -d -t` and the session name, whatever the name holds. |
| Menu.RunAttachArgs | openbox-tmux-pipe-menu.py:96 | The terminal and the fixed tmux arguments tokenize as those words. |

## Left out

- Spawning tmux, `communicate()` and UTF-8 decoding are not modelled. Their result is the `Outcome` value. A decoding failure is the `SpawnFailed` case, with the exception's `repr` as its detail.
- Reading `~/.config/openbox/tmux.ini` is not modelled: `configured` is the option's value, or None for a missing section or option. Other configparser exceptions are not caught by the program and are not modelled.
- The environment, `os.path.exists` and `os.path.expanduser` are not modelled. `PATH` is `pathEnv`, and the file system is the set `existing` of paths that exist.
- `datetime.fromtimestamp(float(ts)).isoformat()` depends on the local time zone. It is the parameter `isoTime`.
- Menu.SessionLabel: treats the time conversion as total. For a timestamp out of the platform's range (a year past 9999, or a numeral too long for a float), the conversion raises ValueError or OverflowError. `main` does not catch these, so the program stops without printing a menu. That crash is not modelled, and Menu.MenuShape and Menu.MenuOfSessions claim a menu there.
- XML serialisation with ElementTree and the write to standard output are not modelled. A menu is the list of its items' labels and optional commands.
- Menu.PipeMenu, Menu.SessionListToMenu: require `TemplateFits` only when at least one session is listed, since only then is the template resolved and used. It says that a resolved template has exactly one `%s` and no other `%`. With sessions listed, other templates make `%` raise TypeError or ValueError, or format other conversions; neither is modelled. A configured template outside that shape, or a terminal path containing `%`, is therefore not covered on that path.
- ShellQuote.Tokenize is GLib's tokenizer reduced to blanks, single and double quotes, backslashes, line continuations and `#` comments. GLib rejects a command line with no arguments, and it reports errors with messages; neither is modelled.
- ShellQuote.Tokenize: a `#` after a tab opens a comment in the model. GLib opens a comment only at the start of the line or after a space or newline, so it reads `#` after a tab as part of an argument. Quoted names never contain this case, but a configured template text around `%s` can.
- Menu.AttachCommandArguments requires the terminal path to be a plain word (no blanks, quotes or backslashes), since the template puts it unquoted in the command.
- Python's `re` module is not modelled in general. Only the two patterns the program uses are, each by a matcher proved against its pattern.
