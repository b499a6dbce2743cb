/** The session lister: how the outcome of `tmux list-sessions` is turned
    into listing text or a TmuxCommandError. Spawning the process and
    decoding its output are represented by the Outcome value. */
module Lister {
  import opened Base
  import opened Text

  /** What running `tmux list-sessions -F ...` produced. SpawnFailed: the
      process could not be started or communicated with, or its output was
      not valid UTF-8; detail is repr() of the exception. Exited: the exit
      status and the decoded standard output and standard error. */
  datatype Outcome =
    | SpawnFailed(detail: string)
    | Exited(code: int, out: string, err: string)

  const NoServer := "no server running"
  const ConnectPrefix := "error connecting to "
  const ConnectSuffix := " (No such file or directory)"

  /** `head`, then `middle`, then `tail`. */
  function Enclose(head: string, middle: string, tail: string): string {
    head + middle + tail
  }

  /** line matches `^head.+tail$` in Python's default mode, head and tail
      being literal text: `^` only at the start, `.` anything but a newline,
      and `$` at the end or just before one final newline. */
  ghost predicate IsAnchoredMatch(line: string, head: string, tail: string) {
    exists middle ::
      && |middle| > 0 && '\n' !in middle
      && (line == Enclose(head, middle, tail) || line == Enclose(head, middle, tail) + "\n")
  }

  /** The same search, done by cutting the line at both ends. */
  predicate MatchesAnchored(line: string, head: string, tail: string) {
    var body := DropFinalNewline(line);
    && |body| > |head| + |tail|
    && body[..|head|] == head
    && body[|body| - |tail|..] == tail
    && '\n' !in body[|head|..|body| - |tail|]
  }

  lemma MatchesAnchoredSound(line: string, head: string, tail: string)
    requires MatchesAnchored(line, head, tail)
    ensures IsAnchoredMatch(line, head, tail)
  {
    var body := DropFinalNewline(line);
    var middle := body[|head|..|body| - |tail|];
    assert body == body[..|head|] + middle + body[|body| - |tail|..];
    assert body == Enclose(head, middle, tail);
  }

  lemma MatchesAnchoredComplete(line: string, head: string, tail: string, middle: string)
    requires tail != [] && tail[|tail| - 1] != '\n'
    requires |middle| > 0 && '\n' !in middle
    requires line == Enclose(head, middle, tail) || line == Enclose(head, middle, tail) + "\n"
    ensures MatchesAnchored(line, head, tail)
  {
    var m := Enclose(head, middle, tail);
    assert m[|m| - 1] == tail[|tail| - 1];
    assert DropFinalNewline(line) == m by {
      if line == m + "\n" {
        assert line[..|line| - 1] == m;
      }
    }
    assert m[..|head|] == head;
    assert m[|m| - |tail|..] == tail;
    assert m[|head|..|m| - |tail|] == middle;
  }

  lemma MatchesAnchoredIff(line: string, head: string, tail: string)
    requires tail != [] && tail[|tail| - 1] != '\n'
    ensures MatchesAnchored(line, head, tail) <==> IsAnchoredMatch(line, head, tail)
  {
    if MatchesAnchored(line, head, tail) {
      MatchesAnchoredSound(line, head, tail);
    }
    if IsAnchoredMatch(line, head, tail) {
      var middle :| && |middle| > 0 && '\n' !in middle
                     && (line == Enclose(head, middle, tail) || line == Enclose(head, middle, tail) + "\n");
      MatchesAnchoredComplete(line, head, tail, middle);
    }
  }

  /** stderr is tmux's message that it could not reach its socket:
      `^error connecting to .+ \(No such file or directory\)$`. */
  ghost predicate IsConnectError(err: string) {
    IsAnchoredMatch(err, ConnectPrefix, ConnectSuffix)
  }

  /** stderr contains "no server running" somewhere. */
  ghost predicate SaysNoServer(err: string) {
    exists i :: OccursAt(err, NoServer, i)
  }

  /** list_sessions_cmd after the process has run: exit status 0 gives the
      standard output unchanged; a failing exit whose standard error says
      "no server running" or is tmux's "error connecting to" message means
      there are no sessions; any other failure, and a failure to run at all,
      is a TmuxCommandError carrying the stripped text. */
  function ClassifyListing(o: Outcome): Result<string> {
    match o
    case SpawnFailed(detail) => Err(TmuxCommandError(Strip(detail)))
    case Exited(code, out, err) =>
      if code == 0 then Ok(out)
      else if Contains(err, NoServer) then Ok("")
      else if MatchesAnchored(err, ConnectPrefix, ConnectSuffix) then Ok("")
      else Err(TmuxCommandError(Strip(err)))
  }

  /** The four outcomes of a listing, stated with the patterns themselves:
      "no server running" anywhere in stderr, or stderr matching the
      missing-socket message. */
  lemma ListingOutcomes(o: Outcome)
    ensures o.SpawnFailed? ==> ClassifyListing(o) == Err(TmuxCommandError(Strip(o.detail)))
    ensures o.Exited? && o.code == 0 ==> ClassifyListing(o) == Ok(o.out)
    ensures o.Exited? && o.code != 0 && (SaysNoServer(o.err) || IsConnectError(o.err)) ==>
              ClassifyListing(o) == Ok("")
    ensures o.Exited? && o.code != 0 && !SaysNoServer(o.err) && !IsConnectError(o.err) ==>
              ClassifyListing(o) == Err(TmuxCommandError(Strip(o.err)))
  {
    if o.Exited? {
      ContainsIff(o.err, NoServer);
      MatchesAnchoredIff(o.err, ConnectPrefix, ConnectSuffix);
    }
  }

  /** A failing listing whose standard error is tmux's missing-socket
      message, for any socket path on one line, means there are no sessions,
      with or without the final newline. */
  lemma MissingSocketMeansNoSessions(code: int, out: string, socket: string)
    requires code != 0 && |socket| > 0 && '\n' !in socket
    ensures ClassifyListing(Exited(code, out, ConnectPrefix + socket + ConnectSuffix)) == Ok("")
    ensures ClassifyListing(Exited(code, out, ConnectPrefix + socket + ConnectSuffix + "\n")) == Ok("")
  {
    ListingOutcomes(Exited(code, out, ConnectPrefix + socket + ConnectSuffix));
    ListingOutcomes(Exited(code, out, ConnectPrefix + socket + ConnectSuffix + "\n"));
    assert IsConnectError(Enclose(ConnectPrefix, socket, ConnectSuffix));
    assert IsConnectError(Enclose(ConnectPrefix, socket, ConnectSuffix) + "\n");
  }

  /** The `.+` between the two literal parts needs at least one character
      and no newline: an empty socket path, or one that spans two lines, is
      not the missing-socket message. */
  lemma MalformedSocketMessage(socket: string)
    requires socket == [] || '\n' in socket
    ensures !IsConnectError(ConnectPrefix + socket + ConnectSuffix)
  {
    var line := ConnectPrefix + socket + ConnectSuffix;
    MatchesAnchoredIff(line, ConnectPrefix, ConnectSuffix);
    assert line[|line| - 1] == ')';
    assert DropFinalNewline(line) == line;
    assert line[|ConnectPrefix|..|line| - |ConnectSuffix|] == socket;
  }
}
