/** The template resolver: the reattach command template comes from the
    configuration file if it names one, and otherwise from the first
    terminal emulator found on the executable search path. Reading the
    configuration file, the environment and the file system are represented
    by the values passed in. */
module Resolver {
  import opened Base
  import opened Text

  /** os.defpath on POSIX systems, used when PATH is not set. */
  const DefaultPath := "/bin:/usr/bin"
  /** The terminal emulators searched for, in order of preference. */
  const Terminals := ["urxvt", "xterm"]
  const AttachSuffix := " -e tmux attach -d -t %s"
  const NoTerminal := "can't find terminal emulator"

  /** ':'.join(parts) */
  function JoinPath(parts: seq<string>): string
    requires |parts| >= 1
  {
    if |parts| == 1 then parts[0] else parts[0] + ":" + JoinPath(parts[1..])
  }

  /** s.split(':'): the pieces between the separators. */
  function SplitPath(s: string): (parts: seq<string>)
    ensures |parts| >= 1
    decreases |s|
  {
    var k := IndexOf(s, ':');
    if k == |s| then [s] else [s[..k]] + SplitPath(s[k + 1..])
  }

  /** The pieces are at least one, possibly empty, hold no ':', and joined
      back with ':' give s. */
  lemma {:induction false} SplitPathJoins(s: string)
    ensures JoinPath(SplitPath(s)) == s
    ensures forall i :: 0 <= i < |SplitPath(s)| ==> ':' !in SplitPath(s)[i]
    decreases |s|
  {
    var k := IndexOf(s, ':');
    IndexOfIsFirst(s, ':');
    assert ':' !in s[..k];
    if k == |s| {
      assert s[..k] == s;
    } else {
      SplitPathJoins(s[k + 1..]);
      assert s == s[..k] + ":" + s[k + 1..];
    }
  }

  /** The directories searched: PATH split at ':', or os.defpath. */
  function PathDirs(pathEnv: Option<string>): seq<string> {
    SplitPath(if pathEnv.Some? then pathEnv.value else DefaultPath)
  }

  /** os.path.join(dir, name) on POSIX: an absolute name replaces the
      directory; otherwise a '/' is put between them unless dir is empty or
      already ends with one. */
  function PathJoin(dir: string, name: string): string {
    if |name| > 0 && name[0] == '/' then name
    else if dir == [] || dir[|dir| - 1] == '/' then dir + name
    else dir + "/" + name
  }

  /** The joined path ends with the name; an absolute name is the whole
      path, and otherwise the path starts with the directory. */
  lemma PathJoinParts(dir: string, name: string)
    ensures var path := PathJoin(dir, name);
            && (|name| > 0 && name[0] == '/' ==> path == name)
            && |path| >= |name| && path[|path| - |name|..] == name
            && (!(|name| > 0 && name[0] == '/') ==> |path| >= |dir| && path[..|dir|] == dir)
  {
  }

  /** The first directory, in order, holding an existing `name`. */
  function FirstIn(dirs: seq<string>, name: string, existing: set<string>): Option<string> {
    if dirs == [] then None
    else if PathJoin(dirs[0], name) in existing then Some(PathJoin(dirs[0], name))
    else FirstIn(dirs[1..], name, existing)
  }

  /** What find_executable returns: every directory is tried for the first
      name before any is tried for the second. */
  function FirstExisting(names: seq<string>, dirs: seq<string>, existing: set<string>): Option<string> {
    if names == [] then None
    else
      match FirstIn(dirs, names[0], existing)
      case Some(path) => Some(path)
      case None => FirstExisting(names[1..], dirs, existing)
  }

  /** Name i exists in directory j and no earlier pair, names before
      directories, exists. */
  predicate IsFirstHit(names: seq<string>, dirs: seq<string>, existing: set<string>, i: int, j: int) {
    && 0 <= i < |names| && 0 <= j < |dirs|
    && PathJoin(dirs[j], names[i]) in existing
    && (forall i', j' :: 0 <= i' < i && 0 <= j' < |dirs| ==> PathJoin(dirs[j'], names[i']) !in existing)
    && (forall j' :: 0 <= j' < j ==> PathJoin(dirs[j'], names[i]) !in existing)
  }

  lemma {:induction false} FirstInNone(dirs: seq<string>, name: string, existing: set<string>)
    ensures FirstIn(dirs, name, existing).None? <==>
              forall j :: 0 <= j < |dirs| ==> PathJoin(dirs[j], name) !in existing
  {
    if dirs != [] {
      FirstInNone(dirs[1..], name, existing);
      assert forall j :: 1 <= j < |dirs| ==> dirs[j] == dirs[1..][j - 1];
    }
  }

  lemma {:induction false} FirstInHit(dirs: seq<string>, name: string, existing: set<string>, j: int)
    requires 0 <= j < |dirs| && PathJoin(dirs[j], name) in existing
    requires forall j' :: 0 <= j' < j ==> PathJoin(dirs[j'], name) !in existing
    ensures FirstIn(dirs, name, existing) == Some(PathJoin(dirs[j], name))
  {
    if j > 0 {
      assert PathJoin(dirs[0], name) !in existing;
      assert forall j' :: 0 <= j' < j - 1 ==> dirs[1..][j'] == dirs[j' + 1];
      FirstInHit(dirs[1..], name, existing, j - 1);
    }
  }

  /** find_executable returns None exactly when no name exists in any
      directory. */
  lemma {:induction false} FirstExistingNone(names: seq<string>, dirs: seq<string>, existing: set<string>)
    ensures FirstExisting(names, dirs, existing).None? <==>
              forall i, j :: 0 <= i < |names| && 0 <= j < |dirs| ==> PathJoin(dirs[j], names[i]) !in existing
  {
    if names != [] {
      FirstInNone(dirs, names[0], existing);
      FirstExistingNone(names[1..], dirs, existing);
      assert forall i :: 1 <= i < |names| ==> names[i] == names[1..][i - 1];
    }
  }

  /** find_executable returns the path of the first hit in search order:
      the first name that exists anywhere, in the first directory that
      holds it. */
  lemma {:induction false} FirstExistingHit(names: seq<string>, dirs: seq<string>, existing: set<string>, i: int, j: int)
    requires IsFirstHit(names, dirs, existing, i, j)
    ensures FirstExisting(names, dirs, existing) == Some(PathJoin(dirs[j], names[i]))
  {
    if i == 0 {
      FirstInHit(dirs, names[0], existing, j);
    } else {
      FirstInNone(dirs, names[0], existing);
      assert IsFirstHit(names[1..], dirs, existing, i - 1, j);
      FirstExistingHit(names[1..], dirs, existing, i - 1, j);
    }
  }

  /** find_executable(names): the nested search, returning as soon as a
      joined path exists. */
  method FindExecutable(names: seq<string>, pathEnv: Option<string>, existing: set<string>)
    returns (found: Option<string>)
    ensures found == FirstExisting(names, PathDirs(pathEnv), existing)
  {
    var dirs := PathDirs(pathEnv);
    var i := 0;
    while i < |names|
      invariant 0 <= i <= |names|
      invariant FirstExisting(names[i..], dirs, existing) == FirstExisting(names, dirs, existing)
    {
      var j := 0;
      while j < |dirs|
        invariant 0 <= j <= |dirs|
        invariant FirstIn(dirs[j..], names[i], existing) == FirstIn(dirs, names[i], existing)
      {
        var f := PathJoin(dirs[j], names[i]);
        if f in existing {
          assert FirstIn(dirs[j..], names[i], existing) == Some(f);
          assert names[i..][0] == names[i];
          return Some(f);
        }
        assert dirs[j..][1..] == dirs[j + 1..];
        j := j + 1;
      }
      assert names[i..][0] == names[i];
      assert names[i..][1..] == names[i + 1..];
      i := i + 1;
    }
    return None;
  }

  /** What reattach_cmd_template returns, given the configured value (the
      `attach-command-template` option of section `pipe-menu`, or None when
      the section or option is missing). */
  function AttachTemplate(configured: Option<string>, pathEnv: Option<string>, existing: set<string>)
    : (r: Result<string>)
    ensures r.Err? ==> r.error == ConfigError(NoTerminal)
  {
    if configured.Some? then Ok(configured.value)
    else
      match FirstExisting(Terminals, PathDirs(pathEnv), existing)
      case None => Err(ConfigError(NoTerminal))
      case Some(term) => Ok(term + AttachSuffix)
  }

  /** reattach_cmd_template. */
  method ReattachCmdTemplate(configured: Option<string>, pathEnv: Option<string>, existing: set<string>)
    returns (r: Result<string>)
    ensures r == AttachTemplate(configured, pathEnv, existing)
  {
    if configured.Some? {
      return Ok(configured.value);
    }
    var term := FindExecutable(Terminals, pathEnv, existing);
    if term.None? {
      return Err(ConfigError(NoTerminal));
    }
    return Ok(term.value + AttachSuffix);
  }

  /** A configured template is used verbatim, whatever the search would
      have found. */
  lemma ConfiguredWins(template: string, pathEnv: Option<string>, existing: set<string>)
    ensures AttachTemplate(Some(template), pathEnv, existing) == Ok(template)
  {
  }

  /** Without a configured template the resolution fails exactly when
      neither urxvt nor xterm exists in any searched directory. */
  lemma NoTerminalIff(pathEnv: Option<string>, existing: set<string>)
    ensures AttachTemplate(None, pathEnv, existing).Err? <==>
              forall i, j :: 0 <= i < |Terminals| && 0 <= j < |PathDirs(pathEnv)| ==>
                PathJoin(PathDirs(pathEnv)[j], Terminals[i]) !in existing
  {
    FirstExistingNone(Terminals, PathDirs(pathEnv), existing);
  }

  /** urxvt is preferred: if it exists in some searched directory, the
      template runs it from the first such directory, even when xterm sits
      in an earlier one. */
  lemma UrxvtPreferred(pathEnv: Option<string>, existing: set<string>, j: int)
    requires var dirs := PathDirs(pathEnv);
      && 0 <= j < |dirs| && PathJoin(dirs[j], "urxvt") in existing
      && forall j' :: 0 <= j' < j ==> PathJoin(dirs[j'], "urxvt") !in existing
    ensures AttachTemplate(None, pathEnv, existing) == Ok(PathJoin(PathDirs(pathEnv)[j], "urxvt") + AttachSuffix)
  {
    FirstExistingHit(Terminals, PathDirs(pathEnv), existing, 0, j);
  }

  /** Without urxvt anywhere, xterm from the first directory holding it. */
  lemma XtermFallback(pathEnv: Option<string>, existing: set<string>, j: int)
    requires var dirs := PathDirs(pathEnv);
      && (forall j' :: 0 <= j' < |dirs| ==> PathJoin(dirs[j'], "urxvt") !in existing)
      && 0 <= j < |dirs| && PathJoin(dirs[j], "xterm") in existing
      && forall j' :: 0 <= j' < j ==> PathJoin(dirs[j'], "xterm") !in existing
    ensures AttachTemplate(None, pathEnv, existing) == Ok(PathJoin(PathDirs(pathEnv)[j], "xterm") + AttachSuffix)
  {
    FirstExistingHit(Terminals, PathDirs(pathEnv), existing, 1, j);
  }
}
