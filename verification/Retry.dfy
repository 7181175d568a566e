/** The command line of one launch, and the test that asks for a retry. */
module Retry {
  import opened Wrappers
  import opened Text

  datatype Response = Response(stdout: string, stderr: string, timedOut: bool)

  const MISSING_SESSION: string := "No conversation found with session ID:"

  predicate LooksLikeMissingSession(text: string) {
    Contains(text, MISSING_SESSION)
  }

  predicate ShouldRetry(response: Response, isNew: bool) {
    !isNew && !response.timedOut
    && (LooksLikeMissingSession(Trim(response.stdout)) || LooksLikeMissingSession(Trim(response.stderr)))
  }

  function BuildCommand(prompt: string, system: string, claudeId: string, isNew: bool): seq<string> {
    ["claude", "--print", "--dangerously-skip-permissions", "--append-system-prompt", system,
     "--add-dir", "/workspace", "/state/claude-prompt"]
    + [if isNew then "--session-id" else "--resume"] + [claudeId, prompt]
  }

  // -------------------------------------------- trimming never hides the message

  lemma ContainsExactly(s: string, pattern: string)
    ensures Contains(s, pattern) <==> exists i :: 0 <= i <= |s| && pattern <= s[i..]
  {
    if Contains(s, pattern) {
      assert pattern <= s[Find(s, pattern).value..];
    }
  }

  lemma {:induction false} TrimStartKeeps(s: string, pattern: string)
    requires pattern != [] && !IsWhitespace(pattern[0])
    ensures Contains(TrimStart(s), pattern) <==> Contains(s, pattern)
  {
    if s != [] && IsWhitespace(s[0]) {
      TrimStartKeeps(s[1..], pattern);
      ContainsExactly(s, pattern);
      ContainsExactly(s[1..], pattern);
      assert !(pattern <= s);
      assert s[0..] == s;
      forall i | 0 <= i <= |s| && pattern <= s[i..] ensures 1 <= i && pattern <= s[1..][i - 1..] {
        assert i > 0 ==> s[i..] == s[1..][i - 1..];
      }
      forall i | 0 <= i <= |s[1..]| && pattern <= s[1..][i..] ensures pattern <= s[i + 1..] {
        assert s[i + 1..] == s[1..][i..];
      }
    }
  }

  lemma PrefixOfButLast(s: string, i: nat, pattern: string)
    requires i <= |s| && pattern != []
    requires s != [] && s[|s| - 1] != pattern[|pattern| - 1]
    ensures pattern <= s[i..] <==> i <= |s| - 1 && pattern <= s[..|s| - 1][i..]
  {
    var t := s[..|s| - 1];
    if pattern <= s[i..] {
      assert pattern[|pattern| - 1] == s[i + |pattern| - 1];
      assert pattern == s[i..i + |pattern|] == t[i..i + |pattern|];
    }
    if i <= |t| && pattern <= t[i..] {
      assert pattern == t[i..i + |pattern|] == s[i..i + |pattern|];
    }
  }

  lemma {:induction false} TrimEndKeeps(s: string, pattern: string)
    requires pattern != [] && !IsWhitespace(pattern[|pattern| - 1])
    ensures Contains(TrimEnd(s), pattern) <==> Contains(s, pattern)
  {
    if s != [] && IsWhitespace(s[|s| - 1]) {
      var t := s[..|s| - 1];
      TrimEndKeeps(t, pattern);
      ContainsExactly(s, pattern);
      ContainsExactly(t, pattern);
      forall i: nat | i <= |s| ensures pattern <= s[i..] <==> i <= |t| && pattern <= t[i..] {
        PrefixOfButLast(s, i, pattern);
      }
    }
  }

  /** The retry test reads the streams as they are: trimming them first changes nothing. */
  lemma RetryReadsRawStreams(response: Response, isNew: bool)
    ensures ShouldRetry(response, isNew) <==>
              var missing := "No conversation found with session ID:";
              !isNew && !response.timedOut && (Contains(response.stdout, missing) || Contains(response.stderr, missing))
  {
    assert MISSING_SESSION[0] == 'N' && MISSING_SESSION[|MISSING_SESSION| - 1] == ':';
    TrimEndKeeps(TrimStart(response.stdout), MISSING_SESSION);
    TrimStartKeeps(response.stdout, MISSING_SESSION);
    TrimEndKeeps(TrimStart(response.stderr), MISSING_SESSION);
    TrimStartKeeps(response.stderr, MISSING_SESSION);
  }

  // ------------------------------------------------- reading a command line

  /** What claude is told: which program, which switches, the system prompt, the
      directories, the session with whether it is to be opened, and the prompt. */
  datatype Reading = Reading(
    program: string,
    prints: bool,
    skipsPermissions: bool,
    system: Option<string>,
    dirs: seq<string>,
    session: Option<(string, bool)>,
    prompt: Option<string>)

  /** The words up to the next option. */
  function LeadingWords(args: seq<string>): (words: seq<string>)
    ensures |words| <= |args|
  {
    if args == [] || "--" <= args[0] then [] else [args[0]] + LeadingWords(args[1..])
  }

  /** Options are found by name and take the words that belong to them; the last
      word is the prompt. */
  function ReadArgs(args: seq<string>, r: Reading): Reading
    decreases |args|
  {
    if args == [] then r
    else if |args| == 1 then r.(prompt := Some(args[0]))
    else if args[0] == "--print" then ReadArgs(args[1..], r.(prints := true))
    else if args[0] == "--dangerously-skip-permissions" then ReadArgs(args[1..], r.(skipsPermissions := true))
    else if args[0] == "--append-system-prompt" then ReadArgs(args[2..], r.(system := Some(args[1])))
    else if args[0] == "--session-id" then ReadArgs(args[2..], r.(session := Some((args[1], true))))
    else if args[0] == "--resume" then ReadArgs(args[2..], r.(session := Some((args[1], false))))
    else if args[0] == "--add-dir" then
      var dirs := LeadingWords(args[1..]);
      ReadArgs(args[1 + |dirs|..], r.(dirs := r.dirs + dirs))
    else ReadArgs(args[1..], r)
  }

  function ReadCommand(command: seq<string>): Option<Reading> {
    if command == [] then None
    else Some(ReadArgs(command[1..], Reading(command[0], false, false, None, [], None, None)))
  }

  lemma NamesDiffer()
    ensures var names := ["--print", "--dangerously-skip-permissions", "--append-system-prompt", "--session-id",
                          "--resume", "--add-dir"];
            forall i, j | 0 <= i < j < |names| :: names[i] != names[j]
  {
    assert |"--print"| == 7 && |"--dangerously-skip-permissions"| == 30 && |"--append-system-prompt"| == 22;
    assert |"--session-id"| == 12 && |"--resume"| == 8 && |"--add-dir"| == 9;
  }

  lemma WordLeads(word: string, rest: seq<string>)
    requires word != [] && word[0] == '/'
    ensures LeadingWords([word] + rest) == [word] + LeadingWords(rest)
  {
    assert ([word] + rest)[1..] == rest && "--"[0] == '-';
  }

  lemma SwitchesRead(rest: seq<string>, r: Reading)
    requires rest != []
    ensures ReadArgs(["--print"] + rest, r) == ReadArgs(rest, r.(prints := true))
    ensures ReadArgs(["--dangerously-skip-permissions"] + rest, r) == ReadArgs(rest, r.(skipsPermissions := true))
  {
    NamesDiffer();
    assert (["--print"] + rest)[1..] == rest && (["--dangerously-skip-permissions"] + rest)[1..] == rest;
  }

  lemma SystemRead(system: string, rest: seq<string>, r: Reading)
    ensures ReadArgs(["--append-system-prompt", system] + rest, r) == ReadArgs(rest, r.(system := Some(system)))
  {
    NamesDiffer();
    assert (["--append-system-prompt", system] + rest)[2..] == rest;
  }

  lemma DirsRead(a: string, b: string, rest: seq<string>, r: Reading)
    requires a != [] && a[0] == '/' && b != [] && b[0] == '/' && rest != [] && "--" <= rest[0]
    ensures ReadArgs(["--add-dir", a, b] + rest, r) == ReadArgs(rest, r.(dirs := r.dirs + [a, b]))
  {
    NamesDiffer();
    var args := ["--add-dir", a, b] + rest;
    assert args[1..] == [a] + ([b] + rest);
    WordLeads(b, rest);
    WordLeads(a, [b] + rest);
    assert LeadingWords(args[1..]) == [a, b];
    assert args[3..] == rest;
  }

  lemma SessionRead(claudeId: string, isNew: bool, prompt: string, r: Reading)
    ensures ReadArgs([if isNew then "--session-id" else "--resume", claudeId, prompt], r) ==
            r.(session := Some((claudeId, isNew)), prompt := Some(prompt))
  {
    var args := [if isNew then "--session-id" else "--resume", claudeId, prompt];
    NamesDiffer();
    assert args[2..] == [prompt];
  }

  /** The command line says what it was built from, whatever the strings. */
  lemma CommandReadsBack(prompt: string, system: string, claudeId: string, isNew: bool)
    ensures ReadCommand(BuildCommand(prompt, system, claudeId, isNew)) ==
            Some(Reading("claude", true, true, Some(system), ["/workspace", "/state/claude-prompt"],
                         Some((claudeId, isNew)), Some(prompt)))
  {
    var tail := [if isNew then "--session-id" else "--resume", claudeId, prompt];
    var dirs := ["--add-dir", "/workspace", "/state/claude-prompt"] + tail;
    var options := ["--append-system-prompt", system] + dirs;
    var switches := ["--dangerously-skip-permissions"] + options;
    var command := BuildCommand(prompt, system, claudeId, isNew);
    assert command == ["claude"] + (["--print"] + switches);
    assert command[1..] == ["--print"] + switches;
    var r0 := Reading("claude", false, false, None, [], None, None);
    var r1 := r0.(prints := true, skipsPermissions := true);
    SwitchesRead(switches, r0);
    SwitchesRead(options, r0.(prints := true));
    SystemRead(system, dirs, r1);
    var r2 := r1.(system := Some(system));
    DirsRead("/workspace", "/state/claude-prompt", tail, r2);
    assert [] + ["/workspace", "/state/claude-prompt"] == ["/workspace", "/state/claude-prompt"];
    SessionRead(claudeId, isNew, prompt, r2.(dirs := ["/workspace", "/state/claude-prompt"]));
  }
}
