/**
 Prefetched results of git commands: a command is looked up under its arguments, joined by a
 separator, after the flags that come before the subcommand have been stripped.
 */
module GitKeys {
  import opened Prelude

  type Arg = string

  const SEPARATOR := '|'
  const STATE_FILE_PREFIX := "state_file:"

  function Join(args: seq<Arg>): string {
    if args == [] then ""
    else if |args| == 1 then args[0]
    else args[0] + ([SEPARATOR] + Join(args[1..]))
  }

  /** The pieces of a string between separators; a string without separators is its only piece. */
  function Split(s: string): (pieces: seq<string>)
    ensures pieces != []
  {
    if s == "" then [""]
    else
      var rest := Split(s[1..]);
      if s[0] == SEPARATOR then [""] + rest else [[s[0]] + rest[0]] + rest[1..]
  }

  predicate Plain(arg: Arg) {
    SEPARATOR !in arg
  }

  predicate AllPlain(args: seq<Arg>) {
    args != [] && forall i :: 0 <= i < |args| ==> Plain(args[i])
  }

  function Pieces(args: seq<Arg>): seq<string> {
    if args == [] then [] else Split(args[0]) + Pieces(args[1..])
  }

  lemma {:induction false} SplitAtSeparator(s: string, t: string)
    ensures Split(s + ([SEPARATOR] + t)) == Split(s) + Split(t)
  {
    var joined := s + ([SEPARATOR] + t);
    if s == "" {
      assert joined[1..] == t;
    } else {
      assert joined[1..] == s[1..] + ([SEPARATOR] + t);
      SplitAtSeparator(s[1..], t);
    }
  }

  lemma {:induction false} SplitOfJoin(args: seq<Arg>)
    requires args != []
    ensures Split(Join(args)) == Pieces(args)
  {
    if |args| == 1 {
      assert Pieces(args[1..]) == [];
    } else {
      SplitAtSeparator(args[0], Join(args[1..]));
      SplitOfJoin(args[1..]);
    }
  }

  lemma JoinExtendsFirst(c: char, first: string, rest: seq<string>)
    ensures Join([[c] + first] + rest) == [c] + Join([first] + rest)
  {
    var long, short := [[c] + first] + rest, [first] + rest;
    assert long[1..] == rest && short[1..] == rest;
    if rest != [] {
      AppendAssociative([c], first, [SEPARATOR] + Join(rest));
    }
  }

  lemma JoinAfterEmpty(rest: seq<string>)
    requires rest != []
    ensures Join([""] + rest) == [SEPARATOR] + Join(rest)
  {
    assert ([""] + rest)[1..] == rest;
  }

  lemma {:induction false} JoinOfSplit(s: string)
    ensures Join(Split(s)) == s
  {
    if s != "" {
      JoinOfSplit(s[1..]);
      var rest := Split(s[1..]);
      assert s == [s[0]] + s[1..];
      if s[0] == SEPARATOR {
        JoinAfterEmpty(rest);
      } else {
        assert rest == [rest[0]] + rest[1..];
        JoinExtendsFirst(s[0], rest[0], rest[1..]);
      }
    }
  }

  lemma {:induction false} SplitPlain(s: string)
    requires Plain(s)
    ensures Split(s) == [s]
  {
    if s != "" {
      SplitPlain(s[1..]);
      assert s == [s[0]] + s[1..];
    }
  }

  lemma {:induction false} PiecesOfPlain(args: seq<Arg>)
    requires forall i :: 0 <= i < |args| ==> Plain(args[i])
    ensures Pieces(args) == args
  {
    if args != [] {
      SplitPlain(args[0]);
      PiecesOfPlain(args[1..]);
    }
  }

  /** Two commands share a key exactly when cutting their arguments at separators gives the same pieces. */
  lemma SameKeyIffSamePieces(a: seq<Arg>, b: seq<Arg>)
    requires a != [] && b != []
    ensures Join(a) == Join(b) <==> Pieces(a) == Pieces(b)
  {
    SplitOfJoin(a);
    SplitOfJoin(b);
    JoinOfSplit(Join(a));
    JoinOfSplit(Join(b));
  }

  /** Without separators inside the arguments, the key determines the command. */
  lemma PlainKeysAreInjective(a: seq<Arg>, b: seq<Arg>)
    requires AllPlain(a) && AllPlain(b) && Join(a) == Join(b)
    ensures a == b
  {
    SameKeyIffSamePieces(a, b);
    PiecesOfPlain(a);
    PiecesOfPlain(b);
  }

  /** With them, different commands can share a key. */
  lemma SeparatorsCollide(a: Arg, b: Arg)
    ensures [a, b] != [a + ("|" + b)] && Join([a, b]) == Join([a + ("|" + b)]) == a + ("|" + b)
  {
    assert [a, b][1..] == [b];
    assert |[a, b]| != |[a + ("|" + b)]|;
  }

  // ---------------------------------------------------------------- flags before the subcommand

  predicate IsFlag(arg: Arg) {
    || "--no-pager" <= arg
    || "--literal-pathspecs" <= arg
    || "--glob-pathspecs" <= arg
    || "--noglob-pathspecs" <= arg
  }

  predicate TakesValue(arg: Arg) {
    arg == "-c" || arg == "-C"
  }

  function Strip(args: seq<Arg>): seq<Arg> {
    if args == [] then []
    else if IsFlag(args[0]) then Strip(args[1..])
    else if TakesValue(args[0]) then (if |args| == 1 then [] else Strip(args[2..]))
    else args
  }

  /** A complete block of flags, each with its value if it takes one. */
  predicate Flags(args: seq<Arg>) {
    || args == []
    || (IsFlag(args[0]) && Flags(args[1..]))
    || (TakesValue(args[0]) && |args| > 1 && Flags(args[2..]))
  }

  predicate IsCore(args: seq<Arg>) {
    args != [] ==> !IsFlag(args[0]) && !TakesValue(args[0])
  }

  method StripGitPrefixArgs(args: seq<Arg>) returns (rest: seq<Arg>)
    ensures rest == Strip(args)
    ensures IsCore(rest) && |rest| <= |args| && rest == args[|args| - |rest|..]
  {
    rest := args;
    while rest != []
      invariant |rest| <= |args| && rest == args[|args| - |rest|..]
      invariant Strip(rest) == Strip(args)
      decreases |rest|
    {
      var arg := rest[0];
      if IsFlag(arg) {
      } else if TakesValue(arg) {
        rest := rest[1..]; // skip the value, too
        if rest == [] {
          return;
        }
      } else {
        return;
      }
      rest := rest[1..];
    }
  }

  /** Flags that stand alone are recognized by how they begin. */
  lemma StripByWord(word: Arg, rest: Arg, args: seq<Arg>)
    requires word in ["--no-pager", "--literal-pathspecs", "--glob-pathspecs", "--noglob-pathspecs"]
    ensures Strip([word + rest] + args) == Strip(args)
  {
    var arg := word + rest;
    assert word <= arg;
    assert ([arg] + args)[1..] == args;
  }

  /** The two settings take the argument behind them along, if there is one. */
  lemma StripSetting(word: Arg, args: seq<Arg>)
    requires word == "-c" || word == "-C"
    ensures Strip([word] + args) == if args == [] then [] else Strip(args[1..])
  {
    assert ([word] + args)[1..] == args;
    assert args != [] ==> ([word] + args)[2..] == args[1..];
  }

  /** Nothing else is stripped. */
  lemma StripNothingElse(arg: Arg, args: seq<Arg>)
    requires arg != "-c" && arg != "-C"
    requires !("--no-pager" <= arg || "--literal-pathspecs" <= arg)
    requires !("--glob-pathspecs" <= arg || "--noglob-pathspecs" <= arg)
    ensures Strip([arg] + args) == [arg] + args
  {
  }

  /** Whatever complete flags come before a core command, stripping leaves that command. */
  lemma {:induction false} StripNormalizes(flags: seq<Arg>, core: seq<Arg>)
    requires Flags(flags) && IsCore(core)
    ensures Strip(flags + core) == core
  {
    var args := flags + core;
    if flags == [] {
      assert args == core;
    } else if IsFlag(flags[0]) {
      assert args[1..] == flags[1..] + core;
      StripNormalizes(flags[1..], core);
    } else {
      assert args[2..] == flags[2..] + core;
      StripNormalizes(flags[2..], core);
    }
  }

  /** Stripping takes off nothing but flags, and all of them: what is left strips to itself. */
  lemma {:induction false} StripTakesOnlyFlags(args: seq<Arg>)
    ensures IsCore(Strip(args)) && Strip(Strip(args)) == Strip(args)
    ensures |Strip(args)| <= |args| && args[|args| - |Strip(args)|..] == Strip(args)
    ensures var taken := args[..|args| - |Strip(args)|];
      || Flags(taken)
      || (Strip(args) == [] && TakesValue(args[|args| - 1]) && Flags(args[..|args| - 1]))
  {
    if args != [] {
      var k := |args| - |Strip(args)|;
      if IsFlag(args[0]) {
        StripTakesOnlyFlags(args[1..]);
        assert args[..k][1..] == args[1..][..k - 1];
        assert |args| > 1 ==> args[..|args| - 1][1..] == args[1..][..|args| - 2];
      } else if TakesValue(args[0]) && |args| > 1 {
        StripTakesOnlyFlags(args[2..]);
        assert args[..k][2..] == args[2..][..k - 2];
        assert |args| > 2 ==> args[..|args| - 1][2..] == args[2..][..|args| - 3];
      }
    }
  }

  // ---------------------------------------------------------------- the prefetched table

  datatype Command = Git(args: seq<Arg>) | StateFile(path: string)

  datatype Result = Result(exitCode: int, stdout: string)

  function KeyOf(c: Command): string {
    match c
    case Git(args) => Join(args)
    case StateFile(path) => STATE_FILE_PREFIX + path
  }

  /** Results under a state file's key go to another cache. */
  predicate IsStateKey(key: string) {
    STATE_FILE_PREFIX <= key
  }

  method BuildCache(results: seq<(Command, Result)>) returns (cache: map<string, Result>)
    ensures cache == CacheOf(results)
  {
    cache := map[];
    for i := 0 to |results|
      invariant cache == CacheOf(results[..i])
    {
      assert results[..i + 1][..i] == results[..i];
      var key := KeyOf(results[i].0);
      if !IsStateKey(key) {
        cache := cache[key := results[i].1];
      }
    }
    assert results[..|results|] == results;
  }

  function CacheOf(results: seq<(Command, Result)>): map<string, Result> {
    if results == [] then map[]
    else
      var before := CacheOf(results[..|results| - 1]);
      var (command, result) := results[|results| - 1];
      if IsStateKey(KeyOf(command)) then before else before[KeyOf(command) := result]
  }

  /** The latest result recorded for exactly this command. */
  function LatestFor(results: seq<(Command, Result)>, args: seq<Arg>): Option<Result> {
    if results == [] then None
    else if results[|results| - 1].0 == Git(args) then Some(results[|results| - 1].1)
    else LatestFor(results[..|results| - 1], args)
  }

  predicate IsGit(program: string) {
    program == "git" || (|program| >= 4 && program[|program| - 4..] == "/git")
  }

  function Lookup(cache: map<string, Result>, program: string, args: seq<Arg>): Option<Result> {
    if IsGit(program) && Join(Strip(args)) in cache then Some(cache[Join(Strip(args))]) else None
  }

  /** Only git is served, by its name or by any path to it. */
  lemma OnlyGitIsServed(cache: map<string, Result>, program: string, directory: string, args: seq<Arg>)
    ensures Lookup(cache, directory + "/git", args) == Lookup(cache, "git", args)
    ensures program != "git" && (|program| < 4 || program[|program| - 4..] != "/git") ==>
      Lookup(cache, program, args) == None
  {
    var path := directory + "/git";
    assert path[|path| - 4..] == "/git";
  }

  predicate PlainCommands(results: seq<(Command, Result)>) {
    forall i :: 0 <= i < |results| && results[i].0.Git? ==>
      AllPlain(results[i].0.args) && !IsStateKey(Join(results[i].0.args))
  }

  lemma {:induction false} SplitIsPlain(s: string)
    ensures AllPlain(Split(s))
  {
    if s != "" {
      SplitIsPlain(s[1..]);
      var rest := Split(s[1..]);
      assert AllPlain([rest[0]]);
    }
  }

  lemma {:induction false} CachedIsLatest(results: seq<(Command, Result)>, key: string)
    requires PlainCommands(results)
    ensures (if key in CacheOf(results) then Some(CacheOf(results)[key]) else None) == LatestFor(results, Split(key))
  {
    if results != [] {
      var last := results[|results| - 1].0;
      CachedIsLatest(results[..|results| - 1], key);
      JoinOfSplit(key);
      if last.Git? {
        SplitOfJoin(last.args);
        PiecesOfPlain(last.args);
      }
    }
  }

  /**
   A prefetch hit is the latest result of the command whose arguments are the pieces of the looked-up
   core command, whatever flags the caller put before it; and every such result is hit.  Arguments
   with separators are cut; no arguments at all look like one empty argument.
   */
  lemma HitIsSameCommand(results: seq<(Command, Result)>, program: string, flags: seq<Arg>, core: seq<Arg>)
    requires PlainCommands(results) && Flags(flags) && IsCore(core)
    ensures Lookup(CacheOf(results), program, flags + core) ==
      if !IsGit(program) then None else LatestFor(results, if core == [] then [""] else Pieces(core))
    ensures AllPlain(core) ==> Pieces(core) == core
  {
    StripNormalizes(flags, core);
    CachedIsLatest(results, Join(core));
    if core != [] {
      SplitOfJoin(core);
    }
    if AllPlain(core) {
      PiecesOfPlain(core);
    }
  }

  // ---------------------------------------------------------------- what the key leaves out

  /** The settings among the flags, with their values: other directories and configuration. */
  function Settings(flags: seq<Arg>): seq<(Arg, Arg)> {
    if flags == [] then []
    else if IsFlag(flags[0]) then Settings(flags[1..])
    else if TakesValue(flags[0]) && |flags| > 1 then [(flags[0], flags[1])] + Settings(flags[2..])
    else []
  }

  lemma {:induction false} SettingsAreValueFlags(flags: seq<Arg>)
    requires Flags(flags)
    ensures Settings(flags) == [] <==> forall i :: 0 <= i < |flags| ==> !TakesValue(flags[i])
  {
    if flags != [] {
      if IsFlag(flags[0]) {
        SettingsAreValueFlags(flags[1..]);
        assert forall i :: 0 < i < |flags| ==> flags[i] == flags[1..][i - 1];
        assert forall i :: 0 <= i < |flags[1..]| ==> flags[1..][i] == flags[i + 1];
      } else {
        assert TakesValue(flags[0]);
      }
    }
  }

  /** What git answers in the prefetched directory, given the settings and the core command. */
  type GitRun = (seq<(Arg, Arg)>, seq<Arg>) -> Result

  /** The prefetch runs every command without settings. */
  function Prefetched(commands: seq<seq<Arg>>, git: GitRun): seq<(Command, Result)> {
    seq(|commands|, i requires 0 <= i < |commands| => (Git(commands[i]), git([], commands[i])))
  }

  lemma {:induction false} LatestIsItsRun(commands: seq<seq<Arg>>, git: GitRun, core: seq<Arg>)
    requires core in commands
    ensures LatestFor(Prefetched(commands, git), core) == Some(git([], core))
  {
    var last := |commands| - 1;
    var results := Prefetched(commands, git);
    if commands[last] != core {
      assert core in commands[..last];
      LatestIsItsRun(commands[..last], git, core);
      assert results[..last] == Prefetched(commands[..last], git);
    }
  }

  lemma HitIsPlainRun(commands: seq<seq<Arg>>, git: GitRun, program: string, flags: seq<Arg>, core: seq<Arg>)
    requires forall c :: c in commands ==> AllPlain(c) && !IsStateKey(Join(c))
    requires IsGit(program) && Flags(flags) && IsCore(core) && core in commands
    ensures Lookup(CacheOf(Prefetched(commands, git)), program, flags + core) == Some(git([], core))
  {
    hide CacheOf, Lookup, LatestFor, Flags, Pieces, IsStateKey;
    HitIsSameCommand(Prefetched(commands, git), program, flags, core);
    LatestIsItsRun(commands, git, core);
  }

  /** Whatever git may answer, the hit is the answer to the call with all its flags. */
  ghost predicate AlwaysRight(commands: seq<seq<Arg>>, program: string, flags: seq<Arg>, core: seq<Arg>) {
    forall git: GitRun ::
      Lookup(CacheOf(Prefetched(commands, git)), program, flags + core) == Some(git(Settings(flags), core))
  }

  /**
   A hit for a prefetched command is what git would have answered, whatever the repository holds,
   exactly if no flag before the command takes a value: -C and -c change the answer, but not the key.
   */
  lemma HitIsRightIffNoSettings(commands: seq<seq<Arg>>, program: string, flags: seq<Arg>, core: seq<Arg>)
    requires forall c :: c in commands ==> AllPlain(c) && !IsStateKey(Join(c))
    requires IsGit(program) && Flags(flags) && IsCore(core) && core in commands
    ensures AlwaysRight(commands, program, flags, core) <==> forall i :: 0 <= i < |flags| ==> !TakesValue(flags[i])
  {
    hide CacheOf, Lookup, Prefetched, Flags, Settings, IsStateKey, AllPlain;
    SettingsAreValueFlags(flags);
    if Settings(flags) == [] {
      forall git: GitRun
        ensures Lookup(CacheOf(Prefetched(commands, git)), program, flags + core) == Some(git(Settings(flags), core))
      {
        HitIsPlainRun(commands, git, program, flags, core);
      }
    } else {
      var git: GitRun := (settings: seq<(Arg, Arg)>, args: seq<Arg>) => Result(|settings|, "");
      HitIsPlainRun(commands, git, program, flags, core);
      assert git([], core) != git(Settings(flags), core);
    }
  }
}
