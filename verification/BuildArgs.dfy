/** `parseArgs` (scripts/build.ts): which arguments are the build's, which are ninja's, and which go to
    the built binary. */
module BuildArgs {
  import opened Wrappers

  datatype Kind = Boolean | Number | Text

  datatype Setting = Bool(b: bool) | Int(n: nat) | Str(s: string)

  /** A bad boolean is reported without its flag. */
  datatype Error =
    | RequiresValue(rawKey: string) | UnknownField(rawKey: string)
    | BadBool(value: string) | BadInteger(rawKey: string, value: string)

  datatype Result<+T> = Ok(value: T) | Err(error: Error) | ShowHelp

  datatype Cli = Cli(
    profile: string, overrides: map<string, Setting>, ninjaTargets: seq<string>, ninjaArgs: seq<string>,
    ninjaTool: Option<seq<string>>, execArgs: seq<string>, configureOnly: bool, quiet: bool, timings: bool,
    configFile: Option<string>)

  const START := Cli("debug", map[], [], [], None, [], false, false, false, None)

  const DEBUG_MODES := {"stats", "explain", "keepdepfile", "keeprsp", "nostatcache", "list"}

  // ----- One argument -----

  predicate IsLetter(c: char) { 'a' <= c <= 'z' || 'A' <= c <= 'Z' }

  predicate IsDigit(c: char) { '0' <= c <= '9' }

  predicate IsKeyChar(c: char) { IsLetter(c) || IsDigit(c) || c == '-' }

  /** Every character that `.` matches. */
  predicate OneLine(s: string) {
    forall i :: 0 <= i < |s| ==> s[i] != '\n' && s[i] != '\r' && s[i] != '\U{2028}' && s[i] != '\U{2029}'
  }

  function KeyLen(s: string): (n: nat)
    ensures n <= |s|
  {
    if s == [] || !IsKeyChar(s[0]) then 0 else 1 + KeyLen(s[1..])
  }

  /** A match of `^--([a-zA-Z][a-zA-Z0-9-]*)(?:=(.*))?$`: the key, and the value if there is a `=`. */
  function MatchFlag(arg: string): Option<(string, Option<string>)> {
    if |arg| < 3 || arg[0] != '-' || arg[1] != '-' || !IsLetter(arg[2]) then None
    else
      var n := 2 + KeyLen(arg[2..]);
      if n == |arg| then Some((arg[2..], None))
      else if arg[n] == '=' && OneLine(arg[n + 1..]) then Some((arg[2..n], Some(arg[n + 1..])))
      else None
  }

  /** `rawKey.replace(/-([a-z])/g, …)`: a dash and a small letter become a capital. */
  function Camel(s: string): string {
    if s == [] then []
    else if |s| >= 2 && s[0] == '-' && 'a' <= s[1] <= 'z' then [s[1] - 'a' + 'A'] + Camel(s[2..])
    else [s[0]] + Camel(s[1..])
  }

  function Lower(s: string): (t: string)
    ensures |t| == |s|
  {
    seq(|s|, i requires 0 <= i < |s| => if 'A' <= s[i] <= 'Z' then s[i] - 'A' + 'a' else s[i])
  }

  function ParseBool(v: string): Option<bool> {
    var lower := Lower(v);
    if lower in {"on", "true", "yes", "1"} then Some(true)
    else if lower in {"off", "false", "no", "0"} then Some(false)
    else None
  }

  function DigitsValue(v: string): nat
    requires forall i :: 0 <= i < |v| ==> IsDigit(v[i])
  {
    if v == [] then 0
    else
      assert IsDigit(v[|v| - 1]);
      10 * DigitsValue(v[..|v| - 1]) + (v[|v| - 1] as int - '0' as int)
  }

  function ParseInteger(v: string): Option<nat> {
    if v != [] && forall i :: 0 <= i < |v| ==> IsDigit(v[i]) then Some(DigitsValue(v)) else None
  }

  function ParseSetting(kind: Kind, v: string): Option<Setting> {
    match kind
    case Boolean => (match ParseBool(v) case Some(b) => Some(Bool(b)) case None => None)
    case Number => (match ParseInteger(v) case Some(n) => Some(Int(n)) case None => None)
    case Text => Some(Str(v))
  }

  predicate IsOurs(flags: map<string, Kind>, key: string) { key in {"profile", "target", "configFile"} || key in flags }

  /** What the loop does with the arguments that are left: `n` is how many of them it takes. */
  datatype Head =
    | Tool | Ninja(n: nat) | Dashes | Switch(name: string) | Help
    | Positional | Missing(rawKey: string) | Assign(rawKey: string, text: string, n: nat)

  predicate IsNinjaShort(arg: string) { |arg| >= 2 && arg[0] == '-' && arg[1] in "jklvn" }

  function First(flags: map<string, Kind>, args: seq<string>): (h: Head)
    requires args != []
    ensures h.Ninja? ==> 1 <= h.n <= |args|
    ensures h.Assign? ==> 1 <= h.n <= |args|
  {
    var arg := args[0];
    if arg == "-t" then Tool
    else if arg == "-d" && |args| > 1 && args[1] in DEBUG_MODES then Ninja(2)
    else if IsNinjaShort(arg) then Ninja(1)
    else if arg == "--" then Dashes
    else if arg in {"--configure-only", "--quiet", "--timings"} then Switch(arg)
    else if arg in {"--help", "-h"} then Help
    else
      match MatchFlag(arg)
      case None => Positional
      case Some((rawKey, Some(v))) => Assign(rawKey, v, 1)
      case Some((rawKey, None)) =>
        if !IsOurs(flags, Camel(rawKey)) then Positional
        else if |args| < 2 then Missing(rawKey)
        else Assign(rawKey, args[1], 2)
  }

  function Switched(cli: Cli, name: string): Cli {
    if name == "--configure-only" then cli.(configureOnly := true)
    else if name == "--quiet" then cli.(quiet := true)
    else cli.(timings := true)
  }

  /** Setting a flag. */
  function Apply(flags: map<string, Kind>, cli: Cli, rawKey: string, value: string): Result<Cli> {
    var key := Camel(rawKey);
    if key == "target" then Ok(cli.(ninjaTargets := cli.ninjaTargets + [value]))
    else if key == "configFile" then Ok(cli.(configFile := Some(value), configureOnly := true))
    else if key == "profile" then Ok(cli.(profile := value))
    else if key !in flags then Err(UnknownField(rawKey))
    else
      match ParseSetting(flags[key], value)
      case None => Err(if flags[key] == Boolean then BadBool(value) else BadInteger(rawKey, value))
      case Some(setting) => Ok(cli.(overrides := cli.overrides[key := setting]))
  }

  // ----- All arguments -----

  /** One turn of the loop that goes on: how many arguments it takes, and what they change. */
  function Turn(flags: map<string, Kind>, args: seq<string>, cli: Cli): (t: Option<(nat, Cli)>)
    requires args != []
    ensures t.Some? ==> 1 <= t.value.0 <= |args|
    ensures t.Some? ==> t.value.1.execArgs == cli.execArgs && t.value.1.ninjaTool == cli.ninjaTool
  {
    match First(flags, args)
    case Ninja(n) => Some((n, cli.(ninjaArgs := cli.ninjaArgs + args[..n])))
    case Switch(name) => Some((1, Switched(cli, name)))
    case Assign(rawKey, value, n) =>
      (match Apply(flags, cli, rawKey, value) case Ok(cli') => Some((n, cli')) case _ => None)
    case _ => None
  }

  /** A turn that ends the parsing of flags. */
  function Stop(flags: map<string, Kind>, args: seq<string>, cli: Cli): Result<Cli>
    requires args != []
  {
    match First(flags, args)
    case Tool => Ok(cli.(ninjaTool := Some(args[1..])))
    case Dashes => Ok(cli.(execArgs := cli.execArgs + args[1..]))
    case Positional => Ok(cli.(execArgs := cli.execArgs + args))
    case Missing(rawKey) => Err(RequiresValue(rawKey))
    case Assign(rawKey, value, _) => Apply(flags, cli, rawKey, value)
    case _ => ShowHelp
  }

  function Parse(flags: map<string, Kind>, args: seq<string>, cli: Cli): Result<Cli>
    decreases |args|
  {
    if args == [] then Ok(cli)
    else
      var t := Turn(flags, args, cli);
      if t.Some? then Parse(flags, args[t.value.0..], t.value.1) else Stop(flags, args, cli)
  }

  /** What the loop body does with the arguments that are left, when it is not just collecting them for
      the binary: the result if it returns, else how many it takes. */
  method Handle(flags: map<string, Kind>, left: seq<string>, cli: Cli)
    returns (done: Option<Result<Cli>>, n: nat, cli': Cli, inExec: bool)
    requires left != []
    ensures done.Some? ==> Turn(flags, left, cli).None? && done.value == Stop(flags, left, cli)
    ensures done.None? && !inExec ==> Turn(flags, left, cli) == Some((n, cli'))
    ensures done.None? && inExec ==>
              && n == 1 && Turn(flags, left, cli).None?
              && Stop(flags, left, cli) == Ok(cli'.(execArgs := cli'.execArgs + left[1..]))
  {
    done, n, cli', inExec := None, 1, cli, false;
    match First(flags, left) {
      case Tool =>
        done := Some(Ok(cli.(ninjaTool := Some(left[1..]))));
      case Ninja(k) =>
        cli' := cli.(ninjaArgs := cli.ninjaArgs + left[..k]);
        n := k;
      case Dashes =>
        inExec := true;
      case Switch(name) =>
        cli' := Switched(cli, name);
      case Help =>
        done := Some(ShowHelp);
      case Positional =>
        cli' := cli.(execArgs := cli.execArgs + [left[0]]);
        inExec := true;
        assert cli.execArgs + left == cli.execArgs + [left[0]] + left[1..];
      case Missing(rawKey) =>
        done := Some(Err(RequiresValue(rawKey)));
      case Assign(rawKey, value, k) =>
        var applied := Apply(flags, cli, rawKey, value);
        if applied.Ok? {
          cli', n := applied.value, k;
        } else {
          done := Some(applied);
        }
    }
  }

  method ParseArgs(flags: map<string, Kind>, argv: seq<string>) returns (r: Result<Cli>)
    ensures r == Parse(flags, argv, START)
  {
    r := ParseFrom(flags, argv, START);
  }

  method ParseFrom(flags: map<string, Kind>, argv: seq<string>, start: Cli) returns (r: Result<Cli>)
    ensures r == Parse(flags, argv, start)
  {
    hide Turn, Stop;
    ghost var goal := Parse(flags, argv, start);
    var cli, inExec, i := start, false, 0;
    assert argv[0..] == argv;
    while i < |argv|
      invariant 0 <= i <= |argv|
      invariant goal == if inExec then WithExec(cli, argv[i..]) else Parse(flags, argv[i..], cli)
    {
      if inExec {
        ExecOne(cli, argv, i);
        cli := cli.(execArgs := cli.execArgs + [argv[i]]);
        i := i + 1;
      } else {
        var left := argv[i..];
        var done, n, cli', exec := Handle(flags, left, cli);
        if done.Some? {
          return done.value;
        }
        assert left[n..] == argv[i + n..];
        cli, inExec, i := cli', exec, i + n;
      }
    }
    ExecNone(cli);
    return Ok(cli);
  }

  /** Everything that is left goes to the binary. */
  function WithExec(cli: Cli, args: seq<string>): Result<Cli> { Ok(cli.(execArgs := cli.execArgs + args)) }

  lemma ExecOne(cli: Cli, argv: seq<string>, i: nat)
    requires i < |argv|
    ensures WithExec(cli, argv[i..]) == WithExec(cli.(execArgs := cli.execArgs + [argv[i]]), argv[i + 1..])
  {
    assert cli.execArgs + argv[i..] == cli.execArgs + [argv[i]] + argv[i + 1..];
  }

  lemma ExecNone(cli: Cli)
    ensures WithExec(cli, []) == Ok(cli)
  {
    assert cli.execArgs + [] == cli.execArgs;
  }

  // ----- Who gets what -----

  /** `s` is the end of `args`. */
  predicate IsSuffix(s: seq<string>, args: seq<string>) { |s| <= |args| && s == args[|args| - |s|..] }

  /** The arguments of a tool come after `-t`. */
  predicate ToolOf(tool: seq<string>, args: seq<string>) {
    |tool| < |args| && IsSuffix(tool, args) && args[|args| - |tool| - 1] == "-t"
  }

  lemma SuffixOfRest(s: seq<string>, args: seq<string>, n: nat)
    requires n <= |args|
    ensures IsSuffix(s, args[n..]) ==> IsSuffix(s, args)
    ensures ToolOf(s, args[n..]) ==> ToolOf(s, args)
  {
  }

  lemma StopIs(flags: map<string, Kind>, args: seq<string>, cli: Cli)
    requires args != []
    ensures Turn(flags, args, cli).None? ==>
              var r := Stop(flags, args, cli);
              || !r.Ok?
              || r == Ok(cli.(execArgs := cli.execArgs + args))
              || r == Ok(cli.(execArgs := cli.execArgs + args[1..]))
              || (r == Ok(cli.(ninjaTool := Some(args[1..]))) && args[0] == "-t")
  {
  }

  /** Arguments for the binary are the end of argv, word for word, and there are none beside a tool. */
  lemma {:induction false} ExecArgsAreASuffix(flags: map<string, Kind>, args: seq<string>, cli: Cli)
    requires cli.execArgs == [] && cli.ninjaTool == None
    ensures var r := Parse(flags, args, cli);
            r.Ok? ==>
              && IsSuffix(r.value.execArgs, args)
              && (r.value.ninjaTool.Some? ==> r.value.execArgs == [] && ToolOf(r.value.ninjaTool.value, args))
    decreases |args|
  {
    hide First, Stop, Apply;
    if args != [] {
      StopIs(flags, args, cli);
      var t := Turn(flags, args, cli);
      if t.Some? {
        ExecArgsAreASuffix(flags, args[t.value.0..], t.value.1);
        var r := Parse(flags, args, cli);
        if r.Ok? {
          SuffixOfRest(r.value.execArgs, args, t.value.0);
          if r.value.ninjaTool.Some? { SuffixOfRest(r.value.ninjaTool.value, args, t.value.0); }
        }
      } else {
        assert [] + args == args && [] + args[1..] == args[1..];
      }
    }
  }

  /** Flag parsing has ended: by `--`, by a positional, or by a flag that is not ours. */
  predicate ReachesExec(flags: map<string, Kind>, args: seq<string>, cli: Cli)
    decreases |args|
  {
    args != [] &&
    var t := Turn(flags, args, cli);
    if t.Some? then ReachesExec(flags, args[t.value.0..], t.value.1)
    else First(flags, args) == Dashes || First(flags, args) == Positional
  }

  /** A `-d` at the very end is the one argument that is read together with what comes after it. */
  predicate EndsInLoneD(flags: map<string, Kind>, args: seq<string>, cli: Cli)
    decreases |args|
  {
    args != [] &&
    (args == ["-d"] ||
     var t := Turn(flags, args, cli);
     t.Some? && EndsInLoneD(flags, args[t.value.0..], t.value.1))
  }

  lemma FirstAppend(flags: map<string, Kind>, args: seq<string>, more: seq<string>)
    requires args != [] && !First(flags, args).Missing?
    ensures First(flags, args + more)
            == if args == ["-d"] && more != [] && more[0] in DEBUG_MODES then Ninja(2) else First(flags, args)
  {
    var all := args + more;
    assert all[0] == args[0];
    assert |args| > 1 ==> all[1] == args[1];
    assert |args| == 1 ==> args == [args[0]] && (more != [] ==> all[1] == more[0]);
  }

  /** Once flag parsing has ended, more arguments only make for more arguments to the binary; exactly
      unless it ended with a `-d` and ninja knows what comes after it as a debug mode. */
  lemma {:induction false} MoreArgumentsGoToExec(
      flags: map<string, Kind>, args: seq<string>, cli: Cli, more: seq<string>)
    requires ReachesExec(flags, args, cli)
    ensures Parse(flags, args, cli).Ok?
    ensures !(EndsInLoneD(flags, args, cli) && more != [] && more[0] in DEBUG_MODES) <==>
              var r := Parse(flags, args, cli).value;
              Parse(flags, args + more, cli) == Ok(r.(execArgs := r.execArgs + more))
    decreases |args|
  {
    if args == ["-d"] {
      LoneD(flags, cli, more);
    } else {
      var t := Turn(flags, args, cli);
      TurnAppend(flags, args, cli, more);
      if t.Some? {
        MoreArgumentsGoToExec(flags, args[t.value.0..], t.value.1, more);
      } else {
        Assoc(cli.execArgs, args[1..], more);
        Assoc(cli.execArgs, args, more);
      }
    }
  }

  lemma TurnAppend(flags: map<string, Kind>, args: seq<string>, cli: Cli, more: seq<string>)
    requires args != [] && args != ["-d"] && !First(flags, args).Missing?
    ensures First(flags, args + more) == First(flags, args)
    ensures Turn(flags, args + more, cli) == Turn(flags, args, cli)
    ensures forall n :: 0 <= n <= |args| ==> (args + more)[n..] == args[n..] + more
  {
    FirstAppend(flags, args, more);
    assert forall n :: 0 <= n <= |args| ==> (args + more)[..n] == args[..n];
  }

  /** What becomes of a lone `-d`. */
  lemma LoneD(flags: map<string, Kind>, cli: Cli, more: seq<string>)
    ensures Parse(flags, ["-d"], cli) == Ok(cli.(execArgs := cli.execArgs + ["-d"]))
    ensures Parse(flags, ["-d"] + more, cli) == Ok(cli.(execArgs := cli.execArgs + ["-d"] + more))
            <==> !(more != [] && more[0] in DEBUG_MODES)
  {
    var all := ["-d"] + more;
    assert First(flags, ["-d"]) == Positional;
    FirstAppend(flags, ["-d"], more);
    Assoc(cli.execArgs, ["-d"], more);
    if more != [] && more[0] in DEBUG_MODES {
      var cli' := cli.(ninjaArgs := cli.ninjaArgs + all[..2]);
      ExecGrowsByAtMost(flags, all[2..], cli');
    }
  }

  /** The binary gets no more than what is left. */
  lemma {:induction false} ExecGrowsByAtMost(flags: map<string, Kind>, args: seq<string>, cli: Cli)
    ensures var r := Parse(flags, args, cli); r.Ok? ==> |r.value.execArgs| <= |cli.execArgs| + |args|
    decreases |args|
  {
    if args != [] {
      StopIs(flags, args, cli);
      var t := Turn(flags, args, cli);
      if t.Some? { ExecGrowsByAtMost(flags, args[t.value.0..], t.value.1); }
    }
  }

  // ----- Two ways to write a flag -----

  /** A key as it is written: a letter, then letters, digits and dashes. */
  predicate IsKey(k: string) { k != [] && IsLetter(k[0]) && forall i :: 0 <= i < |k| ==> IsKeyChar(k[i]) }

  lemma {:induction false} KeyLenOf(k: string, w: string)
    requires forall i :: 0 <= i < |k| ==> IsKeyChar(k[i])
    requires w == [] || !IsKeyChar(w[0])
    ensures KeyLen(k + w) == |k|
    decreases |k|
  {
    if k == [] {
      assert k + w == w;
    } else {
      assert (k + w)[1..] == k[1..] + w && (k + w)[0] == k[0];
      KeyLenOf(k[1..], w);
    }
  }

  lemma MatchBoth(k: string, v: string)
    requires IsKey(k)
    ensures MatchFlag("--" + k) == Some((k, None))
    ensures MatchFlag("--" + k + "=" + v) == if OneLine(v) then Some((k, Some(v))) else None
  {
    var a, b := "--" + k, "--" + k + "=" + v;
    assert a[2..] == k + [] && b[2..] == k + ("=" + v);
    KeyLenOf(k, []);
    KeyLenOf(k, "=" + v);
    assert k + [] == k;
    assert b[2 + |k|] == '=' && b[2 + |k| + 1..] == v && b[2..2 + |k|] == k;
  }

  /** No flag of ours is written like one of the switches. */
  predicate IsSwitch(k: string) { k in {"configure-only", "quiet", "timings", "help"} }

  lemma FirstSpaced(flags: map<string, Kind>, k: string, v: string, rest: seq<string>)
    requires IsKey(k) && !IsSwitch(k) && IsOurs(flags, Camel(k))
    ensures First(flags, ["--" + k, v] + rest) == Assign(k, v, 2)
  {
    MatchBoth(k, v);
    LongFlag("--" + k);
    assert ("--" + k)[2..] == k;
  }

  lemma FirstEquals(flags: map<string, Kind>, k: string, v: string, rest: seq<string>)
    requires IsKey(k)
    ensures First(flags, ["--" + k + "=" + v] + rest) == if OneLine(v) then Assign(k, v, 1) else Positional
  {
    MatchBoth(k, v);
    var arg := "--" + k + "=" + v;
    LongFlag(arg);
    assert arg[2 + |k|] == '=' && arg[2..][|k|] == '=';
  }

  /** What an argument that starts with two dashes and goes on is not. */
  lemma LongFlag(arg: string)
    requires |arg| > 2 && arg[0] == '-' && arg[1] == '-'
    ensures arg != "-t" && arg != "-d" && arg != "--" && arg != "-h" && !IsNinjaShort(arg)
    ensures arg in {"--configure-only", "--quiet", "--timings", "--help"} ==> IsSwitch(arg[2..]) && '=' !in arg[2..]
  {
    SwitchWords();
  }

  lemma SwitchWords()
    ensures "--configure-only"[2..] == "configure-only" && "--quiet"[2..] == "quiet"
    ensures "--timings"[2..] == "timings" && "--help"[2..] == "help"
    ensures '=' !in "configure-only" && '=' !in "quiet" && '=' !in "timings" && '=' !in "help"
  {
  }

  /** `--key=value` and `--key value` are the same, exactly when the value is on one line. */
  lemma TwoWaysToWriteAFlag(
      flags: map<string, Kind>, k: string, v: string, rest: seq<string>, cli: Cli)
    requires IsKey(k) && !IsSwitch(k) && IsOurs(flags, Camel(k))
    ensures Parse(flags, ["--" + k + "=" + v] + rest, cli) == Parse(flags, ["--" + k, v] + rest, cli) <==> OneLine(v)
  {
    hide Apply, IsKey, Camel, IsOurs, First;
    FirstSpaced(flags, k, v, rest);
    FirstEquals(flags, k, v, rest);
    var a, b := ["--" + k, v] + rest, ["--" + k + "=" + v] + rest;
    assert a[2..] == rest && b[1..] == rest;
    if !OneLine(v) {
      var applied := Apply(flags, cli, k, v);
      if applied.Ok? {
        ApplyKeepsExec(flags, cli, k, v);
        ExecGrowsByAtMost(flags, rest, applied.value);
      }
      assert |cli.execArgs + b| == |cli.execArgs| + 1 + |rest|;
    }
  }

  /** A value with a line break makes the difference. */
  lemma LineBreakInValue(flags: map<string, Kind>)
    ensures Parse(flags, ["--" + "profile" + "=" + "a\nb"] + [], START)
            != Parse(flags, ["--" + "profile", "a\nb"] + [], START)
  {
    hide Parse, Camel, OneLine;
    CamelOfSmall("profile");
    TwoLines("a\nb");
    TwoWaysToWriteAFlag(flags, "profile", "a\nb", [], START);
  }

  lemma TwoLines(v: string)
    requires |v| == 3 && v[1] == '\n'
    ensures !OneLine(v)
  {
  }

  lemma {:induction false} CamelOfSmall(k: string)
    requires forall i :: 0 <= i < |k| ==> k[i] != '-'
    ensures Camel(k) == k
    decreases |k|
  {
    if k != [] { CamelOfSmall(k[1..]); }
  }

  lemma ApplyKeepsExec(flags: map<string, Kind>, cli: Cli, rawKey: string, value: string)
    ensures var r := Apply(flags, cli, rawKey, value);
            !r.ShowHelp? && (r.Ok? ==> r.value.execArgs == cli.execArgs && r.value.ninjaTool == cli.ninjaTool)
  {
  }

  // ----- The order of flags -----

  predicate BothBoolean(flags: map<string, Kind>, k1: string, k2: string) {
    var c1, c2 := Camel(k1), Camel(k2);
    c1 in flags && c2 in flags && flags[c1] == Boolean && flags[c2] == Boolean
  }

  /** Flags with different keys can be swapped: the result is the same, unless both are in error with
      different complaints, and then it is an error either way. Complaints are the same exactly for two
      booleans with the same bad value, since a bad boolean is reported without its flag. */
  lemma FlagsCommute(
      flags: map<string, Kind>, k1: string, v1: string, k2: string, v2: string, rest: seq<string>, cli: Cli)
    requires IsKey(k1) && !IsSwitch(k1) && IsOurs(flags, Camel(k1)) && OneLine(v1)
    requires IsKey(k2) && !IsSwitch(k2) && IsOurs(flags, Camel(k2)) && OneLine(v2)
    requires Camel(k1) != Camel(k2)
    ensures var f1, f2 := "--" + k1 + "=" + v1, "--" + k2 + "=" + v2;
            var r, r' := Parse(flags, [f1, f2] + rest, cli), Parse(flags, [f2, f1] + rest, cli);
            && (r == r' <==>
                  || Apply(flags, cli, k1, v1).Ok? || Apply(flags, cli, k2, v2).Ok?
                  || (BothBoolean(flags, k1, k2) && v1 == v2))
            && (r != r' ==> r.Err? && r'.Err?)
  {
    ParseTwo(flags, k1, v1, k2, v2, rest, cli);
    ParseTwo(flags, k2, v2, k1, v1, rest, cli);
    ApplyCommutes(flags, cli, k1, v1, k2, v2);
    ApplyKeepsExec(flags, cli, k1, v1);
    ApplyKeepsExec(flags, cli, k2, v2);
  }

  /** Two booleans with bad values: the first one is complained about, by its value. */
  lemma {:induction false} OrderOfBadBooleans(flags: map<string, Kind>, v1: string, v2: string)
    requires flags == map["lto" := Boolean, "asan" := Boolean]
    requires OneLine(v1) && OneLine(v2) && ParseBool(v1).None? && ParseBool(v2).None?
    ensures var f1, f2 := "--" + "lto" + "=" + v1, "--" + "asan" + "=" + v2;
            Parse(flags, [f1, f2] + [], START) == Parse(flags, [f2, f1] + [], START) <==> v1 == v2
  {
    hide Parse, ParseBool;
    CamelOfSmall("lto");
    CamelOfSmall("asan");
    FlagsCommute(flags, "lto", v1, "asan", v2, [], START);
  }

  lemma ParseTwo(
      flags: map<string, Kind>, k1: string, v1: string, k2: string, v2: string, rest: seq<string>, cli: Cli)
    requires IsKey(k1) && !IsSwitch(k1) && IsOurs(flags, Camel(k1)) && OneLine(v1)
    requires IsKey(k2) && !IsSwitch(k2) && IsOurs(flags, Camel(k2)) && OneLine(v2)
    ensures var f1, f2 := "--" + k1 + "=" + v1, "--" + k2 + "=" + v2;
            var a := Apply(flags, cli, k1, v1);
            Parse(flags, [f1, f2] + rest, cli)
            == if !a.Ok? then a
               else var b := Apply(flags, a.value, k2, v2); if !b.Ok? then b else Parse(flags, rest, b.value)
  {
    hide Apply, Camel, IsKey, First, IsOurs;
    var f1, f2 := "--" + k1 + "=" + v1, "--" + k2 + "=" + v2;
    assert [f1, f2] + rest == [f1] + ([f2] + rest);
    FirstEquals(flags, k1, v1, [f2] + rest);
    FirstEquals(flags, k2, v2, rest);
    assert ([f1] + ([f2] + rest))[1..] == [f2] + rest && ([f2] + rest)[1..] == rest;
  }

  /** Setting one flag does not get in the way of setting another. */
  lemma ApplyCommutes(flags: map<string, Kind>, cli: Cli, k1: string, v1: string, k2: string, v2: string)
    requires Camel(k1) != Camel(k2)
    ensures var a, b := Apply(flags, cli, k1, v1), Apply(flags, cli, k2, v2);
            && (a.Ok? ==> (b.Ok? <==> Apply(flags, a.value, k2, v2).Ok?))
            && (a.Ok? && !b.Ok? ==> Apply(flags, a.value, k2, v2) == b)
            && (b.Ok? && !a.Ok? ==> Apply(flags, b.value, k1, v1) == a)
            && (a.Ok? && b.Ok? ==> Apply(flags, a.value, k2, v2) == Apply(flags, b.value, k1, v1))
            && (!a.Ok? && !b.Ok? ==> (a == b <==> BothBoolean(flags, k1, k2) && v1 == v2))
  {
    ApplyIs(flags, cli, k1, v1);
    ApplyIs(flags, cli, k2, v2);
    var a, b := Apply(flags, cli, k1, v1), Apply(flags, cli, k2, v2);
    if a.Ok? { ApplyIs(flags, a.value, k2, v2); }
    if b.Ok? { ApplyIs(flags, b.value, k1, v1); }
    var c1, c2 := Camel(k1), Camel(k2);
    if c1 in flags && c2 in flags {
      var s1, s2 := ParseSetting(flags[c1], v1), ParseSetting(flags[c2], v2);
      if s1.Some? && s2.Some? { UpdatesCommute(cli.overrides, c1, s1.value, c2, s2.value); }
    }
  }

  /** What is thrown at a flag that cannot be set. */
  function Complaint(flags: map<string, Kind>, rawKey: string, value: string): Error {
    var key := Camel(rawKey);
    if key !in flags then UnknownField(rawKey)
    else if flags[key] == Boolean then BadBool(value)
    else BadInteger(rawKey, value)
  }

  /** What setting a flag changes, field by field. */
  lemma ApplyIs(flags: map<string, Kind>, cli: Cli, rawKey: string, value: string)
    ensures var key, r := Camel(rawKey), Apply(flags, cli, rawKey, value);
            && (r.Ok? <==> key in {"target", "configFile", "profile"} || (key in flags && ParseSetting(flags[key], value).Some?))
            && (r.Err? ==> r.error == Complaint(flags, rawKey, value))
            && (r.Ok? && key == "target" ==> r.value == cli.(ninjaTargets := cli.ninjaTargets + [value]))
            && (r.Ok? && key == "configFile" ==> r.value == cli.(configFile := Some(value), configureOnly := true))
            && (r.Ok? && key == "profile" ==> r.value == cli.(profile := value))
            && (r.Ok? && key !in {"target", "configFile", "profile"} ==>
                  r.value == cli.(overrides := cli.overrides[key := ParseSetting(flags[key], value).value]))
  {
  }

  lemma UpdatesCommute(m: map<string, Setting>, k1: string, s1: Setting, k2: string, s2: Setting)
    requires k1 != k2
    ensures m[k1 := s1][k2 := s2] == m[k2 := s2][k1 := s1]
  {
  }
}
