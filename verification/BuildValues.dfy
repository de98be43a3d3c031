/** What the flags of scripts/build.ts are set to, spelled out: which words mean true and false, which digits
    mean which number, which texts are keys and options. */
module BuildValues {
  import opened Wrappers
  import opened BuildArgs
  import opened BuildLine

  // ----- Booleans -----

  /** `v` is the word `w`, in any case of letters. */
  predicate Spells(v: string, w: string) {
    |v| == |w| && forall i :: 0 <= i < |v| ==> v[i] == w[i] || ('a' <= w[i] <= 'z' && v[i] == w[i] - 'a' + 'A')
  }

  predicate SpellsTrue(v: string) { Spells(v, "on") || Spells(v, "true") || Spells(v, "yes") || Spells(v, "1") }

  predicate SpellsFalse(v: string) { Spells(v, "off") || Spells(v, "false") || Spells(v, "no") || Spells(v, "0") }

  lemma LowerSpells(v: string, w: string)
    requires forall i :: 0 <= i < |w| ==> !('A' <= w[i] <= 'Z')
    ensures Lower(v) == w <==> Spells(v, w)
  {
    var l := Lower(v);
    if Spells(v, w) {
      assert forall i :: 0 <= i < |v| ==> l[i] == w[i];
    }
    if l == w {
      forall i | 0 <= i < |v| ensures v[i] == w[i] || ('a' <= w[i] <= 'z' && v[i] == w[i] - 'a' + 'A') {
        assert l[i] == w[i];
      }
    }
  }

  lemma BoolIs(v: string)
    ensures ParseBool(v) == if SpellsTrue(v) then Some(true) else if SpellsFalse(v) then Some(false) else None
    ensures !(SpellsTrue(v) && SpellsFalse(v))
  {
    hide Lower, Spells;
    LowerSpells(v, "on");
    LowerSpells(v, "true");
    LowerSpells(v, "yes");
    LowerSpells(v, "1");
    LowerSpells(v, "off");
    LowerSpells(v, "false");
    LowerSpells(v, "no");
    LowerSpells(v, "0");
    assert "on"[0] != "no"[0] && "yes"[0] != "off"[0] && "1"[0] != "0"[0];
  }

  predicate IsField(flags: map<string, Kind>, k: string, kind: Kind) {
    var key := Camel(k);
    key in flags && flags[key] == kind && key != "target" && key != "configFile" && key != "profile"
  }

  /** Setting a field, and going on. */
  function Set(flags: map<string, Kind>, k: string, setting: Setting, rest: seq<string>, cli: Cli): Result<Cli> {
    Parse(flags, rest, cli.(overrides := cli.overrides[Camel(k) := setting]))
  }

  /** A boolean is set to true by on, true, yes and 1, to false by off, false, no and 0, in any case of letters,
      and by nothing else. */
  lemma BooleanFlag(flags: map<string, Kind>, k: string, v: string, rest: seq<string>, cli: Cli)
    requires IsKey(k) && OneLine(v) && IsField(flags, k, Boolean)
    ensures Parse(flags, ["--" + k + "=" + v] + rest, cli)
            == if SpellsTrue(v) then Set(flags, k, Bool(true), rest, cli)
               else if SpellsFalse(v) then Set(flags, k, Bool(false), rest, cli)
               else Err(BadBool(v))
    ensures !(SpellsTrue(v) && SpellsFalse(v))
  {
    hide Parse, IsKey, OneLine, ParseBool, SpellsTrue, SpellsFalse, Camel;
    FlagParses(flags, k, v, rest, cli);
    BoolIs(v);
  }

  // ----- Numbers -----

  /** The decimal digits of a number. */
  function Decimal(n: nat): (d: string)
    ensures d != [] && forall i :: 0 <= i < |d| ==> '0' <= d[i] <= '9'
  {
    if n < 10 then [(n + '0' as int) as char] else Decimal(n / 10) + [(n % 10 + '0' as int) as char]
  }

  lemma {:induction false} DecimalIs(n: nat)
    ensures DigitsValue(Decimal(n)) == n
  {
    var d := Decimal(n);
    if n < 10 {
      assert d[..0] == [];
    } else {
      DecimalIs(n / 10);
      assert d[..|d| - 1] == Decimal(n / 10);
    }
  }

  lemma {:induction false} LeadingZero(v: string)
    requires forall i :: 0 <= i < |v| ==> '0' <= v[i] <= '9'
    ensures DigitsValue(['0'] + v) == DigitsValue(v)
    decreases |v|
  {
    var z := ['0'] + v;
    if v == [] {
      assert z == ['0'] && z[..0] == [];
    } else {
      LeadingZero(v[..|v| - 1]);
      assert z[..|z| - 1] == ['0'] + v[..|v| - 1];
    }
  }

  /** A number is set by its decimal digits, also with zeros in front, and by nothing that has another character
      or none at all. */
  lemma NumberFlag(flags: map<string, Kind>, k: string, v: string, n: nat, rest: seq<string>, cli: Cli)
    requires IsKey(k) && OneLine(v) && IsField(flags, k, Number)
    ensures v == Decimal(n) ==> Parse(flags, ["--" + k + "=" + v] + rest, cli) == Set(flags, k, Int(n), rest, cli)
    ensures (forall i :: 0 <= i < |v| ==> '0' <= v[i] <= '9') && v != [] && OneLine(['0'] + v) ==>
              Parse(flags, ["--" + k + "=" + (['0'] + v)] + rest, cli) == Parse(flags, ["--" + k + "=" + v] + rest, cli)
    ensures v == [] || !(forall i :: 0 <= i < |v| ==> '0' <= v[i] <= '9') ==>
              Parse(flags, ["--" + k + "=" + v] + rest, cli) == Err(BadInteger(k, v))
  {
    hide Parse, IsKey, OneLine, Camel, DigitsValue;
    FlagParses(flags, k, v, rest, cli);
    DecimalIs(n);
    if (forall i :: 0 <= i < |v| ==> '0' <= v[i] <= '9') && v != [] && OneLine(['0'] + v) {
      LeadingZero(v);
      FlagParses(flags, k, ['0'] + v, rest, cli);
    }
  }

  // ----- Texts -----

  lemma TextFlag(flags: map<string, Kind>, k: string, v: string, rest: seq<string>, cli: Cli)
    requires IsKey(k) && OneLine(v) && IsField(flags, k, Text)
    ensures Parse(flags, ["--" + k + "=" + v] + rest, cli) == Set(flags, k, Str(v), rest, cli)
  {
    hide Parse, IsKey, OneLine, Camel;
    FlagParses(flags, k, v, rest, cli);
  }

  // ----- Keys -----

  predicate Small(c: char) { 'a' <= c <= 'z' }

  /** A word of a key: a small letter first, and no dash. */
  predicate Word(w: string) { w != [] && Small(w[0]) && forall i :: 0 <= i < |w| ==> w[i] != '-' }

  function Dashed(words: seq<string>): string {
    if words == [] then [] else "-" + words[0] + Dashed(words[1..])
  }

  function Capitals(words: seq<string>): string
    requires forall i :: 0 <= i < |words| ==> Word(words[i])
  {
    if words == [] then [] else
      assert Word(words[0]);
      [words[0][0] - 'a' + 'A'] + words[0][1..] + Capitals(words[1..])
  }

  lemma {:induction false} CamelCopies(u: string, w: string)
    requires forall i :: 0 <= i < |u| ==> u[i] != '-'
    ensures Camel(u + w) == u + Camel(w)
    decreases |u|
  {
    if u == [] {
      assert u + w == w;
    } else {
      assert (u + w)[1..] == u[1..] + w && (u + w)[0] == u[0];
      CamelCopies(u[1..], w);
    }
  }

  lemma {:induction false} CamelDashed(words: seq<string>)
    requires forall i :: 0 <= i < |words| ==> Word(words[i])
    ensures Camel(Dashed(words)) == Capitals(words)
    decreases |words|
  {
    if words != [] {
      var w, rest := words[0], Dashed(words[1..]);
      assert Word(w);
      CamelDashed(words[1..]);
      var s := "-" + w + rest;
      assert s[0] == '-' && s[1] == w[0] && s[2..] == w[1..] + rest;
      CamelCopies(w[1..], rest);
      assert [w[0] - 'a' + 'A'] + (w[1..] + Camel(rest)) == [w[0] - 'a' + 'A'] + w[1..] + Camel(rest);
    }
  }

  /** Words joined by dashes become one word, with capitals where they were joined. */
  lemma CamelIs(first: string, words: seq<string>)
    requires (forall i :: 0 <= i < |first| ==> first[i] != '-') && forall i :: 0 <= i < |words| ==> Word(words[i])
    ensures Camel(first + Dashed(words)) == first + Capitals(words)
  {
    CamelCopies(first, Dashed(words));
    CamelDashed(words);
  }

  /** Which texts are keys. */
  lemma KeyIs(k: string)
    ensures IsKey(k) <==>
              && k != [] && ('a' <= k[0] <= 'z' || 'A' <= k[0] <= 'Z')
              && forall i :: 0 <= i < |k| ==>
                   'a' <= k[i] <= 'z' || 'A' <= k[i] <= 'Z' || '0' <= k[i] <= '9' || k[i] == '-'
  {
  }

  /** Which values are on one line. */
  lemma OneLineIs(v: string)
    ensures OneLine(v) <==> !('\n' in v || '\r' in v || '\U{2028}' in v || '\U{2029}' in v)
  {
  }

  lemma {:induction false} KeyLenIs(s: string)
    ensures forall i :: 0 <= i < KeyLen(s) ==> IsKeyChar(s[i])
    ensures KeyLen(s) < |s| ==> !IsKeyChar(s[KeyLen(s)])
    decreases |s|
  {
    if s != [] && IsKeyChar(s[0]) {
      KeyLenIs(s[1..]);
      assert forall i :: 1 <= i < |s| ==> s[i] == s[1..][i - 1];
    }
  }

  /** What matched, put together again. */
  lemma MatchFlagGives(arg: string)
    ensures var m := MatchFlag(arg);
            m.Some? ==>
              && IsKey(m.value.0)
              && (m.value.1.None? ==> arg == "--" + m.value.0)
              && (m.value.1.Some? ==> OneLine(m.value.1.value) && arg == "--" + m.value.0 + "=" + m.value.1.value)
  {
    hide KeyLen, OneLine;
    if |arg| >= 3 && arg[0] == '-' && arg[1] == '-' {
      var s := arg[2..];
      KeyLenIs(s);
      var n := KeyLen(s);
      assert arg == "--" + s && s == s[..n] + s[n..];
      assert arg[2..2 + n] == s[..n];
      if n < |s| { assert s[n..] == [s[n]] + s[n + 1..] && arg[2 + n + 1..] == s[n + 1..]; }
    }
  }

  /** The pattern matches exactly `--key` and `--key=value`, the value on one line. */
  lemma MatchFlagIff(arg: string, k: string, v: string)
    ensures MatchFlag(arg) == Some((k, None)) <==> IsKey(k) && arg == "--" + k
    ensures MatchFlag(arg) == Some((k, Some(v))) <==> IsKey(k) && OneLine(v) && arg == "--" + k + "=" + v
  {
    hide MatchFlag, IsKey, OneLine;
    MatchFlagGives(arg);
    if IsKey(k) { MatchBoth(k, v); }
  }

  // ----- Options of ninja -----

  /** Which options are ninja's: by their first letter, and a debug mode after `-d`. */
  lemma NinjaIs(flags: map<string, Kind>, arg: string, rest: seq<string>, cli: Cli)
    requires "-j" <= arg || "-k" <= arg || "-l" <= arg || "-v" <= arg || "-n" <= arg
    ensures Parse(flags, [arg] + rest, cli) == Parse(flags, rest, cli.(ninjaArgs := cli.ninjaArgs + [arg]))
  {
    hide Parse;
    assert IsNinjaShort(arg);
    NinjaFirst(flags, arg, rest);
    NinjaParses(flags, [arg], rest, cli);
  }

  lemma NinjaDebugIs(flags: map<string, Kind>, mode: string, rest: seq<string>, cli: Cli)
    requires || mode == "stats" || mode == "explain" || mode == "keepdepfile" || mode == "keeprsp"
             || mode == "nostatcache" || mode == "list"
    ensures Parse(flags, ["-d", mode] + rest, cli) == Parse(flags, rest, cli.(ninjaArgs := cli.ninjaArgs + ["-d", mode]))
  {
    hide Parse;
    NinjaParses(flags, ["-d", mode], rest, cli);
  }

  /** Any other option with one dash ends the flags, and goes to the binary; `-h` shows the help. */
  lemma OtherDashIs(flags: map<string, Kind>, arg: string, rest: seq<string>, cli: Cli)
    requires |arg| >= 2 && arg[0] == '-' && arg[1] != '-' && arg != "-t" && arg != "-d"
    requires !("-j" <= arg || "-k" <= arg || "-l" <= arg || "-v" <= arg || "-n" <= arg)
    ensures Parse(flags, [arg] + rest, cli)
            == if arg == "-h" then ShowHelp else Ok(cli.(execArgs := cli.execArgs + ([arg] + rest)))
  {
    assert !IsNinjaShort(arg);
    assert MatchFlag(arg) == None;
    assert arg !in {"--configure-only", "--quiet", "--timings"} && arg != "--help" && arg != "--" by {
      assert "--configure-only"[1] == '-' && "--quiet"[1] == '-' && "--timings"[1] == '-' && "--help"[1] == '-' && "--"[1] == '-';
    }
    assert ([arg] + rest)[0] == arg;
  }

  // ----- Flags in two words -----

  predicate Ours(flags: map<string, Kind>, key: string) {
    key == "profile" || key == "target" || key == "configFile" || key in flags
  }

  /** A key that is known takes the next argument for its value, and is in error without one. Any other key ends
      the flags. */
  lemma SpacedFlag(flags: map<string, Kind>, k: string, v: string, rest: seq<string>, cli: Cli)
    requires IsKey(k) && k != "configure-only" && k != "quiet" && k != "timings" && k != "help"
    ensures Ours(flags, Camel(k)) ==>
              && Parse(flags, ["--" + k] + [], cli) == Err(RequiresValue(k))
              && Parse(flags, ["--" + k, v] + rest, cli) == GoOn(flags, Apply(flags, cli, k, v), rest)
    ensures !Ours(flags, Camel(k)) ==>
              Parse(flags, ["--" + k] + rest, cli) == Ok(cli.(execArgs := cli.execArgs + (["--" + k] + rest)))
  {
    hide IsKey, Camel, Apply, First;
    BareKey(flags, k, []);
    BareKey(flags, k, rest);
    if Ours(flags, Camel(k)) {
      FirstSpaced(flags, k, v, rest);
      assert (["--" + k, v] + rest)[2..] == rest;
    }
  }

  /** A key without a value, in front of the rest. */
  lemma BareKey(flags: map<string, Kind>, k: string, rest: seq<string>)
    requires IsKey(k) && k != "configure-only" && k != "quiet" && k != "timings" && k != "help"
    ensures First(flags, ["--" + k] + rest)
            == if !Ours(flags, Camel(k)) then Positional else if rest == [] then Missing(k) else Assign(k, rest[0], 2)
  {
    hide IsKey, Camel, MatchFlag, OneLine;
    var arg, args := "--" + k, ["--" + k] + rest;
    MatchBoth(k, []);
    KeyIsLong(k);
    LongFlag(arg);
    assert arg[2..] == k && args[0] == arg;
    assert rest != [] ==> args[1] == rest[0];
  }

  lemma KeyIsLong(k: string)
    requires IsKey(k)
    ensures |k| > 0
  {
  }

  lemma HelpIs(flags: map<string, Kind>, rest: seq<string>, cli: Cli)
    ensures Parse(flags, ["--help"] + rest, cli) == ShowHelp
  {
    assert (["--help"] + rest)[0] == "--help";
    LongFlag("--help");
    assert "--help"[2] == 'h' && "--configure-only"[2] == 'c' && "--quiet"[2] == 'q' && "--timings"[2] == 't';
  }
}
