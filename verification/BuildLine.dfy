/** Command lines for scripts/build.ts, item by item, and what each field of the parsed arguments must
    then be. */
module BuildLine {
  import opened Wrappers
  import opened BuildArgs

  /** What can stand on a command line, again and again and in any order. */
  datatype Item =
    | Quiet | Timings | ConfigureOnly
    | NinjaOption(arg: string) | NinjaDebug(mode: string)
    | Flag(key: string, value: string)

  /** What can stand at its end. */
  datatype End = Nothing | Binary(args: seq<string>) | NinjaTool(args: seq<string>)

  function Words(item: Item): (w: seq<string>)
    ensures w != []
  {
    match item
    case Quiet => ["--quiet"]
    case Timings => ["--timings"]
    case ConfigureOnly => ["--configure-only"]
    case NinjaOption(arg) => [arg]
    case NinjaDebug(mode) => ["-d", mode]
    case Flag(key, value) => ["--" + key + "=" + value]
  }

  function Line(items: seq<Item>, tail: seq<string>): seq<string> {
    if items == [] then tail else Words(items[0]) + Line(items[1..], tail)
  }

  function Tail(end: End): seq<string> {
    match end
    case Nothing => []
    case Binary(args) => ["--"] + args
    case NinjaTool(args) => ["-t"] + args
  }

  const SPECIAL := {"target", "configFile", "profile"}

  /** A flag as it can be written on one line. */
  predicate WrittenFlag(item: Item) { item.Flag? && IsKey(item.key) && OneLine(item.value) }

  predicate GoodFlag(flags: map<string, Kind>, key: string, value: string) {
    var k := Camel(key);
    k in SPECIAL || (k in flags && ParseSetting(flags[k], value).Some?)
  }

  predicate Good(flags: map<string, Kind>, item: Item) {
    match item
    case NinjaOption(arg) => IsNinjaShort(arg)
    case NinjaDebug(mode) => mode in DEBUG_MODES
    case Flag(key, value) => WrittenFlag(item) && GoodFlag(flags, key, value)
    case _ => true
  }

  // ----- Field by field -----

  /** The values a flag was given, in order. */
  function Values(items: seq<Item>, key: string): seq<string> {
    if items == [] then []
    else
      var n := |items| - 1;
      Values(items[..n], key) + if items[n].Flag? && Camel(items[n].key) == key then [items[n].value] else []
  }

  /** Every ninja option, in order. */
  function NinjaWords(items: seq<Item>): seq<string> {
    if items == [] then []
    else
      var n := |items| - 1;
      NinjaWords(items[..n]) + if items[n].NinjaOption? || items[n].NinjaDebug? then Words(items[n]) else []
  }

  function Last(values: seq<string>, otherwise: string): string {
    if values == [] then otherwise else values[|values| - 1]
  }

  /** The last value of a flag, as a setting; for flags whose values are good. */
  function LastSetting(flags: map<string, Kind>, items: seq<Item>, key: string): Option<Setting> {
    if key !in flags || Values(items, key) == [] then None else ParseSetting(flags[key], Last(Values(items, key), ""))
  }

  function Overrides(flags: map<string, Kind>, items: seq<Item>): map<string, Setting> {
    map k | k in flags && k !in SPECIAL && LastSetting(flags, items, k).Some? :: LastSetting(flags, items, k).value
  }

  /** What the items ask for. */
  function Described(flags: map<string, Kind>, items: seq<Item>): Cli {
    Cli(Last(Values(items, "profile"), "debug"),
        Overrides(flags, items),
        Values(items, "target"),
        NinjaWords(items),
        None, [],
        ConfigureOnly in items || Values(items, "configFile") != [],
        Quiet in items,
        Timings in items,
        if Values(items, "configFile") == [] then None else Some(Last(Values(items, "configFile"), "")))
  }

  function WithEnd(cli: Cli, end: End): Cli {
    match end
    case Nothing => cli
    case Binary(args) => cli.(execArgs := args)
    case NinjaTool(args) => cli.(ninjaTool := Some(args))
  }

  // ----- One more item -----

  lemma ValuesStep(items: seq<Item>, item: Item, key: string)
    ensures Values(items + [item], key)
            == Values(items, key) + if item.Flag? && Camel(item.key) == key then [item.value] else []
  {
    assert (items + [item])[..|items|] == items;
  }

  lemma NinjaWordsStep(items: seq<Item>, item: Item)
    ensures NinjaWords(items + [item])
            == NinjaWords(items) + if item.NinjaOption? || item.NinjaDebug? then Words(item) else []
  {
    assert (items + [item])[..|items|] == items;
  }

  lemma OverridesStay(flags: map<string, Kind>, items: seq<Item>, item: Item)
    requires item.Flag? ==> Camel(item.key) in SPECIAL
    ensures Overrides(flags, items + [item]) == Overrides(flags, items)
  {
    hide Values, Camel, ParseSetting;
    forall k | k !in SPECIAL ensures LastSetting(flags, items + [item], k) == LastSetting(flags, items, k) {
      ValuesStep(items, item, k);
    }
  }

  lemma OverridesStep(flags: map<string, Kind>, items: seq<Item>, item: Item)
    requires item.Flag? && Good(flags, item) && Camel(item.key) !in SPECIAL
    ensures var k := Camel(item.key);
            Overrides(flags, items + [item]) == Overrides(flags, items)[k := ParseSetting(flags[k], item.value).value]
  {
    hide Values, Camel, ParseSetting, IsKey, OneLine;
    var key := Camel(item.key);
    forall k ensures LastSetting(flags, items + [item], k)
                     == if k == key then ParseSetting(flags[k], item.value) else LastSetting(flags, items, k)
    {
      ValuesStep(items, item, k);
    }
  }

  /** What the loop does with one item. */
  function Effect(flags: map<string, Kind>, cli: Cli, item: Item): Cli {
    match item
    case Quiet => Switched(cli, "--quiet")
    case Timings => Switched(cli, "--timings")
    case ConfigureOnly => Switched(cli, "--configure-only")
    case Flag(key, value) => (match Apply(flags, cli, key, value) case Ok(cli') => cli' case _ => cli)
    case _ => cli.(ninjaArgs := cli.ninjaArgs + Words(item))
  }

  lemma DescribedStep(flags: map<string, Kind>, items: seq<Item>, item: Item)
    requires Good(flags, item)
    ensures Described(flags, items + [item]) == Effect(flags, Described(flags, items), item)
  {
    hide Values, NinjaWords, Overrides, Camel, ParseSetting, IsKey, OneLine;
    ValuesStep(items, item, "profile");
    ValuesStep(items, item, "target");
    ValuesStep(items, item, "configFile");
    NinjaWordsStep(items, item);
    if item.Flag? && Camel(item.key) !in SPECIAL {
      OverridesStep(flags, items, item);
    } else {
      OverridesStay(flags, items, item);
    }
  }

  lemma SwitchParses(flags: map<string, Kind>, name: string, rest: seq<string>, cli: Cli)
    requires name in {"--quiet", "--timings", "--configure-only"}
    ensures Parse(flags, [name] + rest, cli) == Parse(flags, rest, Switched(cli, name))
  {
    var args := [name] + rest;
    assert args[0] == name && args[1..] == rest;
    assert name[1] == '-' && |name| > 2;
    assert First(flags, args) == Switch(name);
  }

  lemma NinjaParses(flags: map<string, Kind>, words: seq<string>, rest: seq<string>, cli: Cli)
    requires words != [] && First(flags, words + rest) == Ninja(|words|)
    ensures Parse(flags, words + rest, cli) == Parse(flags, rest, cli.(ninjaArgs := cli.ninjaArgs + words))
  {
    hide First;
    assert (words + rest)[|words|..] == rest && (words + rest)[..|words|] == words;
  }

  /** Going on after a flag, unless it is in error. */
  function GoOn(flags: map<string, Kind>, r: Result<Cli>, rest: seq<string>): Result<Cli> {
    if r.Ok? then Parse(flags, rest, r.value) else r
  }

  lemma FlagParses(flags: map<string, Kind>, k: string, v: string, rest: seq<string>, cli: Cli)
    requires IsKey(k) && OneLine(v)
    ensures Parse(flags, ["--" + k + "=" + v] + rest, cli)
            == GoOn(flags, Apply(flags, cli, k, v), rest)
  {
    hide First, Apply, IsKey, OneLine;
    FirstEquals(flags, k, v, rest);
    assert (["--" + k + "=" + v] + rest)[1..] == rest;
  }

  lemma ItemParses(flags: map<string, Kind>, item: Item, rest: seq<string>, cli: Cli)
    requires Good(flags, item)
    ensures Parse(flags, Words(item) + rest, cli) == Parse(flags, rest, Effect(flags, cli, item))
  {
    hide Parse, Camel, ParseSetting, IsKey, OneLine;
    match item {
      case NinjaOption(arg) => NinjaFirst(flags, arg, rest); NinjaParses(flags, [arg], rest, cli);
      case NinjaDebug(mode) => NinjaParses(flags, ["-d", mode], rest, cli);
      case Flag(key, value) => FlagParses(flags, key, value, rest, cli); ApplyIs(flags, cli, key, value);
      case _ => SwitchParses(flags, Words(item)[0], rest, cli);
    }
  }

  lemma NinjaFirst(flags: map<string, Kind>, arg: string, rest: seq<string>)
    requires IsNinjaShort(arg)
    ensures First(flags, [arg] + rest) == Ninja(1)
  {
    assert "-t"[1] == 't' && "-d"[1] == 'd';
  }

  // ----- All items -----

  lemma {:induction false} ItemsParse(flags: map<string, Kind>, items: seq<Item>, tail: seq<string>, k: nat)
    requires k <= |items| && forall i :: 0 <= i < |items| ==> Good(flags, items[i])
    ensures Parse(flags, Line(items, tail), START)
            == Parse(flags, Line(items[k..], tail), Described(flags, items[..k]))
    decreases k
  {
    hide Parse, Described, Good, Effect;
    if k == 0 {
      assert items[0..] == items && items[..0] == [];
      NothingDescribed(flags);
    } else {
      ItemsParse(flags, items, tail, k - 1);
      var item := items[k - 1];
      assert items[k - 1..][0] == item && items[k - 1..][1..] == items[k..];
      assert items[..k] == items[..k - 1] + [item];
      ItemParses(flags, item, Line(items[k..], tail), Described(flags, items[..k - 1]));
      DescribedStep(flags, items[..k - 1], item);
    }
  }

  lemma NothingDescribed(flags: map<string, Kind>)
    ensures Described(flags, []) == START
  {
    assert Overrides(flags, []) == map[];
  }

  lemma EndParses(flags: map<string, Kind>, end: End, cli: Cli)
    requires cli.execArgs == []
    ensures Parse(flags, Tail(end), cli) == Ok(WithEnd(cli, end))
  {
    match end {
      case Nothing =>
      case Binary(args) => assert (["--"] + args)[1..] == args && [] + args == args;
      case NinjaTool(args) => assert (["-t"] + args)[1..] == args;
    }
  }

  /** On every command line that is written from good items, in any order and number, every field of the
      result is what the items ask for: switches are on if they were given, lists hold everything that was
      given in order, single values the last one, and the end of the line goes where it belongs. */
  lemma EveryFieldIsAsWritten(flags: map<string, Kind>, items: seq<Item>, end: End)
    requires forall i :: 0 <= i < |items| ==> Good(flags, items[i])
    ensures Parse(flags, Line(items, Tail(end)), START) == Ok(WithEnd(Described(flags, items), end))
  {
    hide Parse, Good;
    ItemsParse(flags, items, Tail(end), |items|);
    assert items[|items|..] == [] && items[..|items|] == items;
    EndParses(flags, end, Described(flags, items));
  }

  /** The first flag that is not good is the one that is complained about, whatever comes after it; by
      name, except for a boolean, whose complaint holds its value alone. */
  lemma {:induction false} FirstBadFlagIsReported(
      flags: map<string, Kind>, items: seq<Item>, key: string, value: string, rest: seq<string>)
    requires forall i :: 0 <= i < |items| ==> Good(flags, items[i])
    requires IsKey(key) && OneLine(value) && !GoodFlag(flags, key, value)
    ensures Parse(flags, Line(items, Words(Flag(key, value)) + rest), START)
            == Err(Complaint(flags, key, value))
  {
    hide Parse, Good, Apply, Camel, ParseSetting, IsKey, OneLine;
    var cli := Described(flags, items);
    ItemsParse(flags, items, Words(Flag(key, value)) + rest, |items|);
    assert items[|items|..] == [] && items[..|items|] == items;
    FlagParses(flags, key, value, rest, cli);
    ApplyIs(flags, cli, key, value);
    ApplyKeepsExec(flags, cli, key, value);
  }
}
