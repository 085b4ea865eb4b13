/**
 * Command-line options (`parseOptions` of dist/utils.js): every declared option
 * is looked up as `--<key>` in argv; an absent option keeps its default.
 */
module Options {
  import opened Outcomes
  import Numbers

  /** The `type` of an option; everything but Boolean and Number takes the next argument verbatim. */
  datatype OptType = BooleanType | NumberType | StringType

  /** The JavaScript values an option can end up holding. */
  datatype Value = VStr(str: string) | VNum(num: int) | VNaN | VBool(truth: bool) | VUndefined

  datatype OptionSpec = OptionSpec(default: Value, typ: OptType)

  /** `argv.indexOf(x)`: the first position of `x`, if any. */
  function ArgIndex(argv: seq<string>, x: string): (r: Option<nat>)
    ensures r.Some? ==> r.value < |argv| && argv[r.value] == x
    ensures r.Some? ==> forall j :: 0 <= j < r.value ==> argv[j] != x
    ensures r.None? <==> forall j :: 0 <= j < |argv| ==> argv[j] != x
  {
    if |argv| == 0 then None
    else if argv[0] == x then Some(0)
    else match ArgIndex(argv[1..], x)
      case None => None
      case Some(i) => Some(i + 1)
  }

  function Flag(key: string): string {
    "--" + key
  }

  /** What `parseInt` reads when it is handed `undefined`: the value converted to a string. */
  const UndefinedText: string := "undefined"

  /** `parseInt(argv[i + 1], 10)`: a missing argument is `undefined`, which reads as `UndefinedText`. */
  function NumberAfter(argv: seq<string>, i: nat): Value {
    var text := if i + 1 < |argv| then argv[i + 1] else UndefinedText;
    match Numbers.ParseInt(text)
    case NaN => VNaN
    case Num(n) => VNum(n)
  }

  function StringAfter(argv: seq<string>, i: nat): Value {
    if i + 1 < |argv| then VStr(argv[i + 1]) else VUndefined
  }

  /** The value one option receives from argv. */
  function OptionValue(spec: OptionSpec, key: string, argv: seq<string>): Value {
    match ArgIndex(argv, Flag(key))
    case None => spec.default
    case Some(i) =>
      match spec.typ
      case BooleanType => VBool(true)
      case NumberType => NumberAfter(argv, i)
      case StringType => StringAfter(argv, i)
  }

  /**
   * parseOptions: the reduce over the declared keys, assigning `options[key]` one
   * key at a time.
   */
  method ParseOptions(info: map<string, OptionSpec>, argv: seq<string>) returns (options: map<string, Value>)
    ensures options.Keys == info.Keys
    ensures forall key :: key in info ==> options[key] == OptionValue(info[key], key, argv)
  {
    options := map[];
    var remaining := info.Keys;
    while remaining != {}
      invariant remaining <= info.Keys
      invariant options.Keys == info.Keys - remaining
      invariant forall key :: key in options ==> options[key] == OptionValue(info[key], key, argv)
      decreases remaining
    {
      var key :| key in remaining;
      var value := ReadOption(info[key], key, argv);
      options := options[key := value];
      remaining := remaining - {key};
    }
  }

  /** The body of ParseOptions' loop, the reduce's callback for one key: the flag's position in argv, then the option's type. */
  method ReadOption(spec: OptionSpec, key: string, argv: seq<string>) returns (value: Value)
    ensures value == OptionValue(spec, key, argv)
  {
    var foundIndex := ArgIndex(argv, Flag(key));
    match foundIndex {
      case None =>
        value := spec.default;
      case Some(i) =>
        match spec.typ {
          case BooleanType =>
            value := VBool(true);
          case NumberType =>
            var text := if i + 1 < |argv| then argv[i + 1] else UndefinedText;
            var parsed := Numbers.ParseInt(text);
            value := if parsed.NaN? then VNaN else VNum(parsed.value);
          case StringType =>
            value := if i + 1 < |argv| then VStr(argv[i + 1]) else VUndefined;
        }
    }
  }

  /** The options the server declares, with `root` defaulting to the process's working directory. */
  function ServerOptionInfo(processCwd: string): map<string, OptionSpec> {
    map[
      "root" := OptionSpec(VStr(processCwd), StringType),
      "address" := OptionSpec(VStr("0.0.0.0"), StringType),
      "httpPort" := OptionSpec(VNum(3333), NumberType),
      "liveReloadPort" := OptionSpec(VNum(35729), NumberType)
    ]
  }

  // ---------------------------------------------------------------------------
  // Properties

  /** An option whose flag is absent keeps its default. */
  lemma AbsentKeepsDefault(spec: OptionSpec, key: string, argv: seq<string>)
    requires forall j :: 0 <= j < |argv| ==> argv[j] != "--" + key
    ensures OptionValue(spec, key, argv) == spec.default
  {
  }

  /** A present Boolean flag is true, whatever follows it. */
  lemma BooleanFlagIsTrue(default: Value, key: string, argv: seq<string>, i: nat)
    requires i < |argv| && argv[i] == "--" + key
    ensures OptionValue(OptionSpec(default, BooleanType), key, argv) == VBool(true)
  {
  }

  /** The first occurrence of the flag decides; a Number option reads the argument after it in decimal. */
  lemma NumberFlagReadsNext(default: Value, key: string, argv: seq<string>, i: nat, n: int)
    requires i + 1 < |argv| && argv[i] == "--" + key
    requires forall j :: 0 <= j < i ==> argv[j] != "--" + key
    requires argv[i + 1] == Numbers.Decimal(n)
    ensures OptionValue(OptionSpec(default, NumberType), key, argv) == VNum(n)
  {
    Numbers.ParseIntDecimal(n);
  }

  /** A Number flag that is the last argument is `parseInt(undefined)`, which is NaN. */
  lemma NumberFlagWithoutValue(default: Value, key: string, argv: seq<string>)
    requires |argv| > 0 && argv[|argv| - 1] == "--" + key
    requires forall j :: 0 <= j < |argv| - 1 ==> argv[j] != "--" + key
    ensures OptionValue(OptionSpec(default, NumberType), key, argv) == VNaN
  {
    assert ArgIndex(argv, Flag(key)) == Some(|argv| - 1);
    var u := UndefinedText;
    assert Numbers.SkipWhiteSpace(u) == u by {
      assert !Numbers.IsJsWhiteSpace(u[0]);
    }
    assert Numbers.SignStripped(u) == u;
    assert !Numbers.IsDigit(u[0]);
  }

  /** Any other option takes the argument after its first flag verbatim, or undefined when there is none. */
  lemma StringFlagTakesNext(default: Value, key: string, argv: seq<string>, i: nat)
    requires i < |argv| && argv[i] == "--" + key
    requires forall j :: 0 <= j < i ==> argv[j] != "--" + key
    ensures OptionValue(OptionSpec(default, StringType), key, argv) ==
            if i + 1 < |argv| then VStr(argv[i + 1]) else VUndefined
  {
  }

  /** With no arguments the server's options are their defaults. */
  lemma ServerDefaults(processCwd: string)
    ensures var info := ServerOptionInfo(processCwd);
      OptionValue(info["root"], "root", []) == VStr(processCwd) &&
      OptionValue(info["address"], "address", []) == VStr("0.0.0.0") &&
      OptionValue(info["httpPort"], "httpPort", []) == VNum(3333) &&
      OptionValue(info["liveReloadPort"], "liveReloadPort", []) == VNum(35729)
  {
  }
}
