/** Worked examples of the run path on concrete definitions and data. */
module Scenarios {
  import opened Wrappers
  import opened OrderedMaps
  import opened PhpValues
  import opened Definitions
  import opened Rules
  import opened Marshal
  import opened Bridge
  import opened Listing

  const Force := OptSpec("force", "Force the operation", None, OptMode(false, false, false), Bool(false))
  const Step := ArgSpec("step", "", true, false, Null)
  const Seeders := OptSpec("seeders", "", None, OptMode(false, true, true), Null)

  function ClearCache(): CommandDef {
    CommandDef("cache:clear", "", "", [], [Force])
  }

  function Migrate(): CommandDef {
    CommandDef("migrate", "", "", [Step], [Seeders])
  }

  /** A flag option `force` gets the rule `[nullable, bool]`. */
  lemma ForceFlagRule(envMode: OptMode)
    ensures Get(BuildRules(ClearCache(), envMode), "force") == Some([Nullable, BoolType])
  {
    assert OptNames(ClearCache().options) == ["force"];
    RuleOfOption(ClearCache(), envMode, Force);
  }

  /** A required argument `step` gets `[required]`, an optional array option
      `seeders` gets `[nullable, array]`. */
  lemma MigrateRules(envMode: OptMode)
    ensures Get(BuildRules(Migrate(), envMode), "step") == Some([Required])
    ensures Get(BuildRules(Migrate(), envMode), "seeders") == Some([Nullable, ArrayType])
  {
    MigrateNames();
    RuleOfOption(Migrate(), envMode, Seeders);
    RuleOfArgument(Migrate(), envMode, Step);
  }

  lemma MigrateNames()
    ensures Distinct(ArgNames(Migrate().arguments)) && Distinct(OptNames(Migrate().options))
    ensures Step in Migrate().arguments && Seeders in Migrate().options
    ensures Step.name !in OptNames(Migrate().options) && Step.name != EnvName && Seeders.name != EnvName
  {
    assert ArgNames(Migrate().arguments) == ["step"];
    assert OptNames(Migrate().options) == ["seeders"];
    assert "step"[1] == 't' && "seeders"[1] == 'e' && EnvName[1] == 'n';
  }

  /** A request with `force=true` marshals to `--force`, then `--no-ansi`. */
  lemma ForceFlagMarshal(envMode: OptMode)
    ensures MarshalParams([("force", Bool(true))], OptionKeys(ClearCache(), envMode)) ==
            [("--force", Bool(true)), (NoAnsi, Str(""))]
  {
    TwoKeys(ClearCache().options, envMode);
    MarshalForce([("force", Bool(true))], OptionKeys(ClearCache(), envMode));
  }

  lemma MarshalForce(data: Params, keys: seq<string>)
    requires data == [("force", Bool(true))]
    requires keys == ["force", EnvName]
    ensures MarshalParams(data, keys) == [("--force", Bool(true)), (NoAnsi, Str(""))]
  {
    ForceData(data, keys);
    MarshalShape(data, keys);
  }

  lemma ForceData(data: Params, keys: seq<string>)
    requires data == [("force", Bool(true))]
    requires keys == ["force", EnvName]
    ensures Unique(data) && PlainKeys(data) && "no-ansi" !in keys
    ensures Flagged(ArrayFilter(data), keys) + [(NoAnsi, Str(""))] ==
            [("--force", Bool(true)), (NoAnsi, Str(""))]
  {
    assert "force"[0] == 'f' && "no-ansi"[0] == 'n' && EnvName[0] == 'e';
    assert Keys(data) == ["force"];
    assert ArrayFilter(data) == data;
    var written := Flagged(data, keys);
    assert FlagKey("force", keys) == "--force";
    assert written[0] == ("--force", Bool(true));
    assert written == [("--force", Bool(true))];
  }

  /** With `{step: "5", seeders: []}` the empty array is dropped, the
      argument passes through unprefixed, and only `--no-ansi` is added. */
  lemma MigrateMarshal(envMode: OptMode)
    ensures MarshalParams([("step", Str("5")), ("seeders", Arr([]))], OptionKeys(Migrate(), envMode)) ==
            [("step", Str("5")), (NoAnsi, Str(""))]
  {
    TwoKeys(Migrate().options, envMode);
    MarshalMigrate([("step", Str("5")), ("seeders", Arr([]))], OptionKeys(Migrate(), envMode));
  }

  lemma MarshalMigrate(data: Params, keys: seq<string>)
    requires data == [("step", Str("5")), ("seeders", Arr([]))]
    requires keys == ["seeders", EnvName]
    ensures MarshalParams(data, keys) == [("step", Str("5")), (NoAnsi, Str(""))]
  {
    MigrateData(data, keys);
    MarshalShape(data, keys);
  }

  lemma MigrateData(data: Params, keys: seq<string>)
    requires data == [("step", Str("5")), ("seeders", Arr([]))]
    requires keys == ["seeders", EnvName]
    ensures Unique(data) && PlainKeys(data) && "no-ansi" !in keys
    ensures Flagged(ArrayFilter(data), keys) + [(NoAnsi, Str(""))] ==
            [("step", Str("5")), (NoAnsi, Str(""))]
  {
    assert "step"[0] == 's' && "step"[1] == 't' && "seeders"[0] == 's' && "seeders"[1] == 'e';
    assert "no-ansi"[0] == 'n' && EnvName[0] == 'e';
    assert Keys(data) == ["step", "seeders"];
    var kept := [data[0]];
    assert ArrayFilter(data) == kept;
    var written := Flagged(kept, keys);
    assert FlagKey("step", keys) == "step";
    assert written == kept;
  }

  /** A runtime that throws code 2 with "disk full" yields status 2 and that
      message, under the command's name. */
  lemma DiskFullCaptured()
    ensures Capture(Threw(Int(2), "disk full"), "migrate") == ExecutionResult(Int(2), "disk full", "migrate")
  {
  }

  /** A database exception whose code is the SQLSTATE string "42S02" reports
      that string as its status, not 500. */
  lemma SqlStateCaptured()
    ensures Capture(Threw(Str("42S02"), "Base table not found"), "migrate").status == Str("42S02")
  {
  }

  /** A single declared option other than `env` is followed by `env`. */
  lemma TwoKeys(opts: seq<OptSpec>, envMode: OptMode)
    requires |opts| == 1 && opts[0].name != EnvName
    ensures Keys(WithEnv(opts, envMode)) == [opts[0].name, EnvName]
  {
    assert OptNames(opts) == [opts[0].name];
    OptionTableInOrder(opts);
    assert Keys(OptionEntries(opts)) == [opts[0].name];
  }

  /** Two group keys that title-case alike (`db` and `DB` both to `Db`):
      the later group survives, under the shared key. */
  lemma TitleCollision<V>(title: string -> string, a: V, b: V)
    requires title("db") == "Db" && title("DB") == "Db"
    ensures RenameKeys(title, [("db", a), ("DB", b)]) == [("Db", b)]
  {
    var titled := TitledEntries(title, [("db", a), ("DB", b)]);
    assert titled == [("Db", a), ("Db", b)];
    assert titled[..1] == [("Db", a)];
    assert PutAll([], titled[..1]) == [("Db", a)];
  }
}
