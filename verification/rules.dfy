/** Validation rules derived from a command definition: one entry per
    argument and per option (with `env` merged in), each a short list of rule
    tokens handed to the request validator. */
module Rules {
  import opened Wrappers
  import opened OrderedMaps
  import opened Definitions

  datatype Rule = Required | Nullable | ArrayType | StringType | BoolType

  /** Field name to rule tokens, in the order the fields were first written. */
  type RuleSet = Assoc<string, seq<Rule>>

  function Presence(required: bool): Rule {
    if required then Required else Nullable
  }

  /** `array` for an array option, `string` for another value option, `bool`
      for a flag that takes no value. */
  function ValueType(mode: OptMode): (r: Rule)
    ensures r == BoolType <==> !mode.acceptValue
    ensures r == ArrayType <==> mode.acceptValue && mode.isArray
    ensures r == StringType <==> mode.acceptValue && !mode.isArray
  {
    if mode.acceptValue then (if mode.isArray then ArrayType else StringType) else BoolType
  }

  function ArgumentRule(a: ArgSpec): seq<Rule> {
    [Presence(a.required)]
  }

  function OptionRule(o: OptSpec): seq<Rule> {
    [Presence(o.mode.valueRequired), ValueType(o.mode)]
  }

  function ArgumentRuleEntries(args: seq<ArgSpec>): (es: RuleSet)
    ensures Keys(es) == ArgNames(args)
  {
    seq(|args|, i requires 0 <= i < |args| => (args[i].name, ArgumentRule(args[i])))
  }

  function OptionRuleEntries(table: Assoc<string, OptSpec>): (es: RuleSet)
    ensures Keys(es) == Keys(table)
  {
    seq(|table|, i requires 0 <= i < |table| => (table[i].0, OptionRule(table[i].1)))
  }

  /** The controller's rule derivation: a rule for every argument, then a rule
      for every option of the table with `env` merged in, each written under
      the field's name, so a later write replaces an earlier one in place.
      Each field name gets exactly one entry. */
  function BuildRules(def: CommandDef, envMode: OptMode): (rules: RuleSet)
    ensures Unique(rules)
    ensures forall n :: n in Keys(rules) <==>
              n in ArgNames(def.arguments) || n in OptNames(def.options) || n == EnvName
  {
    var argRules := PutAll([], ArgumentRuleEntries(def.arguments));
    assert Unique<string, seq<Rule>>([]);
    PutAll(argRules, OptionRuleEntries(WithEnv(def.options, envMode)))
  }

  /** Every option of the table with `env` merged in has its own rule
      `[presence, type]`, whatever argument of the same name came before. */
  lemma RuleOfEntry(def: CommandDef, envMode: OptMode, i: nat)
    requires i < |WithEnv(def.options, envMode)|
    ensures Get(BuildRules(def, envMode), WithEnv(def.options, envMode)[i].0) ==
            Some(OptionRule(WithEnv(def.options, envMode)[i].1))
  {
    TableRuleWins(PutAll([], ArgumentRuleEntries(def.arguments)), WithEnv(def.options, envMode), i);
  }

  /** The `env` field always gets the rule of the `env` option. */
  lemma RuleOfEnv(def: CommandDef, envMode: OptMode)
    ensures Get(BuildRules(def, envMode), EnvName) == Some(OptionRule(EnvOption(envMode)))
  {
    KeyRuleWins(PutAll([], ArgumentRuleEntries(def.arguments)), WithEnv(def.options, envMode), EnvName);
  }

  /** Writing the option rules of a table with unique keys over earlier
      rules: each option's rule is what a lookup of its name finds. */
  lemma TableRuleWins(earlier: RuleSet, table: Assoc<string, OptSpec>, i: nat)
    requires Unique(table) && i < |table|
    ensures Get(PutAll(earlier, OptionRuleEntries(table)), table[i].0) == Some(OptionRule(table[i].1))
  {
    var entries := OptionRuleEntries(table);
    PutAllGet(earlier, entries, table[i].0);
    assert Keys(entries)[i] == table[i].0;
    UniqueGetLast(entries, i);
  }

  /** The same, looked up by name. */
  lemma KeyRuleWins(earlier: RuleSet, table: Assoc<string, OptSpec>, k: string)
    requires Unique(table) && Get(table, k).Some?
    ensures Get(PutAll(earlier, OptionRuleEntries(table)), k) == Some(OptionRule(Get(table, k).value))
  {
    var i := KeyIndex(table, k);
    UniqueGet(table, i);
    TableRuleWins(earlier, table, i);
  }

  /** A declared option's rule is `[presence, type]`, whatever argument of
      the same name came before it. */
  lemma RuleOfOption(def: CommandDef, envMode: OptMode, o: OptSpec)
    requires Distinct(OptNames(def.options))
    requires o in def.options && o.name != EnvName
    ensures Get(BuildRules(def, envMode), o.name) == Some(OptionRule(o))
  {
    var declared := OptionTable(def.options);
    var i :| 0 <= i < |def.options| && def.options[i] == o;
    OptionTableInOrder(def.options);
    assert declared[i] == (o.name, o);
    UniqueGet(declared, i);
    PutGet(declared, EnvName, EnvOption(envMode), o.name);
    KeyRuleWins(PutAll([], ArgumentRuleEntries(def.arguments)), WithEnv(def.options, envMode), o.name);
  }

  /** An argument no option shadows gets `[required]` or `[nullable]`. */
  lemma RuleOfArgument(def: CommandDef, envMode: OptMode, a: ArgSpec)
    requires Distinct(ArgNames(def.arguments))
    requires a in def.arguments && a.name !in OptNames(def.options) && a.name != EnvName
    ensures Get(BuildRules(def, envMode), a.name) == Some(ArgumentRule(a))
  {
    var i :| 0 <= i < |def.arguments| && def.arguments[i] == a;
    ArgumentRuleWritten(def.arguments, i);
    var table := WithEnv(def.options, envMode);
    assert a.name !in Keys(OptionRuleEntries(table));
    PutAllGet(PutAll([], ArgumentRuleEntries(def.arguments)), OptionRuleEntries(table), a.name);
  }

  /** After the argument loop, each argument's name holds its own rule. */
  lemma ArgumentRuleWritten(args: seq<ArgSpec>, i: nat)
    requires Distinct(ArgNames(args)) && i < |args|
    ensures Get(PutAll([], ArgumentRuleEntries(args)), args[i].name) == Some(ArgumentRule(args[i]))
  {
    var entries := ArgumentRuleEntries(args);
    assert [] + entries == entries;
    PutAllFresh([], entries);
    assert Keys(entries)[i] == args[i].name;
    UniqueGet(entries, i);
  }

  /** In a well-formed definition the argument rules come first, in
      declaration order. */
  lemma RulesStartWithArguments(def: CommandDef, envMode: OptMode)
    requires WellFormed(def)
    ensures |def.arguments| <= |BuildRules(def, envMode)|
    ensures Keys(BuildRules(def, envMode))[..|def.arguments|] == ArgNames(def.arguments)
  {
    var entries := ArgumentRuleEntries(def.arguments);
    assert [] + entries == entries;
    PutAllFresh([], entries);
  }

  /** Exactly one rule per distinct field name: the rule set has as many
      entries as there are names among arguments, options and `env`. */
  lemma RuleCount(def: CommandDef, envMode: OptMode)
    ensures |BuildRules(def, envMode)| ==
            |(set n | n in ArgNames(def.arguments)) + (set n | n in OptNames(def.options)) + {EnvName}|
  {
    var rules := BuildRules(def, envMode);
    CountNames(Keys(rules), ArgNames(def.arguments), OptNames(def.options), EnvName);
  }

  lemma CountNames(ks: seq<string>, a: seq<string>, b: seq<string>, x: string)
    requires Distinct(ks)
    requires forall n :: n in ks <==> n in a || n in b || n == x
    ensures |ks| == |(set n | n in a) + (set n | n in b) + {x}|
  {
    DistinctCardinality(ks);
    var names := (set n | n in a) + (set n | n in b) + {x};
    assert (set n | n in ks) == names;
  }
}
