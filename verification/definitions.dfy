/** Command definitions as the console runtime hands them to the controller:
    a name, positional arguments and named options. The controller only reads
    them, and adds one synthetic option, `env`, wherever it looks at options. */
module Definitions {
  import opened Wrappers
  import opened OrderedMaps
  import opened PhpValues

  datatype ArgSpec = ArgSpec(
    name: string,
    description: string,
    required: bool,
    isArray: bool,
    default: Value)

  /** The three mode bits of an option that the controller reads. */
  datatype OptMode = OptMode(valueRequired: bool, acceptValue: bool, isArray: bool)

  datatype OptSpec = OptSpec(
    name: string,
    description: string,
    shortcut: Option<string>,
    mode: OptMode,
    default: Value)

  datatype CommandDef = CommandDef(
    name: string,
    description: string,
    synopsis: string,
    arguments: seq<ArgSpec>,
    options: seq<OptSpec>)

  /** The runtime's registry of commands, keyed by the name a caller uses. */
  type Registry = map<string, CommandDef>

  const EnvName := "env"
  const EnvDescription := "The environment the command should run under"

  /** The synthetic `env` option: no shortcut, no default. Its mode is left as
      a parameter (the controller builds it from the raw mode number 2). */
  function EnvOption(mode: OptMode): OptSpec {
    OptSpec(EnvName, EnvDescription, None, mode, Null)
  }

  function ArgNames(args: seq<ArgSpec>): (ns: seq<string>)
    ensures |ns| == |args|
    ensures forall i :: 0 <= i < |args| ==> ns[i] == args[i].name
  {
    seq(|args|, i requires 0 <= i < |args| => args[i].name)
  }

  function OptNames(opts: seq<OptSpec>): (ns: seq<string>)
    ensures |ns| == |opts|
    ensures forall i :: 0 <= i < |opts| ==> ns[i] == opts[i].name
  {
    seq(|opts|, i requires 0 <= i < |opts| => opts[i].name)
  }

  /** Names are unique among the arguments and among the options, as the
      runtime's definition enforces when a command is declared. An option
      may still share its name with an argument. */
  predicate WellFormed(def: CommandDef) {
    Distinct(ArgNames(def.arguments)) && Distinct(OptNames(def.options))
  }

  /** Every entry of an option table is keyed by its option's name. */
  predicate NameKeyed(m: Assoc<string, OptSpec>) {
    forall i :: 0 <= i < |m| ==> m[i].1.name == m[i].0
  }

  function OptionEntries(opts: seq<OptSpec>): (es: Assoc<string, OptSpec>)
    ensures NameKeyed(es) && Keys(es) == OptNames(opts)
  {
    seq(|opts|, i requires 0 <= i < |opts| => (opts[i].name, opts[i]))
  }

  /** The option table keyed by option name, in declaration order; a name
      declared twice holds its last declaration. */
  function OptionTable(opts: seq<OptSpec>): (table: Assoc<string, OptSpec>)
    ensures Unique(table) && NameKeyed(table)
    ensures forall n :: n in Keys(table) <==> n in OptNames(opts)
    ensures forall n :: Get(table, n) == GetLast(OptionEntries(opts), n)
  {
    assert Unique<string, OptSpec>([]);
    PutAllKeyed([], OptionEntries(opts));
    PutAllGetAll(OptionEntries(opts));
    PutAll([], OptionEntries(opts))
  }

  /** Writing an option under its own name keeps a table name-keyed. */
  lemma {:induction false} PutKeyed(m: Assoc<string, OptSpec>, o: OptSpec)
    requires NameKeyed(m)
    ensures NameKeyed(Put(m, o.name, o))
  {
    if m != [] && m[0].0 != o.name {
      PutKeyed(m[1..], o);
    }
  }

  lemma {:induction false} PutAllKeyed(m: Assoc<string, OptSpec>, es: Assoc<string, OptSpec>)
    requires NameKeyed(m) && NameKeyed(es)
    ensures NameKeyed(PutAll(m, es))
    decreases |es|
  {
    if es != [] {
      PutAllKeyed(m, es[..|es| - 1]);
      PutKeyed(PutAll(m, es[..|es| - 1]), es[|es| - 1].1);
    }
  }

  /** The option table with `env` merged in by key: `env` replaces a declared
      option of that name where it stands, and is appended otherwise; every
      other option keeps its entry. */
  function WithEnv(opts: seq<OptSpec>, envMode: OptMode): (aug: Assoc<string, OptSpec>)
    ensures Unique(aug) && NameKeyed(aug)
    ensures Get(aug, EnvName) == Some(EnvOption(envMode))
    ensures forall n :: n in Keys(aug) <==> n == EnvName || n in OptNames(opts)
    ensures EnvName in OptNames(opts) ==> Keys(aug) == Keys(OptionTable(opts))
    ensures EnvName !in OptNames(opts) ==> Keys(aug) == Keys(OptionTable(opts)) + [EnvName]
    ensures forall n :: n != EnvName ==> Get(aug, n) == Get(OptionTable(opts), n)
  {
    PutEnv(OptionTable(opts), EnvOption(envMode));
    Put(OptionTable(opts), EnvName, EnvOption(envMode))
  }

  /** Writing an `env` option into a name-keyed table under its name. */
  lemma PutEnv(table: Assoc<string, OptSpec>, env: OptSpec)
    requires NameKeyed(table) && env.name == EnvName
    ensures NameKeyed(Put(table, EnvName, env))
    ensures Get(Put(table, EnvName, env), EnvName) == Some(env)
    ensures forall n :: n != EnvName ==> Get(Put(table, EnvName, env), n) == Get(table, n)
  {
    PutKeyed(table, env);
    PutGet(table, EnvName, env, EnvName);
    PutGetOthers(table, EnvName, env);
  }

  /** Declared options with distinct names are tabled in declaration order,
      one entry per option. */
  lemma OptionTableInOrder(opts: seq<OptSpec>)
    requires Distinct(OptNames(opts))
    ensures OptionTable(opts) == OptionEntries(opts)
  {
    assert [] + OptionEntries(opts) == OptionEntries(opts);
    PutAllFresh([], OptionEntries(opts));
  }

  /** Looking a command up by the name a caller used; an unknown name aborts
      with HTTP status 404. */
  function FindCommandOrFail(registry: Registry, name: string): (r: Result<CommandDef, int>)
    ensures r.Success? <==> name in registry
    ensures r.Success? ==> r.value == registry[name]
    ensures r.Failure? ==> r.error == 404
  {
    if name in registry then Success(registry[name]) else Failure(404)
  }
}
