/** The client-facing schema of a command: its arguments and options
    projected to display entries with a human title, and the not-found
    placeholder used when a listed name does not resolve. */
module Schema {
  import opened Wrappers
  import opened OrderedMaps
  import opened PhpValues
  import opened Definitions

  /** The string helpers the titles are built from: snake-casing and
      title-casing. Their exact text is the framework's business. */
  datatype Casing = Casing(snake: string -> string, title: string -> string)

  /** `str_replace` of one character by another. */
  function ReplaceChar(s: string, from: char, to: char): (r: string)
    ensures |r| == |s|
    ensures forall i :: 0 <= i < |s| ==> r[i] == (if s[i] == from then to else s[i])
  {
    if s == [] then [] else [if s[0] == from then to else s[0]] + ReplaceChar(s[1..], from, to)
  }

  /** A field's display title: snake-case the name, turn underscores into
      spaces, title-case the words. */
  function FieldTitle(casing: Casing, name: string): string {
    casing.title(ReplaceChar(casing.snake(name), '_', ' '))
  }

  datatype ArgView = ArgView(
    title: string,
    name: string,
    description: string,
    default: Value,
    required: bool,
    isArray: bool)

  datatype OptView = OptView(
    title: string,
    name: string,
    description: string,
    shortcut: Option<string>,
    required: bool,
    isArray: bool,
    acceptValue: bool,
    default: Value)

  const NotFoundError := "Not found"

  /** A listed command: its projection, or `{name, error}` when the name is
      not registered. */
  datatype CommandView =
    | Described(
        name: string,
        description: string,
        synopsis: string,
        arguments: Option<seq<ArgView>>,
        options: Option<seq<OptView>>)
    | Missing(name: string, error: string)

  function ArgumentView(casing: Casing, a: ArgSpec): ArgView {
    ArgView(FieldTitle(casing, a.name), a.name, a.description, OrNull(a.default), a.required, a.isArray)
  }

  function OptionView(casing: Casing, o: OptSpec): OptView {
    OptView(FieldTitle(casing, o.name), o.name, o.description, o.shortcut,
            o.mode.valueRequired, o.mode.isArray, o.mode.acceptValue, OrNull(o.default))
  }

  /** The argument projection: null exactly when the command declares no
      arguments, otherwise one entry per argument, in order, with an empty
      default reported as null. */
  function ArgumentsToArray(casing: Casing, def: CommandDef): (r: Option<seq<ArgView>>)
    ensures r.None? <==> def.arguments == []
    ensures r.Some? ==> |r.value| == |def.arguments|
    ensures r.Some? ==> forall i :: 0 <= i < |def.arguments| ==>
              && r.value[i].title == FieldTitle(casing, def.arguments[i].name)
              && r.value[i].name == def.arguments[i].name
              && r.value[i].description == def.arguments[i].description
              && r.value[i].required == def.arguments[i].required
              && r.value[i].isArray == def.arguments[i].isArray
              && (r.value[i].default == Null <==> IsFalsy(def.arguments[i].default))
              && (r.value[i].default != Null ==> r.value[i].default == def.arguments[i].default)
  {
    var views := seq(|def.arguments|, i requires 0 <= i < |def.arguments| => ArgumentView(casing, def.arguments[i]));
    if views == [] then None else Some(views)
  }

  /** One view per entry of a name-keyed option table, in table order. */
  function OptionViews(casing: Casing, table: Assoc<string, OptSpec>): (views: seq<OptView>)
    requires NameKeyed(table)
    ensures |views| == |table|
    ensures forall i :: 0 <= i < |table| ==>
              views[i] == OptionView(casing, table[i].1) && views[i].name == Keys(table)[i]
    ensures Unique(table) ==> forall i, j :: 0 <= i < j < |views| ==> views[i].name != views[j].name
  {
    seq(|table|, i requires 0 <= i < |table| => OptionView(casing, table[i].1))
  }

  /** The option projection over the table with `env` merged in: never null,
      one entry per distinct option name with `env` among them exactly once,
      in table order, with an empty default reported as null. */
  function OptionsToArray(casing: Casing, def: CommandDef, envMode: OptMode): (r: Option<seq<OptView>>)
    ensures r.Some?
    ensures |r.value| == |WithEnv(def.options, envMode)|
    ensures forall i :: 0 <= i < |r.value| ==>
              r.value[i] == OptionView(casing, WithEnv(def.options, envMode)[i].1)
    ensures forall i :: 0 <= i < |r.value| ==>
              (r.value[i].name == EnvName <==> r.value[i] == OptionView(casing, EnvOption(envMode)))
    ensures exists i :: 0 <= i < |r.value| && r.value[i].name == EnvName
    ensures forall i, j :: 0 <= i < j < |r.value| ==> r.value[i].name != r.value[j].name
  {
    var table := WithEnv(def.options, envMode);
    EnvViewOnce(casing, table, EnvOption(envMode));
    Some(OptionViews(casing, table))
  }

  /** In a name-keyed table with unique keys, the view named `env` is the
      view of the option stored under `env`, and there is one. */
  lemma EnvViewOnce(casing: Casing, table: Assoc<string, OptSpec>, env: OptSpec)
    requires Unique(table) && NameKeyed(table) && Get(table, EnvName) == Some(env)
    ensures forall i :: 0 <= i < |table| ==>
              (OptionViews(casing, table)[i].name == EnvName <==>
               OptionViews(casing, table)[i] == OptionView(casing, env))
    ensures exists i :: 0 <= i < |table| && OptionViews(casing, table)[i].name == EnvName
  {
    var views := OptionViews(casing, table);
    var e := KeyIndex(table, EnvName);
    UniqueGet(table, e);
    assert views[e].name == EnvName;
    forall i | 0 <= i < |table|
      ensures views[i].name == EnvName <==> views[i] == OptionView(casing, env)
    {
      if views[i].name == EnvName {
        UniqueGet(table, i);
      }
    }
  }

  /** For a well-formed command that does not declare `env` itself, the
      option names are the declared ones, in order, then `env`. */
  lemma OptionsThenEnv(casing: Casing, def: CommandDef, envMode: OptMode)
    requires Distinct(OptNames(def.options)) && EnvName !in OptNames(def.options)
    ensures OptionsToArray(casing, def, envMode).value ==
            DeclaredViews(casing, def.options) + [OptionView(casing, EnvOption(envMode))]
  {
    var table := WithEnv(def.options, envMode);
    OptionTableInOrder(def.options);
    PutAppend(OptionTable(def.options), EnvName, EnvOption(envMode));
    assert table == OptionEntries(def.options) + [(EnvOption(envMode).name, EnvOption(envMode))];
    assert OptionsToArray(casing, def, envMode) == Some(OptionViews(casing, table));
    ViewsOfEntries(casing, def.options, EnvOption(envMode));
  }

  /** The views of the declared options alone, in declaration order. */
  function DeclaredViews(casing: Casing, opts: seq<OptSpec>): (views: seq<OptView>)
    ensures |views| == |opts|
    ensures forall i :: 0 <= i < |opts| ==> views[i] == OptionView(casing, opts[i])
  {
    seq(|opts|, i requires 0 <= i < |opts| => OptionView(casing, opts[i]))
  }

  lemma ViewsOfEntries(casing: Casing, opts: seq<OptSpec>, extra: OptSpec)
    ensures NameKeyed(OptionEntries(opts) + [(extra.name, extra)])
    ensures OptionViews(casing, OptionEntries(opts) + [(extra.name, extra)]) ==
            DeclaredViews(casing, opts) + [OptionView(casing, extra)]
  {
    var table := OptionEntries(opts) + [(extra.name, extra)];
    assert NameKeyed(table);
    var views := OptionViews(casing, table);
    var expected := DeclaredViews(casing, opts) + [OptionView(casing, extra)];
    assert |views| == |expected|;
    forall i | 0 <= i < |views| ensures views[i] == expected[i] {
      assert views[i] == OptionView(casing, table[i].1);
    }
  }

  /** `commandToArray` on the registry lookup of a listed name: a registered
      name is projected, an unknown one becomes the not-found placeholder
      carrying the name. */
  function CommandToArray(casing: Casing, registry: Registry, envMode: OptMode, id: string): (r: CommandView)
    ensures r.Missing? <==> id !in registry
    ensures r.Missing? ==> r.name == id && r.error == NotFoundError
    ensures r.Described? ==>
              && r.name == registry[id].name
              && r.description == registry[id].description
              && r.synopsis == registry[id].synopsis
              && r.arguments == ArgumentsToArray(casing, registry[id])
              && r.options == OptionsToArray(casing, registry[id], envMode)
              && r.options.Some?
              && (r.arguments.None? <==> registry[id].arguments == [])
  {
    if id in registry then
      var def := registry[id];
      Described(def.name, def.description, def.synopsis,
                ArgumentsToArray(casing, def), OptionsToArray(casing, def, envMode))
    else
      Missing(id, NotFoundError)
  }
}
