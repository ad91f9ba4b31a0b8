# artisan-gui command bridge, modelled in Dafny

artisan-gui is a web front end for Laravel's Artisan console. Its
`GuiController` serves two actions, and this project models both.

- **The listing.** It reads the configured groups of command names and
  title-cases the group keys. It drops every name whose permission is truthy
  and that the gate denies. Each remaining name becomes a schema for the
  client: name, description, synopsis, and the argument and option entries,
  each of which carries a display title; an unknown name becomes a
  `{name, error: "Not found"}` placeholder. Groups left empty are dropped.
- **The run action.** It resolves a command by name, or aborts with 404.
  It checks the configured permission, or aborts with 403. It derives
  validation rules from the command's definition and has the request
  validated. Then it marshals the validated data into console parameters,
  calls the console runtime, and turns any exception the runtime throws
  into an ordinary `{status, output, command}` result.

Modules:

- `OrderedMaps`: PHP's string-keyed arrays as `seq<(K, V)>`.
  - `Put` is `$m[$k] = $v`: it overwrites in place, or appends a new key.
  - `PutAll` writes entries one after another, as the loops and
    `array_merge` do.
- `PhpValues`: the request and configuration values, plus
  - PHP's loose emptiness (`empty()`, `array_filter`);
  - `OrNull`.
- `Definitions`: arguments, options, commands and the runtime's registry.
  - `WithEnv` is the option table with the synthetic `env` option merged
    in by name.
  - `FindCommandOrFail` is the name lookup.
- `Rules`: `BuildRules` and the facts about which rule each field ends up
  with.
- `Marshal`: the filtering, `--` prefixing and forced `--no-ansi` of the
  run action.
- `Bridge`: the run action.
  - The gate, the validator and the runtime are function parameters.
  - `Run` returns the response together with the calls it made to them, so
    the order and the short-circuits are part of its result.
- `Schema`: `argumentsToArray`, `optionsToArray` and `commandToArray`.
- `Listing`: `renameKeys` and `prepareToJson`.
- `Scenarios`: worked examples on concrete commands and data.

Three consequences of the controller's code that a reader may not expect:

- **The `env` rule.** The code builds the `env` option from the raw
  Symfony mode number 2. In Symfony that is `VALUE_REQUIRED`, so the `env`
  field's rule would be `[required, string]`. The model keeps the mode a
  parameter, `envMode`, and every property holds whatever mode it is.
- **Argument and option with the same name.** Both rules are written
  under the same key, so they share one entry, and the option's rule wins.
  `Rules.RuleCount` counts distinct names, and `Rules.RuleOfOption` states
  which rule wins.
- **Argument keys after marshaling.** Argument fields keep their own names
  as parameter keys, unprefixed; only option fields get `--`
  (`Scenarios.MigrateMarshal`).

The two actions check permissions differently:

- The run action asks the gate whenever a permission is *configured* under
  the command's name.
- The listing asks it only when the configured value is *truthy*.

`Listing.FalsyPermissionListedButForbidden` and `Listing.ListedIffRunnable`
pin down exactly where the two disagree.

## Model

| member | source | states |
|---|---|---|
| Definitions.FindCommandOrFail | src/Http/Controllers/GuiController.php:192-201 | the lookup succeeds exactly when the name is registered, and yields that registered definition; otherwise it fails with 404 |
| Definitions.WithEnv | src/Http/Controllers/GuiController.php:213-215 | the merged option table has unique, name-keyed entries, and `env` maps to the synthetic `env` option. Every other name keeps the declared option it had. Its names are the declared ones plus `env`. `env` replaces a declared `env` in place, and is appended after the declared options otherwise |
| Definitions.OptionTable | src/Http/Controllers/GuiController.php:47 | the declared options keyed by name: unique keys, exactly the declared names, and each name holds the last option declared under it |
| Definitions.OptionTableInOrder | src/Http/Controllers/GuiController.php:47 | declared options with distinct names are tabled one entry per option, in declaration order |
| Rules.BuildRules | src/Http/Controllers/GuiController.php:203-225 | the rule set has one entry per field name. Its names are exactly the argument names, the option names and `env` |
| Rules.ArgumentRule | src/Http/Controllers/GuiController.php:208-210 | an argument's rule is the single token `required` when it is required, `nullable` otherwise |
| Rules.OptionRule | src/Http/Controllers/GuiController.php:218-221 | an option's rule is its presence token (`required` when a value is required, `nullable` otherwise) followed by its type token |
| Rules.ValueType | src/Http/Controllers/GuiController.php:220 | the type token is `bool` exactly for an option that accepts no value, `array` exactly for an array option that accepts one, `string` otherwise |
| Rules.RuleOfArgument | src/Http/Controllers/GuiController.php:207-211 | an argument that no option or `env` shadows gets `[required]` or `[nullable]`, according to whether it is required |
| Rules.RuleOfOption | src/Http/Controllers/GuiController.php:217-222 | a declared option gets `[presence, type]`, overriding any argument of the same name |
| Rules.RuleOfEntry | src/Http/Controllers/GuiController.php:213-222 | every entry of the merged option table has the rule derived from that option, wherever it stands |
| Rules.RuleOfEnv | src/Http/Controllers/GuiController.php:213-222 | `env` always gets the rule of the synthetic `env` option |
| Rules.RulesStartWithArguments | src/Http/Controllers/GuiController.php:205-211 | in a well-formed command, the first rule entries are the arguments, in declaration order |
| Rules.RuleCount | src/Http/Controllers/GuiController.php:203-225 | the number of rule entries is the number of distinct names among arguments, options and `env` |
| PhpValues.OrNull | src/Http/Controllers/GuiController.php:159 | an empty default is reported as null; any other default is reported unchanged |
| PhpValues.IsFalsy | src/Http/Controllers/GuiController.php:45 | PHP's loose emptiness, used by `array_filter` (line 45), the permission test (line 99), the empty-group test (line 108) and `empty($default)` (lines 159, 174): null, false, 0, `""`, `"0"` and the empty array |
| PhpValues.ArrayFilter | src/Http/Controllers/GuiController.php:45 | filtering keeps exactly the entries whose value is truthy |
| PhpValues.ArrayFilterAppend | src/Http/Controllers/GuiController.php:45 | filtering distributes over concatenation, so the survivors keep their order |
| PhpValues.ArrayFilterGet | src/Http/Controllers/GuiController.php:45 | after filtering, a key maps to its value exactly when that value was truthy, and keys stay unique |
| Marshal.MarshalParams | src/Http/Controllers/GuiController.php:45-64 | the parameters have unique keys, and `--no-ansi` maps to the empty string whatever the input |
| Marshal.FlagKey | src/Http/Controllers/GuiController.php:58-60 | a data key is rewritten exactly when it is an option key, and the rewritten key still ends with the data key (`--` is prepended) |
| Marshal.MarshalKeys | src/Http/Controllers/GuiController.php:52-64 | the parameter keys are exactly `--no-ansi` and the flag keys of the truthy data entries |
| Marshal.MarshalValues | src/Http/Controllers/GuiController.php:56-63 | every parameter other than `--no-ansi` carries the unaltered value of a truthy data entry whose flag key it is |
| Marshal.FlagKeyInjective | src/Http/Controllers/GuiController.php:58-60 | prefixing option keys with `--` cannot merge two distinct plain keys |
| Marshal.MarshalShape | src/Http/Controllers/GuiController.php:45-64 | for distinct plain data keys and no `no-ansi` option, the parameters are the truthy entries in their original order, option keys prefixed, then `--no-ansi` |
| Bridge.OptionKeys | src/Http/Controllers/GuiController.php:46-52 | the keys treated as options are exactly the declared option names and `env` |
| Bridge.RunDenied | src/Http/Controllers/GuiController.php:38 | the run action is refused when the command's name is among the permission keys, whatever the configured value, and the gate denies that value |
| Bridge.GateCalls | src/Http/Controllers/GuiController.php:38 | the gate is asked at most once, exactly when a permission is configured under the command's name, and about that permission |
| Bridge.Capture | src/Http/Controllers/GuiController.php:67-73 | the result names the command and never has a null status: a thrown exception's message becomes the output and a non-null code becomes the status as it is, a null code becomes 500 |
| Bridge.Execute | src/Http/Controllers/GuiController.php:42-79 | once past the gate, the action never aborts, and a finished result names the command it ran |
| Bridge.Run | src/Http/Controllers/GuiController.php:33-87 | the action aborts with 404 exactly when the name is unknown, and with 403 exactly when a permission is configured for the command and the gate denies it. A finished result carries the registered command's own name |
| Bridge.RunUnknown | src/Http/Controllers/GuiController.php:35 | an unknown name aborts with 404 before the gate, the validator or the runtime is called |
| Bridge.RunForbidden | src/Http/Controllers/GuiController.php:36-40 | a denied permission aborts with 403 after one gate check and nothing else |
| Bridge.RunOrder | src/Http/Controllers/GuiController.php:36-68 | past the gate, the calls are the gate check (when a permission is configured) followed by the execution's calls, and the response is the execution's |
| Bridge.ExecuteOrder | src/Http/Controllers/GuiController.php:42-68 | validation comes first. The runtime is called, with the marshaled data, exactly when validation accepts, and the action finishes exactly then |
| Bridge.ExecuteCaptures | src/Http/Controllers/GuiController.php:64-79 | the runtime is called last, under the command's name, with `--no-ansi`. A completed call reports its status and output. A thrown exception reports its code as it is, whether integer or string (500 only when null), and its message, so nothing escapes |
| Bridge.CaughtLooksCompleted | src/Http/Controllers/GuiController.php:67-73 | a caught exception with an integer code is indistinguishable from a completed run with that status and output; so one that sets no code (PHP's default 0) reports the status of success |
| Schema.ReplaceChar | src/Http/Controllers/GuiController.php:152 | replacing one character keeps the length and changes exactly the occurrences of that character |
| Schema.FieldTitle | src/Http/Controllers/GuiController.php:152 | a field's title is its name snake-cased, underscores turned into spaces, then title-cased |
| Schema.ArgumentView | src/Http/Controllers/GuiController.php:170-177 | an argument entry: title, name, description, default (null when empty), required and array flags |
| Schema.OptionView | src/Http/Controllers/GuiController.php:151-160 | an option entry: title, name, description, shortcut, value-required, array and accepts-value flags, default (null when empty) |
| Schema.ArgumentsToArray | src/Http/Controllers/GuiController.php:166-181 | null exactly when there are no arguments. Otherwise there is one entry per argument, in order, titled from its name, keeping name, description and flags, with an empty default reported as null |
| Schema.OptionViews | src/Http/Controllers/GuiController.php:150-161 | one view per table entry, in table order, named by its key. The names are distinct when the keys are |
| Schema.OptionsToArray | src/Http/Controllers/GuiController.php:144-164 | never null. There is one entry per merged option, in table order, with distinct names. `env` appears exactly once, as the synthetic option |
| Schema.EnvViewOnce | src/Http/Controllers/GuiController.php:147-161 | in a table keyed by option name, exactly the view named `env` is the view of the option stored under `env`, and there is one |
| Schema.OptionsThenEnv | src/Http/Controllers/GuiController.php:146-161 | without a declared `env`, the views are the declared options in order, then `env` |
| Schema.CommandToArray | src/Http/Controllers/GuiController.php:120-142 | an unknown name becomes the `Not found` placeholder carrying that name. A registered one is projected under its own name with its description and synopsis, its arguments and options are the argument and option projections of its definition, options are always present and arguments are null exactly when none are declared |
| Listing.ListGroupMembers | src/Http/Controllers/GuiController.php:97-106 | a filtered group holds the view of every listed name and nothing else. It is empty exactly when no name in it is listed |
| Listing.Listed | src/Http/Controllers/GuiController.php:99 | the listing hides a name exactly when the permission configured under it is truthy and the gate denies it |
| Listing.ListGroup | src/Http/Controllers/GuiController.php:97-106 | filtering a group never makes it longer; each surviving name becomes its view, in order |
| Listing.ListGroupAppend | src/Http/Controllers/GuiController.php:97-114 | group filtering distributes over concatenation, so the surviving commands keep their order |
| Listing.RenameKeys | src/Http/Controllers/GuiController.php:183-190 | the renamed keys are unique, and they are exactly the title-cased original keys. Each key holds the last group whose key title-cases to it |
| Listing.TitledKeys | src/Http/Controllers/GuiController.php:185-187 | the title-cased keys are exactly the titles of the configured keys |
| Listing.RenameKeysInOrder | src/Http/Controllers/GuiController.php:183-190 | when the title-cased keys are distinct, renaming keeps every group and its place and changes only the keys |
| Listing.ListGroups | src/Http/Controllers/GuiController.php:96-115 | no listed group is empty, and every listed key is a configured key |
| Listing.ListGroupsGet | src/Http/Controllers/GuiController.php:96-115 | a key's group in the listing is its configured group, filtered and projected, present exactly when something in it survives. Keys stay unique |
| Listing.ListGroupsAppend | src/Http/Controllers/GuiController.php:96-115 | dropping empty groups distributes over concatenation, so the surviving groups keep their order |
| Listing.PrepareToJson | src/Http/Controllers/GuiController.php:89-118 | the listing has unique keys and no empty group, and every key is the title-cased form of a configured key |
| Listing.PrepareToJsonLookup | src/Http/Controllers/GuiController.php:89-118 | whatever the collisions, a key in the listing holds the last configured group whose key title-cases to it, filtered and projected, unless nothing in that group survives |
| Listing.PrepareToJsonGet | src/Http/Controllers/GuiController.php:89-118 | when the title-cased keys are distinct, each configured group appears under its title-cased key, filtered and projected, unless nothing survives |
| Listing.FalsyPermissionListedButForbidden | src/Http/Controllers/GuiController.php:99 | a falsy permission that the gate denies leaves the command listed, yet running it aborts with 403 |
| Listing.ListedIffRunnable | src/Http/Controllers/GuiController.php:99 | with no permission or a truthy one, a command is listed exactly when running it is not refused with 403 |
| OrderedMaps.PutGet | src/Http/Controllers/GuiController.php:62-64 | after an assignment, the assigned key holds the new value and every other key keeps its old one |
| OrderedMaps.PutAllGetAll | src/Http/Controllers/GuiController.php:189 | after assigning a sequence of entries to an empty array, each key holds its last value |
| OrderedMaps.PutAllGet | src/Http/Controllers/GuiController.php:217-222 | after a run of assignments, a key holds the value of its last assignment, or its earlier value when it was not assigned |
| OrderedMaps.PutAllFresh | src/Http/Controllers/GuiController.php:207-211 | assigning fresh, distinct keys appends them in order |
| Scenarios.ForceFlagRule | src/Http/Controllers/GuiController.php:217-222 | a flag option `force` gets `[nullable, bool]` |
| Scenarios.MigrateRules | src/Http/Controllers/GuiController.php:203-225 | a required argument `step` gets `[required]`, and an optional array option `seeders` gets `[nullable, array]` |
| Scenarios.ForceFlagMarshal | src/Http/Controllers/GuiController.php:56-64 | `{force: true}` marshals to `--force`, then `--no-ansi` |
| Scenarios.MigrateMarshal | src/Http/Controllers/GuiController.php:45-64 | in `{step: "5", seeders: []}` the empty array is dropped, `step` passes through unprefixed, and `--no-ansi` is added |
| Scenarios.DiskFullCaptured | src/Http/Controllers/GuiController.php:70-73 | an exception with code 2 and message "disk full" yields status 2 and that message |
| Scenarios.SqlStateCaptured | src/Http/Controllers/GuiController.php:71 | a database exception whose code is the string "42S02" reports that string as its status, not 500 |
| Scenarios.TitleCollision | src/Http/Controllers/GuiController.php:183-190 | when `db` and `DB` both title-case to `Db`, one group remains under `Db`, and it is the later one |

## Left out

- HTTP plumbing is not modelled: `wantsJson`, the view response, the redirect `back()->with(...)`, and `abort` as an exception. Responses are values.
- The gate (`Gate::check`) is a parameter. So are the configured permissions and groups (`config(...)`) and the registry (`Artisan::all()`), which are fields of `Config` or arguments.
- The validator (`request()->validate`) is a parameter. It either returns the validated data or fails, and the failure is modelled as the `Invalid` response rather than a thrown validation exception.
- The runtime (`Artisan::call` writing to a `BufferedOutput`) is a parameter. It returns a `Completed` or `Threw` outcome.
- The output verbosity and decoration flags are not modelled.
- `Str::snake` and `Str::title` are the parameters of `Casing`. Only the underscore-to-space replacement between them is modelled.
- `Definitions.EnvOption`: the mode of the `env` option is a parameter, not decoded from the raw Symfony mode number 2.
- Floats and PHP objects are not values of the model.
- Loose comparison is not modelled: `in_array` compares keys as strings.
- Integer-like string keys are not converted to integers, as PHP arrays would convert them.
- Symfony's `setOptions` would throw a `LogicException` when a command declares its own conflicting `env` option. The model merges by name instead.
- Exceptions that are `Throwable` but not `Exception` escape the controller's `catch`. The runtime oracle cannot throw them.
- Exception codes and statuses are `Value`s, so integer, string and null codes are modelled. Float and object codes are not, because the model has no float or object values.
- `commandToArray(null)` is not modelled: configured group entries are taken to be command names (strings), so an unknown entry always takes the `Not found` branch.
- Synopsis text is a given field of the definition, not computed from the arguments and options.
- `optionsToArray` writes `env` into the command's definition. Later projections and runs therefore see `env` as declared, and the model does not track that mutation. Because `WithEnv` merges by name, projecting again gives the same options.
- `Schema.ArgumentsToArray`: the model returns a sequence of argument entries. In PHP, `array_map` keeps the keys of `getArguments()`, so the projection is an array keyed by argument name, which reaches the client as a JSON object. Each PHP key is the `name` its entry carries.
- `Schema.OptionsToArray`: likewise a sequence. In PHP it is an array keyed by option name, because `array_map` keeps the keys of `getOptions()`. Each PHP key is the `name` its entry carries, and `Schema.OptionViews` states that the names are the table's keys, in order.
- `Listing.ListGroup`: its own contract states only the length bound. Membership and emptiness are stated by `Listing.ListGroupMembers`.
