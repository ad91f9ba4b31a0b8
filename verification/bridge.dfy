/** The run action: resolve the command, check its permission, derive the
    validation rules, marshal the validated data and call the console
    runtime, turning whatever the runtime throws into an ordinary result.

    The gate, the validator and the runtime are parameters. Besides its
    response, `Run` reports the calls it made to them, in order, so the
    short-circuits of the error paths are visible in the result. */
module Bridge {
  import opened Wrappers
  import opened OrderedMaps
  import opened PhpValues
  import opened Definitions
  import opened Rules
  import opened Marshal

  /** What the runtime does with a call: it completes with an integer exit
      status and the buffered output, or throws an exception that carries a
      code and a message. The code is whatever `getCode()` returns: an
      integer (0 unless the exception sets one), a string such as a database
      SQLSTATE, or null. */
  datatype Outcome =
    | Completed(status: int, text: string)
    | Threw(code: Value, message: string)

  /** The `{status, output, command}` array the action answers with; the
      status is whatever value the runtime or the exception supplied. */
  datatype ExecutionResult = ExecutionResult(status: Value, output: string, command: string)

  /** An HTTP abort (404 or 403), a validation failure raised by the
      validator, or a finished run. */
  datatype Response =
    | Aborted(httpStatus: int)
    | Invalid
    | Finished(result: ExecutionResult)

  /** A call the action makes to one of its collaborators. */
  datatype Call =
    | CheckGate(ability: Value)
    | Validate(rules: RuleSet)
    | Invoke(command: string, params: Params)

  datatype Trace = Trace(response: Response, calls: seq<Call>)

  /** The configuration snapshot: the runtime's registry, the configured
      permission per command name, and the mode given to the `env` option. */
  datatype Config = Config(registry: Registry, permissions: map<string, Value>, envMode: OptMode)

  const NotFound := 404
  const Forbidden := 403
  const ServerError := 500

  /** The run action is refused when a permission is configured under the
      command's name, whatever its value, and the gate denies it. */
  predicate RunDenied(cfg: Config, gate: Value -> bool, commandName: string) {
    commandName in cfg.permissions && !gate(cfg.permissions[commandName])
  }

  /** The keys the marshaling treats as options: declared options and `env`. */
  function OptionKeys(def: CommandDef, envMode: OptMode): (ks: seq<string>)
    ensures forall n :: n in ks <==> n == EnvName || n in OptNames(def.options)
  {
    Keys(WithEnv(def.options, envMode))
  }

  /** The `try`/`catch` around the runtime call: the result always names
      the command and never carries a null status; a thrown exception's
      message becomes the output. */
  function Capture(outcome: Outcome, commandName: string): (r: ExecutionResult)
    ensures r.command == commandName && r.status != Null
    ensures outcome.Threw? ==> r.output == outcome.message
    ensures outcome.Threw? && outcome.code != Null ==> r.status == outcome.code
  {
    match outcome
    case Completed(status, text) => ExecutionResult(Int(status), text, commandName)
    case Threw(code, message) => ExecutionResult(if code == Null then Int(ServerError) else code, message, commandName)
  }

  /** The gate check the action makes for a command: one, on the configured
      permission, when a permission is configured under its name. */
  function GateCalls(cfg: Config, commandName: string): (calls: seq<Call>)
    ensures |calls| <= 1
    ensures calls != [] <==> commandName in cfg.permissions
    ensures calls != [] ==> calls[0] == CheckGate(cfg.permissions[commandName])
  {
    if commandName in cfg.permissions then [CheckGate(cfg.permissions[commandName])] else []
  }

  /** Past the gate: have the command's rules validated; when the validator
      accepts, marshal its data against the option keys and call the runtime
      under the command's name, capturing what it throws. */
  function Execute(
    command: string,
    rules: RuleSet,
    optionKeys: seq<string>,
    validate: RuleSet -> Option<Assoc<string, Value>>,
    runtime: (string, Params) -> Outcome): (t: Trace)
    ensures !t.response.Aborted?
    ensures t.response.Finished? ==> t.response.result.command == command
  {
    match validate(rules)
    case None => Trace(Invalid, [Validate(rules)])
    case Some(data) =>
      var params := MarshalParams(data, optionKeys);
      Trace(Finished(Capture(runtime(command, params), command)), [Validate(rules), Invoke(command, params)])
  }

  function Run(
    cfg: Config,
    gate: Value -> bool,
    validate: RuleSet -> Option<Assoc<string, Value>>,
    runtime: (string, Params) -> Outcome,
    name: string): (t: Trace)
    ensures t.response == Aborted(NotFound) <==> name !in cfg.registry
    ensures t.response == Aborted(Forbidden) <==>
              name in cfg.registry && RunDenied(cfg, gate, cfg.registry[name].name)
    ensures t.response.Finished? ==>
              name in cfg.registry && t.response.result.command == cfg.registry[name].name
  {
    match FindCommandOrFail(cfg.registry, name)
    case Failure(status) => Trace(Aborted(status), [])
    case Success(def) =>
      if RunDenied(cfg, gate, def.name) then Trace(Aborted(Forbidden), GateCalls(cfg, def.name))
      else
        var e := Execute(def.name, BuildRules(def, cfg.envMode), OptionKeys(def, cfg.envMode), validate, runtime);
        Trace(e.response, GateCalls(cfg, def.name) + e.calls)
  }

  /** An unknown name aborts with 404 before the gate, the validator or the
      runtime is called, whatever they would answer. */
  lemma RunUnknown(
    cfg: Config, gate: Value -> bool, validate: RuleSet -> Option<Assoc<string, Value>>,
    runtime: (string, Params) -> Outcome, name: string)
    requires name !in cfg.registry
    ensures Run(cfg, gate, validate, runtime, name) == Trace(Aborted(NotFound), [])
  {
  }

  /** A configured permission the gate denies aborts with 403 after the gate
      alone: no rules are validated and the runtime is never invoked. */
  lemma RunForbidden(
    cfg: Config, gate: Value -> bool, validate: RuleSet -> Option<Assoc<string, Value>>,
    runtime: (string, Params) -> Outcome, name: string)
    requires name in cfg.registry && RunDenied(cfg, gate, cfg.registry[name].name)
    ensures Run(cfg, gate, validate, runtime, name) ==
            Trace(Aborted(Forbidden), [CheckGate(cfg.permissions[cfg.registry[name].name])])
  {
  }

  /** The calls past the gate: the validation of the derived rules, then the
      runtime call with the marshaled data exactly when the validator accepts,
      which is exactly when the action finishes. */
  lemma ExecuteOrder(
    command: string, rules: RuleSet, optionKeys: seq<string>,
    validate: RuleSet -> Option<Assoc<string, Value>>, runtime: (string, Params) -> Outcome)
    ensures var t := Execute(command, rules, optionKeys, validate, runtime);
            && t.calls ==
               [Validate(rules)] +
               (match validate(rules)
                case None => []
                case Some(data) => [Invoke(command, MarshalParams(data, optionKeys))])
            && (t.response == Invalid <==> validate(rules).None?)
            && (t.response.Finished? <==> validate(rules).Some?)
  {
  }

  /** Past the gate, the action makes exactly these calls, in this order: the
      gate check when a permission is configured, the validation of the
      derived rules, and the runtime call with the marshaled data exactly
      when the validator accepts; it finishes exactly when it got that far. */
  lemma RunOrder(
    cfg: Config, gate: Value -> bool, validate: RuleSet -> Option<Assoc<string, Value>>,
    runtime: (string, Params) -> Outcome, name: string)
    requires name in cfg.registry && !RunDenied(cfg, gate, cfg.registry[name].name)
    ensures var def := cfg.registry[name];
            var t := Run(cfg, gate, validate, runtime, name);
            var e := Execute(def.name, BuildRules(def, cfg.envMode), OptionKeys(def, cfg.envMode), validate, runtime);
            && t.calls == GateCalls(cfg, def.name) + e.calls
            && t.response == e.response
  {
  }

  /** What a finished run reports: a completed call its status and output; a
      thrown one its code as it is (500 when it is null) and its message, so no
      exception escapes. The runtime was called last, under the command's
      own name, with parameters that carried `--no-ansi`. */
  lemma ExecuteCaptures(
    command: string, rules: RuleSet, optionKeys: seq<string>,
    validate: RuleSet -> Option<Assoc<string, Value>>, runtime: (string, Params) -> Outcome)
    requires Execute(command, rules, optionKeys, validate, runtime).response.Finished?
    ensures var t := Execute(command, rules, optionKeys, validate, runtime);
            && |t.calls| == 2 && t.calls[1].Invoke?
            && var call := t.calls[1];
            && call.command == command
            && Get(call.params, NoAnsi) == Some(Str(""))
            && match runtime(command, call.params)
               case Completed(status, text) =>
                 t.response.result == ExecutionResult(Int(status), text, command)
               case Threw(code, message) =>
                 && t.response.result.output == message
                 && t.response.result.command == command
                 && (code != Null ==> t.response.result.status == code)
                 && (code == Null ==> t.response.result.status == Int(ServerError))
  {
  }

  /** A caught exception with an integer code is indistinguishable from a
      run that completed with that code as its status and its message as
      output. In particular an exception that sets no code reports 0, the
      status of success: the fallback to 500 applies only to a null code. */
  lemma CaughtLooksCompleted(code: int, message: string, commandName: string)
    ensures Capture(Threw(Int(code), message), commandName) ==
            Capture(Completed(code, message), commandName)
  {
  }
}
