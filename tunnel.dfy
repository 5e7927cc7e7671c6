/**
 * Resolution of the `${...}` variables of a tunnel service command
 * (`ExternalToolUIOptionsHandler`): variables named after a tunnel attribute
 * take the attribute's value from the tunnel descriptor, the others are left
 * unset and, when any is unset, the user is asked through a dialog; the
 * values are then written back into the command.
 */
module Tunnel {
  import opened Wrappers
  import opened Decimal
  import opened PutSequence

  /** The tunnel attributes a variable may name (the enum `TunnelOptions`). */
  datatype TunnelOption = User | Password | Url | DatabaseName | Port {
    /** The enum constant's `name()`. */
    function Name(): string {
      match this
      case User => "user"
      case Password => "password"
      case Url => "url"
      case DatabaseName => "databasename"
      case Port => "port"
    }
  }

  /** `TunnelOptions.values()`. */
  const TunnelOptionValues: seq<TunnelOption> := [User, Password, Url, DatabaseName, Port]

  /** The names of the variables the descriptor can supply. */
  const TunnelVariableNames: set<string> := {"user", "password", "url", "databasename", "port"}

  /** The first of `options` whose name is `name`, or none. */
  function FindOption(options: seq<TunnelOption>, name: string): (r: Option<TunnelOption>)
    ensures r.Some? ==> r.value in options && r.value.Name() == name
    ensures r.None? ==> forall o :: o in options ==> o.Name() != name
  {
    if options == [] then None
    else if options[0].Name() == name then Some(options[0])
    else FindOption(options[1..], name)
  }

  /** `getTunnelOption`: the constant whose name is exactly `optionName`; null finds none. */
  function GetTunnelOption(optionName: Option<string>): (r: Option<TunnelOption>)
    ensures r.Some? ==> optionName == Some(r.value.Name())
    ensures r.None? <==> optionName.None? || optionName.value !in TunnelVariableNames
  {
    if optionName.None? then None else FindOption(TunnelOptionValues, optionName.value)
  }

  /**
   * The connection facts of an open tunnel (`CaldecottTunnelDescriptor`);
   * each text attribute may be null.
   */
  datatype Descriptor = Descriptor(
    userName: Option<string>,
    password: Option<string>,
    url: Option<string>,
    databaseName: Option<string>,
    tunnelPort: Int32)

  /**
   * `resolveTunnelVariable`: the descriptor's value for a variable, or null
   * (`ResolveTunnelVariableCases` states the value for each name).
   */
  function ResolveTunnelVariable(descriptor: Descriptor, variable: Option<string>): (r: Option<string>)
    ensures variable.None? ==> r.None?
  {
    if variable.None? then None
    else
      match GetTunnelOption(variable)
      case None => None
      case Some(option) =>
        match option
        case User => descriptor.userName
        case Password => descriptor.password
        case Url => descriptor.url
        case DatabaseName => descriptor.databaseName
        case Port => Some(IntToString(descriptor.tunnelPort))
  }

  /**
   * The five tunnel names give the descriptor's user name, password, URL,
   * database name and decimal port; every other name, and null, gives null.
   */
  lemma ResolveTunnelVariableCases(descriptor: Descriptor, variable: Option<string>)
    ensures variable == Some("user") ==> ResolveTunnelVariable(descriptor, variable) == descriptor.userName
    ensures variable == Some("password") ==> ResolveTunnelVariable(descriptor, variable) == descriptor.password
    ensures variable == Some("url") ==> ResolveTunnelVariable(descriptor, variable) == descriptor.url
    ensures variable == Some("databasename") ==> ResolveTunnelVariable(descriptor, variable) == descriptor.databaseName
    ensures variable == Some("port") ==> ResolveTunnelVariable(descriptor, variable) == Some(IntToString(descriptor.tunnelPort))
    ensures (variable.None? || variable.value !in TunnelVariableNames) ==> ResolveTunnelVariable(descriptor, variable).None?
  {
  }

  /** A resolved value always comes from one of the five tunnel names. */
  lemma ResolvedOnlyForTunnelNames(descriptor: Descriptor, variable: Option<string>)
    ensures ResolveTunnelVariable(descriptor, variable).Some? ==> variable.Some? && variable.value in TunnelVariableNames
  {
    ResolveTunnelVariableCases(descriptor, variable);
  }

  /** Variable name to value; a null value means "not resolved". */
  type OptionMap = map<string, Option<string>>

  /** Java's `Map.get`: null for a missing key as for a null value. */
  function Get(m: OptionMap, k: string): (r: Option<string>)
    ensures r.Some? ==> k in m && m[k] == r
    ensures k in m ==> r == m[k]
  {
    if k in m then m[k] else None
  }

  /** The `put`s `resolveTunnelOptions` performs for a list of option variables. */
  function OptionEntries(descriptor: Descriptor, variables: seq<string>): (e: seq<(string, Option<string>)>)
    ensures |e| == |variables|
    decreases |variables|
  {
    if variables == [] then []
    else
      var n := |variables| - 1;
      OptionEntries(descriptor, variables[..n]) + [(variables[n], ResolveTunnelVariable(descriptor, Some(variables[n])))]
  }

  /** The `i`-th `put` of the pass stores the `i`-th variable under its own resolution. */
  lemma {:induction false} OptionEntriesAt(descriptor: Descriptor, variables: seq<string>, i: int)
    requires 0 <= i < |variables|
    ensures OptionEntries(descriptor, variables)[i] == (variables[i], ResolveTunnelVariable(descriptor, Some(variables[i])))
    decreases |variables|
  {
    var n := |variables| - 1;
    if i < n {
      OptionEntriesAt(descriptor, variables[..n], i);
    }
  }

  /** One more step of the options pass: the next variable's `put`. */
  lemma OptionEntriesSnoc(descriptor: Descriptor, m: OptionMap, variables: seq<string>, i: int)
    requires 0 <= i < |variables|
    ensures Puts(m, OptionEntries(descriptor, variables[..i + 1])) ==
            Puts(m, OptionEntries(descriptor, variables[..i]))[variables[i] := ResolveTunnelVariable(descriptor, Some(variables[i]))]
    ensures SomeUnset(OptionEntries(descriptor, variables[..i + 1])) <==>
            SomeUnset(OptionEntries(descriptor, variables[..i])) || ResolveTunnelVariable(descriptor, Some(variables[i])).None?
  {
    var entry := (variables[i], ResolveTunnelVariable(descriptor, Some(variables[i])));
    assert variables[..i + 1][..i] == variables[..i];
    assert OptionEntries(descriptor, variables[..i + 1]) == OptionEntries(descriptor, variables[..i]) + [entry];
    PutsSnoc(m, OptionEntries(descriptor, variables[..i]), entry);
    SomeUnsetSnoc(OptionEntries(descriptor, variables[..i]), entry);
  }

  /**
   * Every option variable ends up mapped to its own resolution, whatever
   * its position in the list and however often it occurs.
   */
  lemma OptionEntriesResolve(descriptor: Descriptor, m: OptionMap, variables: seq<string>, v: string)
    requires v in variables
    ensures v in Puts(m, OptionEntries(descriptor, variables))
    ensures Puts(m, OptionEntries(descriptor, variables))[v] == ResolveTunnelVariable(descriptor, Some(v))
  {
    var e := OptionEntries(descriptor, variables);
    var j :| 0 <= j < |variables| && variables[j] == v;
    OptionEntriesAt(descriptor, variables, j);
    PutsLookup(m, e, v);
  }

  /**
   * The options map after the pass: each referenced variable is mapped to
   * its own resolution, no other key is added, and other keys keep their value.
   */
  lemma OptionPassMeaning(descriptor: Descriptor, m: OptionMap, variables: seq<string>)
    ensures forall v :: v in variables ==>
              v in Puts(m, OptionEntries(descriptor, variables)) &&
              Puts(m, OptionEntries(descriptor, variables))[v] == ResolveTunnelVariable(descriptor, Some(v))
    ensures forall k :: k in Puts(m, OptionEntries(descriptor, variables)) ==> k in m || k in variables
    ensures forall k :: k in m && k !in variables ==>
              k in Puts(m, OptionEntries(descriptor, variables)) && Puts(m, OptionEntries(descriptor, variables))[k] == m[k]
  {
    var e := OptionEntries(descriptor, variables);
    forall v | v in variables
      ensures v in Puts(m, e) && Puts(m, e)[v] == ResolveTunnelVariable(descriptor, Some(v))
    {
      OptionEntriesResolve(descriptor, m, variables, v);
    }
    forall k | k in Puts(m, e)
      ensures k in m || k in variables
    {
      PutsLookup(m, e, k);
      if LastIndexOf(e, k) >= 0 {
        OptionEntriesAt(descriptor, variables, LastIndexOf(e, k));
        assert variables[LastIndexOf(e, k)] == k;
      }
    }
    PutsMeaning(m, e);
  }

  /** Some `put` stores null. */
  predicate SomeUnset(entries: seq<(string, Option<string>)>) {
    exists i :: 0 <= i < |entries| && entries[i].1.None?
  }

  lemma SomeUnsetSnoc(entries: seq<(string, Option<string>)>, entry: (string, Option<string>))
    ensures SomeUnset(entries + [entry]) <==> SomeUnset(entries) || entry.1.None?
  {
    var e := entries + [entry];
    if SomeUnset(entries) {
      var i :| 0 <= i < |entries| && entries[i].1.None?;
      assert e[i] == entries[i];
    }
    if SomeUnset(e) && !entry.1.None? {
      var i :| 0 <= i < |e| && e[i].1.None?;
      assert e[|entries|] == entry;
      assert i < |entries| && entries[i] == e[i];
    }
  }

  /** Some option variable resolves to null iff some `put` of the pass stores null. */
  lemma OptionSomeUnset(descriptor: Descriptor, variables: seq<string>)
    ensures SomeUnset(OptionEntries(descriptor, variables)) <==>
            exists v :: v in variables && ResolveTunnelVariable(descriptor, Some(v)).None?
  {
    var e := OptionEntries(descriptor, variables);
    if SomeUnset(e) {
      var i :| 0 <= i < |e| && e[i].1.None?;
      OptionEntriesAt(descriptor, variables, i);
      assert variables[i] in variables;
    }
    if v :| v in variables && ResolveTunnelVariable(descriptor, Some(v)).None? {
      var i :| 0 <= i < |variables| && variables[i] == v;
      OptionEntriesAt(descriptor, variables, i);
      assert e[i].1.None?;
    }
  }

  /** What the wizard dialog (`UnsetOptionsWizard` in a `WizardDialog`) answers. */
  datatype DialogResult = Cancelled | Confirmed(variables: OptionMap)

  /**
   * The user's answer to the dialog, as a function of the map the wizard is
   * built from: it sees the option variables only.
   */
  type Dialog = Option<OptionMap> -> DialogResult

  /** `promptForUnsetValues` opens the dialog iff one of the maps is non-null and non-empty. */
  predicate DialogShown(optionsVariables: Option<OptionMap>, envVariables: Option<OptionMap>) {
    (optionsVariables.Some? && optionsVariables.value != map[]) || (envVariables.Some? && envVariables.value != map[])
  }

  /**
   * `promptForUnsetValues`: the options map unchanged when no dialog is
   * needed; otherwise null when the user cancels and the wizard's map when
   * the user confirms.
   */
  function PromptForUnsetValues(optionsVariables: Option<OptionMap>, envVariables: Option<OptionMap>, dialog: Dialog): (r: Option<OptionMap>)
    ensures !DialogShown(optionsVariables, envVariables) ==> r == optionsVariables
    ensures DialogShown(optionsVariables, envVariables) ==>
      match dialog(optionsVariables)
      case Cancelled => r.None?
      case Confirmed(vars) => r == Some(vars)
  {
    if DialogShown(optionsVariables, envVariables) then
      match dialog(optionsVariables)
      case Cancelled => None
      case Confirmed(vars) => Some(vars)
    else optionsVariables
  }

  /**
   * The environment map only decides whether the dialog opens: it never
   * contributes a value to the result.
   */
  lemma PromptIgnoresEnvironmentValues(optionsVariables: Option<OptionMap>, env1: Option<OptionMap>, env2: Option<OptionMap>, dialog: Dialog)
    requires DialogShown(optionsVariables, env1) == DialogShown(optionsVariables, env2)
    ensures PromptForUnsetValues(optionsVariables, env1, dialog) == PromptForUnsetValues(optionsVariables, env2, dialog)
  {
  }

  /**
   * Whenever a value is left unresolved by either pass, the maps handed to
   * `promptForUnsetValues` are not both empty, so the dialog does open.
   */
  lemma {:induction false} UnresolvedOpensDialog(descriptor: Descriptor, optionVars: seq<string>, envEntries: seq<(string, Option<string>)>)
    requires SomeUnset(OptionEntries(descriptor, optionVars)) || SomeUnset(envEntries)
    ensures DialogShown(Some(Puts(map[], OptionEntries(descriptor, optionVars))), Some(Puts(map[], envEntries)))
  {
    var e := if SomeUnset(envEntries) then envEntries else OptionEntries(descriptor, optionVars);
    var i :| 0 <= i < |e| && e[i].1.None?;
    PutsLookup(map[], e, e[i].0);
  }

  /** An `EnvironmentVariable` of a command: its name and its (templated) value. */
  class EnvironmentVariable {
    const variable: string
    var value: Option<string>

    constructor (variable: string, value: Option<string>)
      ensures this.variable == variable && this.value == value
    {
      this.variable := variable;
      this.value := value;
    }
  }

  /** A command's `CommandOptions`: its options text, possibly null. */
  datatype CommandOptions = CommandOptions(text: Option<string>)

  /** The parts of a `ServiceCommand` the handler reads and writes. */
  class ServiceCommand {
    /** `getOptions()`, possibly null. */
    var options: Option<CommandOptions>
    /** `getEnvironmentVariables()`, possibly null. */
    var environmentVariables: Option<seq<EnvironmentVariable>>
    /** The map most recently handed to `ServiceCommand.setOptionVariableValues`. */
    var optionVariableValues: OptionMap

    constructor (options: Option<CommandOptions>, environmentVariables: Option<seq<EnvironmentVariable>>)
      ensures this.options == options && this.environmentVariables == environmentVariables
      ensures optionVariableValues == map[]
    {
      this.options := options;
      this.environmentVariables := environmentVariables;
      optionVariableValues := map[];
    }
  }

  class ExternalToolUIOptionsHandler {
    const serviceCommand: ServiceCommand
    const descriptor: Descriptor
    /** `ServiceCommand.getOptionVariables`: the variables an options text references, or null. */
    const optionVariables: Option<string> -> Option<seq<string>>
    /**
     * `EnvironmentVariable.getValueVariable`, applied to a variable's name
     * and value: the variable its value is templated on, or null.
     */
    const valueVariable: ((string, Option<string>)) -> Option<string>

    constructor (serviceCommand: ServiceCommand, descriptor: Descriptor,
                 optionVariables: Option<string> -> Option<seq<string>>, valueVariable: ((string, Option<string>)) -> Option<string>)
      ensures this.serviceCommand == serviceCommand && this.descriptor == descriptor
      ensures this.optionVariables == optionVariables && this.valueVariable == valueVariable
    {
      this.serviceCommand := serviceCommand;
      this.descriptor := descriptor;
      this.optionVariables := optionVariables;
      this.valueVariable := valueVariable;
    }

    /** The option variables the command's options reference; none when the options or the list are null. */
    function ReferencedVariables(options: Option<CommandOptions>): (vars: seq<string>)
      ensures options.None? ==> vars == []
      ensures options.Some? && optionVariables(options.value.text).None? ==> vars == []
      ensures options.Some? && optionVariables(options.value.text).Some? ==> vars == optionVariables(options.value.text).value
    {
      match options
      case None => []
      case Some(o) => match optionVariables(o.text) case None => [] case Some(vars) => vars
    }

    /** The command's environment variables; none when the list is null. */
    ghost function EnvVariables(): seq<EnvironmentVariable>
      reads serviceCommand
    {
      match serviceCommand.environmentVariables case None => [] case Some(vars) => vars
    }

    ghost function EnvObjects(): set<EnvironmentVariable>
      reads serviceCommand
    {
      set v | v in EnvVariables()
    }

    /** The name and current value of each environment variable. */
    ghost function EnvValues(vars: seq<EnvironmentVariable>): (s: seq<(string, Option<string>)>)
      reads vars
      ensures |s| == |vars|
      decreases |vars|
    {
      if vars == [] then []
      else
        var n := |vars| - 1;
        EnvValues(vars[..n]) + [(vars[n].variable, vars[n].value)]
    }

    /** The `i`-th entry of the snapshot is the `i`-th variable's name and value. */
    lemma {:induction false} EnvValuesAt(vars: seq<EnvironmentVariable>, i: int)
      requires 0 <= i < |vars|
      ensures EnvValues(vars)[i] == (vars[i].variable, vars[i].value)
      decreases |vars|
    {
      var n := |vars| - 1;
      if i < n {
        EnvValuesAt(vars[..n], i);
      }
    }

    /** The name and current value of each of the command's environment variables. */
    ghost function CommandEnv(): seq<(string, Option<string>)>
      reads serviceCommand, EnvVariables()
    {
      EnvValues(EnvVariables())
    }

    /** The tunnel value of the variable an environment variable's value refers to. */
    function EnvResolution(env: (string, Option<string>)): Option<string> {
      ResolveTunnelVariable(descriptor, valueVariable(env))
    }

    /** The `put`s `resolveEnvironmentVariables` performs for the given names and values. */
    function EnvEntries(values: seq<(string, Option<string>)>): (e: seq<(string, Option<string>)>)
      ensures |e| == |values|
      decreases |values|
    {
      if values == [] then []
      else
        var n := |values| - 1;
        EnvEntries(values[..n]) + [(values[n].0, EnvResolution(values[n]))]
    }

    /** The `i`-th `put` of the pass stores the `i`-th name under the resolution of its value. */
    lemma {:induction false} EnvEntriesAt(values: seq<(string, Option<string>)>, i: int)
      requires 0 <= i < |values|
      ensures EnvEntries(values)[i] == (values[i].0, EnvResolution(values[i]))
      decreases |values|
    {
      var n := |values| - 1;
      if i < n {
        EnvEntriesAt(values[..n], i);
      }
    }

    /** One more step of the environment pass: the next variable's `put`. */
    lemma EnvEntriesSnoc(m: OptionMap, values: seq<(string, Option<string>)>, i: int, value: Option<string>)
      requires 0 <= i < |values| && value == EnvResolution(values[i])
      ensures Puts(m, EnvEntries(values[..i + 1])) == Puts(m, EnvEntries(values[..i]))[values[i].0 := value]
      ensures SomeUnset(EnvEntries(values[..i + 1])) <==> SomeUnset(EnvEntries(values[..i])) || value.None?
    {
      var entry := (values[i].0, value);
      assert values[..i + 1][..i] == values[..i];
      assert EnvEntries(values[..i + 1]) == EnvEntries(values[..i]) + [entry];
      PutsSnoc(m, EnvEntries(values[..i]), entry);
      SomeUnsetSnoc(EnvEntries(values[..i]), entry);
    }

    /** The options map after the tunnel pass of `promptForValues`. */
    function ResolvedOptions(options: Option<CommandOptions>): OptionMap {
      Puts(map[], OptionEntries(descriptor, ReferencedVariables(options)))
    }

    /** The environment map after the tunnel pass of `promptForValues`. */
    function ResolvedEnvironment(env: seq<(string, Option<string>)>): OptionMap {
      Puts(map[], EnvEntries(env))
    }

    /** Some option or environment variable is left unresolved by the tunnel passes. */
    predicate NeedsPrompt(options: Option<CommandOptions>, env: seq<(string, Option<string>)>) {
      SomeUnset(OptionEntries(descriptor, ReferencedVariables(options))) || SomeUnset(EnvEntries(env))
    }

    /** The option values `promptForValues` writes back, or none when the user cancels. */
    function FinalOptions(options: Option<CommandOptions>, env: seq<(string, Option<string>)>, dialog: Dialog): Option<OptionMap> {
      if NeedsPrompt(options, env) then PromptForUnsetValues(Some(ResolvedOptions(options)), Some(ResolvedEnvironment(env)), dialog)
      else Some(ResolvedOptions(options))
    }

    /**
     * Within `promptForValues` the dialog opens exactly when some variable
     * is unresolved: the branch of `promptForUnsetValues` that skips the
     * dialog is never taken there, so a null answer always means "cancelled".
     */
    lemma FinalOptionsCases(options: Option<CommandOptions>, env: seq<(string, Option<string>)>, dialog: Dialog)
      ensures !NeedsPrompt(options, env) ==> FinalOptions(options, env, dialog) == Some(ResolvedOptions(options))
      ensures NeedsPrompt(options, env) ==>
                DialogShown(Some(ResolvedOptions(options)), Some(ResolvedEnvironment(env))) &&
                FinalOptions(options, env, dialog) ==
                  match dialog(Some(ResolvedOptions(options)))
                  case Cancelled => None
                  case Confirmed(vars) => Some(vars)
    {
      if NeedsPrompt(options, env) {
        UnresolvedOpensDialog(descriptor, ReferencedVariables(options), EnvEntries(env));
      }
    }

    /**
     * `resolveTunnelOptions`: puts every referenced option variable, mapped
     * to its tunnel value, into the given map, and says whether some value
     * is null (`OptionPassMeaning` spells out the resulting map).
     */
    method ResolveTunnelOptions(variablesToValues: OptionMap) returns (result: OptionMap, shouldPrompt: bool)
      ensures serviceCommand.options.None? ==> result == variablesToValues && !shouldPrompt
      ensures serviceCommand.options.Some? && optionVariables(serviceCommand.options.value.text).None? ==>
                result == variablesToValues && !shouldPrompt
      ensures result == Puts(variablesToValues, OptionEntries(descriptor, ReferencedVariables(serviceCommand.options)))
      ensures shouldPrompt == SomeUnset(OptionEntries(descriptor, ReferencedVariables(serviceCommand.options)))
    {
      result, shouldPrompt := variablesToValues, false;
      if serviceCommand.options.Some? {
        var variables := optionVariables(serviceCommand.options.value.text);
        if variables.Some? {
          var vars := variables.value;
          var i := 0;
          while i < |vars|
            invariant 0 <= i <= |vars|
            invariant result == Puts(variablesToValues, OptionEntries(descriptor, vars[..i]))
            invariant shouldPrompt <==> SomeUnset(OptionEntries(descriptor, vars[..i]))
          {
            var value := ResolveTunnelVariable(descriptor, Some(vars[i]));
            if value.None? {
              shouldPrompt := true;
            }
            result := result[vars[i] := value];
            OptionEntriesSnoc(descriptor, variablesToValues, vars, i);
            i := i + 1;
          }
          assert vars[..i] == vars;
        }
      }
    }

    /**
     * `resolveEnvironmentVariables`: puts every environment variable's name,
     * mapped to the tunnel value of the variable its value refers to, into
     * the given map, and says whether some value is null
     * (`EnvironmentPassMeaning` spells out the resulting map).
     */
    method ResolveEnvironmentVariables(envVariables: OptionMap, ghost env: seq<(string, Option<string>)>)
      returns (result: OptionMap, shouldPrompt: bool)
      requires env == CommandEnv()
      ensures serviceCommand.environmentVariables.None? ==> result == envVariables && !shouldPrompt
      ensures result == Puts(envVariables, EnvEntries(env))
      ensures shouldPrompt == SomeUnset(EnvEntries(env))
    {
      result, shouldPrompt := envVariables, false;
      if serviceCommand.environmentVariables.Some? {
        var vars := serviceCommand.environmentVariables.value;
        assert env == EnvValues(vars);
        var i := 0;
        while i < |vars|
          invariant 0 <= i <= |vars|
          invariant result == Puts(envVariables, EnvEntries(env[..i]))
          invariant shouldPrompt <==> SomeUnset(EnvEntries(env[..i]))
        {
          var v := vars[i];
          EnvValuesAt(vars, i);
          var varName := valueVariable((v.variable, v.value));
          var value := ResolveTunnelVariable(descriptor, varName);
          EnvEntriesSnoc(envVariables, env, i, value);
          // Raised once any variable stays unresolved, never lowered.
          shouldPrompt := shouldPrompt || value.None?;
          result := result[v.variable := value];
          i := i + 1;
        }
        assert env[..i] == env;
      }
    }

    /**
     * The environment map after the pass: every variable's name is a key; a
     * name's value is the resolution of the LAST variable of that name; keys
     * no variable carries keep their value; no other key is added.
     */
    lemma EnvironmentPassMeaning(m: OptionMap, env: seq<(string, Option<string>)>)
      ensures forall i :: 0 <= i < |env| ==> env[i].0 in Puts(m, EnvEntries(env))
      ensures forall i :: (0 <= i < |env| && forall j :: i < j < |env| ==> env[j].0 != env[i].0) ==>
                Puts(m, EnvEntries(env))[env[i].0] == EnvResolution(env[i])
      ensures forall k :: (k in m && forall i :: 0 <= i < |env| ==> env[i].0 != k) ==>
                k in Puts(m, EnvEntries(env)) && Puts(m, EnvEntries(env))[k] == m[k]
      ensures forall k :: k in Puts(m, EnvEntries(env)) ==> k in m || exists i :: 0 <= i < |env| && env[i].0 == k
    {
      forall i | 0 <= i < |env|
        ensures EnvEntries(env)[i] == (env[i].0, EnvResolution(env[i]))
      {
        EnvEntriesAt(env, i);
      }
      PutsMeaning(m, EnvEntries(env));
    }

    /** Some environment value resolves to null iff some `put` of the pass stores null. */
    lemma EnvSomeUnset(env: seq<(string, Option<string>)>)
      ensures SomeUnset(EnvEntries(env)) <==> exists i :: 0 <= i < |env| && EnvResolution(env[i]).None?
    {
      if SomeUnset(EnvEntries(env)) {
        var i :| 0 <= i < |EnvEntries(env)| && EnvEntries(env)[i].1.None?;
        EnvEntriesAt(env, i);
      }
      if i :| 0 <= i < |env| && EnvResolution(env[i]).None? {
        EnvEntriesAt(env, i);
        assert EnvEntries(env)[i].1.None?;
      }
    }

    /**
     * Every variable of `vars` whose name maps to a non-null value in
     * `resolved` has taken that value; the others keep the value they had.
     */
    twostate predicate WrittenBack(vars: set<EnvironmentVariable>, new resolved: OptionMap)
      reads vars
    {
      forall v :: v in vars ==>
        v.value == if Get(resolved, v.variable).Some? then Get(resolved, v.variable) else old(v.value)
    }

    /**
     * The write-back at the end of `promptForValues`: the command takes the
     * option values, and every environment variable whose name maps to a
     * non-null value takes that value; the others keep theirs.
     */
    method StoreValues(options: OptionMap, resolved: OptionMap)
      modifies serviceCommand, EnvObjects()
      ensures serviceCommand.options == old(serviceCommand.options)
      ensures serviceCommand.environmentVariables == old(serviceCommand.environmentVariables)
      ensures serviceCommand.optionVariableValues == options
      ensures WrittenBack(old(EnvObjects()), resolved)
    {
      serviceCommand.optionVariableValues := options;
      if serviceCommand.environmentVariables.Some? {
        var variables := serviceCommand.environmentVariables.value;
        var i := 0;
        while i < |variables|
          modifies EnvObjects()
          invariant 0 <= i <= |variables|
          invariant forall v :: v in variables ==>
                      v.value == if v in variables[..i] && Get(resolved, v.variable).Some?
                                 then Get(resolved, v.variable)
                                 else old(v.value)
        {
          var v := variables[i];
          var value := Get(resolved, v.variable);
          if value.Some? {
            v.value := value;
          }
          assert variables[..i + 1] == variables[..i] + [v];
          i := i + 1;
        }
        assert variables[..i] == variables;
      }
    }

    /**
     * `promptForValues`: resolves both kinds of variable, asks the user for
     * the remaining ones when some are unresolved, and, unless the user
     * cancels, writes the option values and the resolved environment values
     * back into the command. Returns the command, or null on cancel.
     */
    method PromptForValues(dialog: Dialog) returns (r: ServiceCommand?)
      modifies serviceCommand, EnvObjects()
      ensures serviceCommand.options == old(serviceCommand.options)
      ensures serviceCommand.environmentVariables == old(serviceCommand.environmentVariables)
      ensures var final := FinalOptions(old(serviceCommand.options), old(CommandEnv()), dialog);
        final.None? ==>
          && r == null
          && serviceCommand.optionVariableValues == old(serviceCommand.optionVariableValues)
          && WrittenBack(old(EnvObjects()), map[])
      ensures var final := FinalOptions(old(serviceCommand.options), old(CommandEnv()), dialog);
        final.Some? ==>
          && r == serviceCommand
          && serviceCommand.optionVariableValues == final.value
          && WrittenBack(old(EnvObjects()), ResolvedEnvironment(old(CommandEnv())))
    {
      ghost var env := CommandEnv();
      var resolvedOptionVars, shouldPrompt := ResolveTunnelOptions(map[]);
      // Java's `|=` runs the environment pass whatever the options pass found.
      var resolvedEnvVariables, envShouldPrompt := ResolveEnvironmentVariables(map[], env);
      shouldPrompt := shouldPrompt || envShouldPrompt;
      assert shouldPrompt == NeedsPrompt(serviceCommand.options, env);

      if shouldPrompt {
        var prompted := PromptForUnsetValues(Some(resolvedOptionVars), Some(resolvedEnvVariables), dialog);
        if prompted.None? {
          // The user cancelled: the command must not run.
          return null;
        }
        resolvedOptionVars := prompted.value;
      }

      StoreValues(resolvedOptionVars, resolvedEnvVariables);
      r := serviceCommand;
    }
  }
}
