/** Where each setting's value comes from, and which source wins. */
module Precedence {

  datatype Origin = Environment | ConfigFile | Tui

  datatype SettingValue<V> = SettingValue(value: V, source: Origin)

  /** Every setting some source gives, with the value and the name of the first that gives it:
      the environment, then the file. */
  ghost predicate Inherits<P(!new), V>(environment: map<P, V>, file: map<P, V>, inherited: map<P, SettingValue<V>>) {
    && inherited.Keys == environment.Keys + file.Keys
    && forall p :: p in inherited ==>
      inherited[p] == if p in environment then SettingValue(environment[p], Environment) else SettingValue(file[p], ConfigFile)
  }

  method InheritSettingValues<P(!new), V>(environment: map<P, V>, file: map<P, V>)
    returns (inherited: map<P, SettingValue<V>>)
    ensures Inherits(environment, file, inherited)
  {
    inherited := map[];
    inherited := SetDefaults(inherited, environment, Environment);
    inherited := SetDefaults(inherited, file, ConfigFile);
  }

  /** One source: its values for the settings no earlier source gave. */
  method SetDefaults<P(!new), V>(before: map<P, SettingValue<V>>, values: map<P, V>, source: Origin)
    returns (inherited: map<P, SettingValue<V>>)
    ensures inherited.Keys == before.Keys + values.Keys
    ensures forall p :: p in inherited ==>
      inherited[p] == if p in before then before[p] else SettingValue(values[p], source)
  {
    inherited := before;
    var rest := values.Keys;
    while rest != {}
      invariant rest <= values.Keys
      invariant inherited.Keys == before.Keys + (values.Keys - rest)
      invariant forall p :: p in inherited ==>
        inherited[p] == if p in before then before[p] else SettingValue(values[p], source)
    {
      var p :| p in rest;
      if p !in inherited {
        inherited := inherited[p := SettingValue(values[p], source)];
      }
      rest := rest - {p};
    }
  }

  /** A choice equal to the inherited value keeps its source. */
  function Chosen<P, V(==)>(inherited: map<P, SettingValue<V>>, p: P, choice: V): SettingValue<V> {
    if p in inherited && inherited[p].value == choice then inherited[p] else SettingValue(choice, Tui)
  }

  /** The TUI has the last word. */
  ghost predicate Chooses<P(!new), V>(inherited: map<P, SettingValue<V>>, choices: map<P, V>, chosen: map<P,
          SettingValue<V>>) {
    && chosen.Keys == inherited.Keys + choices.Keys
    && forall p :: p in chosen ==>
      chosen[p] == if p in choices then Chosen(inherited, p, choices[p]) else inherited[p]
  }

  method ApplyTuiChoices<P(!new), V(==)>(inherited: map<P, SettingValue<V>>, choices: map<P, V>)
    returns (chosen: map<P, SettingValue<V>>)
    ensures Chooses(inherited, choices, chosen)
  {
    chosen := inherited;
    var rest := choices.Keys;
    while rest != {}
      invariant rest <= choices.Keys
      invariant chosen.Keys == inherited.Keys + (choices.Keys - rest)
      invariant forall p :: p in chosen ==>
        chosen[p] == if p in choices && p !in rest then Chosen(inherited, p, choices[p]) else inherited[p]
    {
      var p :| p in rest;
      if p !in inherited || inherited[p].value != choices[p] {
        chosen := chosen[p := SettingValue(choices[p], Tui)];
      }
      rest := rest - {p};
    }
  }

  /** The answer if there is one, else the environment's value, else the file's; the TUI is the
      source exactly when its answer differs from what was inherited. */
  lemma FinalValues<P(!new), V>(environment: map<P, V>, file: map<P, V>, choices: map<P, V>,
                                inherited: map<P, SettingValue<V>>, final: map<P, SettingValue<V>>, p: P)
    requires Inherits(environment, file, inherited) && Chooses(inherited, choices, final)
    ensures p in final <==> p in choices || p in environment || p in file
    ensures p in final ==>
      (final[p].value == if p in choices then choices[p] else if p in environment then environment[p] else file[p])
    ensures p in final ==> (final[p].source == Tui <==>
      p in choices && (if p in environment then environment[p] != choices[p]
                       else if p in file then file[p] != choices[p] else true))
  {
  }
}
