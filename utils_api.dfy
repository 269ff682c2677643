/**
 * utils.js: `mandatory`, `optional` and `property`, the helpers testing.js
 * builds on. Their accessors are configurable and coerce with utils.js's
 * tag-list `coerce`.
 */
module UtilsApi {
  import opened Wrappers
  import opened Values
  import Types
  import opened Configuration
  import opened Registry

  /** `configurable: true` in the `Object.defineProperty` of utils.js. */
  const Configurable := true

  /** `mandatory(vars, config, name, type, {aliases})`. */
  method Mandatory(vars: map<string, string>, config: Config, name: string, t: Types.Descriptor,
                   aliases: seq<string>, acronyms: seq<string>) returns (outcome: Outcome<Error>)
    modifies config
    ensures (config.slots, outcome) ==
      SetSpec(old(config.slots), vars, name, UtilsRules(t), Null, true, aliases, Configurable, acronyms)
  {
    outcome := Set(config, vars, name, UtilsRules(t), Null, true, aliases, Configurable, acronyms);
  }

  /** `optional(vars, config, name, type, defaultValue, {aliases})`: an omitted or `undefined` default is null. */
  method Optional(vars: map<string, string>, config: Config, name: string, t: Types.Descriptor,
                  fallback: Value, aliases: seq<string>, acronyms: seq<string>) returns (outcome: Outcome<Error>)
    modifies config
    ensures (config.slots, outcome) ==
      SetSpec(old(config.slots), vars, name, UtilsRules(t), DefaultToNull(fallback), false, aliases, Configurable, acronyms)
  {
    outcome := Set(config, vars, name, UtilsRules(t), DefaultToNull(fallback), false, aliases, Configurable, acronyms);
  }

  /**
   * `property(config, name, func)`: one configurable accessor through
   * `Object.defineProperty`, which throws only over a non-configurable
   * property of the same name; on an object whose properties are all
   * configurable it always succeeds.
   */
  method Property(config: Config, name: string, fn: nat) returns (outcome: Outcome<Error>)
    modifies config
    ensures outcome.Pass? <==> Definable(old(config.slots), name)
    ensures var d := Define(old(config.slots), name, Slot(Computed(fn), Configurable));
      (d.Ok? ==> outcome == Pass && config.slots == d.value) &&
      (d.Err? ==> outcome == Fail(d.error) && config.slots == old(config.slots))
    ensures (forall k :: k in old(config.slots) ==> old(config.slots)[k].configurable) ==>
      outcome == Pass && config.slots == old(config.slots)[name := Slot(Computed(fn), Configurable)]
  {
    outcome := Registry.Property(config, name, fn, Configurable);
  }
}
