/**
 * The configuration object both `env` (index.js) and the `mandatory`,
 * `optional` and `property` helpers (utils.js) fill in. Each own property is
 * an accessor installed with `Object.defineProperty`; index.js installs them
 * non-configurable, utils.js configurable. Redefining a non-configurable
 * accessor throws a TypeError; redefining a configurable one replaces it.
 */
module Configuration {
  import opened Wrappers
  import opened Values
  import IndexCoercion
  import UtilsCoercion

  /** Which `coerce` a declared accessor applies: index.js's or utils.js's. */
  datatype Rules =
    | IndexRules(t: IndexCoercion.IndexType)
    | UtilsRules(tags: seq<string>)

  function CoerceBy(rules: Rules, raw: string): Result<Value, Error>
  {
    match rules
    case IndexRules(t) => IndexCoercion.Coerce(t, raw)
    case UtilsRules(tags) => UtilsCoercion.Coerce(tags, raw)
  }

  /**
   * The `get` of an accessor: a declared variable (its name in the
   * environment, its coercion, its default), a user function known by an
   * index (the caller supplies what it returns), or the constant a stub
   * returns.
   */
  datatype Accessor =
    | Declared(source: string, rules: Rules, fallback: Value)
    | Computed(fn: nat)
    | Constant(v: Value)

  /** A property descriptor as `Object.getOwnPropertyDescriptor` returns it. */
  datatype Slot = Slot(getter: Accessor, configurable: bool)

  /** Calling the getter, against the environment as it is at the time of the read. */
  function Read(getter: Accessor, vars: map<string, string>, invoke: nat -> Value): (r: Result<Value, Error>)
    ensures r.Err? ==> getter.Declared? && getter.source in vars && CoercionError(r.error)
  {
    match getter
    case Declared(source, rules, fallback) =>
      if source in vars then CoerceBy(rules, vars[source]) else Ok(fallback)
    case Computed(fn) => Ok(invoke(fn))
    case Constant(v) => Ok(v)
  }

  /**
   * `config[name]`: undefined for a name with no own property (members
   * inherited from `Object.prototype` are not modelled).
   */
  function Lookup(slots: map<string, Slot>, name: string, vars: map<string, string>,
                  invoke: nat -> Value): (r: Result<Value, Error>)
    ensures r.Err? ==> name in slots && slots[name].getter.Declared? && CoercionError(r.error)
  {
    if name in slots then Read(slots[name].getter, vars, invoke) else Ok(Undefined)
  }

  /** A property `Object.defineProperty` may (re)define. */
  predicate Definable(slots: map<string, Slot>, name: string)
  {
    name !in slots || slots[name].configurable
  }

  /**
   * `Object.defineProperty(config, name, slot)`: fails with a TypeError over a
   * non-configurable property (every call brings a fresh `get` function, so a
   * redefinition is never identical), otherwise installs `slot` under `name`
   * and leaves every other property alone.
   */
  function Define(slots: map<string, Slot>, name: string, slot: Slot): (r: Result<map<string, Slot>, Error>)
    ensures r.Ok? <==> Definable(slots, name)
    ensures r.Err? ==> r.error == CannotRedefine(name)
    ensures r.Ok? ==> r.value.Keys == slots.Keys + {name} && r.value[name] == slot
    ensures r.Ok? ==> forall k :: k in slots && k != name ==> r.value[k] == slots[k]
  {
    if Definable(slots, name) then Ok(slots[name := slot]) else Err(CannotRedefine(name))
  }

  class Config {
    /** The own accessor properties, by name. */
    var slots: map<string, Slot>

    /** `const config = {}`. */
    constructor ()
      ensures slots == map[]
    {
      slots := map[];
    }

    /** `Object.getOwnPropertyDescriptor(config, name)`. */
    function Descriptor(name: string): (d: Option<Slot>)
      reads this
      ensures d.Some? <==> name in slots
      ensures d.Some? ==> d.value == slots[name]
    {
      if name in slots then Some(slots[name]) else None
    }

    method DefineProperty(name: string, slot: Slot) returns (outcome: Outcome<Error>)
      modifies this
      ensures var d := Define(old(slots), name, slot);
        (d.Ok? ==> outcome == Pass && slots == d.value) &&
        (d.Err? ==> outcome == Fail(d.error) && slots == old(slots))
    {
      var d := Define(slots, name, slot);
      if d.Ok? {
        slots := d.value;
        outcome := Pass;
      } else {
        outcome := Fail(d.error);
      }
    }
  }
}
