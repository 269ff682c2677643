/**
 * index.js: `env(setup, vars)` and the `$mandatory`, `$optional` and
 * `$property` helpers it hands to `setup`. Every accessor index.js installs
 * is non-configurable and coerces with index.js's own `coerce`. The `setup`
 * callback is modelled as the list of helper calls it makes, in order; an
 * exception thrown by one of them leaves `env`, so the calls after it never
 * happen.
 */
module IndexApi {
  import opened Wrappers
  import opened Values
  import opened Text
  import opened Naming
  import opened IndexCoercion
  import opened Configuration
  import opened Registry

  /** `configurable: false` in every `Object.defineProperty` of index.js. */
  const Configurable := false

  /** `$mandatory(vars, config, name, type, {aliases})`: no default, the variable is required. */
  method Mandatory(vars: map<string, string>, config: Config, name: string, t: IndexType,
                   aliases: seq<string>, acronyms: seq<string>) returns (outcome: Outcome<Error>)
    modifies config
    ensures (config.slots, outcome) ==
      SetSpec(old(config.slots), vars, name, IndexRules(t), Null, true, aliases, Configurable, acronyms)
  {
    outcome := Set(config, vars, name, IndexRules(t), Null, true, aliases, Configurable, acronyms);
  }

  /**
   * `$optional(vars, config, name, type, defaultValue, {aliases})`: not
   * required; an omitted or `undefined` default is null.
   */
  method Optional(vars: map<string, string>, config: Config, name: string, t: IndexType, fallback: Value,
                  aliases: seq<string>, acronyms: seq<string>) returns (outcome: Outcome<Error>)
    modifies config
    ensures (config.slots, outcome) ==
      SetSpec(old(config.slots), vars, name, IndexRules(t), DefaultToNull(fallback), false, aliases, Configurable, acronyms)
  {
    outcome := Set(config, vars, name, IndexRules(t), DefaultToNull(fallback), false, aliases, Configurable, acronyms);
  }

  /** `$property(config, name, func)`. */
  method Property(config: Config, name: string, fn: nat) returns (outcome: Outcome<Error>)
    modifies config
    ensures var d := Define(old(config.slots), name, Slot(Computed(fn), Configurable));
      (d.Ok? ==> outcome == Pass && config.slots == d.value) &&
      (d.Err? ==> outcome == Fail(d.error) && config.slots == old(config.slots))
  {
    outcome := Registry.Property(config, name, fn, Configurable);
  }

  /** One call `setup` makes. `OptionalDecl` carries the default as passed (`Undefined` when omitted). */
  datatype Declaration =
    | MandatoryDecl(name: string, t: IndexType, aliases: seq<string>)
    | OptionalDecl(name: string, t: IndexType, fallback: Value, aliases: seq<string>)
    | PropertyDecl(name: string, fn: nat)

  /** One helper call on the properties, with accessors of the given configurability. */
  function Apply(slots: map<string, Slot>, d: Declaration, vars: map<string, string>,
                 acronyms: seq<string>, configurable: bool): (r: (map<string, Slot>, Outcome<Error>))
    ensures slots.Keys <= r.0.Keys
  {
    match d
    case MandatoryDecl(name, t, aliases) =>
      SetSpec(slots, vars, name, IndexRules(t), Null, true, aliases, configurable, acronyms)
    case OptionalDecl(name, t, fallback, aliases) =>
      SetSpec(slots, vars, name, IndexRules(t), DefaultToNull(fallback), false, aliases, configurable, acronyms)
    case PropertyDecl(name, fn) =>
      match Define(slots, name, Slot(Computed(fn), configurable))
      case Err(e) => (slots, Fail(e))
      case Ok(next) => (next, Pass)
  }

  /** The calls of `setup` one after the other, stopping at the first that throws. */
  function Build(decls: seq<Declaration>, slots: map<string, Slot>, vars: map<string, string>,
                 acronyms: seq<string>, configurable: bool): (r: (map<string, Slot>, Outcome<Error>))
    ensures slots.Keys <= r.0.Keys
    decreases |decls|
  {
    if decls == [] then (slots, Pass)
    else
      var r := Apply(slots, decls[0], vars, acronyms, configurable);
      if r.1.Fail? then r else Build(decls[1..], r.0, vars, acronyms, configurable)
  }

  method Declare(config: Config, d: Declaration, vars: map<string, string>, acronyms: seq<string>,
                 configurable: bool) returns (outcome: Outcome<Error>)
    modifies config
    ensures (config.slots, outcome) == Apply(old(config.slots), d, vars, acronyms, configurable)
  {
    match d
    case MandatoryDecl(name, t, aliases) =>
      outcome := Set(config, vars, name, IndexRules(t), Null, true, aliases, configurable, acronyms);
    case OptionalDecl(name, t, fallback, aliases) =>
      outcome := Set(config, vars, name, IndexRules(t), DefaultToNull(fallback), false, aliases, configurable, acronyms);
    case PropertyDecl(name, fn) =>
      outcome := Registry.Property(config, name, fn, configurable);
  }

  method Setup(config: Config, decls: seq<Declaration>, vars: map<string, string>, acronyms: seq<string>,
               configurable: bool) returns (outcome: Outcome<Error>)
    modifies config
    ensures (config.slots, outcome) == Build(decls, old(config.slots), vars, acronyms, configurable)
  {
    var i := 0;
    outcome := Pass;
    while i < |decls|
      invariant 0 <= i <= |decls|
      invariant Build(decls[i..], config.slots, vars, acronyms, configurable) ==
                Build(decls, old(config.slots), vars, acronyms, configurable)
    {
      BuildStep(decls, i, config.slots, vars, acronyms, configurable);
      outcome := Declare(config, decls[i], vars, acronyms, configurable);
      if outcome.Fail? {
        return;
      }
      i := i + 1;
    }
    outcome := Pass;
  }

  /** One call of `setup` after the first `i`. */
  lemma BuildStep(decls: seq<Declaration>, i: nat, slots: map<string, Slot>, vars: map<string, string>,
                  acronyms: seq<string>, configurable: bool)
    requires i < |decls|
    ensures var r := Apply(slots, decls[i], vars, acronyms, configurable);
      Build(decls[i..], slots, vars, acronyms, configurable) ==
        if r.1.Fail? then r else Build(decls[i + 1..], r.0, vars, acronyms, configurable)
  {
    assert decls[i..][0] == decls[i];
    assert decls[i..][1..] == decls[i + 1..];
  }

  /** `env(setup, vars)`: a fresh object filled in by `setup`. */
  method Env(decls: seq<Declaration>, vars: map<string, string>, acronyms: seq<string>)
    returns (config: Config, outcome: Outcome<Error>)
    ensures fresh(config)
    ensures (config.slots, outcome) == Build(decls, map[], vars, acronyms, Configurable)
  {
    config := new Config();
    outcome := Setup(config, decls, vars, acronyms, Configurable);
  }

  /**
   * `env` with configurable accessors, as the override helpers of testing.js
   * need (see the findings in the README).
   */
  method StubbableEnv(decls: seq<Declaration>, vars: map<string, string>, acronyms: seq<string>)
    returns (config: Config, outcome: Outcome<Error>)
    ensures fresh(config)
    ensures (config.slots, outcome) == Build(decls, map[], vars, acronyms, true)
  {
    config := new Config();
    outcome := Setup(config, decls, vars, acronyms, true);
  }

  predicate Uniform(slots: map<string, Slot>, configurable: bool)
  {
    forall k :: k in slots ==> slots[k].configurable == configurable
  }

  lemma {:induction false} DefineAllUniform(slots: map<string, Slot>, attrs: seq<string>, slot: Slot)
    requires Uniform(slots, slot.configurable)
    ensures Uniform(DefineAll(slots, attrs, slot).0, slot.configurable)
    decreases |attrs|
  {
    if attrs != [] && Definable(slots, attrs[0]) {
      DefineAllUniform(slots[attrs[0] := slot], attrs[1..], slot);
    }
  }

  /**
   * Whatever `setup` does, every property of the object `env` returns has
   * the configurability `env` installs: none, for index.js.
   */
  lemma {:induction false} BuildUniform(decls: seq<Declaration>, slots: map<string, Slot>,
                                        vars: map<string, string>, acronyms: seq<string>, configurable: bool)
    requires Uniform(slots, configurable)
    ensures Uniform(Build(decls, slots, vars, acronyms, configurable).0, configurable)
    decreases |decls|
  {
    if decls != [] {
      var d := decls[0];
      match d {
      case MandatoryDecl(name, t, aliases) =>
        if GetAttrName(name, acronyms).Ok? {
          DefineAllUniform(slots, aliases + [GetAttrName(name, acronyms).value],
                           Slot(Declared(name, IndexRules(t), Null), configurable));
        }
      case OptionalDecl(name, t, fallback, aliases) =>
        if GetAttrName(name, acronyms).Ok? {
          DefineAllUniform(slots, aliases + [GetAttrName(name, acronyms).value],
                           Slot(Declared(name, IndexRules(t), DefaultToNull(fallback)), configurable));
        }
      case PropertyDecl(name, fn) =>
      }
      var r := Apply(slots, d, vars, acronyms, configurable);
      if r.1.Pass? {
        BuildUniform(decls[1..], r.0, vars, acronyms, configurable);
      }
    }
  }

  /**
   * Declaring the same thing twice in one `env` throws "Cannot redefine
   * property" the second time, since the first accessors are not configurable.
   */
  lemma DeclareTwiceFails(d: Declaration, vars: map<string, string>, acronyms: seq<string>)
    requires Build([d], map[], vars, acronyms, Configurable).1 == Pass
    ensures var r := Build([d, d], map[], vars, acronyms, Configurable);
      r.1.Fail? && r.1.error.CannotRedefine?
  {
    assert [d, d][1..] == [d];
    assert [d][1..] == [];
    var first := Apply(map[], d, vars, acronyms, Configurable).0;
    match d
    case MandatoryDecl(name, t, aliases) =>
      var attrs := aliases + [GetAttrName(name, acronyms).value];
      var slot := Slot(Declared(name, IndexRules(t), Null), Configurable);
      DefineAllInstalls(map[], attrs, slot);
      assert attrs[0] in first;
      SetNonConfigurableCollision(first, vars, name, IndexRules(t), Null, true, aliases, acronyms);
    case OptionalDecl(name, t, fallback, aliases) =>
      var attrs := aliases + [GetAttrName(name, acronyms).value];
      var slot := Slot(Declared(name, IndexRules(t), DefaultToNull(fallback)), Configurable);
      DefineAllInstalls(map[], attrs, slot);
      assert attrs[0] in first;
      SetNonConfigurableCollision(first, vars, name, IndexRules(t), DefaultToNull(fallback), false, aliases, acronyms);
    case PropertyDecl(name, fn) =>
  }

  /**
   * An optional variable declared without a default, or with `undefined`,
   * reads null through every one of its names while the variable is unset.
   */
  lemma OptionalWithoutDefaultReadsNull(slots: map<string, Slot>, vars: map<string, string>, name: string,
                                        t: IndexType, aliases: seq<string>, acronyms: seq<string>,
                                        configurable: bool, now: map<string, string>, invoke: nat -> Value)
    requires name !in now
    requires Apply(slots, OptionalDecl(name, t, Undefined, aliases), vars, acronyms, configurable).1 == Pass
    ensures var r := Apply(slots, OptionalDecl(name, t, Undefined, aliases), vars, acronyms, configurable).0;
      GetAttrName(name, acronyms).Ok? &&
      forall a :: a in aliases + [GetAttrName(name, acronyms).value] ==> Lookup(r, a, now, invoke) == Ok(Null)
  {
    SetAccessorsAgree(slots, vars, name, IndexRules(t), Null, false, aliases, configurable, acronyms, now, invoke);
  }

  /**
   * `env(({optional}) => optional("NUMBER", int, 1234))` defines one
   * accessor, `number`, reading NUMBER as an integer and 1234 without it.
   */
  lemma OptionalNumberExample(vars: map<string, string>, acronyms: seq<string>, configurable: bool)
    requires "NUMBER" !in acronyms
    ensures Build([OptionalDecl("NUMBER", IntType, Integer(1234), [])], map[], vars, acronyms, configurable) ==
      (map["number" := Slot(Declared("NUMBER", IndexRules(IntType), Integer(1234)), configurable)], Pass)
  {
    var d := OptionalDecl("NUMBER", IntType, Integer(1234), []);
    SetNumber(vars, acronyms, configurable);
    assert [d][1..] == [];
  }

  lemma SetNumber(vars: map<string, string>, acronyms: seq<string>, configurable: bool)
    requires "NUMBER" !in acronyms
    ensures SetSpec(map[], vars, "NUMBER", IndexRules(IntType), Integer(1234), false, [], configurable, acronyms) ==
      (map["number" := Slot(Declared("NUMBER", IndexRules(IntType), Integer(1234)), configurable)], Pass)
  {
    AttrNameNumber(acronyms);
    var slot := Slot(Declared("NUMBER", IndexRules(IntType), Integer(1234)), configurable);
    assert [] + ["number"] == ["number"];
    assert ["number"][1..] == [];
    assert DefineAll(map[], ["number"], slot) == DefineAll(map["number" := slot], [], slot);
  }

  lemma AttrNameNumber(acronyms: seq<string>)
    requires "NUMBER" !in acronyms
    ensures GetAttrName("NUMBER", acronyms) == Ok("number")
  {
    assert Lower("NUMBER") == "number";
    assert Upper("number") == "NUMBER";
    AttrNameOneWord("NUMBER", acronyms);
  }
}
