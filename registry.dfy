/**
 * `set`, `validate` and the `mandatory` / `optional` / `property` wrappers,
 * which index.js and utils.js write out twice. They differ only in the
 * `coerce` the accessors apply and in whether the accessors are configurable
 * (index.js: no, utils.js: yes); both are parameters here.
 */
module Registry {
  import opened Wrappers
  import opened Values
  import opened Naming
  import opened Configuration

  /** `validate(vars, name, required)`: a required variable must be present. */
  function Validate(vars: map<string, string>, name: string, required: bool): (r: Outcome<Error>)
    ensures r.Fail? <==> required && name !in vars
    ensures r.Fail? ==> r.error == NotDefined(name)
  {
    if !required then Pass
    else if name in vars then Pass
    else Fail(NotDefined(name))
  }

  /**
   * `attrs.forEach(attr => Object.defineProperty(config, attr, ...))`: the
   * first failing definition throws, and those before it stay installed.
   */
  function DefineAll(slots: map<string, Slot>, attrs: seq<string>, slot: Slot): (r: (map<string, Slot>, Outcome<Error>))
    ensures slots.Keys <= r.0.Keys
    ensures r.1.Fail? ==> r.1.error.CannotRedefine?
    decreases |attrs|
  {
    if attrs == [] then (slots, Pass)
    else
      match Define(slots, attrs[0], slot)
      case Err(e) => (slots, Fail(e))
      case Ok(next) => DefineAll(next, attrs[1..], slot)
  }

  predicate Distinct(attrs: seq<string>)
  {
    forall i, j :: 0 <= i < j < |attrs| ==> attrs[i] != attrs[j]
  }

  /**
   * The whole forEach succeeds exactly when every name is free or
   * configurable and, for non-configurable accessors, no name comes twice.
   */
  lemma {:induction false} DefineAllSucceedsIff(slots: map<string, Slot>, attrs: seq<string>, slot: Slot)
    ensures DefineAll(slots, attrs, slot).1 == Pass <==>
      (forall i :: 0 <= i < |attrs| ==> Definable(slots, attrs[i])) &&
      (slot.configurable || Distinct(attrs))
    decreases |attrs|
  {
    if attrs != [] {
      var a, rest := attrs[0], attrs[1..];
      if Definable(slots, a) {
        var next := slots[a := slot];
        DefineAllSucceedsIff(next, rest, slot);
        var all := (forall i :: 0 <= i < |attrs| ==> Definable(slots, attrs[i])) &&
                   (slot.configurable || Distinct(attrs));
        if DefineAll(slots, attrs, slot).1 == Pass {
          forall i | 0 <= i < |attrs|
            ensures Definable(slots, attrs[i])
          {
            if i > 0 {
              assert Definable(next, rest[i - 1]);
            }
          }
          if !slot.configurable {
            forall i, j | 0 <= i < j < |attrs|
              ensures attrs[i] != attrs[j]
            {
              assert Definable(next, rest[j - 1]);
              if i > 0 {
                assert rest[i - 1] != rest[j - 1];
              }
            }
          }
        }
        if all {
          forall i | 0 <= i < |rest|
            ensures Definable(next, rest[i])
          {
            assert attrs[i + 1] == rest[i];
            if !slot.configurable {
              assert attrs[0] != attrs[i + 1];
            }
          }
          if !slot.configurable {
            forall i, j | 0 <= i < j < |rest|
              ensures rest[i] != rest[j]
            {
              assert attrs[i + 1] != attrs[j + 1];
            }
          }
        }
      }
    }
  }

  /**
   * After a successful forEach every name in `attrs` holds `slot` and every
   * other property is as it was.
   */
  lemma {:induction false} DefineAllInstalls(slots: map<string, Slot>, attrs: seq<string>, slot: Slot)
    requires DefineAll(slots, attrs, slot).1 == Pass
    ensures var r := DefineAll(slots, attrs, slot).0;
      (forall k :: k in r <==> k in slots || k in attrs) &&
      (forall k :: k in attrs ==> r[k] == slot) &&
      (forall k :: k in slots && k !in attrs ==> r[k] == slots[k])
    decreases |attrs|
  {
    if attrs != [] {
      var next := slots[attrs[0] := slot];
      DefineAllInstalls(next, attrs[1..], slot);
      assert forall k :: k in attrs <==> k == attrs[0] || k in attrs[1..];
    }
  }

  /**
   * A failed forEach throws the TypeError of the first name it cannot define,
   * after installing exactly the names before it.
   */
  lemma {:induction false} DefineAllPartial(slots: map<string, Slot>, attrs: seq<string>, slot: Slot)
    requires DefineAll(slots, attrs, slot).1.Fail?
    ensures (exists j :: 0 <= j < |attrs| &&
               DefineAll(slots, attrs[..j], slot).1 == Pass &&
               DefineAll(slots, attrs, slot).0 == DefineAll(slots, attrs[..j], slot).0 &&
               !Definable(DefineAll(slots, attrs[..j], slot).0, attrs[j]) &&
               DefineAll(slots, attrs, slot).1 == Fail(CannotRedefine(attrs[j])))
    decreases |attrs|
  {
    if Definable(slots, attrs[0]) {
      var next := slots[attrs[0] := slot];
      var rest := attrs[1..];
      DefineAllPartial(next, rest, slot);
      var j :| 0 <= j < |rest| &&
        DefineAll(next, rest[..j], slot).1 == Pass &&
        DefineAll(next, rest, slot).0 == DefineAll(next, rest[..j], slot).0 &&
        !Definable(DefineAll(next, rest[..j], slot).0, rest[j]) &&
        DefineAll(next, rest, slot).1 == Fail(CannotRedefine(rest[j]));
      var prefix := attrs[..j + 1];
      assert prefix[0] == attrs[0] && prefix[1..] == rest[..j];
      assert DefineAll(slots, prefix, slot) == DefineAll(next, rest[..j], slot);
      assert attrs[j + 1] == rest[j];
    } else {
      assert attrs[..0] == [];
    }
  }

  /**
   * `set(vars, config, name, type, defaultValue, {required, aliases})` as a
   * transformation of the properties: the accessor name is derived first,
   * then the variable is validated, then one accessor is installed per alias
   * and under the derived name.
   */
  function SetSpec(slots: map<string, Slot>, vars: map<string, string>, name: string, rules: Rules,
                   fallback: Value, required: bool, aliases: seq<string>, configurable: bool,
                   acronyms: seq<string>): (r: (map<string, Slot>, Outcome<Error>))
    ensures slots.Keys <= r.0.Keys
    ensures r.1.Fail? && !r.1.error.CannotRedefine? ==> r.0 == slots
  {
    match GetAttrName(name, acronyms)
    case Err(e) => (slots, Fail(e))
    case Ok(attr) =>
      var v := Validate(vars, name, required);
      if v.Fail? then (slots, v)
      else DefineAll(slots, aliases + [attr], Slot(Declared(name, rules, fallback), configurable))
  }

  /** `set`: the same steps, defining the properties one by one on the object. */
  method Set(config: Config, vars: map<string, string>, name: string, rules: Rules, fallback: Value,
             required: bool, aliases: seq<string>, configurable: bool, acronyms: seq<string>)
    returns (outcome: Outcome<Error>)
    modifies config
    ensures (config.slots, outcome) ==
      SetSpec(old(config.slots), vars, name, rules, fallback, required, aliases, configurable, acronyms)
  {
    var derived := GetAttrName(name, acronyms);
    if derived.Err? {
      return Fail(derived.error);
    }
    var attrs := aliases + [derived.value];
    outcome := Validate(vars, name, required);
    if outcome.Fail? {
      return;
    }
    var slot := Slot(Declared(name, rules, fallback), configurable);
    var i := 0;
    while i < |attrs|
      invariant 0 <= i <= |attrs|
      invariant DefineAll(config.slots, attrs[i..], slot) == DefineAll(old(config.slots), attrs, slot)
    {
      assert attrs[i..][1..] == attrs[i + 1..];
      var step := config.DefineProperty(attrs[i], slot);
      if step.Fail? {
        return step;
      }
      i := i + 1;
    }
  }

  /** `property(config, name, func)`: one accessor calling the user's function. */
  method Property(config: Config, name: string, fn: nat, configurable: bool) returns (outcome: Outcome<Error>)
    modifies config
    ensures var d := Define(old(config.slots), name, Slot(Computed(fn), configurable));
      (d.Ok? ==> outcome == Pass && config.slots == d.value) &&
      (d.Err? ==> outcome == Fail(d.error) && config.slots == old(config.slots))
  {
    outcome := config.DefineProperty(name, Slot(Computed(fn), configurable));
  }

  /**
   * A missing mandatory variable throws "NAME is not defined" and installs
   * nothing (unless the name cannot even be turned into an accessor name,
   * which is checked first).
   */
  lemma MandatoryMissingInstallsNothing(slots: map<string, Slot>, vars: map<string, string>, name: string,
                                        rules: Rules, fallback: Value, aliases: seq<string>,
                                        configurable: bool, acronyms: seq<string>)
    requires name !in vars
    ensures var r := SetSpec(slots, vars, name, rules, fallback, true, aliases, configurable, acronyms);
      r.0 == slots &&
      r.1 == Fail(if GetAttrName(name, acronyms).Ok? then NotDefined(name) else UndefinedWordStart)
  {
    AttrNameFailsIff(name, acronyms);
  }

  /**
   * After a successful `set`, every alias and the derived name read the same
   * thing: the default while the variable is absent, otherwise the coercion
   * of its current text.
   */
  lemma {:induction false} SetAccessorsAgree(slots: map<string, Slot>, vars: map<string, string>, name: string,
                                             rules: Rules, fallback: Value, required: bool, aliases: seq<string>,
                                             configurable: bool, acronyms: seq<string>,
                                             now: map<string, string>, invoke: nat -> Value)
    requires SetSpec(slots, vars, name, rules, fallback, required, aliases, configurable, acronyms).1 == Pass
    ensures GetAttrName(name, acronyms).Ok?
    ensures var r := SetSpec(slots, vars, name, rules, fallback, required, aliases, configurable, acronyms).0;
      forall a :: a in aliases + [GetAttrName(name, acronyms).value] ==>
        a in r && Lookup(r, a, now, invoke) ==
          (if name in now then CoerceBy(rules, now[name]) else Ok(fallback))
  {
    var attrs := aliases + [GetAttrName(name, acronyms).value];
    DefineAllInstalls(slots, attrs, Slot(Declared(name, rules, fallback), configurable));
  }

  /**
   * utils.js accessors are configurable, so declaring over them always
   * succeeds once the name is derived and validated, and the last
   * declaration wins.
   */
  lemma SetConfigurableLastWins(slots: map<string, Slot>, vars: map<string, string>, name: string,
                                rules: Rules, fallback: Value, required: bool, aliases: seq<string>,
                                acronyms: seq<string>)
    requires forall k :: k in slots ==> slots[k].configurable
    requires GetAttrName(name, acronyms).Ok? && Validate(vars, name, required).Pass?
    ensures var r := SetSpec(slots, vars, name, rules, fallback, required, aliases, true, acronyms);
      r.1 == Pass &&
      (forall k :: k in r.0 ==> r.0[k].configurable) &&
      GetAttrName(name, acronyms).value in r.0 &&
      r.0[GetAttrName(name, acronyms).value] == Slot(Declared(name, rules, fallback), true)
  {
    var attrs := aliases + [GetAttrName(name, acronyms).value];
    var slot := Slot(Declared(name, rules, fallback), true);
    DefineAllSucceedsIff(slots, attrs, slot);
    DefineAllInstalls(slots, attrs, slot);
  }

  /**
   * index.js accessors are not configurable: declaring a name that is already
   * an index.js accessor, or listing a name twice, throws "Cannot redefine
   * property".
   */
  lemma SetNonConfigurableCollision(slots: map<string, Slot>, vars: map<string, string>, name: string,
                                    rules: Rules, fallback: Value, required: bool, aliases: seq<string>,
                                    acronyms: seq<string>)
    requires GetAttrName(name, acronyms).Ok? && Validate(vars, name, required).Pass?
    requires var attrs := aliases + [GetAttrName(name, acronyms).value];
      (exists i :: 0 <= i < |attrs| && attrs[i] in slots && !slots[attrs[i]].configurable) || !Distinct(attrs)
    ensures var r := SetSpec(slots, vars, name, rules, fallback, required, aliases, false, acronyms);
      r.1.Fail? && r.1.error.CannotRedefine?
  {
    var attrs := aliases + [GetAttrName(name, acronyms).value];
    var slot := Slot(Declared(name, rules, fallback), false);
    DefineAllSucceedsIff(slots, attrs, slot);
    DefineAllPartial(slots, attrs, slot);
  }
}
