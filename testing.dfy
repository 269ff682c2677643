/**
 * testing.js: `stub(config, name, value)` replaces an accessor by one that
 * returns `value` and pushes a closure that puts the old descriptor back;
 * `restore()` pops and runs those closures, newest first. The closures are
 * modelled as the data they capture: the object, the name and the saved
 * descriptor.
 */
module Override {
  import opened Wrappers
  import opened Values
  import opened Configuration
  import IndexApi
  import UtilsApi
  import opened IndexCoercion
  import opened NumberParsing

  /** `() => Object.defineProperty(config, name, descriptor)`. */
  datatype RestoreAction = RestoreAction(target: Config, name: string, saved: Slot)

  /** The properties of every object the restore actions touch. */
  type Store = map<Config, map<string, Slot>>

  /**
   * What `stub` does to the properties of one object: "not defined" for a
   * missing name, a TypeError over a non-configurable accessor (the stub
   * goes through utils.js's configurable `property`), and otherwise a
   * configurable accessor returning `value` in place of the old one.
   */
  function StubSlots(slots: map<string, Slot>, name: string, value: Value): (r: Result<map<string, Slot>, Error>)
    ensures r.Err? <==> !Definable(slots, name) || name !in slots
    ensures name !in slots ==> r == Err(CannotStub(name))
    ensures name in slots && !slots[name].configurable ==> r == Err(CannotRedefine(name))
    ensures r.Ok? ==> (r.value.Keys == slots.Keys &&
      forall k :: k in slots ==> r.value[k] == if k == name then Slot(Constant(value), true) else slots[k])
  {
    if name !in slots then Err(CannotStub(name))
    else Define(slots, name, Slot(Constant(value), UtilsApi.Configurable))
  }

  function Targets(stack: seq<RestoreAction>): set<Config>
  {
    set a | a in stack :: a.target
  }

  lemma TargetsOfPrefix(stack: seq<RestoreAction>)
    requires stack != []
    ensures stack[|stack| - 1].target in Targets(stack)
    ensures Targets(stack[..|stack| - 1]) <= Targets(stack)
  {
    assert stack[|stack| - 1] in stack;
    forall a | a in stack[..|stack| - 1] ensures a in stack {
    }
  }

  /**
   * `restore()` on the properties: pop the newest action and redefine its
   * property; the first redefinition that throws stops the loop, with that
   * action already popped.
   */
  function Unwind(stack: seq<RestoreAction>, store: Store): (r: (Store, seq<RestoreAction>, Outcome<Error>))
    requires Targets(stack) <= store.Keys
    ensures r.0.Keys == store.Keys
    ensures r.2.Pass? ==> r.1 == []
    ensures r.2.Fail? ==> |r.1| < |stack| && r.1 == stack[..|r.1|] && r.2.error.CannotRedefine?
    decreases |stack|
  {
    if stack == [] then (store, [], Pass)
    else
      TargetsOfPrefix(stack);
      var top := stack[|stack| - 1];
      var rest := stack[..|stack| - 1];
      match Define(store[top.target], top.name, top.saved)
      case Err(e) => (store, rest, Fail(e))
      case Ok(slots) => Unwind(rest, store[top.target := slots])
  }

  /** One step of `Unwind`, for a stack written as its rest and its top. */
  lemma UnwindPop(rest: seq<RestoreAction>, top: RestoreAction, store: Store)
    requires Targets(rest + [top]) <= store.Keys
    ensures top.target in store && Targets(rest) <= store.Keys
    ensures var d := Define(store[top.target], top.name, top.saved);
      Unwind(rest + [top], store) ==
        if d.Err? then (store, rest, Fail(d.error)) else Unwind(rest, store[top.target := d.value])
  {
    var stack := rest + [top];
    TargetsOfPrefix(stack);
    assert stack[..|stack| - 1] == rest;
  }

  /** The properties of the given objects, now. */
  function Snapshot(targets: set<Config>): (s: Store)
    reads targets
    ensures s.Keys == targets
  {
    map c | c in targets :: c.slots
  }

  /** The module-level `restores` array. */
  class Restores {
    var stack: seq<RestoreAction>

    constructor ()
      ensures stack == []
    {
      stack := [];
    }

    /** `stub(config, name, value)`. */
    method Stub(config: Config, name: string, value: Value) returns (outcome: Outcome<Error>)
      modifies this, config
      ensures var r := StubSlots(old(config.slots), name, value);
        (r.Ok? ==> outcome == Pass && config.slots == r.value &&
                   stack == old(stack) + [RestoreAction(config, name, old(config.slots)[name])]) &&
        (r.Err? ==> outcome == Fail(r.error) && config.slots == old(config.slots) && stack == old(stack))
    {
      var descriptor := config.Descriptor(name);
      if descriptor.None? {
        return Fail(CannotStub(name));
      }
      outcome := config.DefineProperty(name, Slot(Constant(value), UtilsApi.Configurable));
      if outcome.Pass? {
        stack := stack + [RestoreAction(config, name, descriptor.value)];
      }
    }

    /** `restore()`. */
    method Restore() returns (outcome: Outcome<Error>)
      modifies this, Targets(stack)
      ensures var u := Unwind(old(stack), old(Snapshot(Targets(stack))));
        stack == u.1 && outcome == u.2 && Snapshot(old(Targets(stack))) == u.0
    {
      ghost var all := Targets(stack);
      outcome := Pass;
      while stack != []
        invariant Targets(stack) <= all
        invariant Unwind(stack, Snapshot(all)) == Unwind(old(stack), old(Snapshot(all)))
        invariant outcome == Pass
        decreases |stack|
      {
        outcome := PopAndRun(all);
        if outcome.Fail? {
          return;
        }
      }
    }

    /** One turn of the loop in `restore()`: `func = restores.pop(); func()`. */
    method PopAndRun(ghost all: set<Config>) returns (outcome: Outcome<Error>)
      requires stack != [] && Targets(stack) <= all
      modifies this, all
      ensures stack == old(stack)[..|old(stack)| - 1] && Targets(stack) <= all
      ensures outcome.Fail? ==> Unwind(old(stack), old(Snapshot(all))) == (Snapshot(all), stack, outcome)
      ensures outcome.Pass? ==> Unwind(old(stack), old(Snapshot(all))) == Unwind(stack, Snapshot(all))
    {
      TargetsOfPrefix(stack);
      var top := stack[|stack| - 1];
      assert stack == stack[..|stack| - 1] + [top];
      stack := stack[..|stack| - 1];
      ghost var before := Snapshot(all);
      ghost var d := Define(before[top.target], top.name, top.saved);
      UnwindPop(stack, top, before);
      outcome := top.target.DefineProperty(top.name, top.saved);
      if outcome.Fail? {
        assert Snapshot(all) == before;
        return;
      }
      assert Snapshot(all) == before[top.target := d.value] by {
        forall o | o in all ensures Snapshot(all)[o] == before[top.target := d.value][o] {
        }
      }
    }
  }

  /** One call `stub(target, name, value)`. */
  datatype StubCall = StubCall(target: Config, name: string, value: Value)

  predicate Covers(store: Store, stack: seq<RestoreAction>, calls: seq<StubCall>)
  {
    Targets(stack) <= store.Keys && forall i :: 0 <= i < |calls| ==> calls[i].target in store
  }

  /** Several `stub` calls in a row, stopping at the first that throws. */
  function StubAll(store: Store, stack: seq<RestoreAction>, calls: seq<StubCall>): (r: (Store, seq<RestoreAction>, Outcome<Error>))
    requires Covers(store, stack, calls)
    ensures r.0.Keys == store.Keys
    ensures |stack| <= |r.1| <= |stack| + |calls| && r.1[..|stack|] == stack
    ensures r.2.Pass? ==> |r.1| == |stack| + |calls|
    decreases |calls|
  {
    if calls == [] then (store, stack, Pass)
    else
      var c := calls[0];
      match StubSlots(store[c.target], c.name, c.value)
      case Err(e) => (store, stack, Fail(e))
      case Ok(slots) =>
        var stack' := stack + [RestoreAction(c.target, c.name, store[c.target][c.name])];
        assert Targets(stack') == Targets(stack) + {c.target};
        StubAll(store[c.target := slots], stack', calls[1..])
  }

  /** Restoring right after one successful stub undoes it exactly. */
  lemma RestoreUndoesStub(store: Store, stack: seq<RestoreAction>, c: StubCall)
    requires Targets(stack) <= store.Keys && c.target in store
    requires StubSlots(store[c.target], c.name, c.value).Ok?
    ensures var stubbed := store[c.target := StubSlots(store[c.target], c.name, c.value).value];
      var pushed := stack + [RestoreAction(c.target, c.name, store[c.target][c.name])];
      Targets(pushed) <= stubbed.Keys &&
      Unwind(pushed, stubbed) == Unwind(stack, store)
  {
    var slots := store[c.target];
    var stubbed := store[c.target := StubSlots(slots, c.name, c.value).value];
    var pushed := stack + [RestoreAction(c.target, c.name, slots[c.name])];
    assert Targets(pushed) == Targets(stack) + {c.target};
    assert pushed[..|pushed| - 1] == stack;
    var back := stubbed[c.target][c.name := slots[c.name]];
    assert back == slots;
    assert stubbed[c.target := back] == store;
  }

  /**
   * `restore()` after any run of stubs undoes every stub that succeeded,
   * whether or not a later one threw, and then carries on with what was on
   * the stack before.
   */
  lemma {:induction false} StubsThenRestore(store: Store, stack: seq<RestoreAction>, calls: seq<StubCall>)
    requires Covers(store, stack, calls)
    ensures var s := StubAll(store, stack, calls);
      Targets(s.1) <= s.0.Keys && Unwind(s.1, s.0) == Unwind(stack, store)
    decreases |calls|
  {
    if calls != [] {
      var c := calls[0];
      if StubSlots(store[c.target], c.name, c.value).Ok? {
        var slots := StubSlots(store[c.target], c.name, c.value).value;
        var stack' := stack + [RestoreAction(c.target, c.name, store[c.target][c.name])];
        RestoreUndoesStub(store, stack, c);
        assert Covers(store[c.target := slots], stack', calls[1..]) by {
          forall i | 0 <= i < |calls[1..]| ensures calls[1..][i].target in store[c.target := slots] {
            assert calls[1..][i] == calls[i + 1];
          }
        }
        StubsThenRestore(store[c.target := slots], stack', calls[1..]);
      }
    }
  }

  /**
   * With nothing stubbed before, `restore()` brings back every property of
   * every object exactly and empties the stack.
   */
  lemma RestoreReturnsOriginal(store: Store, calls: seq<StubCall>)
    requires Covers(store, [], calls)
    ensures var s := StubAll(store, [], calls);
      Targets(s.1) <= s.0.Keys && Unwind(s.1, s.0) == (store, [], Pass)
  {
    StubsThenRestore(store, [], calls);
  }

  /** While stubbed, the property reads `value`; every other property reads as before. */
  lemma StubReads(slots: map<string, Slot>, name: string, value: Value, vars: map<string, string>,
                  invoke: nat -> Value, other: string)
    requires StubSlots(slots, name, value).Ok?
    ensures Lookup(StubSlots(slots, name, value).value, name, vars, invoke) == Ok(value)
    ensures other != name ==>
      Lookup(StubSlots(slots, name, value).value, other, vars, invoke) == Lookup(slots, other, vars, invoke)
  {
  }

  /** Stubbing the same property twice reads the second value; one restore brings the original back. */
  lemma NestedStubs(c: Config, slots: map<string, Slot>, name: string, v1: Value, v2: Value,
                    vars: map<string, string>, invoke: nat -> Value)
    requires name in slots && slots[name].configurable
    ensures var s := StubAll(map[c := slots], [], [StubCall(c, name, v1), StubCall(c, name, v2)]);
      s.2 == Pass && c in s.0 && Lookup(s.0[c], name, vars, invoke) == Ok(v2) &&
      Targets(s.1) <= s.0.Keys && Unwind(s.1, s.0) == (map[c := slots], [], Pass)
  {
    var first := StubSlots(slots, name, v1).value;
    TwoStubs(c, slots, name, v1, v2);
    StubReads(first, name, v2, vars, invoke, name);
    RestoreReturnsOriginal(map[c := slots], [StubCall(c, name, v1), StubCall(c, name, v2)]);
  }

  /** The two `stub` calls of `NestedStubs` both succeed; the second replaces the first. */
  lemma TwoStubs(c: Config, slots: map<string, Slot>, name: string, v1: Value, v2: Value)
    requires name in slots && slots[name].configurable
    ensures var s := StubAll(map[c := slots], [], [StubCall(c, name, v1), StubCall(c, name, v2)]);
      s.2 == Pass && s.0 == map[c := StubSlots(StubSlots(slots, name, v1).value, name, v2).value]
  {
    var calls := [StubCall(c, name, v1), StubCall(c, name, v2)];
    var store := map[c := slots];
    var first := StubSlots(slots, name, v1).value;
    var second := StubSlots(first, name, v2).value;
    var a1 := RestoreAction(c, name, slots[name]);
    StubAllStep(store, [], calls);
    assert calls[1..] == [StubCall(c, name, v2)];
    assert store[c := first] == map[c := first];
    StubAllStep(map[c := first], [] + [a1], calls[1..]);
    assert calls[1..][1..] == [];
    assert map[c := first][c := second] == map[c := second];
  }

  lemma StubAllStep(store: Store, stack: seq<RestoreAction>, calls: seq<StubCall>)
    requires Covers(store, stack, calls) && calls != []
    requires calls[0].target in store && StubSlots(store[calls[0].target], calls[0].name, calls[0].value).Ok?
    ensures var c := calls[0];
      var next := store[c.target := StubSlots(store[c.target], c.name, c.value).value];
      var pushed := stack + [RestoreAction(c.target, c.name, store[c.target][c.name])];
      Covers(next, pushed, calls[1..]) &&
      StubAll(store, stack, calls) == StubAll(next, pushed, calls[1..])
  {
    var c := calls[0];
    var pushed := stack + [RestoreAction(c.target, c.name, store[c.target][c.name])];
    assert Targets(pushed) == Targets(stack) + {c.target};
    forall i | 0 <= i < |calls[1..]| ensures calls[1..][i].target in store {
      assert calls[1..][i] == calls[i + 1];
    }
  }

  /**
   * After `restore()` the accessor of a declared variable is live again: it
   * reads the variable as it is at the time of the read, not when it was
   * stubbed or restored.
   */
  lemma RestoredAccessorIsLive(c: Config, slots: map<string, Slot>, name: string, value: Value,
                               source: string, t: IndexType, fallback: Value, n: int,
                               vars: map<string, string>, invoke: nat -> Value)
    requires name in slots && slots[name] == Slot(Declared(source, IndexRules(t), fallback), true)
    requires t == IntType && source in vars && vars[source] == IntText(n)
    ensures var s := StubAll(map[c := slots], [], [StubCall(c, name, value)]);
      Targets(s.1) <= s.0.Keys && Unwind(s.1, s.0) == (map[c := slots], [], Pass) &&
      Lookup(slots, name, vars, invoke) == Ok(Integer(n))
  {
    var calls := [StubCall(c, name, value)];
    assert calls[1..] == [];
    RestoreReturnsOriginal(map[c := slots], calls);
    CoerceIntRoundTrip(n, "");
    assert IntText(n) + "" == IntText(n);
  }

  /**
   * A computed property stays live through a stub and a restore: after
   * `restore()` every read calls the user's function again, whatever it
   * returns by then.
   */
  lemma RestoredPropertyIsLive(c: Config, name: string, fn: nat, value: Value, vars: map<string, string>,
                               acronyms: seq<string>, invoke: nat -> Value)
    ensures var built := IndexApi.Build([IndexApi.PropertyDecl(name, fn)], map[], vars, acronyms, true);
      var s := StubAll(map[c := built.0], [], [StubCall(c, name, value)]);
      built == (map[name := Slot(Computed(fn), true)], Pass) &&
      s.2 == Pass && c in s.0 && Lookup(s.0[c], name, vars, invoke) == Ok(value) &&
      Targets(s.1) <= s.0.Keys && Unwind(s.1, s.0) == (map[c := built.0], [], Pass) &&
      Lookup(built.0, name, vars, invoke) == Ok(invoke(fn))
  {
    var d := IndexApi.PropertyDecl(name, fn);
    assert [d][1..] == [];
    StubbableEnvRoundTrip(c, [d], vars, acronyms, name, value, invoke);
  }

  /**
   * An object built by index.js's `env` cannot be stubbed at all: a missing
   * name is "not defined", and every defined one is a non-configurable
   * accessor, so utils.js's `property` throws "Cannot redefine property".
   */
  lemma StubOnIndexEnvFails(decls: seq<IndexApi.Declaration>, vars: map<string, string>,
                            acronyms: seq<string>, name: string, value: Value)
    ensures var slots := IndexApi.Build(decls, map[], vars, acronyms, IndexApi.Configurable).0;
      StubSlots(slots, name, value) == Err(if name in slots then CannotRedefine(name) else CannotStub(name))
  {
    IndexApi.BuildUniform(decls, map[], vars, acronyms, IndexApi.Configurable);
  }

  /**
   * The override helpers' own usage, `stub(env(optional("NUMBER", int, 1234)),
   * "number", 4321)`, throws on the object index.js's `env` builds.
   */
  lemma StubOptionalNumberAsWritten(vars: map<string, string>, acronyms: seq<string>)
    requires "NUMBER" !in acronyms
    ensures var built := IndexApi.Build([IndexApi.OptionalDecl("NUMBER", IntType, Integer(1234), [])],
                                        map[], vars, acronyms, IndexApi.Configurable);
      built.1 == Pass && StubSlots(built.0, "number", Integer(4321)) == Err(CannotRedefine("number"))
  {
    IndexApi.OptionalNumberExample(vars, acronyms, IndexApi.Configurable);
  }

  /**
   * With configurable accessors, as `StubbableEnv` builds them, every defined
   * property can be stubbed, reads the stub's value, and one `restore()`
   * brings the built object back exactly.
   */
  lemma StubbableEnvRoundTrip(c: Config, decls: seq<IndexApi.Declaration>, vars: map<string, string>,
                              acronyms: seq<string>, name: string, value: Value, invoke: nat -> Value)
    ensures var slots := IndexApi.Build(decls, map[], vars, acronyms, true).0;
      var s := StubAll(map[c := slots], [], [StubCall(c, name, value)]);
      (s.2 == Pass <==> name in slots) &&
      (s.2 == Pass ==> c in s.0 && Lookup(s.0[c], name, vars, invoke) == Ok(value)) &&
      Targets(s.1) <= s.0.Keys && Unwind(s.1, s.0) == (map[c := slots], [], Pass)
  {
    var slots := IndexApi.Build(decls, map[], vars, acronyms, true).0;
    IndexApi.BuildUniform(decls, map[], vars, acronyms, true);
    var calls := [StubCall(c, name, value)];
    assert calls[1..] == [];
    RestoreReturnsOriginal(map[c := slots], calls);
  }

  /**
   * The same usage on the configurable object: 4321 while stubbed, 1234
   * (the default, NUMBER being unset) after `restore()`.
   */
  lemma StubOptionalNumberCorrected(c: Config, vars: map<string, string>, acronyms: seq<string>,
                                    invoke: nat -> Value)
    requires "NUMBER" !in acronyms && "NUMBER" !in vars
    ensures var built := IndexApi.Build([IndexApi.OptionalDecl("NUMBER", IntType, Integer(1234), [])],
                                        map[], vars, acronyms, true);
      var s := StubAll(map[c := built.0], [], [StubCall(c, "number", Integer(4321))]);
      built.1 == Pass && s.2 == Pass && c in s.0 &&
      Lookup(s.0[c], "number", vars, invoke) == Ok(Integer(4321)) &&
      Targets(s.1) <= s.0.Keys && Unwind(s.1, s.0) == (map[c := built.0], [], Pass) &&
      Lookup(built.0, "number", vars, invoke) == Ok(Integer(1234))
  {
    IndexApi.OptionalNumberExample(vars, acronyms, true);
    var built := IndexApi.Build([IndexApi.OptionalDecl("NUMBER", IntType, Integer(1234), [])],
                                map[], vars, acronyms, true);
    StubbableEnvRoundTrip(c, [IndexApi.OptionalDecl("NUMBER", IntType, Integer(1234), [])], vars,
                          acronyms, "number", Integer(4321), invoke);
  }
}
