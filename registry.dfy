/**
 * The UIAPP mediator: a closure-held store `components` from component name
 * to instance, with `add`, `remove`, `get`, `has` and `notify`. The store is
 * a map; `order` is the order in which a for-in loop visits its keys, which
 * for the names used here is insertion order.
 */
module Mediator {
  import opened JsValues
  import opened Broadcast

  /** What `add` does: store the factory's result, or throw. */
  datatype AddResult =
    | Stored                    // the factory was called once and its result stored
    | FactoryThrew(error: Value) // the factory was called once and threw; nothing stored
    | NameConflict(message: string) // thrown before the factory is called

  function ConflictMessage(name: string): string {
    "Mediator name conflict: " + name
  }

  predicate Distinct(s: seq<string>) {
    forall i, j :: 0 <= i < j < |s| ==> s[i] != s[j]
  }

  /** `s` with `x` taken out, the rest in the same order. */
  function Without(s: seq<string>, x: string): (r: seq<string>)
    ensures x !in r
    ensures forall y :: y != x ==> (y in r <==> y in s)
    ensures x !in s ==> r == s
    ensures Distinct(s) ==> Distinct(r)
  {
    if s == [] then []
    else if s[0] == x then Without(s[1..], x)
    else
      var tail := Without(s[1..], x);
      assert Distinct(s) ==> s[0] !in s[1..];
      [s[0]] + tail
  }

  /**
   * In an order of unique names, deleting the name at position `i` cuts out
   * that one position: the other names keep their relative order.
   */
  lemma {:induction false} WithoutCutsOut(s: seq<string>, x: string, i: nat)
    requires Distinct(s) && i < |s| && s[i] == x
    ensures Without(s, x) == s[..i] + s[i + 1..]
  {
    var t := s[1..];
    assert Distinct(t) by {
      forall a, b | 0 <= a < b < |t|
        ensures t[a] != t[b]
      {
        assert t[a] == s[a + 1] && t[b] == s[b + 1];
      }
    }
    if i > 0 {
      assert s[0] != x;
      WithoutCutsOut(t, x, i - 1);
      assert Without(s, x) == [s[0]] + (t[..i - 1] + t[i..]);
      assert s[..i] == [s[0]] + t[..i - 1];
      assert s[i + 1..] == t[i..];
    } else {
      assert x !in t;
      assert s[..i] + s[i + 1..] == t;
    }
  }

  class Registry {
    var order: seq<string>
    var components: map<string, Value>

    /** Names are unique, and `order` lists exactly the stored names. */
    ghost predicate Valid()
      reads this
    {
      && Distinct(order)
      && Covers(order, components)
      && forall n :: n in components ==> n in order
    }

    constructor ()
      ensures Valid() && order == [] && components == map[]
    {
      order := [];
      components := map[];
    }

    /** `contains(name)`: whether a component is registered under `name`. */
    function Has(name: string): (r: bool)
      reads this
      requires Valid()
      ensures r <==> name in order
    {
      name in components
    }

    /** `getComponent(name)`: the stored instance, or `undefined` when there is none. */
    function Get(name: string): (r: Value)
      reads this
      requires Valid()
      ensures name !in order ==> r == Undefined
      ensures name in order ==> name in components && r == components[name]
    {
      if name in components then components[name] else Undefined
    }

    /** `removeComponent(name)`: delete the entry if there is one. */
    method Remove(name: string)
      requires Valid()
      modifies this
      ensures Valid()
      ensures !Has(name)
      ensures components == old(components) - {name}
      ensures order == Without(old(order), name)
      ensures name !in old(components) ==> components == old(components) && order == old(order)
    {
      if name in components {
        components := components - {name};
        order := Without(order, name);
        forall i | 0 <= i < |order|
          ensures order[i] in components
        {
          assert order[i] in order;
        }
      }
    }

    /**
     * `addComponent(name, factory, replaceDuplicate)`. The factory is given
     * by the outcome of calling it. On a duplicate name without
     * `replaceDuplicate` nothing changes and the factory is not called;
     * otherwise any previous entry is removed first, then the factory is
     * called once, so a throwing factory leaves the name unregistered.
     */
    method Add(name: string, factory: Outcome, replaceDuplicate: bool) returns (r: AddResult)
      requires Valid()
      modifies this
      ensures Valid()
      ensures name in old(components) && !replaceDuplicate ==>
                r == NameConflict(ConflictMessage(name)) && components == old(components) && order == old(order)
      ensures (name !in old(components) || replaceDuplicate) && factory.Returns? ==>
                && r == Stored
                && components == (old(components) - {name})[name := factory.result]
                && order == Without(old(order), name) + [name]
                && Has(name) && Get(name) == factory.result
      ensures (name !in old(components) || replaceDuplicate) && factory.Throws? ==>
                && r == FactoryThrew(factory.error)
                && components == old(components) - {name}
                && order == Without(old(order), name)
                && !Has(name)
      ensures name !in old(components) && factory.Returns? ==>
                order == old(order) + [name] && components == old(components)[name := factory.result]
    {
      if name in components {
        if replaceDuplicate {
          Remove(name);
        } else {
          return NameConflict(ConflictMessage(name));
        }
      }
      assert name !in components && name !in order;
      assert order == Without(old(order), name) && components == old(components) - {name};
      match factory
      case Returns(v) =>
        Store(name, v);
        r := Stored;
      case Throws(e) =>
        r := FactoryThrew(e);
    }

    /** `components[name] = instance` for a name not yet registered: appended to the iteration order. */
    method Store(name: string, instance: Value)
      requires Valid() && !Has(name)
      modifies this
      ensures Valid()
      ensures components == old(components)[name := instance]
      ensures order == old(order) + [name]
    {
      components := components[name := instance];
      order := order + [name];
    }

    /**
     * `notify(event, args, source)`: return at once on a falsy event name,
     * default the argument list, then run the broadcast loop.
     */
    method Notify(event: Option<string>, args: Option<seq<Value>>, source: Value) returns (run: Run)
      requires Valid()
      ensures run == Notification(order, components, event, args, source)
    {
      if !EventTruthy(event) {
        return Run([], Normal);
      }
      run := Deliver("on" + event.value, ArgList(args), source);
    }

    /**
     * The for-in loop of `notify`: call `key` on each component having it as
     * a function, inside a try/catch that logs and moves on, with the outer
     * `source` variable reassigned to `source || component` before each call.
     */
    method Deliver(key: string, argv: seq<Value>, source: Value) returns (run: Run)
      requires Valid()
      ensures run == Dispatch(order, components, key, argv, source)
    {
      var src := source;
      var trace: seq<Step> := [];
      var i := 0;
      while i < |order|
        invariant 0 <= i <= |order|
        invariant var rest := Dispatch(order[i..], components, key, argv, src);
                  Dispatch(order, components, key, argv, source) == Run(trace + rest.trace, rest.completion)
      {
        var c := order[i];
        var inst := components[c];
        assert order[i..][1..] == order[i + 1..];
        if Nullish(inst) {
          return Run(trace, TypeError);
        }
        var prop := Property(inst, key);
        if prop.Function? {
          ghost var before, was := trace, src;
          src := if Truthy(src) then src else inst;
          trace := trace + [Invoke(c, src, argv)];
          if prop.outcome.Throws? {
            trace := trace + [Log(prop.outcome.error)];
          }
          ghost var effects := Effects(c, src, argv, prop.outcome);
          ghost var rest := Dispatch(order[i + 1..], components, key, argv, src);
          assert trace == before + effects;
          assert Dispatch(order[i..], components, key, argv, was) == Run(effects + rest.trace, rest.completion);
          assert before + (effects + rest.trace) == trace + rest.trace;
        }
        i := i + 1;
      }
      assert order[i..] == [];
      run := Run(trace, Normal);
    }
  }

  /** Over a registry of unique names, a broadcast calls each component at most once. */
  lemma EachComponentCalledOnce(order: seq<string>, store: map<string, Value>, event: Option<string>,
                                args: Option<seq<Value>>, source: Value)
    requires Covers(order, store) && Distinct(order)
    ensures Distinct(InvokedNames(Notification(order, store, event, args, source).trace))
  {
    if EventTruthy(event) {
      var k := FirstNullish(order, store);
      assert Covers(order[..k], store);
      MatchingIsDistinct(order[..k], store, "on" + event.value);
    }
  }

  /** Over a list of unique names, the matching names are unique. */
  lemma {:induction false} MatchingIsDistinct(order: seq<string>, store: map<string, Value>, key: string)
    requires Covers(order, store) && Distinct(order)
    ensures Distinct(Matching(order, store, key))
  {
    if order != [] {
      assert Distinct(order[1..]);
      MatchingIsDistinct(order[1..], store, key);
      assert order[0] !in order[1..];
    }
  }

  // ---------------------------------------------------------------------
  // Scenarios: sequences of calls as a page would make them

  /** A second `add` of a name keeps the first instance; with `replaceDuplicate` it swaps it. */
  method ConflictThenReplace(name: string, first: Value, second: Value)
    returns (conflict: AddResult, kept: Value, replaced: AddResult, current: Value)
    ensures conflict == NameConflict(ConflictMessage(name)) && kept == first
    ensures replaced == Stored && current == second
  {
    var reg := new Registry();
    var _ := reg.Add(name, Returns(first), false);
    conflict := reg.Add(name, Returns(second), false);
    kept := reg.Get(name);
    replaced := reg.Add(name, Returns(second), true);
    current := reg.Get(name);
  }

  /** Replacing with a factory that throws leaves the name unregistered. */
  method ThrowingReplacement(name: string, first: Value, error: Value)
    returns (r: AddResult, present: bool, got: Value)
    ensures r == FactoryThrew(error) && !present && got == Undefined
  {
    var reg := new Registry();
    var _ := reg.Add(name, Returns(first), false);
    r := reg.Add(name, Throws(error), true);
    present := reg.Has(name);
    got := reg.Get(name);
  }

  /** `remove` of a present name unregisters it; removing it again changes nothing. */
  method RemoveTwice(name: string, other: string, v: Value, w: Value)
    returns (gone: bool, otherKept: Value)
    requires name != other
    ensures !gone && otherKept == w
  {
    var reg := new Registry();
    var _ := reg.Add(name, Returns(v), false);
    var _ := reg.Add(other, Returns(w), false);
    reg.Remove(name);
    reg.Remove(name);
    gone := reg.Has(name);
    otherKept := reg.Get(other);
  }

  /**
   * Components A, B and C all define `onInit`; B's throws. `notify('Init')`
   * calls all three once, logs B's error and returns normally; with no
   * `source`, A is `this` for every call.
   */
  method InitWithFailingComponent(error: Value) returns (run: Run, a: Value)
    ensures a.Object?
    ensures run == Run([Invoke("A", a, []), Invoke("B", a, []), Log(error), Invoke("C", a, [])], Normal)
  {
    a := Object(1, map["onInit" := Function(11, Returns(Undefined))]);
    var b := Object(2, map["onInit" := Function(12, Throws(error))]);
    var c := Object(3, map["onInit" := Function(13, Returns(Undefined))]);
    var reg := RegisterThree(a, b, c);
    InitDispatch(a, b, c, error);
    assert "on" + "Init" == "onInit";
    run := reg.Notify(Some("Init"), None, Undefined);
  }

  /** Registers `a`, `b` and `c` under "A", "B" and "C", in that order, in a fresh registry. */
  method RegisterThree(a: Value, b: Value, c: Value) returns (reg: Registry)
    ensures fresh(reg) && reg.Valid()
    ensures reg.order == ["A", "B", "C"] && reg.components == map["A" := a, "B" := b, "C" := c]
  {
    reg := new Registry();
    var _ := reg.Add("A", Returns(a), false);
    var _ := reg.Add("B", Returns(b), false);
    var _ := reg.Add("C", Returns(c), false);
  }

  /** The broadcast of `InitWithFailingComponent`. */
  lemma InitDispatch(a: Value, b: Value, c: Value, error: Value)
    requires a == Object(1, map["onInit" := Function(11, Returns(Undefined))])
    requires b == Object(2, map["onInit" := Function(12, Throws(error))])
    requires c == Object(3, map["onInit" := Function(13, Returns(Undefined))])
    ensures Dispatch(["A", "B", "C"], map["A" := a, "B" := b, "C" := c], "onInit", [], Undefined)
         == Run([Invoke("A", a, []), Invoke("B", a, []), Log(error), Invoke("C", a, [])], Normal)
  {
  }
}
