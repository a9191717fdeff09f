/**
 * What one `notify` broadcast does, as a function of the registry's
 * iteration order and store: which handlers it calls, with which `this`
 * and which arguments, which errors it logs, and whether it returns or
 * throws. The loop that implements `Dispatch` is
 * `Mediator.Registry.Deliver`; `Mediator.Registry.Notify` implements
 * `Notification`.
 */
module Broadcast {
  import opened JsValues

  /** One observable step of a broadcast. */
  datatype Step =
    | Invoke(component: string, self: Value, args: seq<Value>)  // a handler called as handler.apply(self, args)
    | Log(error: Value)                                        // the catch block logging a handler's error

  /** How the broadcast ends: by returning, or by a TypeError read off a nullish instance. */
  datatype Completion = Normal | TypeError

  datatype Run = Run(trace: seq<Step>, completion: Completion)

  /** Every name visited has an entry in the store. */
  predicate Covers(names: seq<string>, store: map<string, Value>) {
    forall i :: 0 <= i < |names| ==> names[i] in store
  }

  /** An event name is truthy when it is present and not the empty string. */
  predicate EventTruthy(event: Option<string>) {
    event.Some? && event.value != ""
  }

  /** `args = args || []`: an absent argument list is the empty one. */
  function ArgList(args: Option<seq<Value>>): seq<Value> {
    match args
    case None => []
    case Some(a) => a
  }

  /** The steps of calling one handler: the call, and a log entry if it throws. */
  function Effects(name: string, self: Value, args: seq<Value>, outcome: Outcome): seq<Step> {
    [Invoke(name, self, args)] + if outcome.Throws? then [Log(outcome.error)] else []
  }

  /**
   * The broadcast loop over `names` for the handler property `key`, where
   * `ctx` is the current value of the loop-external `source` variable. The
   * first matching component with a falsy `ctx` becomes `ctx` for the rest.
   */
  function Dispatch(names: seq<string>, store: map<string, Value>, key: string,
                    args: seq<Value>, ctx: Value): (r: Run)
    requires Covers(names, store)
    ensures forall s :: s in r.trace && s.Invoke? ==> s.args == args
    ensures Truthy(ctx) ==> forall s :: s in r.trace && s.Invoke? ==> s.self == ctx
    decreases |names|
  {
    if names == [] then Run([], Normal)
    else
      var inst := store[names[0]];
      if Nullish(inst) then Run([], TypeError)
      else
        var prop := Property(inst, key);
        if prop.Function? then
          var self := if Truthy(ctx) then ctx else inst;
          var rest := Dispatch(names[1..], store, key, args, self);
          Run(Effects(names[0], self, args, prop.outcome) + rest.trace, rest.completion)
        else
          Dispatch(names[1..], store, key, args, ctx)
  }

  /** `notify(event, args, source)` over a registry with iteration order `order`. */
  function Notification(order: seq<string>, store: map<string, Value>, event: Option<string>,
                        args: Option<seq<Value>>, source: Value): (r: Run)
    requires Covers(order, store)
    ensures !EventTruthy(event) ==> r.trace == [] && r.completion == Normal
    ensures EventTruthy(event) ==>
              var key := "on" + event.value;
              var k := FirstNullish(order, store);
              && InvokedNames(r.trace) == Matching(order[..k], store, key)
              && Logged(r.trace) == Thrown(order[..k], store, key)
              && (r.completion == Normal <==> k == |order|)
    ensures forall s :: s in r.trace && s.Invoke? ==> s.args == ArgList(args)
    ensures Truthy(source) ==> forall s :: s in r.trace && s.Invoke? ==> s.self == source
  {
    if !EventTruthy(event) then Run([], Normal)
    else
      DispatchShape(order, store, "on" + event.value, ArgList(args), source);
      Dispatch(order, store, "on" + event.value, ArgList(args), source)
  }

  // ---------------------------------------------------------------------
  // Reference definitions the trace is compared with

  /** Position of the first nullish instance in `names`, or |names| if there is none. */
  function FirstNullish(names: seq<string>, store: map<string, Value>): (k: nat)
    requires Covers(names, store)
    ensures k <= |names|
    ensures forall i :: 0 <= i < k ==> !Nullish(store[names[i]])
    ensures k < |names| ==> Nullish(store[names[k]])
  {
    if names == [] || Nullish(store[names[0]]) then 0
    else 1 + FirstNullish(names[1..], store)
  }

  /** The names, in order, whose instance is not nullish and has a function under `key`. */
  function Matching(names: seq<string>, store: map<string, Value>, key: string): (r: seq<string>)
    requires Covers(names, store)
    ensures forall i :: 0 <= i < |r| ==> r[i] in names
    ensures forall i :: 0 <= i < |r| ==> r[i] in store && !Nullish(store[r[i]]) && HasMethod(store[r[i]], key)
    ensures forall i :: 0 <= i < |names| && !Nullish(store[names[i]]) && HasMethod(store[names[i]], key) ==> names[i] in r
  {
    if names == [] then []
    else
      var tail := Matching(names[1..], store, key);
      assert forall i :: 1 <= i < |names| ==> names[i] == names[1..][i - 1];
      var inst := store[names[0]];
      if !Nullish(inst) && HasMethod(inst, key) then [names[0]] + tail else tail
  }

  /** The errors, in order, that the matching handlers among `names` throw. */
  function Thrown(names: seq<string>, store: map<string, Value>, key: string): seq<Value>
    requires Covers(names, store)
  {
    if names == [] then []
    else
      var inst := store[names[0]];
      var tail := Thrown(names[1..], store, key);
      if !Nullish(inst) && HasMethod(inst, key) && Property(inst, key).outcome.Throws? then
        [Property(inst, key).outcome.error] + tail
      else tail
  }

  /** The components a trace calls, in order. */
  function InvokedNames(trace: seq<Step>): seq<string> {
    if trace == [] then []
    else if trace[0].Invoke? then [trace[0].component] + InvokedNames(trace[1..])
    else InvokedNames(trace[1..])
  }

  /** The errors a trace logs, in order. */
  function Logged(trace: seq<Step>): seq<Value> {
    if trace == [] then []
    else if trace[0].Log? then [trace[0].error] + Logged(trace[1..])
    else Logged(trace[1..])
  }

  // ---------------------------------------------------------------------
  // Properties of the broadcast

  lemma {:induction false} ProjectionsDistribute(a: seq<Step>, b: seq<Step>)
    ensures InvokedNames(a + b) == InvokedNames(a) + InvokedNames(b)
    ensures Logged(a + b) == Logged(a) + Logged(b)
  {
    if a != [] {
      assert (a + b)[1..] == a[1..] + b;
      ProjectionsDistribute(a[1..], b);
    } else {
      assert a + b == b;
    }
  }

  /**
   * Failure isolation: the broadcast calls exactly the matching handlers
   * before the first nullish instance, in order, whether or not earlier
   * handlers threw; it logs exactly the errors they throw; and it returns
   * normally if and only if no instance is nullish.
   */
  lemma {:induction false} DispatchShape(names: seq<string>, store: map<string, Value>, key: string,
                                         args: seq<Value>, ctx: Value)
    requires Covers(names, store)
    ensures var r := Dispatch(names, store, key, args, ctx);
            var k := FirstNullish(names, store);
            && InvokedNames(r.trace) == Matching(names[..k], store, key)
            && Logged(r.trace) == Thrown(names[..k], store, key)
            && (r.completion == Normal <==> k == |names|)
  {
    if names != [] && !Nullish(store[names[0]]) {
      var k := FirstNullish(names, store);
      assert names[..k][1..] == names[1..][..k - 1];
      assert names[..k][0] == names[0];
      var inst := store[names[0]];
      var prop := Property(inst, key);
      if prop.Function? {
        var self := if Truthy(ctx) then ctx else inst;
        DispatchShape(names[1..], store, key, args, self);
        var rest := Dispatch(names[1..], store, key, args, self);
        ProjectionsDistribute(Effects(names[0], self, args, prop.outcome), rest.trace);
        if prop.outcome.Throws? {
          ProjectionsDistribute([Invoke(names[0], self, args)], [Log(prop.outcome.error)]);
        }
      } else {
        DispatchShape(names[1..], store, key, args, ctx);
      }
    }
  }

  /**
   * With a falsy `source`, the first component that has the handler becomes
   * `this` for its own call and for every later call of the broadcast,
   * because the loop stores it back into `source`.
   */
  lemma {:induction false} DispatchAdoptsFirstMatch(names: seq<string>, store: map<string, Value>, key: string,
                                                    args: seq<Value>, ctx: Value)
    requires Covers(names, store)
    requires !Truthy(ctx)
    ensures var r := Dispatch(names, store, key, args, ctx);
            forall s :: s in r.trace && s.Invoke? ==>
              var m := Matching(names, store, key); |m| > 0 && s.self == store[m[0]]
  {
    if names != [] && !Nullish(store[names[0]]) {
      var inst := store[names[0]];
      if HasMethod(inst, key) {
      } else {
        DispatchAdoptsFirstMatch(names[1..], store, key, args, ctx);
      }
    }
  }

  // ---------------------------------------------------------------------
  // The same properties for a whole `notify` call

  /**
   * When no registered instance is nullish and the event is truthy, notify
   * returns normally, calls `'on' + event` on exactly the components that
   * have it as a function, in iteration order, and logs each error thrown.
   */
  lemma NotificationIsolatesFailures(order: seq<string>, store: map<string, Value>, event: Option<string>,
                                     args: Option<seq<Value>>, source: Value)
    requires Covers(order, store)
    requires forall i :: 0 <= i < |order| ==> !Nullish(store[order[i]])
    requires EventTruthy(event)
    ensures var r := Notification(order, store, event, args, source);
            && r.completion == Normal
            && InvokedNames(r.trace) == Matching(order, store, "on" + event.value)
            && Logged(r.trace) == Thrown(order, store, "on" + event.value)
  {
    var k := FirstNullish(order, store);
    assert k == |order|;
    assert order[..k] == order;
    DispatchShape(order, store, "on" + event.value, ArgList(args), source);
  }

  /**
   * A stored nullish instance makes notify throw a TypeError after calling
   * only the matching handlers that come before it.
   */
  lemma NotificationAbortsOnNullish(order: seq<string>, store: map<string, Value>, event: Option<string>,
                                    args: Option<seq<Value>>, source: Value, i: nat)
    requires Covers(order, store)
    requires i < |order| && Nullish(store[order[i]])
    requires EventTruthy(event)
    ensures var r := Notification(order, store, event, args, source);
            && r.completion == TypeError
            && InvokedNames(r.trace) == Matching(order[..FirstNullish(order, store)], store, "on" + event.value)
  {
  }

  /**
   * Every handler call of a notify receives the argument list (or [] when
   * absent) and runs with `source` as `this` if it is truthy, otherwise
   * with the first component that has the handler.
   */
  lemma NotificationBinding(order: seq<string>, store: map<string, Value>, event: Option<string>,
                            args: Option<seq<Value>>, source: Value)
    requires Covers(order, store)
    requires EventTruthy(event)
    ensures var r := Notification(order, store, event, args, source);
            forall s :: s in r.trace && s.Invoke? ==>
              && s.args == ArgList(args)
              && (Truthy(source) ==> s.self == source)
              && (!Truthy(source) ==> var m := Matching(order, store, "on" + event.value);
                                      |m| > 0 && s.self == store[m[0]])
  {
    if !Truthy(source) {
      DispatchAdoptsFirstMatch(order, store, "on" + event.value, ArgList(args), source);
    }
  }
}
