# UIAPP mediator registry, modelled in Dafny

The page script builds one `UIAPP` object (`js/scripts.js`, lines 7-86).
It is a mediator: a private store `components` maps a component name to the
instance a factory returned. It exposes five operations:

- `add(name, factory, replaceDuplicate)` registers a component;
- `remove(name)` unregisters one;
- `get(name)` looks one up;
- `has(name)` tests whether a name is registered;
- `notify(event, args, source)` broadcasts an event. It calls the property
  `'on' + event` of every registered component where that property is a
  function. Each call runs inside its own try/catch, which logs the error and
  moves on to the next component.

The widgets of the page register through `add` and talk to each other only
through `notify` (for example `notify('Init')` on page load and
`notify('Window:resize')` on resize).

Files:

- `values.dfy` (module `JsValues`) holds the JavaScript values the registry
  sees. These are `undefined`, `null`, primitives (only their truthiness is
  kept), objects (a heap reference and own properties) and functions (a heap
  reference and the `Outcome` of calling them: return a value or throw one).
- `broadcast.dfy` (module `Broadcast`) holds the broadcast as a pure function
  `Notification`/`Dispatch` over the iteration order and the store. It yields
  a `Run`: a trace of `Invoke(component, this, args)` and `Log(error)` steps,
  and a completion (`Normal` or `TypeError`). Lemmas about the trace sit
  beside it.
- `registry.dfy` (module `Mediator`) holds the class `Registry`. Its fields
  are `components` (a map from name to instance) and `order` (the for-in
  iteration order, which is insertion order here). `Add` and `Remove` change
  them in place. `Has` and `Get` are reads. `Notify` checks the event name
  and defaults the arguments. `Deliver` is the for-in loop, proved equal to
  `Dispatch`, so `Notify` equals `Notification`. The file ends with scenarios that chain
  these calls.

Behaviour of the code that a reader of a mediator might not expect:

- Context binding. `source = source || components[c]` assigns to the variable
  outside the loop. With no truthy `source`, the FIRST component that has the
  handler becomes `this` for its own call and for every later call of the same
  broadcast. One might expect each handler to run on its own component; it
  does not (`DispatchAdoptsFirstMatch`, `InitWithFailingComponent`).
- `notify` can throw. The property read `components[c]['on' + event]` sits
  outside the try. A factory that returned `undefined` or `null` therefore
  makes every later truthy `notify` throw a TypeError when the loop reaches
  that entry (`NotificationAbortsOnNullish`). "notify never throws" holds
  exactly when no stored instance is nullish (`DispatchShape`).
- The log entry holds only the error (`'Error: ' + err`); the event name is
  not logged.
- `get` yields `undefined` both for a missing name and for a name whose
  factory returned `undefined`. Only `has` tells the two apart.
- A replacing `add` deletes the old entry before it calls the factory. A
  throwing factory therefore leaves the name unregistered, and a successful
  replacement moves the name to the end of the iteration order.

## Model

| member | source | states |
|---|---|---|
| `JsValues.HasMethod` | js/scripts.js:24 | the `typeof … === 'function'` test can hold only for an object that has the key as an own function property, and such an object is truthy (so it can serve as `source`) |
| `Broadcast.Dispatch` | js/scripts.js:23-32 | the loop body: every handler call receives the same argument list, and a truthy `source` stays `this` for every call |
| `Broadcast.Notification` | js/scripts.js:18-33 | the whole of `notify`: with an absent or empty event name it calls nothing, logs nothing and returns; otherwise it calls exactly the components having `'on' + event` as a function that come before the first nullish instance, in order, logs exactly the errors they throw, returns normally if and only if no instance is nullish, passes every call `args` (or `[]` when absent), and keeps a truthy `source` as `this` |
| `Broadcast.FirstNullish` | js/scripts.js:23-24 | the position where the loop would read a property of `undefined`/`null`: every earlier instance is non-nullish and the one there is nullish |
| `Broadcast.Matching` | js/scripts.js:23-24 | the components visited that have a function under the handler name: every one it lists has one, and every visited component that has one is listed |
| `Broadcast.DispatchShape` | js/scripts.js:23-32 | the broadcast calls exactly the matching handlers before the first nullish instance, in order, whatever earlier handlers threw; it logs exactly the errors they threw; it returns normally if and only if no instance is nullish |
| `Broadcast.DispatchAdoptsFirstMatch` | js/scripts.js:26-27 | with a falsy `source`, every handler call runs with the first matching component as `this` |
| `Broadcast.NotificationIsolatesFailures` | js/scripts.js:18-33 | for a truthy event over non-nullish instances, notify returns normally, calls `'on' + event` on exactly the components having it as a function, and logs every thrown error |
| `Broadcast.NotificationAbortsOnNullish` | js/scripts.js:23-24 | a stored nullish instance makes notify end in a TypeError, after calling only the matching handlers before it |
| `Broadcast.NotificationBinding` | js/scripts.js:22-27 | each call gets `args` (or `[]`), and runs with `source` as `this` if truthy, else with the first matching component |
| `Mediator.Without` | js/scripts.js:56 | deleting a key removes exactly it from the iteration order, keeps every other name, and keeps names unique; an order without it is unchanged |
| `Mediator.WithoutCutsOut` | js/scripts.js:56 | in an order of unique names, deleting a key cuts out exactly its position; the other names keep their relative order |
| `Mediator.EachComponentCalledOnce` | js/scripts.js:23-32 | over a registry of unique names, the trace of a broadcast calls no component twice |
| `Mediator.Registry.constructor` | js/scripts.js:12 | the store starts empty |
| `Mediator.Registry.Has` | js/scripts.js:74-76 | a name is registered exactly when it is in the iteration order `order` |
| `Mediator.Registry.Get` | js/scripts.js:65-67 | for a name in the iteration order, yields its stored instance; for any other name, `undefined`; reads only |
| `Mediator.Registry.Remove` | js/scripts.js:54-58 | afterwards the name is absent, only its entry is gone, and on an absent name nothing changes |
| `Mediator.Registry.Store` | js/scripts.js:47 | assigning a new name stores the instance and appends the name to the iteration order |
| `Mediator.Registry.Add` | js/scripts.js:39-48 | on a duplicate without `replaceDuplicate`: the conflict error `"Mediator name conflict: " + name`, registry unchanged, factory not called; otherwise the old entry is removed, then the factory is called once: its result is stored as `get(name)` at the end of the order, or, if it throws, the name is left absent; other entries never change |
| `Mediator.Registry.Notify` | js/scripts.js:18-33 | `notify` yields the same trace and completion as `Notification` over the current registry (so all of `Notification`'s guarantees hold of it), and changes no state |
| `Mediator.Registry.Deliver` | js/scripts.js:23-32 | the for-in loop, with its per-handler try/catch and the reassigned `source`, yields exactly `Dispatch` over the current iteration order and store |
| `Mediator.ConflictThenReplace` | js/scripts.js:39-48 | a second `add` of a name fails with the conflict error and keeps the first instance; a replacing `add` makes `get` return the new one |
| `Mediator.ThrowingReplacement` | js/scripts.js:40-47 | a replacing `add` whose factory throws reports that error, and leaves `has` false and `get` undefined |
| `Mediator.RemoveTwice` | js/scripts.js:54-58 | removing a name twice leaves it absent and another component untouched |
| `Mediator.InitWithFailingComponent` | js/scripts.js:18-33 | with A, B (throwing) and C all defining `onInit`, `notify('Init')` calls A, B and C once each, logs B's error, returns normally, and runs all three with A as `this` |

## Left out

- The widgets `utils`, `styleScroll`, `sidebarCollapse`, `sideMenu`, `dataTables`, `sidePanels`, `searchTool` and `dropdown` (js/scripts.js:92-479). They are DOM and third-party library glue that only use the registry.
- `utils.debounce` and `utils.getScrollBarSize`: these depend on host timers and DOM layout.
- The `DOMContentLoaded` and `resize` listeners (js/scripts.js:487-493). In the model they are just `Notify(Some("Init"), …)` and `Notify(Some("Window:resize"), …)` calls.
- Handlers are opaque. A handler's outcome does not depend on its `this` or arguments. A handler cannot call `notify`, `add` or `remove` re-entrantly, so the store is fixed during a broadcast.
- Prototype keys. `name in components` and `components[name]` also see inherited keys such as `toString`, so `has('toString')` is true on an empty registry. The model treats the store as having only its own keys.
- For-in order puts integer-like keys first. The model takes insertion order for every name.
- `console.log` output. The model keeps only the error value of each log entry. Converting the error to a string could itself throw (a Symbol); that is not modelled.
- Event names are modelled as absent or as a string. Other falsy values (`0`, `false`, `NaN`) count as absent, and non-string truthy values are not modelled.
- Argument lists are modelled as absent or as a sequence of values. A truthy non-array `args` would make `apply` throw inside the try; that is not modelled.
- `replaceDuplicate` is modelled by its truthiness only. A `component` argument that is not a function is modelled only as a factory that throws.
- Functions used as components, and accessor properties, are not modelled: only plain objects carry handlers.
