# EventBus and IVec2 in Dafny

This project models two parts of a small C++ game-utility library and proves properties of them.

**The deferred publish/subscribe `EventBus`.**
- The bus maps an event name to a registry (`eventMetaData`).
- Each registry holds a counter `index` and a table from index to listener. A listener is a `loop` flag (persistent or one-shot) plus an action.
- The bus also keeps a queue of fired names.
- Registering a listener stores it under the registry's counter and then bumps the counter.
- `fireEvent` only queues the name. `tick` drains the queue in order, and `fireEventForce` dispatches at once.
- Dispatching a registry invokes every listener once and then drops the one-shot ones. A registry left empty is evicted from the bus.

**`IVec2`, the `int` instantiation of the 2-D vector template, and the integer helpers `math::clamp` and `invert`.**

Files:
- `math.dfy` (module `Math`): `math::clamp` and `invert` at `int`.
- `vec_base.dfy` (module `VecBase`): the pure vector operators are functions on the datatype `Vec2`. The operators that change a vector in place (`+=`, `-=`, `*=`, `/=`, `++`, `--`) are methods of the class `IVec2`, whose fields are `x` and `y`.
- `event_model.dfy` (module `EventModel`): the value-level meaning of the bus. It defines:
  - what registering (`Register`, `PlainAdd`), dispatching (`Kept`, `Dispatch`, `Fire`) and ticking (`TickState`) do to the map from names to registries;
  - how often a tick invokes each listener (`Times`);
  - what a dispatch pass must invoke (`InvokedOnce`, `TickPasses`);
  - the lemmas about all of these.
- `event_bus.dfy` (module `EventBus`): the classes `EventMetaData` and `EventBus`. Their methods are proved against the functions of `EventModel`.

Modelling decisions:
- **Actions are opaque numbers.** Invoking a listener is recorded as a `Call(event, key, action)`. Each dispatch returns the calls it made as a ghost sequence, and the bus appends them to its ghost `trace`.
- **Dispatch order is unspecified.** The C++ iterates an `unordered_map`, so `CallAllFunctions` picks the next key nondeterministically (`:|`). Its contract talks about the set of keys, not an order.
- **One-shot entries are erased after the traversal.** `callAllFunctions` erases from the map it is iterating, which is undefined behaviour in C++. The model invokes every listener and then keeps exactly the persistent ones, which is the evident intent.
- **`tick` works on a snapshot.** It iterates the queue as it stood on entry and then clears the queue.
- **The bus holds registries by value.** The C++ `unordered_map<string, eventMetaData>` stores each registry by value. So `EventBus.eventListeners` is a `map<string, Meta>`, where `Meta` is the registry's value. To update one registry in place, the model copies it into an `EventMetaData` (the implicit copy constructor, `EventMetaData.Copy`), runs the method on it, and stores the result back. Nothing else refers to the registry, so this is the same as updating it through the reference `find`/`at` returns.
- **Integers are unbounded.** C++ `/` on `int` truncates toward zero, and `TruncDiv` models that explicitly.

**Re-registration under an existing name.** A listener registered under a name that already has listeners is meant to join them. The template `addEventListener` overloads do this: they go through `pushBackEventListener`, which appends. The non-template overload (`EventBus/EventBus.cpp:10`) uses `map::insert` instead. `insert` keeps the existing entry, so the new listener is silently discarded. The model follows the code: `EventBus.AddEventListener` is specified by `PlainAdd`, and the discrepancy is listed under Findings.

## Model

| member | source | states |
|---|---|---|
| Math.Clamp | VectorBase/math.h:137-141 | for `min <= max` the result lies in `[min, max]`, and it equals `value` exactly when `value` is in range; the result is always one of `value`, `min`, `max` |
| Math.ClampInvertedBounds | VectorBase/math.h:140 | with `max < min` the lower bound is tested first: values below `min` give `min`, every other value gives `max` |
| Math.ClampIdempotent | VectorBase/math.h:140 | clamping an already clamped value into non-empty bounds changes nothing |
| Math.ClampMonotone | VectorBase/math.h:140 | for non-empty bounds clamping preserves `<=` |
| Math.Invert | VectorBase/math.h:189-193 | the result added back to `operatingValue` gives `from`; the by-reference argument is only read |
| VecBase.Equal | VectorBase/VecBase.h:33-36 | `==` holds iff both components are equal |
| VecBase.LessIsStrictOrder | VectorBase/VecBase.h:43-51 | component-wise `<` is irreflexive, asymmetric and transitive, and `>` is its converse |
| VecBase.LessEqIsPartialOrder | VectorBase/VecBase.h:48-61 | component-wise `<=` is reflexive, antisymmetric and transitive, `>=` is its converse, and `<` implies `<=` without equality |
| VecBase.OrdersAreNotTotal | VectorBase/VecBase.h:43-61 | `(0,1)` and `(1,0)` are incomparable under `<`, `<=` and `>=` |
| VecBase.AddGroup | VectorBase/VecBase.h:64-67 | vector `+` is commutative and associative, has `(0,0)` as identity, is undone by `-`, and `a - b == a + (-b)` |
| VecBase.Sub | VectorBase/VecBase.h:74-77 | `(a - b) + b == a` |
| VecBase.Scale | VectorBase/VecBase.h:88-91 | scalar `*` is component-wise `*` by `(s, s)` |
| VecBase.ScaleDistributes | VectorBase/VecBase.h:84-91 | scalar `*` distributes over `+`; scaling by `-1` negates and by `1` is the identity |
| VecBase.AddScalar | VectorBase/VecBase.h:153-156 | scalar `+` adds `(s, s)` |
| VecBase.SubScalar | VectorBase/VecBase.h:158-161 | scalar `-` is undone by scalar `+` of the same scalar |
| VecBase.Neg | VectorBase/VecBase.h:258-261 | unary `-` is the additive inverse |
| VecBase.TruncDiv | VectorBase/VecBase.h:104-111 | C++ integer division: the remainder is smaller in magnitude than the divisor and has the dividend's sign (truncation toward zero) |
| VecBase.TruncDivExact | VectorBase/VecBase.h:104-111 | dividing `m * b` by `b` gives back `m` |
| VecBase.Div | VectorBase/VecBase.h:104-107 | component-wise `/` by non-zero components, truncating toward zero: per component the remainder is smaller in magnitude than the divisor and has the dividend's sign |
| VecBase.DivScalar | VectorBase/VecBase.h:108-111 | scalar `/` is component-wise `/` by `(s, s)` |
| VecBase.DivUndoesMul | VectorBase/VecBase.h:84-111 | `/` undoes `*`, both the vector and the scalar forms |
| VecBase.Caret | VectorBase/VecBase.h:118-123 | `^` returns the vector unchanged, because the XOR results are discarded |
| VecBase.MagnitudeSquared | VectorBase/VecBase.h:253-256 | non-negative, and zero exactly for the zero vector |
| VecBase.Perpendicular | VectorBase/VecBase.h:243-246 | the result is orthogonal to the input and has the same squared magnitude |
| VecBase.PerpendicularIsCounterClockwise | VectorBase/VecBase.h:243-246 | the quarter turn is counter-clockwise: the cross product of a vector with its perpendicular is its squared magnitude |
| VecBase.PerpendicularTwice | VectorBase/VecBase.h:243-246 | two quarter turns negate the vector |
| VecBase.DotProductProperties | VectorBase/VecBase.h:164-167 | the dot product is symmetric and `a . a` is the squared magnitude |
| VecBase.CrossProduct | VectorBase/VecBase.h:169-172 | the cross product is the dot product with the first vector turned a quarter |
| VecBase.CrossProductProperties | VectorBase/VecBase.h:169-172 | the cross product is antisymmetric and vanishes on equal vectors |
| VecBase.LagrangeIdentity | VectorBase/VecBase.h:164-172 | the squared dot product plus the squared cross product equals the product of the squared magnitudes |
| VecBase.DistanceSquared | VectorBase/VecBase.h:263-268 | the squared magnitude of `other - a`: non-negative, and zero exactly when the vectors are equal |
| VecBase.DistanceSquaredSymmetric | VectorBase/VecBase.h:263-268 | the squared distance does not depend on argument order |
| VecBase.IsOrthogonal | VectorBase/VecBase.h:293-296 | holds iff the dot product is zero, and then the squared cross product equals the product of the squared magnitudes |
| VecBase.ClampVec | VectorBase/VecBase.h:270-275 | `math::clamp` per component: each component is `Math.Clamp` of that component between the bounds' components, for any bounds; for component-wise ordered bounds the result lies between them, and equals the input exactly when the input already does |
| VecBase.IVec2.constructor | VectorBase/VecBase.h:22-26 | the new vector holds the given components |
| VecBase.IVec2.AddAssign | VectorBase/VecBase.h:69-72 | `+=` adds in place and returns the updated value |
| VecBase.IVec2.SubAssign | VectorBase/VecBase.h:79-82 | `-=` subtracts in place and returns the updated value |
| VecBase.IVec2.MulAssign | VectorBase/VecBase.h:93-96 | vector `*=` multiplies in place and returns the updated value |
| VecBase.IVec2.ScaleAssign | VectorBase/VecBase.h:97-102 | scalar `*=` scales both fields in place and returns `*this` |
| VecBase.IVec2.DivAssign | VectorBase/VecBase.h:113-116 | `/=` divides in place (truncating) and returns the updated value |
| VecBase.IVec2.Increment | VectorBase/VecBase.h:125-130 | prefix `++` increments both fields and returns `*this` |
| VecBase.IVec2.PostIncrement | VectorBase/VecBase.h:132-137 | postfix `++` returns the old value and leaves the vector incremented |
| VecBase.IVec2.Decrement | VectorBase/VecBase.h:139-144 | prefix `--` decrements both fields and returns `*this` |
| VecBase.IVec2.PostDecrement | VectorBase/VecBase.h:146-151 | postfix `--` returns the old value and leaves the vector decremented |
| EventModel.NewMetaSingle | EventBus/EventBus.h:76-80 | a new registry holds exactly one listener, under key 0, and its counter is 1 |
| EventModel.AppendFresh | EventBus/EventBus.h:111-124 | `addFunct` stores under a key not in use, every key stays below the counter, the table grows by one, and existing entries are kept |
| EventModel.RegisterSpec | EventBus/EventBus.cpp:29-44 | registration keeps every registry non-empty with keys below its counter; it creates a one-listener registry for a new name, or appends under a fresh key; other names are untouched |
| EventModel.PlainAddSpec | EventBus/EventBus.cpp:6-11 | the plain overload keeps the invariant; it creates the one-listener registry for a new name and changes nothing for a present name |
| EventModel.PlainAddDropsListener | EventBus/EventBus.cpp:10 | on a present name the plain overload leaves the map as it was, while `pushBackEventListener` would have grown that registry by one |
| EventModel.Kept | EventBus/EventBus.h:86-95 | the listeners left after a dispatch are exactly the persistent ones, with the same keys and listeners |
| EventModel.FireSpec | EventBus/EventBus.h:150-171 | dispatch keeps the invariant; an absent name changes nothing; the name survives iff it has a persistent listener, and then keeps exactly those under the same counter; other names are untouched |
| EventModel.FireNoNewListeners | EventBus/EventBus.h:150-171 | a dispatch adds no listener to any name |
| EventModel.TickPreservesWellFormed | EventBus/EventBus.cpp:14-26 | draining any queue keeps every registry non-empty with keys below its counter |
| EventModel.TickSkipsUnknownNames | EventBus/EventBus.cpp:17-21 | queued names without a registry are skipped, and nothing is invoked |
| EventModel.TickNoNewListeners | EventBus/EventBus.cpp:17-21 | a listener pending part-way through a tick was registered, unchanged, at its start |
| EventModel.UnregisteredNeverFires | EventBus/EventBus.cpp:17-21 | a listener absent at the start of a tick is never invoked by it |
| EventModel.PersistentSurvives | EventBus/EventBus.cpp:17-21 | a persistent listener is still registered, unchanged, after any tick |
| EventModel.PersistentFiresPerOccurrence | EventBus/EventBus.cpp:17-21 | a persistent listener is invoked once per occurrence of its name in the queue |
| EventModel.OneShotGoneAfterDispatch | EventBus/EventBus.cpp:17-21 | a one-shot listener is still registered iff its name has not yet been dispatched |
| EventModel.OneShotFiresOnce | EventBus/EventBus.cpp:17-21 | a one-shot listener is invoked exactly once by a tick whose queue holds its name, however often, never otherwise, and is gone afterwards |
| EventModel.InvokedOnceCounts | EventBus/EventBus.h:86-89 | a dispatch pass invokes each pending listener exactly once and nothing else |
| EventModel.TickPassesExtend | EventBus/EventBus.cpp:17-21 | dispatching the next queued name extends the recorded passes and the tick state by one step |
| EventModel.TickCounts | EventBus/EventBus.cpp:17-21 | the passes recorded by a tick invoke each listener exactly `Times` times |
| EventBus.EventMetaData.constructor | EventBus/EventBus.h:76-80 | the new registry holds the one listener under key 0, with counter 1 |
| EventBus.EventMetaData.Copy | EventBus/EventBus.h:129-131 | the copy has the same counter and table |
| EventBus.EventMetaData.AddFunct | EventBus/EventBus.h:111-124 | stores the listener under the old counter, which was not in use, then increments the counter |
| EventBus.EventMetaData.CallAllFunctions | EventBus/EventBus.h:83-109 | invokes every listener present on entry exactly once; afterwards exactly the persistent ones remain and the counter is unchanged; returns true iff a listener remains |
| EventBus.EraseOneShots | EventBus/EventBus.h:91-95 | erasing exactly the one-shot keys leaves the persistent listeners |
| EventBus.EventBus.constructor | EventBus/EventBus.h:12 | a new bus has no registries, an empty queue and an empty trace |
| EventBus.EventBus.AddEventListener | EventBus/EventBus.cpp:6-11 | the map becomes `PlainAdd` of the old map: a new name gets a one-listener registry, and a present name is left as it was |
| EventBus.EventBus.PushBackEventListener | EventBus/EventBus.cpp:29-44 | the map becomes `Register` of the old map, and the bus invariant is kept |
| EventBus.EventBus.FireEvent | EventBus/EventBus.h:54-57 | the name is appended to the queue; the registries and the trace are untouched |
| EventBus.EventBus.SearchForEventAndFire | EventBus/EventBus.h:150-171 | the map becomes `Fire` of the old map; the pass invokes exactly the name's registered listeners once each and is appended to the trace; the queue is untouched |
| EventBus.EventBus.FireEventForce | EventBus/EventBus.h:61-64 | the same dispatch as `SearchForEventAndFire`, immediately; the queue is left as it is |
| EventBus.EventBus.Tick | EventBus/EventBus.cpp:14-26 | dispatches the queue as it stood on entry, in order, once per occurrence (`TickState`, `TickPasses`); the trace grows by those passes, which invoke each listener exactly `Times` times; the queue ends empty and the invariant is kept |

## Left out

- Listener bodies: closures, bound instance pointers and argument packs (`EventBus/EventBus.h:15-48`) are reduced to an opaque action number. What a listener does when invoked is not modelled, so neither is a listener that calls `fireEvent` or `addEventListener` while the bus is dispatching.
- The template `addEventListener` overloads (`EventBus/EventBus.h:15-48`) are not separate members: each builds the closure and calls `pushBackEventListener`, which is `EventBus.PushBackEventListener`. Their unused `emd` locals have no effect.
- `rehash` (`EventBus/EventBus.h:99`) has no observable effect and is not modelled.
- Iterator invalidation: erasing during the traversal in `callAllFunctions`, and a `tick` queue that grows while it is iterated, are undefined behaviour in C++. The model uses erase-after-traversal and a snapshot of the queue instead.
- Integer width: `int` and `size_t` are unbounded here. Overflow of the vector operators, and wrap-around of the registry counter, are not modelled.
- The floating-point, SIMD and `sqrt`-based functions are not modelled: `Magnitude`, `Normalize`, `Distance`, `Angle`, `AngleBetween`, `Project`, `rotate`, `lerp`, `abs`, `SqrtSIMD`, `AcosSIMD`, `AbsSIMD`, `SinNonSIMD`, `CosNonSIMD` and `mapValue`.
- `operator!=` (`VectorBase/VecBase.h:38-41`) compares a pointer with a reference and does not compile at `int`, so it is not modelled.
- `Hash` (`VectorBase/VecBase.h:305-313`) depends on `std::hash`, so it is not modelled. `operator int` (`VectorBase/VecBase.h:28-31`, the product `x * y`) is a conversion outside the modelled operators, so it is not modelled either.
- The `UVec2`, `DVec2` and `FVec2` instantiations and the converting constructor are not modelled; only `IVec2` is.
- `DotProduct`, vector `+` (`Add`) and vector `*` (`Mul`) carry no contract of their own. The properties of `DotProduct` are stated by `DotProductProperties` and `LagrangeIdentity`. Those of `Add` are stated by `AddGroup` and `ScaleDistributes`. Those of `Mul` are stated by the ensures of `Scale` and by `DivUndoesMul`.
- Math.Invert: `OperatingValue` is passed by reference in C++; a Dafny function cannot change its argument, so "not modified" holds by construction rather than being proved.

## Findings

| source | as written | input that shows it | evidently intended | confidence | as-written member | corrected member |
|---|---|---|---|---|---|---|
| EventBus/EventBus.cpp:10 | the non-template `addEventListener` calls `map::insert`, which does nothing when the name already has a registry, so the new listener is discarded | a bus whose map already holds a registry under `e`, then `addEventListener(f, e)` | append the listener to the existing registry, as the template overloads do through `pushBackEventListener` | not executed | EventModel.PlainAddDropsListener | EventModel.RegisterSpec |
