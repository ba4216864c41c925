# In-process event bus: registry and dispatch, in Dafny

This project models the subscription registry and dispatch engine of a small
in-process publish/subscribe bus written in Java. The bus comes in two
independent variants, and each is its own Dafny module.

- **Reflective bus** (`ReflectedBus`, from `EventBusImpl` in
  ReflectedEventBus.java). The registry maps an event class to an ordered
  list of subscriptions. `register(object)` files each annotated one-parameter
  method whose parameter is an `Event` under that parameter's class.
  `registerHandle(class, handler)` files a callback under an explicit class.
  `post(event)` first builds `subList`: the list under the event's own class,
  then the lists under each strict supertype, in map iteration order. It
  invokes `subList`. A second loop then invokes the strict-supertype lists
  again. A final report loop reads every subscription's subscriber.
- **Basic bus** (`BasicBus`, from `BasicEventBusImpl` in BasicEventBus.java).
  The registry is a flat insertion-ordered list of (event class, subscriber)
  pairs. `subscribe` appends one pair. `unsubscribe` removes every equal pair.
  `publish` informs, in list order, every pair whose class is the event's
  class or a supertype of it.

Shared pieces, which both Java files declare identically, are modelled once:

- `EventTypes`: the class graph that replaces `isAssignableFrom`.
- `Events`: the event values and the category prefix of each news constructor.
- `Displays`: the `TextDisplay` classifiers.
- `NewsAgency`: the category switch of `publishNews`.

Rows below cite the ReflectedEventBus.java copy of the shared pieces. The
BasicEventBus.java copies are at lines 99-246 (events), 288 and 294
(classifiers) and 173-194 (`publishNews`).

Modelling choices:

- Java class tokens are the datatype `JType`. It has one constructor per
  event class, `ObjectType` as the root, and `OtherType(id)` for every class
  outside the event hierarchy. Each type has a single parent.
  `AssignableFrom(sup, sub)` holds when `sup` is `sub` or one of its
  ancestors.
- Objects, methods and callbacks are ids. A declared method is a descriptor:
  its name, whether it carries the `@Subscribe` flag, and its parameter types.
  The flag is an abstract boolean. The `Subscribe` annotation in the source has
  no runtime retention, so real reflection would never see it; the model does
  not reproduce that.
- Invoking a handler appends a `Call(subscription, threw)` to a trace. An
  oracle parameter (`throws`, `fails`) decides which invocations raise.
- The iteration order of the `HashMap` is a parameter, `keyOrder`. It must
  list every key exactly once, and both loops of `post` use it.
- `post` returns normally (`Completed`) or with one of three escaping
  exceptions. `HandlerFailure(h)`: a callback's own exception, which is not
  caught (line 86). `NullMethod(h)`: a callback under a strict supertype
  reaches the second loop, where `sub.getMethod()` is null (line 101).
  `NullSubscriber(h)`: the report loop calls `sub.getSubscriber().getClass()`
  on a callback subscription, whose subscriber is null (line 116). A failing
  bound method is caught (lines 76-79) and the loop goes on.

Behaviour of the code worth knowing:

- `post` delivers each subscription filed under a strict supertype of the
  event's class twice: once from `subList` in the first loop, and again in the
  second loop (`PostCompletesIff`, `PostDeliveryCounts`,
  `PostDeliversExactly`).
- Only failures of bound methods are caught. A callback's exception escapes
  `post` and skips the rest of it (`PostHandlerFailure`).
- Any callback among the matched subscriptions makes `post` end in an
  exception, at the latest in the report loop (`PostCompletesIff`). So the
  demo driver's first `post`, at ReflectedEventBus.java:438, does not return
  normally.
- `publish` of the basic bus walks the bus's own list, and an exception from
  `inform` is not caught (`PublishCompletesIff`).
- The culture constructor prefixes `"[Cultural] "`, not `"[Culture] "`.

## Model

| member | source | states |
|---|---|---|
| `EventTypes.AssignableFrom` | ReflectedEventBus.java:59 | every class is assignable from itself, and `Object` from every class |
| `EventTypes.StrictSupertype` | ReflectedEventBus.java:59 | a strict supertype, as the key test of `post` selects it, lies strictly closer to `Object` |
| `EventTypes.IsEventType` | ReflectedEventBus.java:37 | a class that passes `Event.class.isAssignableFrom` is neither `Object` nor a class outside the event hierarchy |
| `EventTypes.AssignableFromTransitive` | ReflectedEventBus.java:59 | assignability composes along the class graph |
| `EventTypes.AssignableFromAntisymmetric` | ReflectedEventBus.java:59 | two classes each assignable from the other are the same class |
| `EventTypes.AssignableFromDepth` | ReflectedEventBus.java:59 | a supertype is strictly closer to `Object` unless it is the type itself |
| `EventTypes.ConcreteEventIsLeaf` | ReflectedEventBus.java:187-334 | a concrete event class matches only itself, so there is no leakage between sibling categories |
| `EventTypes.NewsCategoryMatches` | ReflectedEventBus.java:290-334 | the abstract news class matches exactly itself and Sports, Political and Culture news |
| `EventTypes.StrictSupertypesOfConcrete` | ReflectedEventBus.java:59 | the strict supertypes of a concrete event class are `Object`, `Event` and, for news, `NewsEvent` |
| `Events.TypeOf` | ReflectedEventBus.java:53 | an event's runtime class is a concrete subclass of `Event`, below `NewsEvent` exactly for news |
| `Events.NewNewsEvent` | ReflectedEventBus.java:312-334 | a news constructor keeps the agency and stores its category prefix followed by the given text |
| `Events.Prefix` | ReflectedEventBus.java:316-332 | each category prefix is a bracketed tag followed by one space |
| `Events.SplitContentRoundTrip` | ReflectedEventBus.java:312-334 | the stored content gives back the category and the original text |
| `Events.PrefixesDistinguish` | ReflectedEventBus.java:316-332 | no category prefix is a prefix of another category's content |
| `Events.SplitContentSound` | ReflectedEventBus.java:312-334 | a content that splits is its category prefix followed by the text |
| `Displays.TemperatureText` | ReflectedEventBus.java:377 | "Cold " exactly below 20, "Warm " exactly from 20 |
| `Displays.WaterLevelText` | ReflectedEventBus.java:370 | "All good " exactly below 36, "Run for your lives" exactly from 36 |
| `Displays.TextDisplayReport` | BasicEventBus.java:283-297 | the display classifies temperature and water-level events and ignores news |
| `NewsAgency.ToLower` | ReflectedEventBus.java:266 | lower-casing keeps the length and maps each letter A-Z to its lower case |
| `NewsAgency.ToLowerIdempotent` | ReflectedEventBus.java:266 | lower-casing twice is lower-casing once |
| `NewsAgency.CategoryKind` | ReflectedEventBus.java:266-279 | each kind is chosen exactly when the lower-cased category is its name; anything else chooses none |
| `NewsAgency.CategoryCaseInsensitive` | ReflectedEventBus.java:266 | routing does not depend on the letter case of the category |
| `NewsAgency.PublishedNews` | ReflectedEventBus.java:261-279 | an event is posted exactly for a known category, of that category's class, from this agency, carrying the picked headline |
| `ReflectedBus.Lookup` | ReflectedEventBus.java:55 | an absent key yields the empty default list |
| `ReflectedBus.IsHandlerMethod` | ReflectedEventBus.java:34-37 | an accepted method has exactly one parameter, whose class is an event class |
| `ReflectedBus.RegisterMethods` | ReflectedEventBus.java:32-47 | `register` never removes a key or an entry: each old list is a prefix of its new list |
| `ReflectedBus.Add` | ReflectedEventBus.java:39-45 | appending creates the key if absent, appends at the end of its list and leaves every other key's list unchanged |
| `ReflectedBus.FiledUnder` | ReflectedEventBus.java:32-47 | registration files under a key one subscription per occurrence of each handler method taking that key, and none for any other method |
| `ReflectedBus.RegisterAppends` | ReflectedEventBus.java:32-47 | after `register` each key's list is its old list followed by the object's handler methods for that key, in declaration order |
| `ReflectedBus.RegisterKeys` | ReflectedEventBus.java:39-44 | `register` adds exactly the parameter classes of the handler methods as keys |
| `ReflectedBus.RegisterSelectsSignatures` | ReflectedEventBus.java:34-37 | of an annotated one-event method, an annotated two-parameter method, an annotated non-event method and an unannotated method, only the first is registered |
| `ReflectedBus.RegisterTwice` | ReflectedEventBus.java:45 | registering the same object twice files each handler method twice |
| `ReflectedBus.RegisterHandleTwice` | ReflectedEventBus.java:128 | registering the same callback twice under a key leaves two entries |
| `ReflectedBus.DeliveryList` | ReflectedEventBus.java:53-63 | `subList` starts with the whole exact-class list |
| `ReflectedBus.Step` | ReflectedEventBus.java:67-108 | one loop turn invokes at most the current subscription, recording its failure, and ends `post` exactly when that subscription aborts |
| `ReflectedBus.Invoke` | ReflectedEventBus.java:67-110 | a loop makes at most one invocation per entry of its list |
| `ReflectedBus.PostSpec` | ReflectedEventBus.java:51-118 | `post` makes at most one invocation per exact-class entry and two per strict-supertype entry |
| `ReflectedBus.FirstHandler` | ReflectedEventBus.java:114-117 | finds a callback exactly when the list holds one |
| `ReflectedBus.InvokeConcat` | ReflectedEventBus.java:93-110 | running a loop over two lists in a row is running it over each in turn |
| `ReflectedBus.InvokeStops` | ReflectedEventBus.java:86 | after an escaping exception the remaining subscriptions are not invoked |
| `ReflectedBus.InvokePrefix` | ReflectedEventBus.java:67-110 | a loop invokes a prefix of its list, in order, recording each subscriber's failure |
| `ReflectedBus.InvokeCompletes` | ReflectedEventBus.java:67-110 | a loop finishes exactly when no callback in it aborts, and then has invoked the whole list even if bound methods failed |
| `ReflectedBus.InvokeFailureKind` | ReflectedEventBus.java:86-101 | the first loop can only leak a callback's exception, the second only a null method |
| `ReflectedBus.SupersPrefix` | ReflectedEventBus.java:57-63 | the strict-supertype lists gathered so far are a prefix of all of them |
| `ReflectedBus.SupersFromSupertypeKeys` | ReflectedEventBus.java:57-63 | every gathered subscription is filed under a strict-supertype key |
| `ReflectedBus.SupersComplete` | ReflectedEventBus.java:57-63 | every list under a strict-supertype key in the order is gathered, each entry at least as often as it is filed |
| `ReflectedBus.SupersCounts` | ReflectedEventBus.java:57-63 | in the map's entry order, every subscription filed under a strict supertype is gathered, at least as often as it is filed there |
| `ReflectedBus.SupersOfConcrete` | ReflectedEventBus.java:57-63 | for a concrete event class and keys without repeats, the gathered lists are exactly those under `Object`, `Event` and `NewsEvent`, with their multiplicities |
| `ReflectedBus.SupersOfConcreteFiled` | ReflectedEventBus.java:57-63 | in the map's entry order, the gathered lists are exactly what the registry files under `Object`, `Event` and `NewsEvent` when these are strict supertypes |
| `ReflectedBus.SupersEmpty` | ReflectedEventBus.java:59 | keys that are not strict supertypes contribute nothing |
| `ReflectedBus.PostFollowsDeliveryOrder` | ReflectedEventBus.java:53-110 | `post` invokes, in order, a prefix of: the exact-class list, the strict-supertype lists, then the strict-supertype lists again |
| `ReflectedBus.PostCompletesIff` | ReflectedEventBus.java:65-117 | `post` returns normally exactly when no callback is matched; then exact-class subscriptions are invoked once and strict-supertype ones twice, whatever bound methods failed |
| `ReflectedBus.PostDeliveryCounts` | ReflectedEventBus.java:67-110 | a completed `post` invokes each subscription once per exact-class entry plus twice per strict-supertype entry |
| `ReflectedBus.PostInvokesSupertypeEntriesTwice` | ReflectedEventBus.java:57-110 | a `post` that returns invokes each subscription filed under a strict supertype at least twice per filing |
| `ReflectedBus.PostDeliversExactly` | ReflectedEventBus.java:53-110 | a `post` that returns invokes each subscription exactly once per filing under the event's class plus exactly twice per filing under `Object`, `Event` and (for news) `NewsEvent` |
| `ReflectedBus.FirstLoopCompletes` | ReflectedEventBus.java:67-89 | the first loop finishes exactly when no matched callback throws, and can only leak a callback's exception |
| `ReflectedBus.SecondLoopCompletes` | ReflectedEventBus.java:93-110 | the second loop finishes exactly when no strict-supertype entry is a callback, and can only leak a null-method dereference |
| `ReflectedBus.PostHandlerFailure` | ReflectedEventBus.java:81-87 | a callback's own exception escapes `post` exactly when a matched callback throws |
| `ReflectedBus.PostNullMethod` | ReflectedEventBus.java:97-101 | the second loop's null dereference escapes exactly when no matched callback throws and a callback sits under a strict supertype |
| `ReflectedBus.PostNullSubscriber` | ReflectedEventBus.java:114-116 | the report loop's null dereference escapes exactly when the loops finish and a callback sits under the event's own class |
| `ReflectedBus.PostOnlyMatchingKeys` | ReflectedEventBus.java:55-63 | every invoked subscription is filed under the event's class or a supertype of it |
| `ReflectedBus.PostInvokesAcceptingMethods` | ReflectedEventBus.java:72-75 | in a registry built by the bus, each invoked bound method is a handler method whose parameter accepts the event |
| `ReflectedBus.PostWithoutMatchingKey` | ReflectedEventBus.java:55-63 | an event class with no matching key yields no invocation and a normal return |
| `ReflectedBus.EventBus.constructor` | ReflectedEventBus.java:17-19 | a new bus has an empty registry |
| `ReflectedBus.EventBus.Register` | ReflectedEventBus.java:30-49 | the registry becomes the old one with the object's handler methods filed, and stays well formed |
| `ReflectedBus.EventBus.RegisterHandle` | ReflectedEventBus.java:120-130 | the registry becomes the old one with the callback appended under the given class |
| `ReflectedBus.EventBus.Post` | ReflectedEventBus.java:51-118 | the trace and outcome are those of the three loops over the current registry, which is only read |
| `ReflectedBus.EventBus.CollectSubscriptions` | ReflectedEventBus.java:53-63 | `subList` is the exact-class list followed by the strict-supertype lists in key order |
| `ReflectedBus.EventBus.InvokeSupertypeEntries` | ReflectedEventBus.java:93-110 | the second loop runs over the strict-supertype lists in key order |
| `ReflectedBus.InvokeEach` | ReflectedEventBus.java:67-89 | a loop over one list, with caught method failures and escaping callback failures |
| `ReflectedBus.ReportSubscribers` | ReflectedEventBus.java:114-117 | the report loop ends normally exactly when every subscription is a bound method, else at the first callback |
| `BasicBus.Without` | BasicEventBus.java:75 | removal keeps exactly the entries that differ from the given pair |
| `BasicBus.WithoutCounts` | BasicEventBus.java:75 | removal drops every copy of the pair and keeps every other entry as often as before |
| `BasicBus.WithoutDistributes` | BasicEventBus.java:75 | removal keeps the remaining entries in their original relative order |
| `BasicBus.WithoutNoOp` | BasicEventBus.java:75 | `unsubscribe` changes nothing exactly when the pair is absent |
| `BasicBus.WithoutAbsent` | BasicEventBus.java:75 | removing an absent pair leaves the list as it was |
| `BasicBus.WithoutIdempotent` | BasicEventBus.java:75 | unsubscribing twice equals unsubscribing once |
| `BasicBus.SubscribeThenUnsubscribe` | BasicEventBus.java:68-76 | subscribe then unsubscribe restores the list exactly when the pair was not there before |
| `BasicBus.Matching` | BasicEventBus.java:59-65 | the entries for an event class are the entries of a supertype of it, each as often as in the list |
| `BasicBus.PublishRun` | BasicEventBus.java:57-66 | `publish` informs at most one entry per list entry |
| `BasicBus.PublishInformsMatching` | BasicEventBus.java:57-66 | `publish` informs a prefix of the matching entries in list order, and all of them when it returns |
| `BasicBus.PublishCompletesIff` | BasicEventBus.java:59-65 | `publish` returns normally exactly when no matching subscriber fails |
| `BasicBus.PublishStopsAtFailure` | BasicEventBus.java:63 | after a failure the last informed entry is the one that failed and all earlier ones succeeded |
| `BasicBus.PublishSucceededSoFar` | BasicEventBus.java:63 | a publish that returns has only informed subscribers that did not fail |
| `BasicBus.PublishStops` | BasicEventBus.java:63 | an uncaught `inform` failure ends the walk |
| `BasicBus.NoLeakage` | BasicEventBus.java:61 | an informed entry is in the list and its class is a supertype of the event's |
| `BasicBus.NewsScenario` | BasicEventBus.java:59-65 | a subscriber under the abstract news class is informed once by a sports and once by a political event |
| `BasicBus.EventBus.constructor` | BasicEventBus.java:43-45 | a new bus has an empty list |
| `BasicBus.EventBus.Subscribe` | BasicEventBus.java:68-71 | exactly one pair is appended at the end, duplicates allowed |
| `BasicBus.EventBus.Unsubscribe` | BasicEventBus.java:73-76 | the list becomes the old one without the pair |
| `BasicBus.EventBus.Publish` | BasicEventBus.java:57-66 | the informed entries and the completion flag are those of the publish walk over the current list, which is only read |

## Left out

- Java reflection (`getDeclaredMethods`, `isAnnotationPresent`, `setAccessible`, `invoke`): replaced by method descriptors and the failure oracle. The annotation's missing runtime retention is not modelled.
- Console output (every `println` and `printStackTrace`, including the subscriber count at ReflectedEventBus.java:113): left out. Only the null dereference in the report loop is kept.
- Randomness and timing (`Random` in the sensors and in the headline choice, `Thread.sleep`): readings, headlines and the headline index are parameters.
- The sensors' `generateTemperature` and `generateWaterLevel`: each only draws a random reading and posts one event, which the model takes as an input.
- The demo drivers (`main`) and the lazy singletons (`getInstance`): the model uses an explicit bus instance.
- The handler bodies of `NumericDisplay`, `HumanSubscriber` and the callbacks: they only print. For `TextDisplay`, only its classification is kept.
- Null values (a null subscriber, handler, event or class key): not modelled.
- Registering, subscribing or unsubscribing from inside a handler while `post` or `publish` is running is not modelled. The model's `post` and `publish` read a registry that stays fixed for the whole call. In Java the result depends on the case. A registration during the first loop of `post` changes only the map, not the private `subList`, so the second loop can see the new entry. A change to the basic bus's list can end the for-each early, leave it unaffected, or make it raise `ConcurrentModificationException`.
- `NewsAgency.ToLower`: models `toLowerCase` on the ASCII letters only. Locale-dependent and non-ASCII case mappings are not modelled.
- `ReflectedBus.EventBus.Post`: a subscription's failure is decided once per call, so a bound method invoked twice in one `post` fails either both times or neither time.
- `BasicBus.EventBus.Publish`: a subscriber's failure is decided once per call, so a subscriber listed twice fails either both times or neither time.
- The lists held in the `HashMap` are values, not shared objects. The source never hands them out, so no aliasing is lost.
