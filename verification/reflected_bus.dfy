/**
 * `EventBusImpl`: a map from event class to the ordered list of its
 * subscriptions, filled by reflective registration of annotated methods and
 * by explicit handler registration; `post` delivers an event to the
 * subscriptions under its own class and under each strict supertype.
 */
module ReflectedBus {
  import opened Wrappers
  import opened EventTypes
  import opened Events

  type ObjectId = nat
  type HandlerId = nat

  /** A declared method as reflection reports it: the annotation flag and the parameter types. */
  datatype MethodDesc = MethodDesc(name: string, annotated: bool, params: seq<JType>)

  /** An object passed to `register`: its identity and its declared methods, in the order reflection lists them. */
  datatype Subscriber = Subscriber(id: ObjectId, declaredMethods: seq<MethodDesc>)

  /** The two constructors of `Subscription`: a bound method, or an `EventHandler` callback. */
  datatype Subscription =
    | MethodSubscription(subscriber: ObjectId, handlerMethod: MethodDesc)
    | HandlerSubscription(handler: HandlerId)

  type Registry = map<JType, seq<Subscription>>

  /** `subscribers.getOrDefault(k, new ArrayList<>())`. */
  function Lookup(reg: Registry, k: JType): (r: seq<Subscription>)
    ensures k !in reg ==> r == []
  {
    if k in reg then reg[k] else []
  }

  /** Get the key's list, creating an empty one when absent, and append `s` to it. */
  function Add(reg: Registry, k: JType, s: Subscription): (r: Registry)
    ensures r.Keys == reg.Keys + {k}
    ensures forall k' :: Lookup(r, k') == if k' == k then Lookup(reg, k) + [s] else Lookup(reg, k')
  {
    reg[k := Lookup(reg, k) + [s]]
  }

  /** The filter of `register`: annotated, exactly one parameter, and that parameter an `Event`. */
  predicate IsHandlerMethod(m: MethodDesc)
    ensures IsHandlerMethod(m) ==> |m.params| == 1 && m.params[0] != ObjectType && !m.params[0].OtherType?
  {
    m.annotated && |m.params| == 1 && IsEventType(m.params[0])
  }

  /** What registering object `o` with methods `ms` does to the registry, method by method. */
  function RegisterMethods(reg: Registry, o: ObjectId, ms: seq<MethodDesc>): (r: Registry)
    ensures reg.Keys <= r.Keys
    ensures forall k | k in reg :: reg[k] <= r[k]
    decreases |ms|
  {
    if ms == [] then reg
    else
      var r := RegisterMethods(reg, o, ms[..|ms| - 1]);
      var m := ms[|ms| - 1];
      if IsHandlerMethod(m) then Add(r, m.params[0], MethodSubscription(o, m)) else r
  }

  /** The subscriptions registering `ms` files under key `k`, in declaration order. */
  function FiledUnder(o: ObjectId, ms: seq<MethodDesc>, k: JType): (r: seq<Subscription>)
    ensures forall s | s in r :: s.MethodSubscription? && s.subscriber == o
    ensures forall m :: multiset(r)[MethodSubscription(o, m)]
                        == if IsHandlerMethod(m) && m.params[0] == k then multiset(ms)[m] else 0
    decreases |ms|
  {
    if ms == [] then []
    else
      var init, m := ms[..|ms| - 1], ms[|ms| - 1];
      assert ms == init + [m];
      FiledUnder(o, init, k)
        + (if IsHandlerMethod(m) && m.params[0] == k then [MethodSubscription(o, m)] else [])
  }

  /** Proof step: `FiledUnder` unfolded once. */
  lemma FiledUnderSnoc(o: ObjectId, ms: seq<MethodDesc>, k: JType)
    requires ms != []
    ensures var m := ms[|ms| - 1];
            FiledUnder(o, ms, k) == FiledUnder(o, ms[..|ms| - 1], k)
              + (if IsHandlerMethod(m) && m.params[0] == k then [MethodSubscription(o, m)] else [])
  {
  }

  /** Proof step: `RegisterMethods` unfolded once, seen through one key. */
  lemma RegisterMethodsSnoc(reg: Registry, o: ObjectId, ms: seq<MethodDesc>, k: JType)
    requires ms != []
    ensures var m := ms[|ms| - 1];
            Lookup(RegisterMethods(reg, o, ms), k) == Lookup(RegisterMethods(reg, o, ms[..|ms| - 1]), k)
              + (if IsHandlerMethod(m) && m.params[0] == k then [MethodSubscription(o, m)] else [])
  {
  }

  /**
   * `register` appends to each key's list exactly the subscriptions of the
   * handler methods taking that key, after the entries already there.
   */
  lemma {:induction false} RegisterAppends(reg: Registry, o: ObjectId, ms: seq<MethodDesc>, k: JType)
    ensures Lookup(RegisterMethods(reg, o, ms), k) == Lookup(reg, k) + FiledUnder(o, ms, k)
    decreases |ms|
  {
    if ms != [] {
      var init := ms[..|ms| - 1];
      RegisterAppends(reg, o, init, k);
      FiledUnderSnoc(o, ms, k);
      RegisterMethodsSnoc(reg, o, ms, k);
    }
  }

  /** The keys after `register`: the old ones plus the parameter type of each handler method. */
  lemma {:induction false} RegisterKeys(reg: Registry, o: ObjectId, ms: seq<MethodDesc>)
    ensures RegisterMethods(reg, o, ms).Keys
         == reg.Keys + (set m | m in ms && IsHandlerMethod(m) :: m.params[0])
    decreases |ms|
  {
    if ms != [] {
      var init, m := ms[..|ms| - 1], ms[|ms| - 1];
      assert ms == init + [m];
      RegisterKeys(reg, o, init);
    }
  }

  /**
   * Of an object declaring an annotated `f(TemperatureEvent)`, an annotated
   * two-parameter `g`, an annotated `h(String)` and an unannotated
   * `u(TemperatureEvent)`, only `f` is registered, under its parameter type.
   */
  lemma RegisterSelectsSignatures(o: ObjectId)
    ensures var f := MethodDesc("f", true, [TemperatureType]);
            var g := MethodDesc("g", true, [TemperatureType, WaterLevelType]);
            var h := MethodDesc("h", true, [OtherType(0)]);
            var u := MethodDesc("u", false, [TemperatureType]);
            RegisterMethods(map[], o, [f, g, h, u]) == map[TemperatureType := [MethodSubscription(o, f)]]
  {
    var f := MethodDesc("f", true, [TemperatureType]);
    var g := MethodDesc("g", true, [TemperatureType, WaterLevelType]);
    var h := MethodDesc("h", true, [OtherType(0)]);
    var u := MethodDesc("u", false, [TemperatureType]);
    var ms := [f, g, h, u];
    assert ms[..3] == [f, g, h] && [f, g, h][..2] == [f, g] && [f, g][..1] == [f] && [f][..0] == [];
    assert !IsEventType(OtherType(0));
    var one := map[TemperatureType := [MethodSubscription(o, f)]];
    assert RegisterMethods(map[], o, [f]) == one by {
      var empty: Registry := map[];
      assert Lookup(empty, TemperatureType) == [];
      assert Lookup(empty, TemperatureType) + [MethodSubscription(o, f)] == [MethodSubscription(o, f)];
      assert Add(empty, TemperatureType, MethodSubscription(o, f)) == one;
    }
    assert RegisterMethods(map[], o, [f, g]) == one;
    assert RegisterMethods(map[], o, [f, g, h]) == one;
  }

  /** There is no uniqueness check: registering the same object twice files every handler method twice. */
  lemma RegisterTwice(reg: Registry, o: ObjectId, ms: seq<MethodDesc>, k: JType)
    ensures Lookup(RegisterMethods(RegisterMethods(reg, o, ms), o, ms), k)
         == Lookup(reg, k) + FiledUnder(o, ms, k) + FiledUnder(o, ms, k)
  {
    RegisterAppends(reg, o, ms, k);
    RegisterAppends(RegisterMethods(reg, o, ms), o, ms, k);
  }

  /** Likewise registering one handler twice under a key leaves two entries for it. */
  lemma RegisterHandleTwice(reg: Registry, k: JType, h: HandlerId)
    ensures Lookup(Add(Add(reg, k, HandlerSubscription(h)), k, HandlerSubscription(h)), k)
         == Lookup(reg, k) + [HandlerSubscription(h), HandlerSubscription(h)]
  {
  }

  /**
   * What the two registration paths guarantee of the registry: every key is
   * an event class with a non-empty list, and every bound method is a handler
   * method filed under its own parameter type.
   */
  ghost predicate WellFormed(reg: Registry)
  {
    forall k | k in reg ::
      && IsEventType(k)
      && reg[k] != []
      && forall s | s in reg[k] && s.MethodSubscription? ::
           IsHandlerMethod(s.handlerMethod) && s.handlerMethod.params[0] == k
  }

  /** No key occurs twice. */
  predicate NoRepeats(order: seq<JType>)
  {
    forall i, j | 0 <= i < j < |order| :: order[i] != order[j]
  }

  /** The iteration order of `subscribers.entrySet()`: each key exactly once. */
  predicate IsKeyOrder(order: seq<JType>, reg: Registry)
  {
    && NoRepeats(order)
    && (forall k | k in order :: k in reg)
    && (forall k | k in reg :: k in order)
  }

  /** The lists under the strict supertypes of `t`, concatenated in key order. */
  function Supers(reg: Registry, order: seq<JType>, t: JType): seq<Subscription>
    decreases |order|
  {
    if order == [] then []
    else
      var k := order[|order| - 1];
      Supers(reg, order[..|order| - 1], t) + (if StrictSupertype(k, t) then Lookup(reg, k) else [])
  }

  /** `subList` of `post`: the exact-class list, then the strict-supertype lists. */
  function DeliveryList(reg: Registry, order: seq<JType>, t: JType): (r: seq<Subscription>)
    ensures Lookup(reg, t) <= r
  {
    Lookup(reg, t) + Supers(reg, order, t)
  }

  /** One invocation, and whether the subscriber threw. */
  datatype Call = Call(sub: Subscription, threw: bool)

  /** The exceptions that escape `post`. */
  datatype Failure =
    | HandlerFailure(handler: HandlerId)    // thrown by `handler.handle(event)`, not caught
    | NullMethod(handler: HandlerId)        // `sub.getMethod()` is null in the second loop
    | NullSubscriber(handler: HandlerId)    // `sub.getSubscriber()` is null in the report loop

  datatype Outcome = Completed | Threw(failure: Failure)

  datatype Run = Run(calls: seq<Call>, outcome: Outcome)

  /** The first invocation loop, or the second (strict-supertype) one. */
  datatype Loop = DeliveryLoop | SupertypeLoop

  function Invoked(calls: seq<Call>): (subs: seq<Subscription>)
    ensures |subs| == |calls|
    ensures forall i | 0 <= i < |calls| :: subs[i] == calls[i].sub
  {
    seq(|calls|, i requires 0 <= i < |calls| => calls[i].sub)
  }

  lemma InvokedAppend(a: seq<Call>, b: seq<Call>)
    ensures Invoked(a + b) == Invoked(a) + Invoked(b)
  {
  }

  /** Whether meeting `s` in the given loop ends `post` with an exception. */
  predicate Aborts(s: Subscription, throws: Subscription -> bool, loop: Loop)
  {
    s.HandlerSubscription? && (loop == SupertypeLoop || throws(s))
  }

  /**
   * One turn of an invocation loop. A bound method is invoked and its
   * failure is caught. A callback is invoked by the first loop, where its
   * exception escapes; in the second loop its null method is dereferenced.
   */
  function Step(calls: seq<Call>, s: Subscription, throws: Subscription -> bool, loop: Loop): (r: Run)
    ensures r.calls == calls || r.calls == calls + [Call(s, throws(s))]
    ensures r.outcome.Threw? <==> Aborts(s, throws, loop)
  {
    match s
    case MethodSubscription(_, _) => Run(calls + [Call(s, throws(s))], Completed)
    case HandlerSubscription(h) =>
      if loop == SupertypeLoop then Run(calls, Threw(NullMethod(h)))
      else if throws(s) then Run(calls + [Call(s, true)], Threw(HandlerFailure(h)))
      else Run(calls + [Call(s, false)], Completed)
  }

  /** An invocation loop over `subs`, stopping at the first escaping exception. */
  function Invoke(subs: seq<Subscription>, throws: Subscription -> bool, loop: Loop): (r: Run)
    ensures |r.calls| <= |subs|
    decreases |subs|
  {
    if subs == [] then Run([], Completed)
    else
      var before := Invoke(subs[..|subs| - 1], throws, loop);
      if before.outcome.Threw? then before
      else Step(before.calls, subs[|subs| - 1], throws, loop)
  }

  /** The first callback subscription in a list, if any. */
  function FirstHandler(subs: seq<Subscription>): (r: Option<HandlerId>)
    ensures r.None? <==> forall s | s in subs :: s.MethodSubscription?
    ensures r.Some? ==> HandlerSubscription(r.value) in subs
  {
    if subs == [] then None
    else if subs[0].HandlerSubscription? then assert subs[0] in subs; Some(subs[0].handler)
    else
      assert forall s | s in subs :: s == subs[0] || s in subs[1..];
      FirstHandler(subs[1..])
  }

  /**
   * The whole of `post` for an event of class `t`: the first loop over the
   * delivery list, the second loop over the strict-supertype lists, then the
   * report loop, which dereferences the (null) subscriber of a callback.
   */
  function PostSpec(reg: Registry, order: seq<JType>, t: JType, throws: Subscription -> bool): (r: Run)
    ensures |r.calls| <= |Lookup(reg, t)| + 2 * |Supers(reg, order, t)|
  {
    var subList := DeliveryList(reg, order, t);
    var first := Invoke(subList, throws, DeliveryLoop);
    if first.outcome.Threw? then first
    else
      var second := Invoke(Supers(reg, order, t), throws, SupertypeLoop);
      var calls := first.calls + second.calls;
      if second.outcome.Threw? then Run(calls, second.outcome)
      else
        match FirstHandler(subList)
        case Some(h) => Run(calls, Threw(NullSubscriber(h)))
        case None => Run(calls, Completed)
  }

  // ---------------------------------------------------------------------
  // Invocation loops

  /** Proof step: `Invoke` unfolded at `subs + [s]`. */
  lemma InvokeSnoc(subs: seq<Subscription>, s: Subscription, throws: Subscription -> bool, loop: Loop)
    ensures Invoke(subs + [s], throws, loop)
         == if Invoke(subs, throws, loop).outcome.Threw? then Invoke(subs, throws, loop)
            else Step(Invoke(subs, throws, loop).calls, s, throws, loop)
  {
    assert (subs + [s])[..|subs|] == subs;
  }

  /** Running a loop over `a + b` runs it over `a`, then, unless that threw, over `b`. */
  lemma {:induction false} InvokeConcat(a: seq<Subscription>, b: seq<Subscription>, throws: Subscription -> bool, loop: Loop)
    requires Invoke(a, throws, loop).outcome == Completed
    ensures Invoke(a + b, throws, loop)
         == Run(Invoke(a, throws, loop).calls + Invoke(b, throws, loop).calls, Invoke(b, throws, loop).outcome)
    decreases |b|
  {
    if b == [] {
      assert a + b == a;
    } else {
      var init, s := b[..|b| - 1], b[|b| - 1];
      assert a + b == (a + init) + [s];
      assert b == init + [s];
      InvokeSnoc(a + init, s, throws, loop);
      InvokeSnoc(init, s, throws, loop);
      InvokeConcat(a, init, throws, loop);
    }
  }

  /** Once an exception has escaped, the rest of the list changes nothing. */
  lemma {:induction false} InvokeStops(subs: seq<Subscription>, n: nat, throws: Subscription -> bool, loop: Loop)
    requires n <= |subs| && Invoke(subs[..n], throws, loop).outcome.Threw?
    ensures Invoke(subs, throws, loop) == Invoke(subs[..n], throws, loop)
    decreases |subs| - n
  {
    if n < |subs| {
      var init := subs[..|subs| - 1];
      assert init[..n] == subs[..n];
      InvokeStops(init, n, throws, loop);
    } else {
      assert subs[..n] == subs;
    }
  }

  /** An invocation loop invokes a prefix of its list, recording each subscriber's failure. */
  lemma {:induction false} InvokePrefix(subs: seq<Subscription>, throws: Subscription -> bool, loop: Loop)
    ensures Invoked(Invoke(subs, throws, loop).calls) <= subs
    ensures forall c | c in Invoke(subs, throws, loop).calls :: c.threw == throws(c.sub)
    decreases |subs|
  {
    if subs != [] {
      var init, s := subs[..|subs| - 1], subs[|subs| - 1];
      InvokePrefix(init, throws, loop);
      var before := Invoke(init, throws, loop);
      if before.outcome == Completed {
        InvokeCompletes(init, throws, loop);
        var after := Step(before.calls, s, throws, loop);
        assert subs == init + [s];
        if after.calls != before.calls {
          assert after.calls == before.calls + [Call(s, throws(s))];
          InvokedAppend(before.calls, [Call(s, throws(s))]);
        }
      }
    }
  }

  /**
   * An invocation loop runs to the end exactly when no subscription in its
   * list aborts, and then it has invoked every one of them.
   */
  lemma {:induction false} InvokeCompletes(subs: seq<Subscription>, throws: Subscription -> bool, loop: Loop)
    ensures Invoke(subs, throws, loop).outcome == Completed
        <==> forall s | s in subs :: !Aborts(s, throws, loop)
    ensures Invoke(subs, throws, loop).outcome == Completed ==> Invoked(Invoke(subs, throws, loop).calls) == subs
    decreases |subs|
  {
    if subs != [] {
      var init, s := subs[..|subs| - 1], subs[|subs| - 1];
      assert subs == init + [s];
      assert forall x | x in subs :: x in init || x == s;
      InvokeCompletes(init, throws, loop);
      var before := Invoke(init, throws, loop);
      if before.outcome.Threw? {
        var w :| w in init && Aborts(w, throws, loop);
        assert w in subs;
      } else {
        var after := Step(before.calls, s, throws, loop);
        assert after.outcome == Completed <==> !Aborts(s, throws, loop);
        if after.outcome == Completed {
          assert after.calls == before.calls + [Call(s, throws(s))];
          assert Invoked(after.calls) == Invoked(before.calls) + [s];
        }
      }
    }
  }

  /** The exception escaping the first loop is a callback's own; the one escaping the second is a null method. */
  lemma {:induction false} InvokeFailureKind(subs: seq<Subscription>, throws: Subscription -> bool, loop: Loop)
    ensures Invoke(subs, throws, loop).outcome.Threw? ==>
              if loop == DeliveryLoop then Invoke(subs, throws, loop).outcome.failure.HandlerFailure?
              else Invoke(subs, throws, loop).outcome.failure.NullMethod?
    decreases |subs|
  {
    if subs != [] {
      InvokeFailureKind(subs[..|subs| - 1], throws, loop);
    }
  }

  // ---------------------------------------------------------------------
  // The delivery list

  lemma {:induction false} SupersPrefix(reg: Registry, order: seq<JType>, i: nat, t: JType)
    requires i <= |order|
    ensures Supers(reg, order[..i], t) <= Supers(reg, order, t)
    decreases |order| - i
  {
    if i < |order| {
      var init := order[..|order| - 1];
      assert init[..i] == order[..i];
      SupersPrefix(reg, init, i, t);
    } else {
      assert order[..i] == order;
    }
  }

  /** Proof step: `Supers` unfolded at a slice of the order. */
  lemma SupersSnoc(reg: Registry, order: seq<JType>, i: nat, t: JType)
    requires i < |order|
    ensures Supers(reg, order[..i + 1], t)
         == Supers(reg, order[..i], t) + (if StrictSupertype(order[i], t) then Lookup(reg, order[i]) else [])
  {
    assert order[..i + 1][..i] == order[..i];
  }

  /** Every subscription in the supertype lists sits under a strict supertype key of the registry. */
  lemma {:induction false} SupersFromSupertypeKeys(reg: Registry, order: seq<JType>, t: JType, s: Subscription)
    requires s in Supers(reg, order, t)
    ensures exists k :: k in reg && StrictSupertype(k, t) && s in reg[k]
    decreases |order|
  {
    var init, k := order[..|order| - 1], order[|order| - 1];
    if s in Supers(reg, init, t) {
      SupersFromSupertypeKeys(reg, init, t, s);
    } else {
      assert k in reg && StrictSupertype(k, t) && s in reg[k];
    }
  }

  /** Every list under a strict-supertype key in the order is gathered, each entry as often as it is filed. */
  lemma {:induction false} SupersComplete(reg: Registry, order: seq<JType>, t: JType, k: JType)
    requires k in order && StrictSupertype(k, t)
    ensures multiset(Lookup(reg, k)) <= multiset(Supers(reg, order, t))
    decreases |order|
  {
    var init, last := order[..|order| - 1], order[|order| - 1];
    assert order == init + [last];
    if k != last {
      SupersComplete(reg, init, t, k);
    }
  }

  /**
   * With the entry order of the map, every subscription filed under a strict
   * supertype of `t` is gathered, at least as often as it is filed there.
   */
  lemma SupersCounts(reg: Registry, order: seq<JType>, t: JType, k: JType, s: Subscription)
    requires IsKeyOrder(order, reg)
    requires k in reg && StrictSupertype(k, t)
    ensures multiset(Supers(reg, order, t))[s] >= multiset(reg[k])[s]
    ensures s in reg[k] ==> s in Supers(reg, order, t)
  {
    SupersComplete(reg, order, t, k);
  }

  /** One turn of the second loop: the next key's list is run when it is a strict supertype. */
  lemma SupersTurn(reg: Registry, order: seq<JType>, i: nat, t: JType, throws: Subscription -> bool, calls: seq<Call>)
    requires i < |order|
    requires Invoke(Supers(reg, order[..i], t), throws, SupertypeLoop) == Run(calls, Completed)
    ensures var k := order[i];
            var run := Invoke(Lookup(reg, k), throws, SupertypeLoop);
            Invoke(Supers(reg, order[..i + 1], t), throws, SupertypeLoop)
            == if StrictSupertype(k, t) then Run(calls + run.calls, run.outcome) else Run(calls, Completed)
  {
    var done := Supers(reg, order[..i], t);
    SupersSnoc(reg, order, i, t);
    if StrictSupertype(order[i], t) {
      assert Supers(reg, order[..i + 1], t) == done + Lookup(reg, order[i]);
      InvokeConcat(done, Lookup(reg, order[i]), throws, SupertypeLoop);
    } else {
      assert Supers(reg, order[..i + 1], t) == done + [] == done;
    }
  }

  /** Once the second loop has thrown within the first `n` keys, the remaining keys change nothing. */
  lemma SupersStop(reg: Registry, order: seq<JType>, n: nat, t: JType, throws: Subscription -> bool)
    requires n <= |order|
    requires Invoke(Supers(reg, order[..n], t), throws, SupertypeLoop).outcome.Threw?
    ensures Invoke(Supers(reg, order, t), throws, SupertypeLoop)
         == Invoke(Supers(reg, order[..n], t), throws, SupertypeLoop)
  {
    var sup, through := Supers(reg, order, t), Supers(reg, order[..n], t);
    SupersPrefix(reg, order, n, t);
    assert sup[..|through|] == through;
    InvokeStops(sup, |through|, throws, SupertypeLoop);
  }

  /** What key `k` of the order contributes to the strict-supertype lists of `t`. */
  function GatheredUnder(reg: Registry, order: seq<JType>, t: JType, k: JType): multiset<Subscription>
  {
    if k in order && StrictSupertype(k, t) then multiset(Lookup(reg, k)) else multiset{}
  }

  /** What the registry files under `k` when `k` is a strict supertype of `t`, and nothing otherwise. */
  function FiledAbove(reg: Registry, t: JType, k: JType): multiset<Subscription>
  {
    if k in reg && StrictSupertype(k, t) then multiset(reg[k]) else multiset{}
  }

  /** What the keys `Object`, `Event` and `NewsEvent` of the order contribute together. */
  function GatheredAbove(reg: Registry, order: seq<JType>, t: JType): multiset<Subscription>
  {
    GatheredUnder(reg, order, t, ObjectType) + GatheredUnder(reg, order, t, EventType)
    + GatheredUnder(reg, order, t, NewsEventType)
  }

  /**
   * For a concrete event class and an order without repeated keys, the
   * strict-supertype lists are exactly those under `Object`, `Event` and
   * `NewsEvent`, each entry as often as it is filed there.
   */
  lemma {:induction false} SupersOfConcrete(reg: Registry, order: seq<JType>, t: JType)
    requires IsConcreteEvent(t) && NoRepeats(order)
    ensures multiset(Supers(reg, order, t)) == GatheredAbove(reg, order, t)
    decreases |order|
  {
    if order != [] {
      var init, last := order[..|order| - 1], order[|order| - 1];
      assert order == init + [last];
      NoRepeatsSnoc(init, last);
      SupersOfConcrete(reg, init, t);
      SupersMultisetSnoc(reg, init, last, t);
      GatheredAboveSnoc(reg, init, last, t);
    }
  }

  /** Proof step: dropping the last key of an order without repeats leaves one without repeats that lacks that key. */
  lemma NoRepeatsSnoc(init: seq<JType>, last: JType)
    requires NoRepeats(init + [last])
    ensures NoRepeats(init) && last !in init
  {
    var order := init + [last];
    forall i, j | 0 <= i < j < |init|
      ensures init[i] != init[j]
    {
      assert init[i] == order[i] && init[j] == order[j];
    }
    forall i | 0 <= i < |init|
      ensures init[i] != last
    {
      assert init[i] == order[i] && last == order[|init|];
    }
  }

  /** Proof step: a new key adds its list to the three contributions exactly when it is a strict supertype. */
  lemma GatheredAboveSnoc(reg: Registry, init: seq<JType>, last: JType, t: JType)
    requires IsConcreteEvent(t) && last !in init
    ensures GatheredAbove(reg, init + [last], t)
         == GatheredAbove(reg, init, t)
            + (if StrictSupertype(last, t) then multiset(Lookup(reg, last)) else multiset{})
  {
    GatheredSnoc(reg, init, last, t, ObjectType);
    GatheredSnoc(reg, init, last, t, EventType);
    GatheredSnoc(reg, init, last, t, NewsEventType);
    StrictSupertypesOfConcrete(last, t);
  }

  /** Proof step: `Supers` unfolded at `init + [last]`, as multisets. */
  lemma SupersMultisetSnoc(reg: Registry, init: seq<JType>, last: JType, t: JType)
    ensures multiset(Supers(reg, init + [last], t))
         == multiset(Supers(reg, init, t))
            + (if StrictSupertype(last, t) then multiset(Lookup(reg, last)) else multiset{})
  {
    assert (init + [last])[..|init|] == init;
  }

  /** Proof step: a new key adds to its own contribution only. */
  lemma GatheredSnoc(reg: Registry, init: seq<JType>, last: JType, t: JType, k: JType)
    requires last !in init
    ensures GatheredUnder(reg, init + [last], t, k)
         == GatheredUnder(reg, init, t, k)
            + (if k == last && StrictSupertype(last, t) then multiset(Lookup(reg, last)) else multiset{})
  {
    assert k in init + [last] <==> k in init || k == last;
  }

  /** With the map's entry order, what each key contributes is what the registry files under it. */
  lemma SupersOfConcreteFiled(reg: Registry, order: seq<JType>, t: JType)
    requires IsConcreteEvent(t) && IsKeyOrder(order, reg)
    ensures multiset(Supers(reg, order, t))
         == FiledAbove(reg, t, ObjectType) + FiledAbove(reg, t, EventType) + FiledAbove(reg, t, NewsEventType)
  {
    SupersOfConcrete(reg, order, t);
    forall k ensures GatheredUnder(reg, order, t, k) == FiledAbove(reg, t, k) {
      assert k in order <==> k in reg;
    }
  }

  /** Keys that are not supertypes of `t` contribute nothing. */
  lemma {:induction false} SupersEmpty(reg: Registry, order: seq<JType>, t: JType)
    requires forall k | k in reg :: !StrictSupertype(k, t)
    ensures Supers(reg, order, t) == []
    decreases |order|
  {
    if order != [] {
      SupersEmpty(reg, order[..|order| - 1], t);
    }
  }

  // ---------------------------------------------------------------------
  // Properties of post

  /**
   * The invocations of `post`, in order, are a prefix of: the exact-class
   * subscriptions, then the strict-supertype ones, then the strict-supertype
   * ones again (the second loop); each records its subscriber's failure.
   */
  lemma PostFollowsDeliveryOrder(reg: Registry, order: seq<JType>, t: JType, throws: Subscription -> bool)
    ensures Invoked(PostSpec(reg, order, t, throws).calls)
         <= Lookup(reg, t) + Supers(reg, order, t) + Supers(reg, order, t)
    ensures forall c | c in PostSpec(reg, order, t, throws).calls :: c.threw == throws(c.sub)
  {
    var subList := DeliveryList(reg, order, t);
    var sup := Supers(reg, order, t);
    var all := Lookup(reg, t) + sup + sup;
    assert all == subList + sup;
    var first := Invoke(subList, throws, DeliveryLoop);
    var second := Invoke(sup, throws, SupertypeLoop);
    var run := PostSpec(reg, order, t, throws);
    InvokePrefix(subList, throws, DeliveryLoop);
    if first.outcome.Threw? {
      assert run == first;
    } else {
      InvokeCompletes(subList, throws, DeliveryLoop);
      InvokePrefix(sup, throws, SupertypeLoop);
      assert run.calls == first.calls + second.calls;
      InvokedAppend(first.calls, second.calls);
      var a, b := Invoked(first.calls), Invoked(second.calls);
      assert a == subList && b <= sup;
      assert a + b == all[..|a + b|];
    }
  }

  /**
   * `post` returns normally exactly when no callback is among the matched
   * subscriptions; then it has invoked the exact-class subscriptions once and
   * the strict-supertype ones twice, whatever bound methods failed.
   */
  lemma PostCompletesIff(reg: Registry, order: seq<JType>, t: JType, throws: Subscription -> bool)
    ensures PostSpec(reg, order, t, throws).outcome == Completed
        <==> forall s | s in DeliveryList(reg, order, t) :: s.MethodSubscription?
    ensures PostSpec(reg, order, t, throws).outcome == Completed ==>
              Invoked(PostSpec(reg, order, t, throws).calls)
              == Lookup(reg, t) + Supers(reg, order, t) + Supers(reg, order, t)
  {
    var subList := DeliveryList(reg, order, t);
    var sup := Supers(reg, order, t);
    var first := Invoke(subList, throws, DeliveryLoop);
    var second := Invoke(sup, throws, SupertypeLoop);
    var run := PostSpec(reg, order, t, throws);
    InvokeCompletes(subList, throws, DeliveryLoop);
    if first.outcome.Threw? {
      assert run == first;
      var w :| w in subList && Aborts(w, throws, DeliveryLoop);
    } else {
      InvokeCompletes(sup, throws, SupertypeLoop);
      if second.outcome.Threw? {
        assert run.outcome == second.outcome;
        var w :| w in sup && Aborts(w, throws, SupertypeLoop);
        assert w in subList;
      } else if FirstHandler(subList).Some? {
        assert run.outcome.Threw?;
      } else {
        assert run == Run(first.calls + second.calls, Completed);
        InvokedAppend(first.calls, second.calls);
      }
    }
  }

  /** Each subscription is delivered once per exact-class entry and twice per strict-supertype entry. */
  lemma PostDeliveryCounts(reg: Registry, order: seq<JType>, t: JType, throws: Subscription -> bool, s: Subscription)
    requires PostSpec(reg, order, t, throws).outcome == Completed
    ensures multiset(Invoked(PostSpec(reg, order, t, throws).calls))[s]
         == multiset(Lookup(reg, t))[s] + 2 * multiset(Supers(reg, order, t))[s]
  {
    PostCompletesIff(reg, order, t, throws);
  }

  /**
   * A subscription filed under a strict supertype of the event's class is
   * invoked at least twice by a `post` that returns normally, once per loop,
   * for each time it is filed there.
   */
  lemma PostInvokesSupertypeEntriesTwice(reg: Registry, order: seq<JType>, t: JType, throws: Subscription -> bool,
                                         k: JType, s: Subscription)
    requires IsKeyOrder(order, reg)
    requires PostSpec(reg, order, t, throws).outcome == Completed
    requires k in reg && StrictSupertype(k, t)
    ensures multiset(Invoked(PostSpec(reg, order, t, throws).calls))[s] >= 2 * multiset(reg[k])[s]
  {
    PostDeliveryCounts(reg, order, t, throws, s);
    SupersCounts(reg, order, t, k, s);
  }

  /**
   * The exact delivery count of a `post` that returns normally, against the
   * registry: once per filing under the event's own class, plus twice per
   * filing under `Object`, `Event` and (for news) `NewsEvent`.
   */
  lemma PostDeliversExactly(reg: Registry, order: seq<JType>, t: JType, throws: Subscription -> bool, s: Subscription)
    requires IsKeyOrder(order, reg) && IsConcreteEvent(t)
    requires PostSpec(reg, order, t, throws).outcome == Completed
    ensures multiset(Invoked(PostSpec(reg, order, t, throws).calls))[s]
         == multiset(Lookup(reg, t))[s]
            + 2 * (FiledAbove(reg, t, ObjectType)[s] + FiledAbove(reg, t, EventType)[s]
                   + FiledAbove(reg, t, NewsEventType)[s])
  {
    PostDeliveryCounts(reg, order, t, throws, s);
    SupersOfConcreteFiled(reg, order, t);
  }

  /** Whether `post` gets past its first loop: no matched callback throws. */
  lemma FirstLoopCompletes(reg: Registry, order: seq<JType>, t: JType, throws: Subscription -> bool)
    ensures Invoke(DeliveryList(reg, order, t), throws, DeliveryLoop).outcome == Completed
        <==> forall s | s in DeliveryList(reg, order, t) && s.HandlerSubscription? :: !throws(s)
    ensures Invoke(DeliveryList(reg, order, t), throws, DeliveryLoop).outcome.Threw?
        ==> Invoke(DeliveryList(reg, order, t), throws, DeliveryLoop).outcome.failure.HandlerFailure?
  {
    InvokeCompletes(DeliveryList(reg, order, t), throws, DeliveryLoop);
    InvokeFailureKind(DeliveryList(reg, order, t), throws, DeliveryLoop);
  }

  /** Whether `post` gets past its second loop: no strict-supertype entry is a callback. */
  lemma SecondLoopCompletes(reg: Registry, order: seq<JType>, t: JType, throws: Subscription -> bool)
    ensures Invoke(Supers(reg, order, t), throws, SupertypeLoop).outcome == Completed
        <==> forall s | s in Supers(reg, order, t) :: s.MethodSubscription?
    ensures Invoke(Supers(reg, order, t), throws, SupertypeLoop).outcome.Threw?
        ==> Invoke(Supers(reg, order, t), throws, SupertypeLoop).outcome.failure.NullMethod?
  {
    InvokeCompletes(Supers(reg, order, t), throws, SupertypeLoop);
    InvokeFailureKind(Supers(reg, order, t), throws, SupertypeLoop);
  }

  /** A callback's own exception escapes `post` exactly when a matched callback throws. */
  lemma PostHandlerFailure(reg: Registry, order: seq<JType>, t: JType, throws: Subscription -> bool)
    ensures var o := PostSpec(reg, order, t, throws).outcome;
      o.Threw? && o.failure.HandlerFailure?
      <==> exists s | s in DeliveryList(reg, order, t) :: s.HandlerSubscription? && throws(s)
  {
    FirstLoopCompletes(reg, order, t, throws);
    SecondLoopCompletes(reg, order, t, throws);
  }

  /**
   * The second loop's null dereference escapes `post` exactly when no matched
   * callback throws and some callback is filed under a strict supertype.
   */
  lemma PostNullMethod(reg: Registry, order: seq<JType>, t: JType, throws: Subscription -> bool)
    ensures var o := PostSpec(reg, order, t, throws).outcome;
      o.Threw? && o.failure.NullMethod?
      <==> && (forall s | s in DeliveryList(reg, order, t) && s.HandlerSubscription? :: !throws(s))
           && exists s | s in Supers(reg, order, t) :: s.HandlerSubscription?
  {
    FirstLoopCompletes(reg, order, t, throws);
    SecondLoopCompletes(reg, order, t, throws);
  }

  /**
   * The report loop's null dereference escapes `post` exactly when no matched
   * callback throws, no strict-supertype entry is a callback, and a callback
   * is filed under the event's own class.
   */
  lemma PostNullSubscriber(reg: Registry, order: seq<JType>, t: JType, throws: Subscription -> bool)
    ensures var o := PostSpec(reg, order, t, throws).outcome;
      o.Threw? && o.failure.NullSubscriber?
      <==> && (forall s | s in DeliveryList(reg, order, t) && s.HandlerSubscription? :: !throws(s))
           && (forall s | s in Supers(reg, order, t) :: s.MethodSubscription?)
           && exists s | s in Lookup(reg, t) :: s.HandlerSubscription?
  {
    FirstLoopCompletes(reg, order, t, throws);
    SecondLoopCompletes(reg, order, t, throws);
    var subList, sup := DeliveryList(reg, order, t), Supers(reg, order, t);
    var first := Invoke(subList, throws, DeliveryLoop);
    var second := Invoke(sup, throws, SupertypeLoop);
    if first.outcome == Completed && second.outcome == Completed {
      assert PostSpec(reg, order, t, throws).outcome
          == if FirstHandler(subList).Some? then Threw(NullSubscriber(FirstHandler(subList).value)) else Completed;
      assert forall s | s in subList :: s in Lookup(reg, t) || s in sup;
      assert (exists s | s in subList :: s.HandlerSubscription?)
         <==> exists s | s in Lookup(reg, t) :: s.HandlerSubscription?;
    }
  }

  /**
   * No cross-category leakage: every subscription `post` invokes is filed
   * under the event's class or one of its supertypes.
   */
  lemma PostOnlyMatchingKeys(reg: Registry, order: seq<JType>, t: JType, throws: Subscription -> bool, c: Call)
    requires c in PostSpec(reg, order, t, throws).calls
    ensures exists k :: k in reg && AssignableFrom(k, t) && c.sub in reg[k]
  {
    PostFollowsDeliveryOrder(reg, order, t, throws);
    var calls := PostSpec(reg, order, t, throws).calls;
    var sup := Supers(reg, order, t);
    var i :| 0 <= i < |calls| && calls[i] == c;
    var all := Lookup(reg, t) + sup + sup;
    assert all[i] == c.sub;
    if i < |Lookup(reg, t)| {
      assert t in reg && c.sub in reg[t];
    } else {
      assert c.sub in sup;
      SupersFromSupertypeKeys(reg, order, t, c.sub);
    }
  }

  /** In a well-formed registry every bound method `post` invokes accepts the event as its argument. */
  lemma PostInvokesAcceptingMethods(reg: Registry, order: seq<JType>, t: JType, throws: Subscription -> bool, c: Call)
    requires WellFormed(reg)
    requires c in PostSpec(reg, order, t, throws).calls && c.sub.MethodSubscription?
    ensures IsHandlerMethod(c.sub.handlerMethod) && AssignableFrom(c.sub.handlerMethod.params[0], t)
  {
    PostOnlyMatchingKeys(reg, order, t, throws, c);
  }

  /** An event whose class has no matching key invokes nothing and returns normally. */
  lemma PostWithoutMatchingKey(reg: Registry, order: seq<JType>, t: JType, throws: Subscription -> bool)
    requires forall k | k in reg :: !AssignableFrom(k, t)
    ensures PostSpec(reg, order, t, throws) == Run([], Completed)
  {
    SupersEmpty(reg, order, t);
    assert DeliveryList(reg, order, t) == [];
  }

  // ---------------------------------------------------------------------
  // The bus

  class EventBus {
    var subscribers: Registry

    ghost predicate Valid()
      reads this
    {
      WellFormed(subscribers)
    }

    constructor ()
      ensures Valid() && subscribers == map[]
    {
      subscribers := map[];
    }

    /** Files every handler method of `subscriber` under its parameter type. */
    method Register(subscriber: Subscriber)
      requires Valid()
      modifies this
      ensures Valid()
      ensures subscribers == RegisterMethods(old(subscribers), subscriber.id, subscriber.declaredMethods)
    {
      var methods := subscriber.declaredMethods;
      var i := 0;
      while i < |methods|
        invariant 0 <= i <= |methods|
        invariant subscribers == RegisterMethods(old(subscribers), subscriber.id, methods[..i])
        invariant Valid()
      {
        var m := methods[i];
        if m.annotated {
          var parameterTypes := m.params;
          if |parameterTypes| == 1 && IsEventType(parameterTypes[0]) {
            var key := parameterTypes[0];
            var subList := if key in subscribers then subscribers[key] else [];
            subscribers := subscribers[key := subList + [MethodSubscription(subscriber.id, m)]];
          }
        }
        assert methods[..i + 1][..i] == methods[..i];
        i := i + 1;
      }
      assert methods[..i] == methods;
    }

    /** Files the callback under the explicit key. */
    method RegisterHandle(eventType: JType, handler: HandlerId)
      requires Valid() && IsEventType(eventType)
      modifies this
      ensures Valid()
      ensures subscribers == Add(old(subscribers), eventType, HandlerSubscription(handler))
    {
      var subList := if eventType in subscribers then subscribers[eventType] else [];
      subscribers := subscribers[eventType := subList + [HandlerSubscription(handler)]];
    }

    /**
     * Delivers `event`. `keyOrder` is the map's entry iteration order and
     * `throws` says which invocations raise. The registry is only read.
     */
    method Post(event: Event, keyOrder: seq<JType>, throws: Subscription -> bool)
      returns (calls: seq<Call>, outcome: Outcome)
      requires IsKeyOrder(keyOrder, subscribers)
      ensures Run(calls, outcome) == PostSpec(subscribers, keyOrder, TypeOf(event), throws)
    {
      var eventType := TypeOf(event);
      var subList := CollectSubscriptions(eventType, keyOrder);
      calls, outcome := InvokeEach(subList, throws, DeliveryLoop);
      if outcome.Threw? {
        return;
      }
      var again;
      again, outcome := InvokeSupertypeEntries(eventType, keyOrder, throws);
      calls := calls + again;
      if outcome.Threw? {
        return;
      }
      outcome := ReportSubscribers(subList);
    }

    /** Builds `subList`: the exact-class list, then each strict-supertype list in key order. */
    method CollectSubscriptions(eventType: JType, keyOrder: seq<JType>) returns (subList: seq<Subscription>)
      requires IsKeyOrder(keyOrder, subscribers)
      ensures subList == DeliveryList(subscribers, keyOrder, eventType)
    {
      subList := Lookup(subscribers, eventType);
      var i := 0;
      while i < |keyOrder|
        invariant 0 <= i <= |keyOrder|
        invariant subList == Lookup(subscribers, eventType) + Supers(subscribers, keyOrder[..i], eventType)
      {
        var key := keyOrder[i];
        if StrictSupertype(key, eventType) {
          subList := subList + subscribers[key];
        }
        assert keyOrder[..i + 1][..i] == keyOrder[..i];
        i := i + 1;
      }
      assert keyOrder[..i] == keyOrder;
    }

    /**
     * The second loop: walks the entries again and invokes the lists under
     * strict supertypes, assuming each entry is a bound method.
     */
    method InvokeSupertypeEntries(eventType: JType, keyOrder: seq<JType>, throws: Subscription -> bool)
      returns (calls: seq<Call>, outcome: Outcome)
      requires IsKeyOrder(keyOrder, subscribers)
      ensures Run(calls, outcome) == Invoke(Supers(subscribers, keyOrder, eventType), throws, SupertypeLoop)
    {
      calls := [];
      var i := 0;
      while i < |keyOrder|
        invariant 0 <= i <= |keyOrder|
        invariant Invoke(Supers(subscribers, keyOrder[..i], eventType), throws, SupertypeLoop) == Run(calls, Completed)
      {
        var key := keyOrder[i];
        SupersTurn(subscribers, keyOrder, i, eventType, throws, calls);
        if StrictSupertype(key, eventType) {
          var entries := subscribers[key];
          var more, result := InvokeEach(entries, throws, SupertypeLoop);
          calls := calls + more;
          if result.Threw? {
            outcome := result;
            SupersStop(subscribers, keyOrder, i + 1, eventType, throws);
            return;
          }
        }
        i := i + 1;
      }
      assert keyOrder[..i] == keyOrder;
      outcome := Completed;
    }
  }

  /**
   * One invocation loop of `post` over a list: a bound method is invoked and
   * its failure caught. In the first loop a callback is invoked and its
   * exception escapes; in the second its null method is dereferenced.
   */
  method InvokeEach(subs: seq<Subscription>, throws: Subscription -> bool, loop: Loop)
    returns (calls: seq<Call>, outcome: Outcome)
    ensures Run(calls, outcome) == Invoke(subs, throws, loop)
  {
    calls := [];
    var j := 0;
    while j < |subs|
      invariant 0 <= j <= |subs|
      invariant Invoke(subs[..j], throws, loop) == Run(calls, Completed)
    {
      var sub := subs[j];
      assert subs[..j + 1][..j] == subs[..j];
      match sub {
        case MethodSubscription(_, _) =>
          calls := calls + [Call(sub, throws(sub))];
        case HandlerSubscription(h) =>
          if loop == SupertypeLoop {
            outcome := Threw(NullMethod(h));
            InvokeStops(subs, j + 1, throws, loop);
            return;
          }
          calls := calls + [Call(sub, throws(sub))];
          if throws(sub) {
            outcome := Threw(HandlerFailure(h));
            InvokeStops(subs, j + 1, throws, loop);
            return;
          }
      }
      j := j + 1;
    }
    assert subs[..j] == subs;
    outcome := Completed;
  }

  /**
   * The report loop at the end of `post`: it reads each subscription's
   * subscriber, which is null for a callback.
   */
  method ReportSubscribers(subList: seq<Subscription>) returns (outcome: Outcome)
    ensures outcome == Completed <==> forall s | s in subList :: s.MethodSubscription?
    ensures outcome != Completed ==> outcome == Threw(NullSubscriber(FirstHandler(subList).value))
  {
    var j := 0;
    while j < |subList|
      invariant 0 <= j <= |subList|
      invariant FirstHandler(subList) == FirstHandler(subList[j..])
    {
      if subList[j].HandlerSubscription? {
        outcome := Threw(NullSubscriber(subList[j].handler));
        return;
      }
      assert subList[j..][1..] == subList[j + 1..];
      j := j + 1;
    }
    outcome := Completed;
  }
}
