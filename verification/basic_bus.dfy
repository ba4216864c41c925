/**
 * `BasicEventBusImpl`: a flat, insertion-ordered list of (event type,
 * subscriber) pairs. Publishing walks the list and informs every entry whose
 * type is the event's class or one of its supertypes.
 */
module BasicBus {
  import opened EventTypes
  import opened Events

  /** Subscribers are compared by identity, modelled as an id. */
  type SubscriberId = nat

  datatype Subscription = Subscription(eventType: JType, subscriber: SubscriberId)

  /** `removeIf` with the predicate "same type and same subscriber". */
  function Without(subs: seq<Subscription>, p: Subscription): (r: seq<Subscription>)
    ensures forall x :: x in r <==> x in subs && x != p
    decreases |subs|
  {
    if subs == [] then []
    else
      var init, last := subs[..|subs| - 1], subs[|subs| - 1];
      assert subs == init + [last];
      Without(init, p) + (if last == p then [] else [last])
  }

  /** Removal drops every copy of the pair and keeps every other entry as often as before. */
  lemma {:induction false} WithoutCounts(subs: seq<Subscription>, p: Subscription)
    ensures multiset(Without(subs, p)) == multiset(subs)[p := 0]
    decreases |subs|
  {
    if subs != [] {
      var init, last := subs[..|subs| - 1], subs[|subs| - 1];
      assert subs == init + [last];
      WithoutCounts(init, p);
    }
  }

  /** Proof step: `Without` unfolded at a slice. */
  lemma WithoutSnoc(subs: seq<Subscription>, i: nat, p: Subscription)
    requires i < |subs|
    ensures Without(subs[..i + 1], p) == Without(subs[..i], p) + (if subs[i] == p then [] else [subs[i]])
  {
    assert subs[..i + 1][..i] == subs[..i];
  }

  /** Removal keeps the other entries in their original relative order. */
  lemma {:induction false} WithoutDistributes(a: seq<Subscription>, b: seq<Subscription>, p: Subscription)
    ensures Without(a + b, p) == Without(a, p) + Without(b, p)
    decreases |b|
  {
    if b == [] {
      assert a + b == a;
    } else {
      var b', last := b[..|b| - 1], b[|b| - 1];
      assert (a + b)[..|a + b| - 1] == a + b';
      WithoutDistributes(a, b', p);
    }
  }

  /** Unsubscribing changes nothing exactly when the pair is absent. */
  lemma WithoutNoOp(subs: seq<Subscription>, p: Subscription)
    ensures Without(subs, p) == subs <==> p !in subs
  {
    if p !in subs {
      WithoutAbsent(subs, p);
    } else {
      assert p !in Without(subs, p);
    }
  }

  lemma {:induction false} WithoutAbsent(subs: seq<Subscription>, p: Subscription)
    requires p !in subs
    ensures Without(subs, p) == subs
    decreases |subs|
  {
    if subs != [] {
      var init := subs[..|subs| - 1];
      assert subs == init + [subs[|subs| - 1]];
      WithoutAbsent(init, p);
    }
  }

  /** Unsubscribing twice is the same as unsubscribing once. */
  lemma WithoutIdempotent(subs: seq<Subscription>, p: Subscription)
    ensures Without(Without(subs, p), p) == Without(subs, p)
  {
    WithoutAbsent(Without(subs, p), p);
  }

  /**
   * `subscribe(t, s)` followed by `unsubscribe(t, s)` restores the list
   * exactly when the pair was not there before.
   */
  lemma SubscribeThenUnsubscribe(subs: seq<Subscription>, p: Subscription)
    ensures Without(subs + [p], p) == subs <==> p !in subs
  {
    WithoutDistributes(subs, [p], p);
    assert Without([p], p) == [];
    WithoutNoOp(subs, p);
  }

  /** The entries a publish of an event of class `t` is meant to reach, in list order. */
  function Matching(subs: seq<Subscription>, t: JType): (r: seq<Subscription>)
    ensures forall x :: x in r <==> x in subs && AssignableFrom(x.eventType, t)
    ensures forall x :: multiset(r)[x] == if AssignableFrom(x.eventType, t) then multiset(subs)[x] else 0
    decreases |subs|
  {
    if subs == [] then []
    else
      var init, last := subs[..|subs| - 1], subs[|subs| - 1];
      assert subs == init + [last];
      Matching(init, t) + (if AssignableFrom(last.eventType, t) then [last] else [])
  }

  /** What one `publish` did: the entries informed, and whether it returned normally. */
  datatype Delivery = Delivery(informed: seq<Subscription>, completed: bool)

  /**
   * The loop of `publish`: inform each matching entry in order; an exception
   * from `inform` is not caught, so the walk stops after the failing entry.
   */
  function PublishRun(subs: seq<Subscription>, t: JType, fails: SubscriberId -> bool): (r: Delivery)
    ensures |r.informed| <= |subs|
    decreases |subs|
  {
    if subs == [] then Delivery([], true)
    else
      var before := PublishRun(subs[..|subs| - 1], t, fails);
      var x := subs[|subs| - 1];
      if !before.completed || !AssignableFrom(x.eventType, t) then before
      else Delivery(before.informed + [x], !fails(x.subscriber))
  }

  /**
   * Publishing informs, in list order and once per entry, a prefix of the
   * matching entries, and all of them when it returns normally.
   */
  lemma {:induction false} PublishInformsMatching(subs: seq<Subscription>, t: JType, fails: SubscriberId -> bool)
    ensures PublishRun(subs, t, fails).informed <= Matching(subs, t)
    ensures PublishRun(subs, t, fails).completed ==> PublishRun(subs, t, fails).informed == Matching(subs, t)
    decreases |subs|
  {
    if subs != [] {
      var init := subs[..|subs| - 1];
      PublishInformsMatching(init, t, fails);
    }
  }

  /** `publish` returns normally exactly when no matching subscriber fails. */
  lemma {:induction false} PublishCompletesIff(subs: seq<Subscription>, t: JType, fails: SubscriberId -> bool)
    ensures PublishRun(subs, t, fails).completed
        <==> forall x | x in Matching(subs, t) :: !fails(x.subscriber)
    decreases |subs|
  {
    if subs != [] {
      var init, x := subs[..|subs| - 1], subs[|subs| - 1];
      var m := Matching(init, t);
      assert Matching(subs, t) == m + (if AssignableFrom(x.eventType, t) then [x] else []);
      PublishCompletesIff(init, t, fails);
    }
  }

  /**
   * When an `inform` throws, the last entry informed is the one that failed
   * and every entry informed before it succeeded.
   */
  lemma {:induction false} PublishStopsAtFailure(subs: seq<Subscription>, t: JType, fails: SubscriberId -> bool)
    ensures !PublishRun(subs, t, fails).completed ==>
              var informed := PublishRun(subs, t, fails).informed;
              && informed != []
              && fails(informed[|informed| - 1].subscriber)
              && forall i | 0 <= i < |informed| - 1 :: !fails(informed[i].subscriber)
    decreases |subs|
  {
    if subs != [] {
      PublishStopsAtFailure(subs[..|subs| - 1], t, fails);
      PublishSucceededSoFar(subs[..|subs| - 1], t, fails);
    }
  }

  lemma {:induction false} PublishSucceededSoFar(subs: seq<Subscription>, t: JType, fails: SubscriberId -> bool)
    ensures PublishRun(subs, t, fails).completed ==>
              forall x | x in PublishRun(subs, t, fails).informed :: !fails(x.subscriber)
    decreases |subs|
  {
    if subs != [] {
      PublishSucceededSoFar(subs[..|subs| - 1], t, fails);
    }
  }

  /** A subscriber registered under an unrelated class is never informed. */
  lemma NoLeakage(subs: seq<Subscription>, t: JType, fails: SubscriberId -> bool, x: Subscription)
    requires x in PublishRun(subs, t, fails).informed
    ensures AssignableFrom(x.eventType, t) && x in subs
  {
    PublishInformsMatching(subs, t, fails);
    var m := Matching(subs, t);
    var informed := PublishRun(subs, t, fails).informed;
    var i :| 0 <= i < |informed| && informed[i] == x;
    assert m[i] == x;
  }

  class EventBus {
    var subscriptions: seq<Subscription>

    constructor ()
      ensures subscriptions == []
    {
      subscriptions := [];
    }

    /** Appends one pair at the end; duplicates are allowed. */
    method Subscribe(eventType: JType, subscriber: SubscriberId)
      modifies this
      ensures subscriptions == old(subscriptions) + [Subscription(eventType, subscriber)]
    {
      subscriptions := subscriptions + [Subscription(eventType, subscriber)];
    }

    /** Removes every pair equal to (eventType, subscriber), keeping the rest in order. */
    method Unsubscribe(eventType: JType, subscriber: SubscriberId)
      modifies this
      ensures subscriptions == Without(old(subscriptions), Subscription(eventType, subscriber))
    {
      var p := Subscription(eventType, subscriber);
      var subs := subscriptions;
      var kept: seq<Subscription> := [];
      var i := 0;
      while i < |subs|
        invariant 0 <= i <= |subs|
        invariant kept == Without(subs[..i], p)
      {
        var s := subs[i];
        WithoutSnoc(subs, i, p);
        if !(s.eventType == eventType && s.subscriber == subscriber) {
          kept := kept + [s];
        }
        i := i + 1;
      }
      assert subs[..i] == subs;
      subscriptions := kept;
    }

    /**
     * Informs the matching entries in list order; `completed` is false when
     * an `inform` threw, which ends the call. The list is only read.
     */
    method Publish(event: Event, fails: SubscriberId -> bool) returns (informed: seq<Subscription>, completed: bool)
      ensures Delivery(informed, completed) == PublishRun(subscriptions, TypeOf(event), fails)
    {
      var t := TypeOf(event);
      informed, completed := [], true;
      var i := 0;
      while i < |subscriptions|
        invariant 0 <= i <= |subscriptions|
        invariant Delivery(informed, true) == PublishRun(subscriptions[..i], t, fails)
      {
        var s := subscriptions[i];
        assert subscriptions[..i + 1][..i] == subscriptions[..i];
        if AssignableFrom(s.eventType, t) {
          informed := informed + [s];
          if fails(s.subscriber) {
            completed := false;
            PublishStops(subscriptions, i + 1, t, fails);
            return;
          }
        }
        i := i + 1;
      }
      assert subscriptions[..i] == subscriptions;
    }
  }

  /** Once an `inform` has thrown, the rest of the list changes nothing. */
  lemma {:induction false} PublishStops(subs: seq<Subscription>, n: nat, t: JType, fails: SubscriberId -> bool)
    requires n <= |subs| && !PublishRun(subs[..n], t, fails).completed
    ensures PublishRun(subs, t, fails) == PublishRun(subs[..n], t, fails)
    decreases |subs| - n
  {
    if n < |subs| {
      var init := subs[..|subs| - 1];
      assert init[..n] == subs[..n];
      PublishStops(init, n, t, fails);
    } else {
      assert subs[..n] == subs;
    }
  }

  /**
   * A subscriber registered only under the abstract news category is
   * informed once by a sports event and once by a political event.
   */
  lemma NewsScenario(human: SubscriberId, agency: AgencyId, never: SubscriberId -> bool)
    requires forall s :: !never(s)
    ensures var subs := [Subscription(NewsEventType, human)];
      && PublishRun(subs, TypeOf(NewNewsEvent(Sports, agency, "Breaking news!")), never)
         == Delivery(subs, true)
      && PublishRun(subs, TypeOf(NewNewsEvent(Political, agency, "Big update!")), never)
         == Delivery(subs, true)
  {
    var subs := [Subscription(NewsEventType, human)];
    assert subs[..0] == [];
  }
}
