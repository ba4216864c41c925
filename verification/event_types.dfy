/**
 * The static class graph that stands in for Java's `Class.isAssignableFrom`.
 * Each class token used as a registry key or as a handler's parameter type is
 * a `JType`; every type except `Object` has exactly one parent, so the graph
 * is a tree rooted at `Object`.
 */
module EventTypes {
  import opened Wrappers

  datatype JType =
    | ObjectType            // java.lang.Object
    | EventType             // the marker interface Event
    | NewsEventType         // abstract class NewsEvent implements Event
    | SportsNewsType        // SportsNewsEvent extends NewsEvent
    | PoliticalNewsType     // PoliticalNewsEvent extends NewsEvent
    | CultureNewsType       // CultureNewsEvent extends NewsEvent
    | TemperatureType       // TemperatureEvent implements Event
    | WaterLevelType        // WaterLevelEvent implements Event
    | OtherType(id: nat)    // any class outside the event hierarchy (String, a display class, ...)

  /** The direct supertype of `t`, if any. */
  function Parent(t: JType): Option<JType>
  {
    match t
    case ObjectType => None
    case EventType => Some(ObjectType)
    case OtherType(_) => Some(ObjectType)
    case NewsEventType => Some(EventType)
    case TemperatureType => Some(EventType)
    case WaterLevelType => Some(EventType)
    case SportsNewsType => Some(NewsEventType)
    case PoliticalNewsType => Some(NewsEventType)
    case CultureNewsType => Some(NewsEventType)
  }

  /** Distance from `Object`; it strictly decreases along `Parent`. */
  function Depth(t: JType): nat
  {
    match t
    case ObjectType => 0
    case EventType => 1
    case OtherType(_) => 1
    case NewsEventType => 2
    case TemperatureType => 2
    case WaterLevelType => 2
    case SportsNewsType => 3
    case PoliticalNewsType => 3
    case CultureNewsType => 3
  }

  /** `sup.isAssignableFrom(sub)`: `sup` is `sub` or one of its ancestors. */
  predicate AssignableFrom(sup: JType, sub: JType)
    ensures sup == sub ==> AssignableFrom(sup, sub)
    ensures sup == ObjectType ==> AssignableFrom(sup, sub)
    decreases Depth(sub)
  {
    sup == sub || (Parent(sub).Some? && AssignableFrom(sup, Parent(sub).value))
  }

  /** The key test of the reflective bus: an ancestor, but not the type itself. */
  predicate StrictSupertype(sup: JType, sub: JType)
    ensures StrictSupertype(sup, sub) ==> Depth(sup) < Depth(sub)
  {
    AssignableFrom(sup, sub) && (AssignableFromDepth(sup, sub); sup != sub)
  }

  /** `Event.class.isAssignableFrom(t)`. */
  predicate IsEventType(t: JType)
    ensures IsEventType(t) ==> t != ObjectType && !t.OtherType?
  {
    assert !AssignableFrom(EventType, ObjectType);
    AssignableFrom(EventType, t)
  }

  /** The classes an event object can actually have at run time. */
  predicate IsConcreteEvent(t: JType)
  {
    t == SportsNewsType || t == PoliticalNewsType || t == CultureNewsType
    || t == TemperatureType || t == WaterLevelType
  }

  lemma {:induction false} AssignableFromDepth(sup: JType, sub: JType)
    requires AssignableFrom(sup, sub)
    ensures Depth(sup) <= Depth(sub)
    ensures Depth(sup) == Depth(sub) ==> sup == sub
    decreases Depth(sub)
  {
    if sup != sub {
      AssignableFromDepth(sup, Parent(sub).value);
    }
  }

  /** Assignability is transitive along the class graph. */
  lemma {:induction false} AssignableFromTransitive(a: JType, b: JType, c: JType)
    requires AssignableFrom(a, b) && AssignableFrom(b, c)
    ensures AssignableFrom(a, c)
    decreases Depth(c)
  {
    if b != c {
      AssignableFromTransitive(a, b, Parent(c).value);
    }
  }

  /** Assignability is antisymmetric, so it is a partial order on classes. */
  lemma AssignableFromAntisymmetric(a: JType, b: JType)
    requires AssignableFrom(a, b) && AssignableFrom(b, a)
    ensures a == b
  {
    AssignableFromDepth(a, b);
    AssignableFromDepth(b, a);
  }

  /** A concrete event class is a leaf: it is assignable only from itself. */
  lemma ConcreteEventIsLeaf(k: JType, t: JType)
    requires IsConcreteEvent(k) && AssignableFrom(k, t)
    ensures k == t
  {
    AssignableFromDepth(k, t);
    if k != t {
      assert Depth(t) == 3;
      assert Parent(t) == Some(NewsEventType);
      assert AssignableFrom(k, NewsEventType);
      AssignableFromDepth(k, NewsEventType);
    }
  }

  /** The abstract news category matches exactly itself and its three subclasses. */
  lemma NewsCategoryMatches(t: JType)
    ensures AssignableFrom(NewsEventType, t)
        <==> t in {NewsEventType, SportsNewsType, PoliticalNewsType, CultureNewsType}
  {
    if AssignableFrom(NewsEventType, t) && t != NewsEventType {
      AssignableFromDepth(NewsEventType, t);
      assert Depth(t) == 3;
    }
  }

  /**
   * The keys that the reflective bus treats as strict supertypes of a
   * concrete event class: `Object`, `Event`, and `NewsEvent` for news.
   */
  lemma StrictSupertypesOfConcrete(k: JType, t: JType)
    requires IsConcreteEvent(t)
    ensures StrictSupertype(k, t)
        <==> k == ObjectType || k == EventType
             || (k == NewsEventType && t in {SportsNewsType, PoliticalNewsType, CultureNewsType})
  {
    if StrictSupertype(k, t) {
      AssignableFromDepth(k, t);
      var p := Parent(t).value;
      assert AssignableFrom(k, p);
      if k != p {
        var q := Parent(p).value;
        assert AssignableFrom(k, q);
        if k != q {
          assert Parent(q) == Some(ObjectType);
          assert AssignableFrom(k, ObjectType);
        }
      }
    }
  }
}
