/**
 * Event values: the two sensor readings and the three kinds of news, with
 * the category prefix every news constructor puts in front of its text.
 */
module Events {
  import opened Wrappers
  import opened EventTypes

  type SensorId = nat
  type AgencyId = nat

  datatype NewsKind = Sports | Political | Culture

  datatype Event =
    | TemperatureEvent(sensor: SensorId, temperature: int)
    | WaterLevelEvent(sensor: SensorId, waterLevel: int)
    | NewsEvent(kind: NewsKind, agency: AgencyId, content: string)

  /** The class of a news event of the given kind. */
  function NewsClass(kind: NewsKind): JType
  {
    match kind
    case Sports => SportsNewsType
    case Political => PoliticalNewsType
    case Culture => CultureNewsType
  }

  /** `event.getClass()`: always a concrete class below `Event`. */
  function TypeOf(e: Event): (t: JType)
    ensures IsConcreteEvent(t) && IsEventType(t)
    ensures e.NewsEvent? <==> AssignableFrom(NewsEventType, t)
  {
    match e
    case TemperatureEvent(_, _) => TemperatureType
    case WaterLevelEvent(_, _) => WaterLevelType
    case NewsEvent(kind, _, _) => NewsClass(kind)
  }

  /** The text each news subclass constructor prepends to its content. */
  function Prefix(kind: NewsKind): (r: string)
    ensures |r| >= 3 && r[0] == '[' && r[|r| - 2..] == "] "
  {
    match kind
    case Sports => "[Sports] "
    case Political => "[Political] "
    case Culture => "[Cultural] "
  }

  /** `new SportsNewsEvent(agency, text)` and its two siblings. */
  function NewNewsEvent(kind: NewsKind, agency: AgencyId, text: string): (e: Event)
    ensures e.NewsEvent? && TypeOf(e) == NewsClass(kind) && e.agency == agency
    ensures Prefix(kind) <= e.content && e.content[|Prefix(kind)|..] == text
  {
    NewsEvent(kind, agency, Prefix(kind) + text)
  }

  /** Reads back the category and the original text from a stored content. */
  function SplitContent(content: string): Option<(NewsKind, string)>
  {
    if Prefix(Sports) <= content then Some((Sports, content[|Prefix(Sports)|..]))
    else if Prefix(Political) <= content then Some((Political, content[|Prefix(Political)|..]))
    else if Prefix(Culture) <= content then Some((Culture, content[|Prefix(Culture)|..]))
    else None
  }

  /** No prefix is a prefix of another one, so the category is recoverable. */
  lemma PrefixesDistinguish(k1: NewsKind, k2: NewsKind, text: string)
    requires Prefix(k1) <= Prefix(k2) + text
    ensures k1 == k2
  {
    var s := Prefix(k2) + text;
    assert s[1] == Prefix(k2)[1];
    assert s[1] == Prefix(k1)[1];
  }

  /** The stored content determines the category and the original text. */
  lemma {:induction false} SplitContentRoundTrip(kind: NewsKind, agency: AgencyId, text: string)
    ensures SplitContent(NewNewsEvent(kind, agency, text).content) == Some((kind, text))
  {
    var s := Prefix(kind) + text;
    assert s[|Prefix(kind)|..] == text;
    if Prefix(Sports) <= s { PrefixesDistinguish(Sports, kind, text); }
    if Prefix(Political) <= s { PrefixesDistinguish(Political, kind, text); }
  }

  /** Conversely, a content that splits is the prefix of its category followed by its text. */
  lemma SplitContentSound(content: string)
    requires SplitContent(content).Some?
    ensures Prefix(SplitContent(content).value.0) + SplitContent(content).value.1 == content
  {
  }
}
