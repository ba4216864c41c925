/**
 * `NewsAgency.publishNews`: a category name, compared case-insensitively,
 * picks which news subclass wraps the chosen headline.
 */
module NewsAgency {
  import opened Wrappers
  import opened Events

  /** The four headlines the agency picks from. */
  const Headlines: seq<string> :=
    ["Breaking news!", "Big update!", "Shocking event!", "Important announcement!"]

  function LowerChar(c: char): char
  {
    if 'A' <= c <= 'Z' then (c as int + 32) as char else c
  }

  /** `String.toLowerCase` restricted to the ASCII letters. */
  function ToLower(s: string): (r: string)
    ensures |r| == |s|
    ensures forall i :: 0 <= i < |s| ==> r[i] == LowerChar(s[i])
  {
    if s == [] then [] else [LowerChar(s[0])] + ToLower(s[1..])
  }

  lemma ToLowerIdempotent(s: string)
    ensures ToLower(ToLower(s)) == ToLower(s)
  {
    assert forall i :: 0 <= i < |s| ==> LowerChar(LowerChar(s[i])) == LowerChar(s[i]);
  }

  /** The `switch (category.toLowerCase())` of `publishNews`. */
  function CategoryKind(category: string): (r: Option<NewsKind>)
    ensures r == Some(Sports) <==> ToLower(category) == "sports"
    ensures r == Some(Political) <==> ToLower(category) == "political"
    ensures r == Some(Culture) <==> ToLower(category) == "culture"
    ensures r == None <==> ToLower(category) !in {"sports", "political", "culture"}
  {
    var c := ToLower(category);
    if c == "sports" then Some(Sports)
    else if c == "political" then Some(Political)
    else if c == "culture" then Some(Culture)
    else None
  }

  /** Routing ignores the letter case of the category. */
  lemma CategoryCaseInsensitive(category: string)
    ensures CategoryKind(ToLower(category)) == CategoryKind(category)
  {
    ToLowerIdempotent(category);
  }

  /**
   * The event `publishNews(category)` posts, given the index the random
   * choice produced; None for an unknown category, which posts nothing.
   */
  function PublishedNews(agency: AgencyId, category: string, pick: nat): (r: Option<Event>)
    requires pick < |Headlines|
    ensures r.Some? <==> CategoryKind(category).Some?
    ensures r.Some? ==>
              && r.value.NewsEvent?
              && r.value.agency == agency
              && TypeOf(r.value) == NewsClass(CategoryKind(category).value)
              && SplitContent(r.value.content) == Some((CategoryKind(category).value, Headlines[pick]))
  {
    match CategoryKind(category)
    case None => None
    case Some(kind) =>
      SplitContentRoundTrip(kind, agency, Headlines[pick]);
      Some(NewNewsEvent(kind, agency, Headlines[pick]))
  }
}
