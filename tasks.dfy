/**
 The one computed string of `TelecomProductTasks`: the web-search query that
 `competitor_market_research` hands to the search tool.
 */
module Tasks {
  import opened PyStrings
  import opened PyValues

  const QueryLead := "telecom mobile plans "

  /** The four field renderings joined by single spaces, as the f-string lays them out. */
  function FieldLine(country: string, price: string, features: string, segment: string): string {
    country + " " + price + " " + features + " " + segment
  }

  /** The f-string after the lead, followed by `.strip()`. */
  function QueryText(country: string, price: string, features: string, segment: string): string {
    Strip(QueryLead + FieldLine(country, price, features, segment), Whitespace)
  }

  /** `search_query` of `competitor_market_research`, with the `.get` defaults of the source:
      none for `country`, the empty string for `price_point` and `features`, "general" for
      `customer_segment`. Whatever the parameters, the query begins with "telecom mobile
      plans"; the space after it survives only when some field is not blank. */
  function SearchQuery(params: map<string, Value>): (q: string)
    ensures StartsWith(q, "telecom mobile plans")
  {
    var country := Render(Get(params, "country", Null));
    var price := Render(Get(params, "price_point", Text("")));
    var features := Render(Get(params, "features", Text("")));
    var segment := Render(Get(params, "customer_segment", Text("general")));
    QueryTextPrefix(country, price, features, segment);
    QueryText(country, price, features, segment)
  }

  /** Whatever the four fields, the query text begins with "telecom mobile plans". */
  lemma {:induction false} QueryTextPrefix(country: string, price: string, features: string, segment: string)
    ensures StartsWith(QueryText(country, price, features, segment), "telecom mobile plans")
  {
    var line := FieldLine(country, price, features, segment);
    var lead := "telecom mobile plans";
    QueryTextShape(country, price, features, segment);
    if HasKept(line, Whitespace) {
      assert QueryLead[..20] == lead;
      PrefixOfAppend(QueryLead, RStrip(line, Whitespace), lead);
    }
  }

  /** A prefix of the head is a prefix of the whole. */
  lemma PrefixOfAppend(a: string, b: string, p: string)
    requires |p| <= |a| && a[..|p|] == p
    ensures StartsWith(a + b, p)
  {
    assert (a + b)[..|p|] == a[..|p|];
  }

  /** The leading 't' stops `.strip()` from the left, so only trailing whitespace goes: the
      query is the lead and the right-trimmed field line when that line holds a non-space
      character, and the lead without its trailing space when it does not. */
  lemma {:induction false} QueryTextShape(country: string, price: string, features: string, segment: string)
    ensures var line := FieldLine(country, price, features, segment);
      && (HasKept(line, Whitespace) ==> QueryText(country, price, features, segment) == QueryLead + RStrip(line, Whitespace))
      && (!HasKept(line, Whitespace) ==> QueryText(country, price, features, segment) == "telecom mobile plans")
  {
    var line := FieldLine(country, price, features, segment);
    var full := QueryLead + line;
    LStripAt(full, 0, Whitespace);
    RStripAppend(QueryLead, line, Whitespace);
    RStripAt(QueryLead, 20, Whitespace);
  }

  /** When the last field ends in a non-space character nothing is trimmed at all. */
  lemma {:induction false} QueryOfKeptEnd(country: string, price: string, features: string, segment: string)
    requires segment != [] && !IsSpace(segment[|segment| - 1])
    ensures QueryText(country, price, features, segment) == QueryLead + FieldLine(country, price, features, segment)
  {
    var line := FieldLine(country, price, features, segment);
    assert line[|line| - 1] == segment[|segment| - 1];
    assert HasKept(line, Whitespace);
    assert line[..|line|] == line;
    RStripAt(line, |line|, Whitespace);
    QueryTextShape(country, price, features, segment);
  }

  /** When every field renders blank the trailing space of the lead goes too. */
  lemma QueryOfBlankFields()
    ensures QueryText("", "", "", "") == "telecom mobile plans"
  {
    var line := FieldLine("", "", "", "");
    assert line == "   ";
    assert !HasKept(line, Whitespace);
    QueryTextShape("", "", "", "");
  }

  /** Off the validated path, with the four keys absent, the defaults show: nothing for the
      price and the features, "general" for the segment, "None" for the country. */
  lemma QueryOfAbsentKeys(params: map<string, Value>)
    requires "country" !in params && "price_point" !in params
    requires "features" !in params && "customer_segment" !in params
    ensures SearchQuery(params) == QueryLead + FieldLine("None", "", "", "general")
  {
    var country := Render(Get(params, "country", Null));
    var price := Render(Get(params, "price_point", Text("")));
    var features := Render(Get(params, "features", Text("")));
    var segment := Render(Get(params, "customer_segment", Text("general")));
    QueryOfKeptEnd(country, price, features, segment);
  }
}
