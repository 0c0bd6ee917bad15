/**
 `run_telecom_product_crew`: one validation run, then either an early return or
 a research run followed by an ideation run. The three agent runs and
 `json.loads` are opaque services passed in; every call the orchestrator makes
 to them is recorded, in order, in the run's trace.
 */
module Crew {
  import opened PyStrings
  import opened PyValues
  import opened Tasks

  /** The prefix that triggers the strip chain, and the argument of its first `strip`. */
  const Fence := "```json"
  const OffTopic := "RESPONSE_OFF_TOPIC:"
  const Incomplete := "RESPONSE_INCOMPLETE:"
  const InvalidCurrency := "RESPONSE_INVALID_CURRENCY:"
  const ParseErrorMessage := "Error: Unable to parse validation output as JSON."

  /** The keys copied from the validator's JSON into `validated_params`. */
  const ParamKeys: set<string> := {"country", "price_point", "features", "customer_segment", "original_prompt"}

  /** The services the orchestrator calls: the `.raw` of each crew's `kickoff`, and `json.loads`.
      The research task, search query included (`Tasks.SearchQuery`), is built from
      `validated_params` alone, so the researcher is a function of those parameters. The
      strategist sees the research output and the user prompt it is given. */
  datatype Services = Services(
    validate: string -> string,
    loads: string -> Loaded,
    research: map<string, Value> -> string,
    ideate: (string, Value) -> string)

  /** One call made during a run. */
  datatype Call =
    | Validate(prompt: string)
    | Parse(text: string)
    | Research(params: map<string, Value>)
    | Ideate(researchData: string, originalPrompt: Value)

  /** A returned string, or an exception that escapes the `try` (`.get` on a non-object). */
  datatype Outcome = Returned(text: string) | Raised

  datatype Run = Run(outcome: Outcome, calls: seq<Call>)

  /** The validator's output after the optional fence strip (lines 125-126). */
  function Unfence(raw: string): (out: string)
    ensures !StartsWith(raw, Fence) ==> out == raw
  {
    if StartsWith(raw, Fence) then
      Strip(Strip(Strip(raw, AnyOf(Fence)), AnyOf("```")), Whitespace)
    else
      raw
  }

  /** The early-return check of lines 128-130. Every sentinel begins with "RESPONSE_", so a
      reply that opens a JSON object is never taken for one. */
  function IsSentinel(s: string): (b: bool)
    ensures b ==> StartsWith(s, "RESPONSE_")
    ensures s != [] && s[0] == '{' ==> !b
  {
    SentinelLead(s, OffTopic);
    SentinelLead(s, Incomplete);
    SentinelLead(s, InvalidCurrency);
    StartsWith(s, OffTopic) || StartsWith(s, Incomplete) || StartsWith(s, InvalidCurrency)
  }

  /** A text that starts with a sentinel starts with "RESPONSE_". */
  lemma SentinelLead(s: string, p: string)
    requires p == OffTopic || p == Incomplete || p == InvalidCurrency
    ensures StartsWith(s, p) ==> StartsWith(s, "RESPONSE_")
  {
    if StartsWith(s, p) {
      assert p[..9] == "RESPONSE_";
      assert s[..9] == s[..|p|][..9];
    }
  }

  /** `validated_params`: the five keys, each the parsed value or `None` when absent. */
  function Project(result: map<string, Value>): (params: map<string, Value>)
    ensures params.Keys == ParamKeys
    ensures forall k :: k in params ==> params[k] == Get(result, k, Null)
  {
    map[
      "country" := Get(result, "country", Null),
      "price_point" := Get(result, "price_point", Null),
      "features" := Get(result, "features", Null),
      "customer_segment" := Get(result, "customer_segment", Null),
      "original_prompt" := Get(result, "original_prompt", Null)]
  }

  /** The calls of a run follow the pipeline's order and stop after validation, after
      parsing, or after ideation: no stage is repeated or skipped. */
  predicate StagesInOrder(calls: seq<Call>) {
    && (|calls| == 1 || |calls| == 2 || |calls| == 4)
    && calls[0].Validate?
    && (|calls| >= 2 ==> calls[1].Parse?)
    && (|calls| == 4 ==> calls[2].Research? && calls[3].Ideate?)
  }

  /** `run_telecom_product_crew(prompt)`: the fence strip, then the rest of the run on its result. */
  function RunCrew(prompt: string, svc: Services): (run: Run)
    ensures StagesInOrder(run.calls) && run.calls[0] == Validate(prompt)
    ensures |run.calls| >= 2 ==> run.calls[1] == Parse(Unfence(svc.validate(prompt)))
  {
    Dispatch(prompt, Unfence(svc.validate(prompt)), svc)
  }

  /** Lines 128-165 on the (possibly stripped) validator output `out`. */
  function Dispatch(prompt: string, out: string, svc: Services): (run: Run)
    ensures StagesInOrder(run.calls) && run.calls[0] == Validate(prompt)
    ensures |run.calls| >= 2 ==> run.calls[1] == Parse(out)
  {
    if IsSentinel(out) then
      Run(Returned(out), [Validate(prompt)])
    else
      match svc.loads(out)
      case JSONDecodeError =>
        Run(Returned(ParseErrorMessage), [Validate(prompt), Parse(out)])
      case Loaded(NonObject(_)) =>
        Run(Raised, [Validate(prompt), Parse(out)])
      case Loaded(Object(result)) =>
        var params := Project(result);
        var competitorData := svc.research(params);
        var userPrompt := params["original_prompt"];
        Run(Returned(svc.ideate(competitorData, userPrompt)),
            [Validate(prompt), Parse(out), Research(params), Ideate(competitorData, userPrompt)])
  }

  /** A sentinel ends the run with the (stripped) validator output; nothing is parsed,
      researched or ideated. Without a sentinel the run goes on. */
  lemma SentinelEndsRun(prompt: string, out: string, svc: Services)
    ensures IsSentinel(out) <==> Dispatch(prompt, out, svc).calls == [Validate(prompt)]
    ensures IsSentinel(out) ==> Dispatch(prompt, out, svc).outcome == Returned(out)
  {
    if !IsSentinel(out) {
      assert |Dispatch(prompt, out, svc).calls| >= 2;
    }
  }

  /** Outside a sentinel, a decode error gives the fixed message and stops after the parse;
      no other case gives that run. */
  lemma DecodeErrorEndsRun(prompt: string, out: string, svc: Services)
    ensures !IsSentinel(out) && svc.loads(out).JSONDecodeError?
      <==> Dispatch(prompt, out, svc) == Run(Returned(ParseErrorMessage), [Validate(prompt), Parse(out)])
  {
  }

  /** A parsed document that is not an object makes `.get` raise: no string is returned. */
  lemma NonObjectRaises(prompt: string, out: string, svc: Services)
    ensures !IsSentinel(out) && svc.loads(out).Loaded? && svc.loads(out).doc.NonObject?
      <==> Dispatch(prompt, out, svc).outcome == Raised
  {
  }

  /** A parsed object is projected, researched once on its projection, then ideated once on the
      research output and the parsed `original_prompt`; the ideation output is returned as is. */
  lemma ObjectRunsBothStages(prompt: string, out: string, svc: Services, m: map<string, Value>)
    requires !IsSentinel(out) && svc.loads(out) == Loaded(Object(m))
    ensures var run := Dispatch(prompt, out, svc);
      var params := Project(m);
      var data := svc.research(params);
      && run.calls == [Validate(prompt), Parse(out), Research(params), Ideate(data, Get(m, "original_prompt", Null))]
      && run.outcome == Returned(svc.ideate(data, Get(m, "original_prompt", Null)))
  {
  }

  /** A character that the fence strip chain may remove: one of "```json" or whitespace. */
  predicate IsFenceOrSpace(c: char) {
    c in Fence || IsSpace(c)
  }

  /** `out` is the slice of `raw` at `i`, with only fence characters and whitespace around it. */
  predicate FenceCutAt(raw: string, out: string, i: nat) {
    && i + |out| <= |raw|
    && raw[i..i + |out|] == out
    && (forall k :: 0 <= k < i ==> IsFenceOrSpace(raw[k]))
    && (forall k :: i + |out| <= k < |raw| ==> IsFenceOrSpace(raw[k]))
  }

  /** The second `strip("```")` of the chain never removes anything: after the first strip
      neither end is a backtick, since a backtick is one of the first strip's characters. */
  lemma {:induction false} BacktickStripIdle(s: string)
    ensures Strip(Strip(s, AnyOf(Fence)), AnyOf("```")) == Strip(s, AnyOf(Fence))
  {
    var t := Strip(s, AnyOf(Fence));
    StripCut(s, AnyOf(Fence));
    assert Fence[0] == '`';
    StripBare(t, AnyOf("```"));
  }

  /** The chain applied to a fenced output is, in effect, one `strip("```json")` followed by
      one `strip()`. */
  lemma {:induction false} UnfenceChain(raw: string)
    requires StartsWith(raw, Fence)
    ensures Unfence(raw) == Strip(Strip(raw, AnyOf(Fence)), Whitespace)
  {
    BacktickStripIdle(raw);
  }

  /** A fence-character cut followed by a whitespace cut is one cut of the original. */
  lemma FenceCutCompose(raw: string, t: string, out: string, i: nat, j: nat)
    requires CutAt(raw, t, i, AnyOf(Fence))
    requires CutAt(t, out, j, Whitespace)
    ensures FenceCutAt(raw, out, i + j)
  {
    CutCompose(raw, t, out, i, j, AnyOf(Fence), Whitespace);
  }

  /** `strip("```json")` then `strip()` only trims the ends of `raw`. */
  lemma {:induction false} ChainTrimsEnds(raw: string)
    ensures Bare(Strip(Strip(raw, AnyOf(Fence)), Whitespace), Whitespace)
    ensures exists i :: FenceCutAt(raw, Strip(Strip(raw, AnyOf(Fence)), Whitespace), i)
  {
    var t := Strip(raw, AnyOf(Fence));
    ChainTrimsEndsVia(raw, t, Strip(t, Whitespace), AnyOf(Fence));
  }

  /** `ChainTrimsEnds` on named intermediate results, which keeps the solver from unfolding
      the two strips into each other. */
  lemma {:induction false} ChainTrimsEndsVia(raw: string, t: string, out: string, a: StripArg)
    requires a == AnyOf(Fence) && t == Strip(raw, a) && out == Strip(t, Whitespace)
    ensures Bare(out, Whitespace)
    ensures exists i :: FenceCutAt(raw, out, i)
  {
    StripCut(raw, a);
    StripCut(t, Whitespace);
    TwoCutsOneFenceCut(raw, t, out, |raw| - |LStrip(raw, a)|, |t| - |LStrip(t, Whitespace)|);
  }

  /** A fence-character cut, then a bare whitespace cut, is one fence cut with a bare result. */
  lemma TwoCutsOneFenceCut(raw: string, t: string, out: string, i: nat, j: nat)
    requires CutAt(raw, t, i, AnyOf(Fence))
    requires CutAt(t, out, j, Whitespace) && Bare(out, Whitespace)
    ensures Bare(out, Whitespace)
    ensures exists k :: FenceCutAt(raw, out, k)
  {
    FenceCutCompose(raw, t, out, i, j);
  }

  /** The strip chain only trims the ends: its result is a contiguous slice of the raw output
      with only characters of "```json" and whitespace around it, and with no whitespace at
      either end. */
  lemma {:induction false} UnfenceTrimsEnds(raw: string)
    requires StartsWith(raw, Fence)
    ensures Bare(Unfence(raw), Whitespace)
    ensures exists i :: FenceCutAt(raw, Unfence(raw), i)
  {
    UnfenceChain(raw);
    ChainTrimsEnds(raw);
  }

  /** The chain's result from the results of its two effective steps. */
  lemma {:induction false} UnfenceVia(raw: string, t: string, out: string)
    requires StartsWith(raw, Fence)
    requires Strip(raw, AnyOf(Fence)) == t && Strip(t, Whitespace) == out
    ensures Unfence(raw) == out
  {
    UnfenceChain(raw);
  }

  /** The first strip of the chain trims a set, not a prefix: a fenced bare `null` loses its
      leading 'n' along with the fence. */
  lemma FenceStripEatsPayloadLetters()
    ensures Strip("```jsonnull```", AnyOf(Fence)) == "ull"
  {
    var raw := "```jsonnull```";
    var t := "ull";
    assert CutAt(raw, t, 8, AnyOf(Fence)) by {
      assert raw[8..11] == t;
      assert raw[..8] == "```jsonn";
      assert raw[11..] == "```";
    }
    StripKept(raw, t, 8, AnyOf(Fence));
  }

  /** So a fenced `null` reaches `json.loads` as "ull", which is not JSON. */
  lemma UnfenceEatsPayloadLetters()
    ensures Unfence("```jsonnull```") == "ull"
  {
    FenceStripEatsPayloadLetters();
    RemainderKeepsEnds("ull");
    UnfenceVia("```jsonnull```", "ull", "ull");
  }

  /** "ull" has no whitespace to trim. The text is a parameter fixed by `requires`, not a
      literal, so that the solver does not evaluate `strip` on it character by character. */
  lemma {:induction false} RemainderKeepsEnds(t: string)
    requires t == "ull"
    ensures Strip(t, Whitespace) == t
  {
    assert !IsSpace(t[0]) && !IsSpace(t[2]);
    StripBare(t, Whitespace);
  }

  /** The first strip of the chain on the usual fenced reply leaves the newlines. */
  lemma FenceStripOfFencedObject()
    ensures Strip("```json\n{}\n```", AnyOf(Fence)) == "\n{}\n"
  {
    var raw := "```json\n{}\n```";
    var t := "\n{}\n";
    assert CutAt(raw, t, 7, AnyOf(Fence)) by {
      assert raw[7..11] == t;
      assert raw[..7] == Fence;
      assert raw[11..] == "```";
    }
    StripKept(raw, t, 7, AnyOf(Fence));
  }

  /** The final `strip()` removes them. */
  lemma SpaceStripOfNewlines()
    ensures Strip("\n{}\n", Whitespace) == "{}"
  {
    var t := "\n{}\n";
    assert CutAt(t, "{}", 1, Whitespace) by {
      assert t[1..3] == "{}";
      assert t[..1] == "\n";
      assert t[3..] == "\n";
    }
    StripKept(t, "{}", 1, Whitespace);
  }

  /** So the usual fenced reply of the validator unwraps to its JSON text. */
  lemma UnfenceFencedObject()
    ensures Unfence("```json\n{}\n```") == "{}"
  {
    FenceStripOfFencedObject();
    SpaceStripOfNewlines();
    UnfenceVia("```json\n{}\n```", "\n{}\n", "{}");
  }

  /** `status`, and every other key outside the five, is never looked at: two parses that
      agree on the five keys give the same run. */
  lemma StatusNeverChecked(prompt: string, out: string, svc: Services, loads': string -> Loaded, m: map<string, Value>, m': map<string, Value>)
    requires svc.loads(out) == Loaded(Object(m)) && loads'(out) == Loaded(Object(m'))
    requires forall k :: k in ParamKeys ==> Get(m, k, Null) == Get(m', k, Null)
    ensures Dispatch(prompt, out, svc) == Dispatch(prompt, out, svc.(loads := loads'))
  {
    assert Project(m) == Project(m');
  }

  /** After validation the user's prompt is used for nothing but the record of the
      validation call: the outcome and every later call depend on the validator output alone.
      In particular ideation gets the parsed `original_prompt`, never the raw input. */
  lemma OnlyValidatorOutputMatters(prompt: string, prompt': string, out: string, svc: Services)
    ensures Dispatch(prompt, out, svc).outcome == Dispatch(prompt', out, svc).outcome
    ensures Dispatch(prompt, out, svc).calls[1..] == Dispatch(prompt', out, svc).calls[1..]
  {
  }

  /** On the validated path every key is present, so the `.get` defaults of the query ('' and
      'general') never apply: an absent or null field is rendered as "None". */
  lemma QueryOfValidatedParams(m: map<string, Value>)
    ensures SearchQuery(Project(m)) == QueryText(
      Render(Get(m, "country", Null)), Render(Get(m, "price_point", Null)),
      Render(Get(m, "features", Null)), Render(Get(m, "customer_segment", Null)))
  {
  }

  /** With a null or absent `customer_segment` the query ends in "None" and nothing is trimmed. */
  lemma NullSegmentQuery(m: map<string, Value>)
    requires Get(m, "customer_segment", Null) == Null
    ensures SearchQuery(Project(m)) == QueryLead + FieldLine(
      Render(Get(m, "country", Null)), Render(Get(m, "price_point", Null)),
      Render(Get(m, "features", Null)), "None")
  {
    QueryOfValidatedParams(m);
    QueryOfKeptEnd(Render(Get(m, "country", Null)), Render(Get(m, "price_point", Null)),
      Render(Get(m, "features", Null)), "None");
  }

  /** A reply with all four query fields null or absent is searched for as four "None"s. */
  lemma NullFieldsQuery(m: map<string, Value>)
    requires Get(m, "country", Null) == Null && Get(m, "price_point", Null) == Null
    requires Get(m, "features", Null) == Null && Get(m, "customer_segment", Null) == Null
    ensures SearchQuery(Project(m)) == "telecom mobile plans None None None None"
  {
    NullSegmentQuery(m);
    NoneLine("None");
  }

  /** The four "None"s joined behind the lead. As in `RemainderKeepsEnds`, the word is a
      parameter fixed by `requires` so that the solver compares the concatenation once. */
  lemma NoneLine(none: string)
    requires none == "None"
    ensures QueryLead + FieldLine(none, none, none, none) == "telecom mobile plans None None None None"
  {
  }

  /** A reply whose four query fields are strings of whitespace (empty ones included) is
      searched for as the lead without its trailing space. */
  lemma BlankFieldsQuery(m: map<string, Value>)
    requires forall k :: k in ParamKeys - {"original_prompt"} ==>
      Get(m, k, Null).Text? && Only(Get(m, k, Null).s, Whitespace)
    ensures SearchQuery(Project(m)) == "telecom mobile plans"
  {
    var country := Render(Get(m, "country", Null));
    var price := Render(Get(m, "price_point", Null));
    var features := Render(Get(m, "features", Null));
    var segment := Render(Get(m, "customer_segment", Null));
    QueryOfValidatedParams(m);
    assert Only(" ", Whitespace);
    OnlyAppend(country, " ", Whitespace);
    OnlyAppend(country + " ", price, Whitespace);
    OnlyAppend(country + " " + price, " ", Whitespace);
    OnlyAppend(country + " " + price + " ", features, Whitespace);
    OnlyAppend(country + " " + price + " " + features, " ", Whitespace);
    OnlyAppend(country + " " + price + " " + features + " ", segment, Whitespace);
    QueryTextShape(country, price, features, segment);
  }
}
