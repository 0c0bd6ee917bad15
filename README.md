# Telecom product crew: the orchestration core

A model of `run_telecom_product_crew`, the entry point of the telecom product
assistant, and of the web-search query its research task computes. A user
prompt goes to a validator agent. The validator's raw reply may be wrapped in a
"```json" fence, which is stripped. If the reply starts with one of three
`RESPONSE_...:` sentinels it is returned as it is. Otherwise it is parsed as
JSON. Five keys of the parsed object become `validated_params`; a research agent
runs on a task built from them, search query included, and a strategist agent runs on the
research output and the parsed `original_prompt`. Its output is the result. A
JSON decode error becomes one fixed message.

The three agent runs (`Crew.kickoff(...).raw`) and `json.loads` are opaque
functions collected in `Crew.Services`. Each call the orchestrator makes is
recorded, in order, in the run's trace (`Crew.Call`). That is how "never
parsed" and "runs exactly once" are stated.

Modules:

- `PyStrings` (py_strings.dfy): Python's `str.startswith`, `lstrip`, `rstrip`
  and `strip`. `strip(chars)` drops characters of the SET `chars` at both ends;
  `strip()` drops CPython whitespace.
- `PyValues` (py_values.dfy): the values `json.loads` returns, Python's `str()`
  of them, and `dict.get`.
- `Tasks` (tasks.dfy): `search_query` of `competitor_market_research`.
- `Crew` (crew.dfy): the fence strip, the sentinel check, the projection into
  `validated_params`, the stage order and the error mapping.

Three facts about the code shape the model:

- Rejections are sentinel-prefixed strings, returned as they are (lines 128-131).
- The `.get` defaults `''` and `'general'` of the search query (lines 83-84)
  never apply on the orchestrator's path: every key of `validated_params` is
  present, possibly as `None`, so an absent field renders as "None"
  (`Crew.QueryOfValidatedParams`, `Crew.NullFieldsQuery`).
- The `.strip()` of the query (line 84) can only remove trailing whitespace,
  because the query starts with 't'. When every field renders blank the lead
  loses its trailing space too (`Tasks.QueryTextShape`, `Crew.BlankFieldsQuery`).

## Model

| member | source | states |
|---|---|---|
| `PyStrings.LStrip` | telecom_product_crew.py:126 | `lstrip` returns a suffix, everything before it is a dropped character, and it does not start with one |
| `PyStrings.RStrip` | telecom_product_crew.py:126 | `rstrip` returns a prefix, everything after it is a dropped character, and it does not end with one |
| `PyStrings.LStripAt` | telecom_product_crew.py:126 | conversely, any cut with only dropped characters before it and a kept character (or the end) at it is what `lstrip` returns |
| `PyStrings.RStripAt` | telecom_product_crew.py:84 | any cut with only dropped characters after it and a kept character (or the start) before it is what `rstrip` returns |
| `PyStrings.Strip` | telecom_product_crew.py:126 | `str.strip`, defined as `rstrip` after `lstrip` with the same argument; its result is characterised by `PyStrings.StripCut` and `PyStrings.StripUnique` |
| `PyStrings.StripCut` | telecom_product_crew.py:126 | `strip` returns a contiguous slice with only dropped characters around it and none at either end |
| `PyStrings.StripUnique` | telecom_product_crew.py:126 | those properties determine the result of `strip` uniquely |
| `PyStrings.StripBare` | telecom_product_crew.py:126 | a string with no dropped character at either end is left unchanged |
| `PyStrings.StripIdempotent` | telecom_product_crew.py:126 | stripping twice with the same argument equals stripping once |
| `PyStrings.RStripAppend` | telecom_product_crew.py:83-84 | `rstrip` of a concatenation keeps the head whole when the tail holds a kept character, and is `rstrip` of the head otherwise |
| `PyStrings.CutCompose` | telecom_product_crew.py:126 | two trims in a row leave a slice of the original with only characters of either trim around it |
| `PyValues.Render` | telecom_product_crew.py:83-84 | `str()` as the f-string applies it: a string renders as itself, and `None` and the booleans render as words that never end in whitespace |
| `Tasks.SearchQuery` | telecom_product_crew.py:83-84 | `search_query`, with the `.get` defaults of the source; whatever the parameters, it begins with "telecom mobile plans" |
| `Tasks.QueryTextPrefix` | telecom_product_crew.py:83-84 | whatever the four field renderings, the stripped f-string begins with "telecom mobile plans" |
| `Tasks.QueryTextShape` | telecom_product_crew.py:83-84 | only trailing whitespace is trimmed: the query is the lead plus the right-trimmed field line, or exactly "telecom mobile plans" when the line is all whitespace |
| `Tasks.QueryOfKeptEnd` | telecom_product_crew.py:83-84 | when the segment ends in a non-space character, the query is the untrimmed f-string |
| `Tasks.QueryOfBlankFields` | telecom_product_crew.py:83-84 | four empty fields give "telecom mobile plans", without the trailing space |
| `Tasks.QueryOfAbsentKeys` | telecom_product_crew.py:83-84 | with the four keys absent the `.get` defaults show: the lead, then "None", two empty fields and "general", space-separated |
| `Crew.Unfence` | telecom_product_crew.py:125-126 | output that does not start with "```json" reaches the sentinel check unchanged |
| `Crew.UnfenceChain` | telecom_product_crew.py:125-126 | on fenced output the chain equals `strip("```json")` then `strip()` |
| `Crew.BacktickStripIdle` | telecom_product_crew.py:126 | the middle `strip("```")` never removes anything |
| `Crew.ChainTrimsEnds` | telecom_product_crew.py:126 | `strip("```json")` then `strip()` leaves a slice of the input with only fence characters and whitespace around it and no whitespace at its ends |
| `Crew.UnfenceTrimsEnds` | telecom_product_crew.py:125-126 | the chain's result on fenced output is a contiguous slice of the raw output, with only "```json" characters and whitespace around it and no whitespace at its ends |
| `Crew.FenceStripEatsPayloadLetters` | telecom_product_crew.py:126 | `strip("```json")` removes a character set, not a prefix: "```jsonnull```" becomes "ull" |
| `Crew.UnfenceEatsPayloadLetters` | telecom_product_crew.py:125-126 | so a fenced `null` reaches `json.loads` as "ull" |
| `Crew.UnfenceFencedObject` | telecom_product_crew.py:125-126 | a reply fenced with newlines unwraps to the bare JSON text |
| `Crew.IsSentinel` | telecom_product_crew.py:128-130 | the three sentinel prefixes; each begins with "RESPONSE_", so a reply that opens a JSON object is never taken for a sentinel |
| `Crew.Project` | telecom_product_crew.py:135-141 | `validated_params` has exactly the five keys, each the parsed value or `None` when absent |
| `Crew.RunCrew` | telecom_product_crew.py:116-165 | calls follow validate, parse, research, ideate and stop after the first, second or fourth; validation sees the prompt, and the parse sees the stripped output |
| `Crew.Dispatch` | telecom_product_crew.py:128-165 | after the fence strip, the calls keep that order and the parse sees exactly the output the sentinel check saw |
| `Crew.SentinelEndsRun` | telecom_product_crew.py:128-131 | a sentinel prefix holds exactly when validation is the only call; the stripped output is then returned verbatim |
| `Crew.DecodeErrorEndsRun` | telecom_product_crew.py:133-165 | a non-sentinel output that fails to decode gives exactly the fixed error message after the parse, and no later call; and only then |
| `Crew.NonObjectRaises` | telecom_product_crew.py:134-136 | a decoded value that is not an object makes `.get` raise, and exactly then no string is returned |
| `Crew.ObjectRunsBothStages` | telecom_product_crew.py:143-162 | a decoded object is researched once on its projection, then ideated once on the research output and the parsed `original_prompt`; that output is returned unchanged |
| `Crew.StatusNeverChecked` | telecom_product_crew.py:135-141 | parses that agree on the five keys give the same run, so `status` and any other key are ignored |
| `Crew.OnlyValidatorOutputMatters` | telecom_product_crew.py:151-160 | prompts with the same validator output have the same outcome and later calls: ideation never sees the raw prompt |
| `Crew.QueryOfValidatedParams` | telecom_product_crew.py:83-84 | on projected parameters the query's `''` and `'general'` defaults never apply: absent fields render as "None" |
| `Crew.NullSegmentQuery` | telecom_product_crew.py:83-84 | a null or absent segment makes the query end in "None", untrimmed |
| `Crew.NullFieldsQuery` | telecom_product_crew.py:83-84 | a reply with all four query fields null or absent is searched for as "telecom mobile plans None None None None" |
| `Crew.BlankFieldsQuery` | telecom_product_crew.py:83-84 | a reply whose four query fields are whitespace strings is searched for as "telecom mobile plans" |

## Left out

- The Streamlit front end (demo_st.py): widgets, the session query counter, the CSV allow-list, downloads and feedback. demo_st.py is not part of this model.
- Construction of the language model, the agents and the search tool, `load_dotenv` and the `pysqlite3` shim (telecom_product_crew.py:1-62): configuration and foreign-library calls.
- The natural-language task descriptions given to the agents (telecom_product_crew.py:66-80, 86-112). They are instructions to a language model, so the rejection policy, the currency check and the intent classification are not modelled. The agents are opaque functions of what the code hands them.
- The internals of `Crew.kickoff` and `json.loads`: both are parameters. `json.loads` may give a decode error, an object, or a value that is not an object.
- Python's `str()` of numbers, lists and dicts: such a JSON value carries its rendering as text (`PyValues.Value.Other`). `None`, booleans and strings are rendered as Python does.
- Service failures such as network errors or quota errors. The services are total functions here. The only escaping exception modelled is the `AttributeError` of `.get` on a non-object, as `Crew.Outcome.Raised`. The `except json.JSONDecodeError` of lines 164-165 also encloses the research and ideation kickoffs (lines 149 and 157-160), so in the source a decode error raised inside either of them would also return the fixed message, after research has run; `Crew.DecodeErrorEndsRun`'s "and only then" holds for the model's total services only.
- Repeated invocations of the pipeline: every member is a function of its inputs, so two runs with the same services give the same result by construction.
- `Crew.ObjectRunsBothStages`: the research call is recorded with `validated_params` only. The research task, and the search query in it, is computed from those parameters alone, so the researcher is modelled as a function of them. The query text is stated separately, by the `Tasks` and `Crew` query lemmas.
