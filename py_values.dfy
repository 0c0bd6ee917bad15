/**
 The Python values that `json.loads` hands back to the orchestrator, Python's
 `str()` of them, and `dict.get`.
 */
module PyValues {
  import opened PyStrings

  /** A JSON value after `json.loads`. Numbers, lists and dicts are kept only
      through the text that Python's `str()` gives for them. */
  datatype Value = Null | Bool(b: bool) | Text(s: string) | Other(rendering: string)

  /** The top level of a parsed document: `.get` works only on a JSON object. */
  datatype Document = Object(members: map<string, Value>) | NonObject(value: Value)

  /** What `json.loads` does with a text: a document, or a `JSONDecodeError`. */
  datatype Loaded = Loaded(doc: Document) | JSONDecodeError

  /** Python's `str(v)`, as an f-string renders a value. A string renders as itself; `None`
      and the booleans render as words, so they never end in whitespace. */
  function Render(v: Value): (r: string)
    ensures v.Text? ==> r == v.s
    ensures v.Null? || v.Bool? ==> r != [] && !IsSpace(r[|r| - 1])
  {
    match v
    case Null => "None"
    case Bool(b) => if b then "True" else "False"
    case Text(s) => s
    case Other(rendering) => rendering
  }

  /** Python's `d.get(key, default)`. */
  function Get(d: map<string, Value>, key: string, default: Value): Value {
    if key in d then d[key] else default
  }
}
