/** The Python values json.loads produces, and the text Python's str() gives
    them (used wherever the pipeline formats an oracle-supplied value into a title). */
module JsonValues {
  import opened Common

  /** A decoded JSON value. An object keeps its keys in document order, as a
      Python dict does; a number carries the text Python's str() prints for it. */
  datatype Json =
    | JNull
    | JBool(b: bool)
    | JNumber(text: string)
    | JString(s: string)
    | JArray(items: seq<Json>)
    | JObject(entries: seq<(string, Json)>)

  /** Python's str(): a string is itself, everything else is its repr(). */
  function Str(j: Json): string
  {
    if j.JString? then j.s else Repr(j)
  }

  function Repr(j: Json): string
  {
    match j
    case JNull => "None"
    case JBool(b) => if b then "True" else "False"
    case JNumber(text) => text
    case JString(s) => ReprString(s)
    case JArray(items) =>
      "[" + Join(seq(|items|, i requires 0 <= i < |items| => Repr(items[i])), ", ") + "]"
    case JObject(entries) =>
      "{" + Join(seq(|entries|, i requires 0 <= i < |entries| =>
                         ReprString(entries[i].0) + ": " + Repr(entries[i].1)), ", ") + "}"
  }

  /** Python's repr() of a str: single quotes unless the text holds a single
      quote and no double quote; backslash, the chosen quote, tab, newline and
      carriage return are escaped. */
  function ReprString(s: string): string
  {
    var q := if '\'' in s && '"' !in s then '"' else '\'';
    [q] + EscapeAll(s, q) + [q]
  }

  function EscapeAll(s: string, q: char): string
  {
    if s == [] then "" else Escape(s[0], q) + EscapeAll(s[1..], q)
  }

  function Escape(c: char, q: char): string
  {
    if c == '\\' then "\\\\"
    else if c == q then ['\\', q]
    else if c == '\t' then "\\t"
    else if c == '\n' then "\\n"
    else if c == '\r' then "\\r"
    else [c]
  }
}
