/** Values carried by a decoded request body or stored in a column. */
module Values {

  /** A scalar of a request payload or a table cell. Dates are whole day numbers. */
  datatype Value = Null | Str(s: string) | Int(n: int) | Date(day: int)

  /** A request body as `$request->all()` yields it: field name to value. */
  type Payload = map<string, Value>

  /** The attributes of a stored row; the row's id is its key in the table, not an attribute. */
  type Row = map<string, Value>

  /** A key that is absent reads as null, as `data_get` and Eloquent attribute access do. */
  function Get(m: map<string, Value>, key: string): Value
  {
    if key in m then m[key] else Null
  }

  /** The characters PHP's `trim` strips by default. */
  predicate TrimmedAway(c: char)
  {
    c == ' ' || c == '\t' || c == '\n' || c == '\r' || c == '\0' || c == '\U{0B}'
  }

  /** A string that `trim` turns into the empty string. */
  predicate IsBlank(s: string)
  {
    forall i :: 0 <= i < |s| ==> TrimmedAway(s[i])
  }

  /** What the `required` rule accepts: not null and not a blank string. */
  predicate Filled(v: Value)
  {
    !v.Null? && !(v.Str? && IsBlank(v.s))
  }
}
