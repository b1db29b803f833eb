/**
 * Parsed JSON values.
 *
 * A record is the sequence of its own properties in insertion order. A number
 * is the text JavaScript prints for it, with its value when that is a safe
 * integer.
 */
module Values {
  import opened Common

  datatype Value =
    | Null
    | Bool(truth: bool)
    | Number(numeral: string, integer: Option<int>)
    | Text(text: string)
    | List(items: seq<Value>)
    | Record(entries: Fields)

  type Fields = seq<(string, Value)>

  const MAX_SAFE_INTEGER := 0x1F_FFFF_FFFF_FFFF

  predicate SafeInteger(n: int) { -MAX_SAFE_INTEGER <= n <= MAX_SAFE_INTEGER }

  /** JSON.parse never yields two properties with one name. */
  predicate DistinctKeys(fields: Fields) {
    forall i, j | 0 <= i < j < |fields| :: fields[i].0 != fields[j].0
  }

  function Properties(fields: Fields): map<string, Value> {
    if fields == [] then map[]
    else
      var last := fields[|fields| - 1];
      Properties(fields[..|fields| - 1])[last.0 := last.1]
  }

  /** `record[key]` for a parsed record. */
  function Property(v: Value, key: string): Option<Value> {
    if v.Record? && key in Properties(v.entries) then Some(Properties(v.entries)[key]) else None
  }

  /** The text a value is, if it is one. */
  function TextOf(v: Option<Value>): Option<string> {
    if v.Some? && v.value.Text? then Some(v.value.text) else None
  }

  /** The safe integer a value is, if it is one. */
  function IntegerOf(v: Option<Value>): Option<int> {
    if v.Some? && v.value.Number? && v.value.integer.Some? && SafeInteger(v.value.integer.value)
    then v.value.integer else None
  }

  /** JavaScript's `Boolean(value)`. */
  predicate Truthy(v: Option<Value>) {
    v.Some?
    && match v.value
       case Null => false
       case Bool(b) => b
       case Number(_, n) => n != Some(0)
       case Text(t) => t != ""
       case List(_) => true
       case Record(_) => true
  }
}
