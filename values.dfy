/**
 * The Python objects the converter stores in table cells and reads from REST
 * records: a string, or a list of strings (the JSON arrays the REST API
 * returns for previous symbols and aliases).
 */
module Values {
  import opened Wrappers

  /** A string or a list of strings. */
  datatype Obj = Str(text: string) | Strs(items: seq<string>)

  /** A cell or a field read with `.get`: Python `None` or an object. */
  type Value = Option<Obj>

  /** Python truthiness: None, `""` and `[]` are false. */
  predicate Truthy(v: Value) {
    v.Some? && match v.value
      case Str(s) => s != ""
      case Strs(l) => l != []
  }

  /** A text cell of the snapshot as an object cell. */
  function FromText(v: Option<string>): (r: Value)
    ensures v.None? <==> r.None?
    ensures v.Some? ==> r == Some(Str(v.value))
  {
    match v
    case None => None
    case Some(s) => Some(Str(s))
  }

  /** Whether `set.add` accepts the value: a list is unhashable and makes it raise TypeError. */
  predicate Hashable(v: Value) {
    v.None? || v.value.Str?
  }
}
