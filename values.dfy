/** Values shared by every layer of the model: optional values, identifiers and
    the shapes a JSON request field can take. */
module Values {

  /** A value that may be `undefined` in the source. */
  datatype Option<+T> = None | Some(value: T)

  /** A document identifier: the string form of a database object id. */
  type Id = string

  /** A request field that the handler inspects with `Array.isArray` or
      `typeof`: absent, a single string, or an array of strings. */
  datatype Field = Absent | Text(text: string) | List(items: seq<string>)

  /** JavaScript truthiness of an optional string: `undefined` and `""` are falsy. */
  predicate Given(s: Option<string>)
  {
    s.Some? && s.value != ""
  }

  /** JavaScript truthiness of a `Field`: an array is truthy even when empty. */
  predicate FieldGiven(f: Field)
  {
    match f
    case Absent => false
    case Text(t) => t != ""
    case List(_) => true
  }
}
