/** The untrusted request body as the HTTP framework hands it over after
    JSON parsing. An absent body behaves like `Null` everywhere in the core. */
module JsonValue {
  import opened Wrappers

  datatype Json =
    | Null
    | Bool(b: bool)
    | Num(n: int)
    | Str(s: string)
    | Array(items: seq<Json>)
    | Object(fields: map<string, Json>)

  /** Property access `data.key`: `None` stands for `undefined`. Arrays parsed
      from JSON have no named properties besides their elements. */
  function Field(data: Json, key: string): Option<Json> {
    match data
    case Object(fields) => if key in fields then Some(fields[key]) else None
    case _ => None
  }

  /** The property's value when it is a string. */
  function StringField(data: Json, key: string): Option<string> {
    match Field(data, key)
    case Some(Str(s)) => Some(s)
    case _ => None
  }
}
