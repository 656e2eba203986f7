/** JSON values as request bodies are parsed and response bodies are serialised. */
module JsonData {
  import opened Wrappers

  datatype Json =
    | JNull
    | JBool(b: bool)
    | JNumber(n: int)
    | JString(s: string)
    | JArray(items: seq<Json>)
    | JObject(fields: map<string, Json>)

  /** `body[name]` on a parsed body: `None` stands for `undefined`. */
  function Member(body: Json, name: string): Option<Json> {
    if body.JObject? && name in body.fields then Some(body.fields[name]) else None
  }

  /** The string held by `body[name]`; only meaningful once a schema has checked it is one. */
  function StringMember(body: Json, name: string): string {
    match Member(body, name)
    case Some(JString(s)) => s
    case _ => ""
  }

  /** A JSON value the way Prisma returns an optional column: the string, or `null`. */
  function NullableString(v: Option<string>): Json {
    match v
    case Some(s) => JString(s)
    case None => JNull
  }
}
