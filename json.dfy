/** The values rows and response bodies are made of. */
module Json {
  /** A JSON value as the PostgreSQL driver returns a column and as `res.json`
      serialises a body. Numbers are integers in this model. */
  datatype Value =
    | JNull
    | JBool(b: bool)
    | JNumber(n: int)
    | JString(s: string)
    | JArray(items: seq<Value>)
    | JObject(fields: map<string, Value>)

  /** One result row: column name to value. */
  type Row = map<string, Value>
}
