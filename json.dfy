/** JSON values as the database's `Json` column type describes them. Numbers are integers here. */
module Json {
  datatype Json =
    | JNull
    | JBool(b: bool)
    | JNumber(n: int)
    | JString(s: string)
    | JArray(items: seq<Json>)
    | JObject(fields: map<string, Json>)
  {
    /** JavaScript's `typeof v === "object"`, which holds for arrays, objects and `null`. */
    predicate IsObjectType()
    {
      JNull? || JArray? || JObject?
    }
  }
}
