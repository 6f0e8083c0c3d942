/** What `json.loads` gives. */
module JsonValues {
  datatype Json =
    | Null
    | Bool(b: bool)
    | Int(n: int)
    | Float(literal: string)
    | Text(s: string)
    | List(items: seq<Json>)
    | Object(members: map<string, Json>)

  /** `members.get(key)`. */
  function Get(members: map<string, Json>, key: string): Json {
    if key in members then members[key] else Null
  }
}
