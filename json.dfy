/**
 * An already-parsed JSON document, as nlohmann::json holds it. An object keeps its
 * members in a std::map, so they are listed here in ascending key order.
 */
module Json {
  import opened Outcomes

  datatype Json =
    | Number(number: real)
    | Text(text: string)
    | Boolean(boolean: bool)
    | Null
    | Array(items: seq<Json>)
    | Object(members: seq<(string, Json)>)

  /** basic_json::is_primitive: null, string, boolean or number. */
  predicate IsPrimitive(j: Json) {
    j.Number? || j.Text? || j.Boolean? || j.Null?
  }

  /** std::string's operator<: character by character, a proper prefix first. */
  predicate StringLess(a: string, b: string) {
    if a == [] then b != []
    else if b == [] then false
    else if a[0] != b[0] then a[0] < b[0]
    else StringLess(a[1..], b[1..])
  }

  lemma {:induction false} StringLessIrreflexive(a: string)
    ensures !StringLess(a, a)
  {
    if a != [] {
      StringLessIrreflexive(a[1..]);
    }
  }

  /** The members of an object in the order a std::map visits them: keys strictly ascending. */
  predicate IsMemberList(ms: seq<(string, Json)>) {
    forall i, j | 0 <= i < j < |ms| :: StringLess(ms[i].0, ms[j].0)
  }

  /** An object never holds two members with the same key. */
  lemma MemberKeysDistinct(ms: seq<(string, Json)>)
    requires IsMemberList(ms)
    ensures forall i, j | 0 <= i < j < |ms| :: ms[i].0 != ms[j].0
  {
    forall i, j | 0 <= i < j < |ms| ensures ms[i].0 != ms[j].0 {
      StringLessIrreflexive(ms[i].0);
    }
  }

  /**
   * get<std::map<std::string, json>>(): the members of an object; any other value
   * makes nlohmann throw a type_error.
   */
  function AsObject(j: Json): (r: Result<seq<(string, Json)>>)
    ensures r.Ok? <==> j.Object?
    ensures r.Ok? ==> r.value == j.members
    ensures r.Err? ==> r.error == NotAnObject
  {
    if j.Object? then Ok(j.members) else Err(NotAnObject)
  }
}
