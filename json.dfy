/**
 * Already-parsed JSON values as the session engine sees them after
 * `JSON.parse`. An object is an association list in creation order, from
 * which `Api.ObjectKeys` derives the order `Object.keys` reports.
 */
module Json {
  import opened Wrappers

  datatype Json =
    | JNull
    | JBool(b: bool)
    | JNum(n: int)
    | JStr(s: string)
    | JArr(items: seq<Json>)
    | JObj(fields: seq<Field>)

  datatype Field = Field(key: string, value: Json)

  /** `Object.hasOwnProperty.call(obj, key)` on an object with these fields. */
  predicate HasKey(fields: seq<Field>, key: string) {
    exists i :: 0 <= i < |fields| && fields[i].key == key
  }

  /** `obj[key]`: the value under the first field named `key`, or undefined. */
  function Lookup(fields: seq<Field>, key: string): (r: Option<Json>)
    ensures r.Some? <==> HasKey(fields, key)
    ensures r.Some? ==> exists i :: 0 <= i < |fields| && fields[i] == Field(key, r.value)
  {
    if fields == [] then None
    else if fields[0].key == key then Some(fields[0].value)
    else
      var r := Lookup(fields[1..], key);
      assert forall i :: 1 <= i < |fields| ==> fields[i] == fields[1..][i - 1];
      r
  }

  /** Lookup in a sequence of fields, one field at a time. */
  lemma LookupCons(f: Field, rest: seq<Field>, key: string)
    ensures Lookup([f] + rest, key) == if f.key == key then Some(f.value) else Lookup(rest, key)
  {
    assert ([f] + rest)[1..] == rest;
  }

  /** Property access `v[key]` on any value: only objects carry own keys here. */
  function Member(v: Json, key: string): (r: Option<Json>)
    ensures r.Some? ==> v.JObj? && HasKey(v.fields, key)
  {
    if v.JObj? then Lookup(v.fields, key) else None
  }

  /** A copy of the fields with every field named `key` dropped, in order (`delete copy[key]`). */
  function Without(fields: seq<Field>, key: string): (r: seq<Field>)
    ensures !HasKey(r, key)
    ensures forall k :: k != key ==> Lookup(r, k) == Lookup(fields, k)
    ensures |r| <= |fields|
  {
    if fields == [] then []
    else if fields[0].key == key then Without(fields[1..], key)
    else [fields[0]] + Without(fields[1..], key)
  }

  /** The keys an object has, each once. */
  function KeySet(fields: seq<Field>): (ks: set<string>)
    ensures forall k :: k in ks <==> HasKey(fields, k)
  {
    set i | 0 <= i < |fields| :: fields[i].key
  }

  /** JavaScript truthiness: `null`, `false`, `0` and `""` are falsy, every other value truthy. */
  predicate Truthy(v: Json) {
    match v
    case JNull => false
    case JBool(b) => b
    case JNum(n) => n != 0
    case JStr(s) => s != ""
    case _ => true
  }

  /** An array or an object: what `Array.isArray(x) || x === Object(x)` accepts. */
  predicate Structured(v: Json) {
    v.JArr? || v.JObj?
  }
}
