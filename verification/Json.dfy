/** The JSON values that profiles and documents are made of. Numbers and booleans are one case: Python's `==` takes
    `True` for 1, and nothing modelled here tells them apart. */
module Json {
  import opened Sequences

  datatype Json =
    | Null
    | Scalar(value: real)
    | Text(text: string)
    | List(items: seq<Json>)
    | Object(fields: map<string, Json>)

  /** A record: a JSON object. */
  type Record = map<string, Json>

  /** Nothing, or an empty string, list or object; 0 and `false` are values. */
  predicate IsEmpty(v: Json) {
    v == Null || v == Text("") || v == List([]) || v == Object(map[])
  }

  /** Python's truth value. */
  predicate Truthy(v: Json) {
    !IsEmpty(v) && v != Scalar(0.0)
  }

  /** `dict.get`. */
  function Get(r: Record, key: string): Json {
    if key in r then r[key] else Null
  }

  function At(r: Record, key: string): Option<Json> {
    if key in r then Some(r[key]) else None
  }

  type Path = seq<string>

  /** The value at a path of keys. */
  function Lookup(v: Json, path: Path): Option<Json>
    decreases |path|
  {
    if path == [] then Some(v)
    else if v.Object? && path[0] in v.fields then Lookup(v.fields[path[0]], path[1..])
    else None
  }

  lemma {:induction false} LookupAppend(v: Json, path: Path, rest: Path)
    ensures Lookup(v, path + rest) == if Lookup(v, path).Some? then Lookup(Lookup(v, path).value, rest) else None
    decreases |path|
  {
    if path == [] {
      assert path + rest == rest;
    } else {
      assert (path + rest)[0] == path[0] && (path + rest)[1..] == path[1..] + rest;
      if v.Object? && path[0] in v.fields { LookupAppend(v.fields[path[0]], path[1..], rest); }
    }
  }

  lemma LookupKeys(r: Record, key: string, inner: string)
    ensures Lookup(Object(r), [key]) == At(r, key)
    ensures Lookup(Object(r), [key, inner]) ==
            if key in r && r[key].Object? then At(r[key].fields, inner) else None
  {
    assert [key][1..] == [] && [key, inner][1..] == [inner] && [inner][1..] == [];
    assert key in r ==> Lookup(r[key], []) == Some(r[key]);
    if key in r && r[key].Object? && inner in r[key].fields {
      assert Lookup(r[key].fields[inner], []) == Some(r[key].fields[inner]);
      assert Lookup(r[key], [inner]) == Some(r[key].fields[inner]);
    }
  }
}
