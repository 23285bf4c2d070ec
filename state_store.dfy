/** The per-experiment state directory: flat JSON documents under fixed file
    names, each overwritten whole on every write. A name that is absent is a file
    that does not exist; `Corrupt` is a file `json.load` rejects. */
module StateStore {
  import opened Common
  import Strings

  /** A JSON document (numbers are integers; floating point is not modelled). */
  datatype Json =
    | JNull
    | JBool(b: bool)
    | JNum(n: int)
    | JStr(s: string)
    | JArr(items: seq<Json>)
    | JObj(fields: map<string, Json>)

  datatype File = Doc(json: Json) | Corrupt

  type Store = map<string, File>

  const PRIMARIES := "primaries"
  const MODE := "mode"
  const STOPPED_PRIMARY := "stopped_primary"
  const BLOCKED_PORTS := "block_node_port_random"
  const VALIDATOR_INFO_SUFFIX := "-validator-info"

  /** `<alias>-validator-info`, the snapshot file of one node. */
  function SnapshotFile(alias: string): string {
    alias + VALIDATOR_INFO_SUFFIX
  }

  lemma SnapshotFileInjective(a: string, b: string)
    requires SnapshotFile(a) == SnapshotFile(b)
    ensures a == b
  {
    assert a == SnapshotFile(a)[..|a|];
    assert b == SnapshotFile(b)[..|b|];
  }

  /** Python truthiness of a JSON value. */
  predicate Truthy(j: Json) {
    match j
    case JNull => false
    case JBool(b) => b
    case JNum(n) => n != 0
    case JStr(s) => s != ""
    case JArr(items) => items != []
    case JObj(fields) => fields != map[]
  }

  /** `j[key]` on a value loaded from JSON: KeyError for an absent key, TypeError
      for a value that is not an object. */
  function Field(j: Json, key: string): (r: Result<Json>)
    ensures r.Ok? <==> j.JObj? && key in j.fields
    ensures r.Ok? ==> r.value == j.fields[key]
    ensures r.Err? ==> r.error == (if j.JObj? then KeyError else TypeError)
  {
    match j
    case JObj(fields) => if key in fields then Ok(fields[key]) else Err(KeyError)
    case _ => Err(TypeError)
  }

  /** `j[k0][k1]...`: the first failing subscript decides the exception. */
  function Path(j: Json, keys: seq<string>): Result<Json>
    decreases |keys|
  {
    if keys == [] then Ok(j)
    else
      match Field(j, keys[0])
      case Err(e) => Err(e)
      case Ok(v) => Path(v, keys[1..])
  }

  /** `d.get(key, None)` on a loaded document; AttributeError unless it is an object. */
  function Get(j: Json, key: string): (r: Result<Option<Json>>)
    ensures r.Err? <==> !j.JObj?
    ensures j.JObj? ==> r == Ok(if key in j.fields then Some(j.fields[key]) else None)
  {
    match j
    case JObj(fields) => Ok(if key in fields then Some(fields[key]) else None)
    case _ => Err(AttributeError)
  }

  /** Opening and `json.load`-ing a file. */
  function Load(store: Store, name: string): (r: Result<Json>)
    ensures r.Ok? <==> name in store && store[name].Doc?
    ensures r.Ok? ==> r.value == store[name].json
    ensures r.Err? ==> r.error == (if name in store then DecodeError else FileNotFound)
  {
    if name !in store then Err(FileNotFound)
    else match store[name]
      case Corrupt => Err(DecodeError)
      case Doc(j) => Ok(j)
  }

  /** `str(v)` for the values the modelled documents hold: an integer or a string. */
  function TextOf(v: Json): Result<string>
  {
    match v
    case JStr(s) => Ok(s)
    case JNum(n) => Ok(Strings.IntToString(n))
    case _ => Err(Unmodelled)
  }

  /** A list of JSON strings, as written for lists of aliases. */
  function StrList(xs: seq<string>): (r: Json)
    ensures r.JArr? && |r.items| == |xs| && forall i :: 0 <= i < |xs| ==> r.items[i] == JStr(xs[i])
  {
    JArr(seq(|xs|, i requires 0 <= i < |xs| => JStr(xs[i])))
  }

  /** Reads a JSON list back as a list of strings. */
  function AsStrList(j: Json): (r: Result<seq<string>>)
    ensures j.JArr? && (forall i :: 0 <= i < |j.items| ==> j.items[i].JStr?) <==> r.Ok?
    ensures r.Ok? ==> |r.value| == |j.items| && forall i :: 0 <= i < |r.value| ==> j.items[i] == JStr(r.value[i])
  {
    if j.JArr? && forall i :: 0 <= i < |j.items| ==> j.items[i].JStr? then
      Ok(seq(|j.items|, i requires 0 <= i < |j.items| => j.items[i].s))
    else Err(Unmodelled)
  }

  lemma StrListRoundTrip(xs: seq<string>)
    ensures AsStrList(StrList(xs)) == Ok(xs)
  {
    var r := AsStrList(StrList(xs));
    assert r.Ok?;
    assert r.value == xs;
  }
}
