/**
 JSON-like values as the runtime sees them after `json.loads`: Telegram
 updates, memory-record payloads and order-file lines. Objects keep their
 keys in insertion order, as Python dicts do. Floating-point numbers are
 not modelled.
 */
module Json {
  import opened Wrappers

  datatype Json =
    | JNull
    | JBool(b: bool)
    | JInt(i: int)
    | JStr(s: string)
    | JArr(items: seq<Json>)
    | JObj(fields: seq<(string, Json)>)

  /** `d.get(key)` on an object: the value of the first field named `key`. */
  function Get(v: Json, key: string): (r: Option<Json>)
    ensures r.Some? ==> v.JObj? && exists k :: 0 <= k < |v.fields| && v.fields[k] == (key, r.value)
    ensures v.JObj? && r.None? ==> forall k :: 0 <= k < |v.fields| ==> v.fields[k].0 != key
  {
    if !v.JObj? then None else Lookup(v.fields, key)
  }

  function Lookup(fields: seq<(string, Json)>, key: string): (r: Option<Json>)
    ensures r.Some? ==> exists k :: 0 <= k < |fields| && fields[k] == (key, r.value)
    ensures r.None? ==> forall k :: 0 <= k < |fields| ==> fields[k].0 != key
  {
    if |fields| == 0 then None
    else if fields[0].0 == key then Some(fields[0].1)
    else Lookup(fields[1..], key)
  }

  /** The first field named `key` decides the lookup. */
  lemma {:induction false} LookupAt(fields: seq<(string, Json)>, i: nat, key: string)
    requires i < |fields| && fields[i].0 == key
    requires forall j :: 0 <= j < i ==> fields[j].0 != key
    ensures Lookup(fields, key) == Some(fields[i].1)
    decreases i
  {
    if i > 0 {
      LookupAt(fields[1..], i - 1, key);
    }
  }

  /** A lookup in a concatenation reads the second part only when the first lacks the key. */
  lemma {:induction false} LookupConcat(a: seq<(string, Json)>, b: seq<(string, Json)>, key: string)
    ensures Lookup(a + b, key) == if Lookup(a, key).Some? then Lookup(a, key) else Lookup(b, key)
    decreases |a|
  {
    if a == [] {
      assert a + b == b;
    } else {
      assert (a + b)[0] == a[0];
      assert (a + b)[1..] == a[1..] + b;
      LookupConcat(a[1..], b, key);
    }
  }

  predicate HasKey(v: Json, key: string)
  {
    Get(v, key).Some?
  }

  function Keys(v: Json): seq<string>
  {
    if v.JObj? then seq(|v.fields|, k requires 0 <= k < |v.fields| => v.fields[k].0) else []
  }

  /** The value under `key` when it is an object (`isinstance(x, dict)`). */
  function GetObj(v: Json, key: string): Option<Json>
  {
    match Get(v, key)
    case Some(JObj(f)) => Some(JObj(f))
    case _ => None
  }

  /** The value under `key` when it is an int (booleans excluded). */
  function GetInt(v: Json, key: string): Option<int>
  {
    match Get(v, key)
    case Some(JInt(i)) => Some(i)
    case _ => None
  }

  /** The value under `key` when it is a string. */
  function GetStr(v: Json, key: string): Option<string>
  {
    match Get(v, key)
    case Some(JStr(s)) => Some(s)
    case _ => None
  }

  /** Python truthiness of a JSON value. */
  predicate Truthy(v: Json)
  {
    match v
    case JNull => false
    case JBool(b) => b
    case JInt(i) => i != 0
    case JStr(s) => s != []
    case JArr(a) => a != []
    case JObj(f) => f != []
  }

  /** `d.get(key)` where a missing key reads as `None`, the JSON null. */
  function GetOrNull(v: Json, key: string): Json
  {
    Get(v, key).GetOr(JNull)
  }

  /**
   Python `==` between a JSON value and an int: an int equal to it, or a
   boolean whose integer value (0 or 1) equals it.
   */
  predicate EqInt(v: Json, n: int)
  {
    match v
    case JInt(i) => i == n
    case JBool(b) => (if b then 1 else 0) == n
    case _ => false
  }

  /** `d[key] = value`: replace the first field named `key`, or append a new one. */
  function Set(v: Json, key: string, value: Json): (r: Json)
    requires v.JObj?
    ensures r.JObj? && Get(r, key) == Some(value)
    ensures forall k :: k != key ==> Get(r, k) == Get(v, k)
  {
    JObj(SetField(v.fields, key, value))
  }

  function SetField(fields: seq<(string, Json)>, key: string, value: Json): (r: seq<(string, Json)>)
    ensures Lookup(r, key) == Some(value)
    ensures forall k :: k != key ==> Lookup(r, k) == Lookup(fields, k)
  {
    if |fields| == 0 then [(key, value)]
    else if fields[0].0 == key then [(key, value)] + fields[1..]
    else [fields[0]] + SetField(fields[1..], key, value)
  }

  /** `d.pop(key, None)`: drop every field named `key`. */
  function Remove(v: Json, key: string): (r: Json)
    requires v.JObj?
    ensures r.JObj? && Get(r, key).None?
    ensures forall k :: k != key ==> Get(r, k) == Get(v, k)
  {
    JObj(RemoveField(v.fields, key))
  }

  function RemoveField(fields: seq<(string, Json)>, key: string): (r: seq<(string, Json)>)
    ensures Lookup(r, key).None?
    ensures forall k :: k != key ==> Lookup(r, k) == Lookup(fields, k)
  {
    if |fields| == 0 then []
    else if fields[0].0 == key then RemoveField(fields[1..], key)
    else [fields[0]] + RemoveField(fields[1..], key)
  }
}
