// The slice of Python's value semantics that the bot's code depends on:
// JSON-shaped values as `json.loads` returns them, the exceptions the code
// can raise, truthiness, `dict.get`, subscripting, iteration, `len`, `in`,
// `str()` and `str.join` over an iterable.

module Py {
  import opened Strings

  /** A JSON-shaped Python value. `JObj` lists its keys in insertion order
      (the order in which Python iterates a dict) beside the key-value map. */
  datatype JValue =
    | JNull
    | JBool(b: bool)
    | JNum(n: int)
    | JStr(s: string)
    | JArr(items: seq<JValue>)
    | JObj(keys: seq<string>, fields: map<string, JValue>)

  /** A dict as `json.loads` builds it: each key once, keys and map in agreement. */
  ghost predicate WellFormedObject(v: JValue) {
    v.JObj? &&
    (forall i, j :: 0 <= i < j < |v.keys| ==> v.keys[i] != v.keys[j]) &&
    (forall k :: k in v.fields <==> k in v.keys)
  }

  /** The exceptions the modelled code raises or lets propagate. */
  datatype Exc =
    | KeyError(key: JValue)
    | IndexError
    | TypeError
    | AttributeError
    | AssertionError
    | ValueError
    | FileNotFoundError(path: string)
    | DownloadError(message: string)
    | RequestError
    | Raised(name: string)

  /** A computation that returns a value or raises. */
  datatype Result<+T> = Ok(value: T) | Err(exc: Exc) {
    predicate IsFailure() {
      Err?
    }

    function PropagateFailure<U>(): Result<U>
      requires Err?
    {
      Err(exc)
    }

    function Extract(): T
      requires Ok?
    {
      value
    }
  }

  /** `bool(v)`. */
  predicate Truthy(v: JValue) {
    match v
    case JNull => false
    case JBool(b) => b
    case JNum(n) => n != 0
    case JStr(s) => s != ""
    case JArr(items) => items != []
    case JObj(keys, _) => keys != []
  }

  /** `v.get(key, default)`: only a dict has a `get` method. */
  function Get(v: JValue, key: string, default: JValue): (r: Result<JValue>)
    ensures v.JObj? <==> r.Ok?
    ensures v.JObj? && key in v.fields ==> r.value == v.fields[key]
    ensures v.JObj? && key !in v.fields ==> r.value == default
  {
    if v.JObj? then Ok(if key in v.fields then v.fields[key] else default)
    else Err(AttributeError)
  }

  /** `v[key]` for a string key. */
  function Subscript(v: JValue, key: string): (r: Result<JValue>)
    ensures r.Ok? <==> v.JObj? && key in v.fields
    ensures r.Ok? ==> r.value == v.fields[key]
    ensures v.JObj? && key !in v.fields ==> r == Err(KeyError(JStr(key)))
    ensures !v.JObj? ==> r == Err(TypeError)
  {
    if !v.JObj? then Err(TypeError)
    else if key in v.fields then Ok(v.fields[key])
    else Err(KeyError(JStr(key)))
  }

  /** `v[0]`. */
  function First(v: JValue): Result<JValue> {
    match v
    case JArr(items) => if items == [] then Err(IndexError) else Ok(items[0])
    case JStr(s) => if s == "" then Err(IndexError) else Ok(JStr([s[0]]))
    case JObj(_, _) => Err(KeyError(JNum(0)))
    case _ => Err(TypeError)
  }

  /** The elements `for x in v` visits. */
  function Iterate(v: JValue): (r: Result<seq<JValue>>)
    ensures v.JArr? ==> r == Ok(v.items)
  {
    match v
    case JArr(items) => Ok(items)
    case JStr(s) => Ok(seq(|s|, i requires 0 <= i < |s| => JStr([s[i]])))
    case JObj(keys, _) => Ok(seq(|keys|, i requires 0 <= i < |keys| => JStr(keys[i])))
    case _ => Err(TypeError)
  }

  /** `len(v)`. */
  function Len(v: JValue): Result<nat> {
    match v
    case JArr(items) => Ok(|items|)
    case JStr(s) => Ok(|s|)
    case JObj(keys, _) => Ok(|keys|)
    case _ => Err(TypeError)
  }

  /** `key in v` for a string `key`. */
  function Contains(v: JValue, key: string): (r: Result<bool>)
    ensures v.JObj? ==> r == Ok(key in v.fields)
  {
    match v
    case JObj(_, fields) => Ok(key in fields)
    case JArr(items) => Ok(JStr(key) in items)
    case JStr(s) => Ok(exists i | 0 <= i <= |s| :: StartsWith(s[i..], key))
    case _ => Err(TypeError)
  }

  /** `str(v)`. Lists and dicts are written as `[...]` and `{...}`: the
      `repr` of their elements (quoting and escaping) is not modelled. */
  function Str(v: JValue): string {
    match v
    case JNull => "None"
    case JBool(b) => if b then "True" else "False"
    case JNum(n) => IntToString(n)
    case JStr(s) => s
    case JArr(_) => "[...]"
    case JObj(_, _) => "{...}"
  }

  /** The strings of `vs`, or TypeError when one of them is not a string. */
  function StrItems(vs: seq<JValue>): (r: Result<seq<string>>)
    ensures r.Ok? <==> forall i :: 0 <= i < |vs| ==> vs[i].JStr?
    ensures r.Ok? ==> |r.value| == |vs| && forall i :: 0 <= i < |vs| ==> r.value[i] == vs[i].s
    ensures r.Err? ==> r.exc == TypeError
    decreases |vs|
  {
    if |vs| == 0 then Ok([])
    else if !vs[0].JStr? then Err(TypeError)
    else
      var rest :- StrItems(vs[1..]);
      Ok([vs[0].s] + rest)
  }

  /** `sep.join(v)` for an iterable `v`. */
  function JoinIterable(sep: string, v: JValue): Result<string> {
    var elems :- Iterate(v);
    var strs :- StrItems(elems);
    Ok(Join(sep, strs))
  }

  /** `[x[key] for x in vs]`, evaluated left to right: the first failing
      subscript is the exception raised. */
  function EachSubscript(vs: seq<JValue>, key: string): (r: Result<seq<JValue>>)
    ensures r.Ok? <==> forall i :: 0 <= i < |vs| ==> Subscript(vs[i], key).Ok?
    ensures r.Ok? ==> |r.value| == |vs| && forall i :: 0 <= i < |vs| ==> r.value[i] == Subscript(vs[i], key).value
    ensures r.Err? && (forall i :: 0 <= i < |vs| ==> vs[i].JObj?) ==> r.exc == KeyError(JStr(key))
    decreases |vs|
  {
    if |vs| == 0 then Ok([])
    else
      var head :- Subscript(vs[0], key);
      var rest :- EachSubscript(vs[1..], key);
      Ok([head] + rest)
  }

  const Unknown: JValue := JStr("Unknown")

  /** HTTP headers as `requests` takes them. */
  type Headers = map<string, string>

  /** `json.loads(requests.get(url, headers=headers).content)`: the network and
      the JSON decoder are a collaborator that returns a value or raises. */
  type HttpGet = (Headers, string) -> Result<JValue>
}
