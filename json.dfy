/** Decoded JSON documents, as json.loads returns them.  The text-to-value
    decoding itself is not modelled: wherever the agent decodes a buffer, the
    model is given the decoded value beside the raw text. */
module Json {
  import opened Wrappers

  datatype Value =
    | Null
    | Bool(b: bool)
    | Int(i: int)
    | Str(s: string)
    | List(items: seq<Value>)
    | Object(fields: map<string, Value>)

  /** `v[key]` on a decoded document: a TypeError unless `v` is a dict, a
      KeyError when the key is missing. */
  function Field(v: Value, key: string): (r: Result<Value, Error>)
    ensures r.Success? <==> v.Object? && key in v.fields
    ensures r.Success? ==> r.value == v.fields[key]
    ensures !v.Object? ==> r == Failure(TypeError)
  {
    if !v.Object? then Failure(TypeError)
    else if key in v.fields then Success(v.fields[key])
    else Failure(KeyError(key))
  }

  /** `v[k]` for a positional argument list: a TypeError unless `v` is a
      list, an IndexError past its end. */
  function Item(v: Value, k: nat): (r: Result<Value, Error>)
    ensures r.Success? <==> v.List? && k < |v.items|
    ensures r.Success? ==> r.value == v.items[k]
    ensures v.List? && k >= |v.items| ==> r == Failure(IndexError)
  {
    if !v.List? then Failure(TypeError)
    else if k < |v.items| then Success(v.items[k])
    else Failure(IndexError)
  }

  /** `v.get(key, default)`: an AttributeError unless `v` is a dict. */
  function GetOr(v: Value, key: string, default: Value): (r: Result<Value, Error>)
    ensures r.Success? <==> v.Object?
    ensures r.Success? ==> r.value == if key in v.fields then v.fields[key] else default
  {
    if !v.Object? then Failure(AttributeError)
    else if key in v.fields then Success(v.fields[key])
    else Success(default)
  }

  /** json.loads(raw), given what it makes of the text (None when it would
      raise). */
  function Loads(raw: string, parsed: Option<Value>): (r: Result<Value, Error>)
    ensures r.Success? <==> parsed.Some?
    ensures r.Success? ==> r.value == parsed.value
    ensures r.Failure? ==> r.error == ValueError(raw)
  {
    if parsed.Some? then Success(parsed.value) else Failure(ValueError(raw))
  }

  /** `v[key] = x` on a decoded document: a TypeError unless `v` is a dict. */
  function SetItem(v: Value, key: string, x: Value): (r: Result<Value, Error>)
    ensures r.Success? <==> v.Object?
    ensures r.Success? ==> r.value == Object(v.fields[key := x])
  {
    if v.Object? then Success(Object(v.fields[key := x])) else Failure(TypeError)
  }

  /** The empty dict `{}`. */
  const EmptyObject: Value := Object(map[])
}
