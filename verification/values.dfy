/** The metadata values the pipelines carry in their dict records, with
    Python's truthiness and `str()` on them. */
module Values {
  import opened Wrappers
  import opened Text

  /** A metadata value as the JSON APIs deliver it. Under these three kinds
      Python's `==` and hashing coincide with structural equality. */
  datatype Value = Null | Int(i: int) | Str(s: string)

  /** A Python dict with string keys. */
  type Record = map<string, Value>

  /** `bool(v)` */
  predicate Truthy(v: Value)
  {
    match v
    case Null => false
    case Int(i) => i != 0
    case Str(s) => |s| > 0
  }

  /** `str(v)`, which is what an f-string renders. */
  function PyStr(v: Value): string
  {
    match v
    case Null => "None"
    case Int(i) => IntToString(i)
    case Str(s) => s
  }

  /** `r.get(k, d)` */
  function GetOr(r: Record, k: string, d: Value): (v: Value)
    ensures k in r ==> v == r[k]
    ensures k !in r ==> v == d
  {
    if k in r then r[k] else d
  }

  /** `r[k]` used as a string: a `KeyError` when absent, a type error when not a string. */
  function StrField(r: Record, k: string): (res: Result<string>)
    ensures res.Ok? <==> k in r && r[k].Str?
    ensures res.Ok? ==> res.value == r[k].s
    ensures res.Err? ==> res.error == if k in r then WrongType(k) else MissingKey(k)
  {
    if k !in r then Err(MissingKey(k))
    else if !r[k].Str? then Err(WrongType(k))
    else Ok(r[k].s)
  }

  /** `r[k]` of any kind. */
  function Field(r: Record, k: string): (res: Result<Value>)
    ensures res.Ok? <==> k in r
    ensures res.Ok? ==> res.value == r[k]
  {
    if k in r then Ok(r[k]) else Err(MissingKey(k))
  }
}
