/** How the admin handlers turn JSON request fields into column values. The
    database rejects a value of the wrong type; that rejection is an `Err`,
    which the handlers answer with 500. Dates are milliseconds since the epoch;
    the parsing of date text is the parameter `parseDate`. */
module Fields {
  import opened Common

  const Rejected := "invalid value"

  /** A required text column given the field as is. */
  function RequiredText(v: Json): (r: Result<string>)
    ensures r.Ok? <==> v.Str?
    ensures r.Ok? ==> r.value == v.s
  {
    if v.Str? then Ok(v.s) else Err(Rejected)
  }

  /** A nullable text column given the field as is: absent and null store null,
      any string (even "") is stored. */
  function OptionalText(v: Json): (r: Result<Option<string>>)
    ensures r.Ok? <==> v.Undefined? || v.Null? || v.Str?
    ensures r.Ok? && v.Str? ==> r.value == Some(v.s)
    ensures r.Ok? && !v.Str? ==> r.value.None?
  {
    match v
    case Undefined => Ok(None)
    case Null => Ok(None)
    case Str(s) => Ok(Some(s))
    case _ => Err(Rejected)
  }

  /** `v || null` for a nullable text column: every falsy value, "" included, is null. */
  function TextOrNull(v: Json): (r: Result<Option<string>>)
    ensures !Truthy(v) ==> r == Ok(None)
    ensures Truthy(v) ==> (r.Ok? <==> v.Str?)
    ensures r.Ok? && r.value.Some? ==> r.value.value != "" && v == Str(r.value.value)
  {
    if !Truthy(v) then Ok(None)
    else if v.Str? then Ok(Some(v.s))
    else Err(Rejected)
  }

  /** `v || 0` for an integer column: every falsy value stores 0. */
  function IntOrZero(v: Json): (r: Result<int>)
    ensures !Truthy(v) ==> r == Ok(0)
    ensures Truthy(v) ==> (r.Ok? <==> v.Num?)
    ensures r.Ok? && v.Num? ==> r.value == v.n
  {
    if !Truthy(v) then Ok(0)
    else if v.Num? then Ok(v.n)
    else Err(Rejected)
  }

  /** An optional boolean field: absent and null give None. */
  function OptionalBool(v: Json): (r: Result<Option<bool>>)
    ensures r.Ok? <==> v.Undefined? || v.Null? || v.Bool?
    ensures r.Ok? ==> (r.value.Some? <==> v.Bool?) && (v.Bool? ==> r.value.value == v.b)
  {
    match v
    case Undefined => Ok(None)
    case Null => Ok(None)
    case Bool(b) => Ok(Some(b))
    case _ => Err(Rejected)
  }

  /** An optional integer field: absent and null give None. */
  function OptionalInt(v: Json): (r: Result<Option<int>>)
    ensures r.Ok? <==> v.Undefined? || v.Null? || v.Num?
    ensures r.Ok? ==> (r.value.Some? <==> v.Num?) && (v.Num? ==> r.value.value == v.n)
  {
    match v
    case Undefined => Ok(None)
    case Null => Ok(None)
    case Num(n) => Ok(Some(n))
    case _ => Err(Rejected)
  }

  /** The largest distance from the epoch, in ms, that a JavaScript Date can
      hold (section 21.4.1.1 of ECMA-262); beyond it `new Date(n)` is an
      Invalid Date. */
  const MaxTime := 8640000000000000

  predicate InDateRange(t: int)
  {
    -MaxTime <= t <= MaxTime
  }

  /** `new Date(v)` stored in a date column: a number within range is a time,
      text is parsed, null is the epoch and a boolean is 0 or 1 ms; an absent
      field, a number out of range and unparsable text are Invalid Date, which
      the database rejects. `parseDate` answers None for text that is an
      Invalid Date. */
  function DateField(v: Json, parseDate: string -> Option<int>): (r: Result<int>)
    ensures v.Num? && InDateRange(v.n) ==> r == Ok(v.n)
    ensures v.Num? && !InDateRange(v.n) ==> r.Err?
    ensures v.Undefined? ==> r.Err?
    ensures v.Null? ==> r == Ok(0)
    ensures v.Str? ==> (r.Ok? <==> parseDate(v.s).Some?)
    ensures v.Str? && r.Ok? ==> r.value == parseDate(v.s).value
  {
    match v
    case Num(n) => if InDateRange(n) then Ok(n) else Err(Rejected)
    case Str(s) => if parseDate(s).Some? then Ok(parseDate(s).value) else Err(Rejected)
    case Null => Ok(0)
    case Bool(b) => Ok(if b then 1 else 0)
    case Undefined => Err(Rejected)
  }

  /** `v ? new Date(v) : null`: a falsy field is null. */
  function DateOrNull(v: Json, parseDate: string -> Option<int>): (r: Result<Option<int>>)
    ensures !Truthy(v) ==> r == Ok(None)
    ensures Truthy(v) ==> (r.Ok? <==> DateField(v, parseDate).Ok?)
    ensures Truthy(v) && r.Ok? ==> r.value == Some(DateField(v, parseDate).value)
  {
    if !Truthy(v) then Ok(None)
    else match DateField(v, parseDate)
      case Ok(t) => Ok(Some(t))
      case Err(e) => Err(e)
  }
}
