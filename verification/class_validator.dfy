/**
 * Request bodies as the validation decorators see them, and what the four
 * decorators the requests use accept.
 */
module ClassValidator {
  import opened Wrappers

  /** A JSON value of a request body. */
  datatype Json =
    | JNull
    | JBool(b: bool)
    | JNumber(n: real)
    | JString(s: string)
    | JArray(elems: seq<Json>)
    | JObject(fields: map<string, Json>)

  /** A property of an object; `None` when it is undefined. */
  function Property(fields: map<string, Json>, name: string): (v: Option<Json>)
    ensures v.Some? <==> name in fields
  {
    if name in fields then Some(fields[name]) else None
  }

  /** `@IsString()`: the value is a string. */
  predicate IsString(v: Option<Json>) {
    v.Some? && v.value.JString?
  }

  /** `@IsNumber()`: the value is a number. */
  predicate IsNumber(v: Option<Json>) {
    v.Some? && v.value.JNumber?
  }

  /** `@IsNotEmpty()`: the value is not `''`, not `null` and not undefined. */
  predicate IsNotEmpty(v: Option<Json>) {
    v.Some? && v.value != JNull && v.value != JString("")
  }

  /** `@IsOptional()`: a `null` or undefined value skips the property's other decorators. */
  predicate SkippedAsOptional(v: Option<Json>) {
    v.None? || v.value == JNull
  }

  /** `@IsString() @IsNotEmpty()`: a non-empty string. */
  predicate IsNonEmptyString(v: Option<Json>) {
    IsString(v) && IsNotEmpty(v)
  }

  /** The string an optional string property carries, if any. */
  function OptionalString(v: Option<Json>): (r: Option<string>)
    ensures r.Some? <==> IsString(v)
  {
    if IsString(v) then Some(v.value.s) else None
  }

  /** The property to write for an optional string: absent for `None`. */
  function OptionalProperty(name: string, v: Option<string>): (m: map<string, Json>)
    ensures v.None? ==> m == map[]
    ensures v.Some? ==> m == map[name := JString(v.value)]
  {
    if v.Some? then map[name := JString(v.value)] else map[]
  }
}
