/**
 * An abstract JSON (or VelocyPack) value. Numbers are integers; strings are
 * UTF-8 byte strings; member names are plain strings.
 */
module Json {
  import opened Wrappers
  import opened Bytes

  datatype Json =
    | JNull
    | JBool(b: bool)
    | JNumber(n: int)
    | JString(s: Bytes)
    | JArray(items: seq<Json>)
    | JObject(members: map<string, Json>)

  /** The member `key` of an object, or None when absent or not an object. */
  function Member(j: Json, key: string): (r: Option<Json>)
    ensures r.Some? <==> j.JObject? && key in j.members
    ensures r.Some? ==> r.value == j.members[key]
  {
    if j.JObject? && key in j.members then Some(j.members[key]) else None
  }

  /** The string member `key`, or None when absent or not a string. */
  function StringMember(j: Json, key: string): (r: Option<Bytes>)
    ensures r.Some? <==> Member(j, key).Some? && Member(j, key).value.JString?
    ensures r.Some? ==> Member(j, key).value == JString(r.value)
  {
    match Member(j, key)
    case Some(JString(s)) => Some(s)
    case _ => None
  }

  /**
   * A string as read through `GetString()`: a NUL-terminated character
   * pointer, so the bytes before the first 0 byte.
   */
  function CStr(s: Bytes): (r: Bytes)
    ensures r <= s
    ensures 0 !in r
    ensures |r| < |s| ==> s[|r|] == 0
    ensures r == s <==> 0 !in s
    decreases |s|
  {
    if |s| == 0 || s[0] == 0 then [] else [s[0]] + CStr(s[1..])
  }

  /** The string member `key` as a C string, or None when absent or not a string. */
  function CStrMember(j: Json, key: string): (r: Option<Bytes>)
    ensures r.Some? <==> StringMember(j, key).Some?
    ensures r.Some? ==> r.value == CStr(StringMember(j, key).value)
  {
    match StringMember(j, key)
    case Some(s) => Some(CStr(s))
    case None => None
  }
}
