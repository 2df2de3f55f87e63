/** Abstract HTTP outcomes and JSON values.

    No request is made by the model: each call the source makes is replaced by
    the outcome it had, passed in as a parameter. */
module Http {
  import opened Wrappers

  /** What one `session.get` / `session.post` did: it raised (timeout, connection
      error), or it answered with a status code and a body. */
  datatype Response<T> = Raises | Reply(status: int, body: T)

  /** The result of `response.json()`: it raised (the body is not JSON), or it parsed. */
  datatype Json<T> = Malformed | Parsed(value: T)

  /** One element of a JSON array: an object with string values, or any other
      JSON value (calling `.get` on one raises). */
  datatype Item = Object(fields: map<string, string>) | NonObject

  /** A JSON document as the caches hold it: an array, an object with `size`
      keys, or `null`. */
  datatype Doc = Array(items: seq<Item>) | Record(size: nat) | Null

  /** Python truthiness of a cached document (`if self.github_stations_cache`). */
  predicate DocTruthy(d: Option<Doc>) {
    match d
    case None => false
    case Some(Array(items)) => |items| > 0
    case Some(Record(size)) => size > 0
    case Some(Null) => false
  }

  /** Whether `len(doc)` raises (it does for `null` only). */
  predicate LenRaises(d: Doc) {
    d.Null?
  }

  /** `d.get(key, default)` on a JSON object. */
  function GetField(fields: map<string, string>, key: string, default: string): (r: string)
    ensures key in fields ==> r == fields[key]
    ensures key !in fields ==> r == default
  {
    if key in fields then fields[key] else default
  }

  /** `d.get(first, d.get(second, default))`: the first key present wins. */
  function FirstField(fields: map<string, string>, first: string, second: string, default: string): (r: string)
    ensures first in fields ==> r == fields[first]
    ensures first !in fields && second in fields ==> r == fields[second]
    ensures first !in fields && second !in fields ==> r == default
  {
    GetField(fields, first, GetField(fields, second, default))
  }
}
