/**
 * What the PHP endpoints see of a request: its method and the body decoded
 * with json_decode(..., true). A body that is not a JSON object (or does not
 * decode) is None; every handler treats it like an object without any key.
 */
module Http {
  import opened Wrappers

  type RequestData = Option<map<string, string>>

  /** isset($data[key]). */
  predicate Isset(data: RequestData, key: string) {
    data.Some? && key in data.value
  }

  /** isset($data[key]) ? $data[key] : default. */
  function FieldOr(data: RequestData, key: string, default: string): string {
    if Isset(data, key) then data.value[key] else default
  }
}
