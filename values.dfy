/** Python dict records, as the pipeline passes them from stage to stage. */
module Values {

  /** A value stored in a record: a string (file name, text, "Unknown") or an integer (chunk number, page). */
  datatype Value = Str(s: string) | Int(i: int)

  /** A Python dict with string keys. */
  type Dict = map<string, Value>

  /** `d.get(key, default)`. */
  function Get(d: Dict, key: string, default: Value): Value
  {
    if key in d then d[key] else default
  }
}
