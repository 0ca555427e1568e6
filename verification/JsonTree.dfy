/** JSON values as the Go code sees them after decoding, and the outcome of a step that may fail. */
module JsonTree {

  datatype Option<+T> = None | Some(value: T)

  /** A Go result paired with an error: the error's text is not modelled. */
  datatype Outcome<+T> = Fail | Ok(value: T)

  datatype Json =
    | Null
    | Bool(b: bool)
    | Num(n: int)
    | Str(s: string)
    | List(elems: seq<Json>)
    | Map(fields: map<string, Json>)

  predicate IsLeaf(j: Json) {
    !j.List? && !j.Map?
  }

  /** Does the tree hold any leaf, null leaves included? Empty containers, at any depth, hold none. */
  predicate HasLeaf(j: Json) {
    match j
    case List(elems) => exists i | 0 <= i < |elems| :: HasLeaf(elems[i])
    case Map(fields) => exists k | k in fields :: HasLeaf(fields[k])
    case _ => true
  }

  function FieldSlot(m: map<string, Json>, k: string): Option<Json> {
    if k in m then Some(m[k]) else None
  }
}
