/**
 Reading and writing a JSON tree at a parsed path, as crossplane-runtime's fieldpath does.
 A place in a tree is an optional value: None is a missing field, an index past the end, or a
 null list element (a hole); Some(Null) is a map field that holds null.
 */
module FieldPath {
  import opened JsonTree
  import opened PathText

  datatype Found = Found(value: Json) | NotFound | Broken

  function ElemSlot(l: seq<Json>, i: nat): Option<Json> {
    if i < |l| && l[i] != Null then Some(l[i]) else None
  }

  /** Grows the list with nulls up to index `i`, then stores. */
  function SetElem(l: seq<Json>, i: nat, v: Json): (r: seq<Json>)
    ensures |r| == if i < |l| then |l| else i + 1
    ensures r[i] == v
    ensures forall j | 0 <= j < |r| && j != i :: r[j] == if j < |l| then l[j] else Null
  {
    if i < |l| then l[i := v] else l + seq(i - |l|, _ => Null) + [v]
  }

  /** The fields to descend into; a missing container is an empty one. None when a field cannot be entered. */
  function FieldsOf(slot: Option<Json>): Option<map<string, Json>> {
    match slot
    case None => Some(map[])
    case Some(Map(m)) => Some(m)
    case _ => None
  }

  function ElemsOf(slot: Option<Json>): Option<seq<Json>> {
    match slot
    case None => Some([])
    case Some(List(l)) => Some(l)
    case _ => None
  }

  /** GetValue: a scalar or the wrong kind of container on the way is an error, absence and null are not found. */
  function Get(slot: Option<Json>, path: seq<Seg>): Found
    decreases path
  {
    match slot
    case None => NotFound
    case Some(v) =>
      if path == [] then Found(v)
      else
        match (path[0], v)
        case (_, Null) => NotFound
        case (Field(k), Map(m)) => Get(FieldSlot(m, k), path[1..])
        case (Index(i), List(l)) => if i < |l| then Get(Some(l[i]), path[1..]) else NotFound
        case (_, _) => Broken
  }

  /** SetValue: creates missing containers, grows lists, fills holes; fails on a scalar, the wrong container or a null field. */
  function Set(slot: Option<Json>, path: seq<Seg>, v: Json): Outcome<Json>
    decreases path
  {
    if path == [] then Ok(v)
    else
      match path[0]
      case Field(k) =>
        (match FieldsOf(slot)
         case None => Fail
         case Some(m) =>
           match Set(FieldSlot(m, k), path[1..], v)
           case Fail => Fail
           case Ok(r) => Ok(Map(m[k := r])))
      case Index(i) =>
        match ElemsOf(slot)
        case None => Fail
        case Some(l) =>
          match Set(ElemSlot(l, i), path[1..], v)
          case Fail => Fail
          case Ok(r) => Ok(List(SetElem(l, i, r)))
  }

  /** Writing one leaf as SetData does (res.go:358-366): read, refuse a conflict, set. */
  function Write(slot: Option<Json>, path: seq<Seg>, v: Json, overwrite: bool): Outcome<Json> {
    match Get(slot, path)
    case Broken => Fail
    case Found(cur) => if cur != Null && !overwrite then Fail else Set(slot, path, v)
    case NotFound => Set(slot, path, v)
  }

  /** What was set is read back, at the same path. */
  lemma {:induction false} GetAfterSet(slot: Option<Json>, path: seq<Seg>, v: Json)
    requires Set(slot, path, v).Ok?
    ensures Get(Some(Set(slot, path, v).value), path) == Found(v)
    decreases path
  {
    if path != [] {
      match path[0]
      case Field(k) => GetAfterSet(FieldSlot(FieldsOf(slot).value, k), path[1..], v);
      case Index(i) => GetAfterSet(ElemSlot(ElemsOf(slot).value, i), path[1..], v);
    }
  }

  /** Reading Broken means setting fails too, so SetData's read never decides alone under overwrite. */
  lemma {:induction false} BrokenCannotBeSet(slot: Option<Json>, path: seq<Seg>, v: Json)
    requires Get(slot, path) == Broken
    ensures Set(slot, path, v) == Fail
    decreases path
  {
    if path != [] {
      match (path[0], slot.value)
      case (Field(k), Map(m)) => BrokenCannotBeSet(FieldSlot(m, k), path[1..], v);
      case (Index(i), List(l)) =>
        if i < |l| && l[i] != Null { BrokenCannotBeSet(Some(l[i]), path[1..], v); }
      case (_, _) =>
    }
  }

  /** A write below a field is a write of that field's slot. */
  lemma WriteField(slot: Option<Json>, k: string, path: seq<Seg>, v: Json, overwrite: bool)
    ensures Write(slot, [Field(k)] + path, v, overwrite) ==
      match FieldsOf(slot)
      case None => Fail
      case Some(m) =>
        match Write(FieldSlot(m, k), path, v, overwrite)
        case Fail => Fail
        case Ok(r) => Ok(Map(m[k := r]))
  {
    assert ([Field(k)] + path)[1..] == path;
  }

  lemma WriteIndex(slot: Option<Json>, i: nat, path: seq<Seg>, v: Json, overwrite: bool)
    ensures Write(slot, [Index(i)] + path, v, overwrite) ==
      match ElemsOf(slot)
      case None => Fail
      case Some(l) =>
        match Write(ElemSlot(l, i), path, v, overwrite)
        case Fail => Fail
        case Ok(r) => Ok(List(SetElem(l, i, r)))
  {
    var full := [Index(i)] + path;
    assert full[1..] == path && full[0] == Index(i);
    match slot
    case Some(List(l)) =>
      if i < |l| {
        assert Get(slot, full) == Get(Some(l[i]), path);
        if l[i] == Null {
          assert path != [] ==> Get(Some(l[i]), path) == NotFound;
        }
      }
    case _ =>
  }
}
