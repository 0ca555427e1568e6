/** SetData as it runs: recursion over the patch, writing into the target object step by step. */
module SetDataRun {
  import opened JsonTree
  import opened PathText
  import opened FieldPath
  import opened AnyOrder
  import opened SetDataSpec
  import opened SetDataOrders

  /** A composed resource of the desired state; `resource` is None for a nil Resource. */
  class DesiredComposed {
    var resource: Option<Json>
    var ready: string

    constructor (resource: Option<Json>)
      ensures this.resource == resource && this.ready == ""
    {
      this.resource := resource;
      this.ready := "";
    }
  }

  /** The composite resource (XR) and its connection details. */
  class Composite {
    var resource: Option<Json>
    var connectionDetails: map<string, string>

    constructor (resource: Option<Json>, connectionDetails: map<string, string>)
      ensures this.resource == resource && this.connectionDetails == connectionDetails
    {
      this.resource := resource;
      this.connectionDetails := connectionDetails;
    }
  }

  /** The `o any` argument of SetData. */
  datatype Target = OnComposed(composed: DesiredComposed) | OnComposite(composite: Composite) | OnOther {
    function Kind(): Kind {
      match this
      case OnComposed(_) => ComposedKind
      case OnComposite(_) => CompositeKind
      case OnOther => OtherKind
    }

    ghost function Composeds(): set<DesiredComposed> {
      if OnComposed? then {composed} else {}
    }

    ghost function Composites(): set<Composite> {
      if OnComposite? then {composite} else {}
    }

    function Object(): Option<Json>
      reads Composeds()`resource, Composites()`resource
    {
      match this
      case OnComposed(c) => c.resource
      case OnComposite(x) => x.resource
      case OnOther => None
    }
  }

  method SetValue(o: Target, segs: seq<Seg>, v: Json) returns (ok: bool)
    requires !o.OnOther? && o.Object().Some?
    modifies o.Composeds()`resource, o.Composites()`resource
    ensures match Set(old(o.Object()), segs, v)
            case Ok(r) => ok && o.Object() == Some(r)
            case Fail => !ok && o.Object() == old(o.Object())
  {
    match Set(o.Object(), segs, v)
    case Fail => ok := false;
    case Ok(r) =>
      ok := true;
      match o
      case OnComposed(c) => c.resource := Some(r);
      case OnComposite(x) => x.resource := Some(r);
  }

  /** The leaf case (res.go:341-389). */
  method SetLeaf(data: Json, path: string, o: Target, overwrite: bool) returns (ok: bool)
    modifies o.Composeds()`resource, o.Composites()`resource
    ensures match WriteText(o.Kind(), old(o.Object()), path, data, overwrite)
            case Ok(r) => ok && o.Object() == r
            case Fail => !ok && o.Object() == old(o.Object())
  {
    if o.OnOther? {
      return false;
    }
    var p := TrimDot(path);
    if o.OnComposed? && (p == "apiVersion" || p == "kind" || p == "metadata.name") {
      return true;
    }
    if o.Object().None? {
      return false;
    }
    var segs := Parse(p);
    if segs.None? || segs.value == [] {
      return false;
    }
    var cur := Get(o.Object(), segs.value);
    if cur.Broken? {
      return false;
    }
    if cur.Found? && cur.value != Null && !overwrite {
      return false;
    }
    ok := SetValue(o, segs.value, data);
  }

  /**
   SetData (res.go:311-392). The range loop takes the keys in an arbitrary order; the ghost result
   `t` records it. Failed or not, the target is left as the writes in that order leave it. Started at
   the empty path on a patch with safe keys, it ends as the overlay.
   */
  method SetData(data: Json, path: string, o: Target, overwrite: bool) returns (ok: bool, ghost t: Ordered)
    modifies o.Composeds()`resource, o.Composites()`resource
    ensures RanTree(data, t, Call(o.Kind(), old(o.Object()), path, overwrite), ok, o.Object())
    ensures path == "" && Writable(data, o.Kind(), old(o.Object())) ==>
      IsOverlay(data, o.Kind(), old(o.Object()), overwrite, ok, o.Object())
    decreases data, 1
  {
    ghost var c := Call(o.Kind(), o.Object(), path, overwrite);
    if data.Map? {
      ghost var es;
      ok, es := SetMap(data, path, o, overwrite);
      t := Entries(es);
      MapIsTree(data, es, c, ok, o.Object());
    } else if data.List? {
      ghost var ts;
      ok, ts := SetList(data, path, o, overwrite);
      t := Items(ts);
      ListIsTree(data, ts, c, ok, o.Object());
    } else {
      t := Leaf(data);
      ok := SetLeaf(data, path, o, overwrite);
      RanOneLeaf(c.kind, c.was, TextWrite(path, data), overwrite, ok, o.Object());
      LeafIsTree(data, c, ok, o.Object());
    }
    if path == "" && Writable(data, c.kind, c.was) {
      TreeIsOverlay(data, t, c.kind, c.was, overwrite, ok, o.Object());
    }
  }

  /** The map case (res.go:313-333). */
  method SetMap(data: Json, path: string, o: Target, overwrite: bool) returns (ok: bool, ghost es: seq<Entry>)
    requires data.Map?
    modifies o.Composeds()`resource, o.Composites()`resource
    ensures RanMap(data, es, Call(o.Kind(), old(o.Object()), path, overwrite), ok, o.Object())
    decreases data, 0
  {
    var isWrapped := HasSuffix(path, ".metadata.annotations") || HasSuffix(path, ".metadata.labels");
    ghost var c := Call(o.Kind(), o.Object(), path, overwrite);
    es := [];
    var remaining := data.fields.Keys;
    VisitNone(data, c);
    while remaining != {}
      invariant remaining <= data.fields.Keys
      invariant Visited(data, remaining, es, c, true, o.Object())
      decreases remaining
    {
      var key :| key in remaining;
      var newKey := if isWrapped then path + "[" + key + "]" else path + "." + key;
      NewKeyText(path, key, isWrapped, newKey);
      ghost var t;
      ghost var mid := o.Object();
      ok, t := SetData(data.fields[key], newKey, o, overwrite);
      VisitOneMore(data, remaining, es, c, mid, key, t, ok, o.Object());
      es, remaining := es + [Entry(key, t)], remaining - {key};
      if !ok {
        es := GiveUp(data, remaining, es, c, o.Object());
        return;
      }
    }
    VisitedAll(data, es, c, o.Object());
    ok := true;
  }

  lemma NewKeyText(path: string, key: string, isWrapped: bool, newKey: string)
    requires isWrapped == (HasSuffix(path, ".metadata.annotations") || HasSuffix(path, ".metadata.labels"))
    requires newKey == if isWrapped then path + "[" + key + "]" else path + "." + key
    ensures newKey == path + Printed(path, Field(key))
  {
  }

  /** The list case (res.go:334-340). */
  method SetList(data: Json, path: string, o: Target, overwrite: bool) returns (ok: bool, ghost ts: seq<Ordered>)
    requires data.List?
    modifies o.Composeds()`resource, o.Composites()`resource
    ensures RanList(data, ts, Call(o.Kind(), old(o.Object()), path, overwrite), ok, o.Object())
    decreases data, 0
  {
    ghost var c := Call(o.Kind(), o.Object(), path, overwrite);
    ts := [];
    for i := 0 to |data.elems|
      invariant |ts| == i
      invariant VisitedItems(data, ts, c, true, o.Object())
    {
      var newPath := path + "[" + Decimal(i) + "]";
      assert newPath == path + Printed(path, Index(i));
      ghost var t;
      ghost var mid := o.Object();
      ok, t := SetData(data.elems[i], newPath, o, overwrite);
      VisitOneMoreItem(data, ts, c, mid, t, ok, o.Object());
      ts := ts + [t];
      if !ok {
        ts := GiveUpList(data, ts, c, o.Object());
        return;
      }
    }
    ok := true;
  }
}
