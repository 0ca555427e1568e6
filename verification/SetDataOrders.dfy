/** A run of SetData part way through a map or a list: which orders are still open and what has been done. */
module SetDataOrders {
  import opened JsonTree
  import opened PathText
  import opened Overlays
  import opened AnyOrder
  import opened SetDataSpec

  /** `es` followed by the other keys in some order. */
  ghost function Complete(es: seq<Entry>, j: Json, keys: set<string>): (r: seq<Entry>)
    requires j.Map? && keys <= j.fields.Keys && WellOrdered(Entries(es))
    requires ForgetEntries(es) == map k | k in j.fields.Keys - keys :: j.fields[k]
    ensures WellOrdered(Entries(r)) && ForgetEntries(r) == j.fields && es <= r
    decreases j, 1, keys
  {
    if keys == {} then es
    else
      var k :| k in keys;
      var t := SomeOrder(j.fields[k]);
      OneMoreEntry(es, k, t);
      Complete(es + [Entry(k, t)], j, keys - {k})
  }

  /** `ts` followed by the other elements. */
  ghost function CompleteItems(ts: seq<Ordered>, j: Json): (r: seq<Ordered>)
    requires j.List? && |ts| <= |j.elems| && ForgetItems(ts) == j.elems[..|ts|]
    requires forall i | 0 <= i < |ts| :: WellOrdered(ts[i])
    ensures |r| == |j.elems| && (forall i | 0 <= i < |r| :: WellOrdered(r[i]))
    ensures ForgetItems(r) == j.elems && ts <= r
    decreases j, 1, |j.elems| - |ts|
  {
    if |ts| == |j.elems| then ts
    else
      var t := SomeOrder(j.elems[|ts|]);
      assert (ts + [t])[..|ts|] == ts;
      CompleteItems(ts + [t], j)
  }

  /** Some order in which a patch may be visited. */
  ghost function SomeOrder(j: Json): (t: Ordered)
    ensures WellOrdered(t) && Forget(t) == j
    ensures t.Entries? <==> j.Map?
    decreases j, 2
  {
    match j
    case Map(m) => Entries(Complete([], j, m.Keys))
    case List(e) => Items(CompleteItems([], j))
    case _ => Leaf(j)
  }

  /** What a finished or failed run of SetData has done to its target. */
  ghost predicate Ran(kind: Kind, was: Option<Json>, tws: seq<TextWrite>, overwrite: bool, ok: bool, now: Option<Json>) {
    ok == RunText(kind, was, tws, overwrite).Ok? && now == LeftBy(kind, was, tws, overwrite)
  }

  lemma RanOneLeaf(kind: Kind, was: Option<Json>, w: TextWrite, overwrite: bool, ok: bool, now: Option<Json>)
    requires match WriteText(kind, was, w.path, w.value, overwrite)
             case Ok(r) => ok && now == r
             case Fail => !ok && now == was
    ensures Ran(kind, was, [w], overwrite, ok, now)
  {
    assert [w][1..] == [];
  }

  /** A finished run gives what it leaves. */
  lemma RanOk(kind: Kind, was: Option<Json>, tws: seq<TextWrite>, overwrite: bool, now: Option<Json>)
    requires Ran(kind, was, tws, overwrite, true, now)
    ensures RunText(kind, was, tws, overwrite) == Ok(now)
  {
    LeftByAppend(kind, was, tws, [], overwrite);
  }

  /** A run followed by the run of one more subtree. */
  lemma RanOneMore(kind: Kind, was: Option<Json>, a: seq<TextWrite>, mid: Option<Json>, b: seq<TextWrite>,
                   overwrite: bool, ok: bool, now: Option<Json>)
    requires Ran(kind, was, a, overwrite, true, mid) && Ran(kind, mid, b, overwrite, ok, now)
    ensures Ran(kind, was, a + b, overwrite, ok, now)
  {
    RanOk(kind, was, a, overwrite, mid);
    RunTextAppend(kind, was, a, b, overwrite);
    LeftByAppend(kind, was, a, b, overwrite);
  }

  /** After a failure, writes that would have followed change neither the outcome nor what is left. */
  lemma RanNoMore(kind: Kind, was: Option<Json>, a: seq<TextWrite>, b: seq<TextWrite>, overwrite: bool, now: Option<Json>)
    requires Ran(kind, was, a, overwrite, false, now)
    ensures Ran(kind, was, a + b, overwrite, false, now)
  {
    RunTextAppend(kind, was, a, b, overwrite);
    LeftByAppend(kind, was, a, b, overwrite);
  }

  lemma TextOfOneMoreEntry(es: seq<Entry>, k: string, t: Ordered, path: string)
    ensures TextWritesOfEntries(es + [Entry(k, t)], path) ==
      TextWritesOfEntries(es, path) + TextWrites(t, path + Printed(path, Field(k)))
  {
    assert (es + [Entry(k, t)])[..|es|] == es;
  }

  lemma TextOfOneMoreItem(ts: seq<Ordered>, t: Ordered, path: string)
    ensures TextWritesOfItems(ts + [t], path) == TextWritesOfItems(ts, path) + TextWrites(t, path + Printed(path, Index(|ts|)))
    ensures ForgetItems(ts + [t]) == ForgetItems(ts) + [Forget(t)]
  {
    assert (ts + [t])[..|ts|] == ts;
  }

  /** One call of SetData: the kind of its target, what the target was, and the other two arguments. */
  datatype Call = Call(kind: Kind, was: Option<Json>, path: string, overwrite: bool)

  /** What a failed run has done does not depend on the order of the keys it never reached. */
  lemma {:induction false} FailureStays(c: Call, es: seq<Entry>, all: seq<Entry>, now: Option<Json>)
    requires es <= all && Ran(c.kind, c.was, TextWritesOfEntries(es, c.path), c.overwrite, false, now)
    ensures Ran(c.kind, c.was, TextWritesOfEntries(all, c.path), c.overwrite, false, now)
    decreases |all| - |es|
  {
    if |es| == |all| {
      assert es == all;
    } else {
      var e := all[|es|];
      var a, b := TextWritesOfEntries(es, c.path), TextWrites(e.tree, c.path + Printed(c.path, Field(e.key)));
      TextOfOneMoreEntry(es, e.key, e.tree, c.path);
      RanNoMore(c.kind, c.was, a, b, c.overwrite, now);
      assert es + [Entry(e.key, e.tree)] == all[..|es| + 1];
      FailureStays(c, all[..|es| + 1], all, now);
    }
  }

  lemma {:induction false} ListFailureStays(c: Call, ts: seq<Ordered>, all: seq<Ordered>, now: Option<Json>)
    requires ts <= all && Ran(c.kind, c.was, TextWritesOfItems(ts, c.path), c.overwrite, false, now)
    ensures Ran(c.kind, c.was, TextWritesOfItems(all, c.path), c.overwrite, false, now)
    decreases |all| - |ts|
  {
    if |ts| == |all| {
      assert ts == all;
    } else {
      var t := all[|ts|];
      var a, b := TextWritesOfItems(ts, c.path), TextWrites(t, c.path + Printed(c.path, Index(|ts|)));
      TextOfOneMoreItem(ts, t, c.path);
      RanNoMore(c.kind, c.was, a, b, c.overwrite, now);
      assert ts + [t] == all[..|ts| + 1];
      ListFailureStays(c, all[..|ts| + 1], all, now);
    }
  }

  /** The range loop over a map, part way: the keys outside `remaining` have been visited in the order of `es`. */
  ghost predicate Visited(data: Json, remaining: set<string>, es: seq<Entry>, c: Call, ok: bool, now: Option<Json>)
    requires data.Map?
  {
    && remaining <= data.fields.Keys
    && WellOrdered(Entries(es))
    && ForgetEntries(es) == (map k | k in data.fields.Keys - remaining :: data.fields[k])
    && Ran(c.kind, c.was, TextWritesOfEntries(es, c.path), c.overwrite, ok, now)
  }

  lemma VisitNone(data: Json, c: Call)
    requires data.Map?
    ensures Visited(data, data.fields.Keys, [], c, true, c.was)
  {
  }

  lemma VisitOneMore(data: Json, remaining: set<string>, es: seq<Entry>, c: Call, mid: Option<Json>,
                     key: string, t: Ordered, ok: bool, now: Option<Json>)
    requires data.Map? && key in remaining && Visited(data, remaining, es, c, true, mid)
    requires WellOrdered(t) && Forget(t) == data.fields[key]
    requires Ran(c.kind, mid, TextWrites(t, c.path + Printed(c.path, Field(key))), c.overwrite, ok, now)
    ensures Visited(data, remaining - {key}, es + [Entry(key, t)], c, ok, now)
  {
    var more := TextWrites(t, c.path + Printed(c.path, Field(key)));
    RanOneMore(c.kind, c.was, TextWritesOfEntries(es, c.path), mid, more, c.overwrite, ok, now);
    TextOfOneMoreEntry(es, key, t, c.path);
    OneMoreEntry(es, key, t);
    OneKeyLess(data.fields, remaining, key);
  }

  lemma OneKeyLess(f: map<string, Json>, remaining: set<string>, key: string)
    requires remaining <= f.Keys && key in remaining
    ensures (map k | k in f.Keys - (remaining - {key}) :: f[k]) == (map k | k in f.Keys - remaining :: f[k])[key := f[key]]
  {
  }

  /** A finished run over all keys, in the order of `es`. */
  ghost predicate RanMap(data: Json, es: seq<Entry>, c: Call, ok: bool, now: Option<Json>) {
    && data.Map?
    && WellOrdered(Entries(es))
    && ForgetEntries(es) == data.fields
    && Ran(c.kind, c.was, TextWritesOfEntries(es, c.path), c.overwrite, ok, now)
  }

  lemma VisitedAll(data: Json, es: seq<Entry>, c: Call, now: Option<Json>)
    requires data.Map? && Visited(data, {}, es, c, true, now)
    ensures RanMap(data, es, c, true, now)
  {
    assert (map k | k in data.fields.Keys - {} :: data.fields[k]) == data.fields;
  }

  /** A failed run over some keys is a failed run over all of them, whatever the order of the rest. */
  lemma GiveUp(data: Json, remaining: set<string>, es: seq<Entry>, c: Call, now: Option<Json>)
    returns (all: seq<Entry>)
    requires data.Map? && Visited(data, remaining, es, c, false, now)
    ensures RanMap(data, all, c, false, now)
  {
    all := Complete(es, data, remaining);
    FailureStays(c, es, all, now);
  }

  /** The loop over a list, part way. */
  ghost predicate VisitedItems(data: Json, ts: seq<Ordered>, c: Call, ok: bool, now: Option<Json>)
    requires data.List?
  {
    && |ts| <= |data.elems|
    && (forall i | 0 <= i < |ts| :: WellOrdered(ts[i]))
    && ForgetItems(ts) == data.elems[..|ts|]
    && Ran(c.kind, c.was, TextWritesOfItems(ts, c.path), c.overwrite, ok, now)
  }

  lemma VisitOneMoreItem(data: Json, ts: seq<Ordered>, c: Call, mid: Option<Json>, t: Ordered, ok: bool, now: Option<Json>)
    requires data.List? && |ts| < |data.elems| && VisitedItems(data, ts, c, true, mid)
    requires WellOrdered(t) && Forget(t) == data.elems[|ts|]
    requires Ran(c.kind, mid, TextWrites(t, c.path + Printed(c.path, Index(|ts|))), c.overwrite, ok, now)
    ensures VisitedItems(data, ts + [t], c, ok, now)
  {
    var more := TextWrites(t, c.path + Printed(c.path, Index(|ts|)));
    RanOneMore(c.kind, c.was, TextWritesOfItems(ts, c.path), mid, more, c.overwrite, ok, now);
    TextOfOneMoreItem(ts, t, c.path);
    assert |ts + [t]| == |ts| + 1 && data.elems[..|ts| + 1] == data.elems[..|ts|] + [data.elems[|ts|]];
    assert forall i | 0 <= i < |ts + [t]| :: (ts + [t])[i] == if i < |ts| then ts[i] else t;
  }

  ghost predicate RanList(data: Json, ts: seq<Ordered>, c: Call, ok: bool, now: Option<Json>) {
    data.List? && |ts| == |data.elems| && VisitedItems(data, ts, c, ok, now)
  }

  lemma GiveUpList(data: Json, ts: seq<Ordered>, c: Call, now: Option<Json>)
    returns (all: seq<Ordered>)
    requires data.List? && VisitedItems(data, ts, c, false, now)
    ensures RanList(data, all, c, false, now)
  {
    all := CompleteItems(ts, data);
    ListFailureStays(c, ts, all, now);
    assert data.elems[..|all|] == data.elems;
  }

  /** A finished run over the whole patch, in the order of `t`. */
  ghost predicate RanTree(data: Json, t: Ordered, c: Call, ok: bool, now: Option<Json>) {
    && WellOrdered(t)
    && Forget(t) == data
    && Ran(c.kind, c.was, TextWrites(t, c.path), c.overwrite, ok, now)
  }

  lemma MapIsTree(data: Json, es: seq<Entry>, c: Call, ok: bool, now: Option<Json>)
    requires RanMap(data, es, c, ok, now)
    ensures RanTree(data, Entries(es), c, ok, now)
  {
  }

  lemma ListIsTree(data: Json, ts: seq<Ordered>, c: Call, ok: bool, now: Option<Json>)
    requires RanList(data, ts, c, ok, now)
    ensures RanTree(data, Items(ts), c, ok, now)
  {
    assert data.elems[..|ts|] == data.elems;
  }

  lemma LeafIsTree(data: Json, c: Call, ok: bool, now: Option<Json>)
    requires IsLeaf(data) && Ran(c.kind, c.was, [TextWrite(c.path, data)], c.overwrite, ok, now)
    ensures RanTree(data, Leaf(data), c, ok, now)
  {
  }

  /** What a caller wants of SetData: the target has become the overlay, or there is none. */
  ghost predicate IsOverlay(data: Json, kind: Kind, was: Option<Json>, overwrite: bool, ok: bool, now: Option<Json>) {
    match Overlay(was, Effective(kind, data), overwrite)
    case Ok(r) => ok && now == r
    case Fail => !ok
  }

  /** Can the patch be written through path texts, and can the target be written at all? */
  predicate Writable(data: Json, kind: Kind, was: Option<Json>) {
    data.Map? && GoodKeys("", data) && kind != OtherKind && was.Some?
  }

  lemma TreeIsOverlay(data: Json, t: Ordered, kind: Kind, was: Option<Json>, overwrite: bool, ok: bool, now: Option<Json>)
    requires RanTree(data, t, Call(kind, was, "", overwrite), ok, now) && Writable(data, kind, was)
    ensures IsOverlay(data, kind, was, overwrite, ok, now)
  {
    SetDataIsOverlay(kind, was.value, t, overwrite);
    if ok {
      RanOk(kind, was, TextWrites(t, ""), overwrite, now);
    }
  }
}
