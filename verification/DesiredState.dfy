/** The desired state under the targets PatchDesired, PatchResources, Resources and XR (res.go:394-473). */
module DesiredState {
  import opened JsonTree
  import opened PathText
  import opened AnyOrder
  import opened SetDataSpec
  import opened SetDataRun
  import opened ResourceNames
  import opened Matching
  import opened PatchRuns
  import opened Patching

  /** The `desired` map, which the caller and ProcessResources share. */
  class Desired {
    var entries: map<string, DesiredComposed>

    constructor (entries: map<string, DesiredComposed>)
      ensures this.entries == entries
    {
      this.entries := entries;
    }
  }

  // ---------------------------------------------------------------- the ready annotations

  ghost predicate AllReadyOk(view: map<string, Item>) {
    forall n | n in view :: ReadyOk(view[n].obj)
  }

  ghost function AllReady(view: map<string, Item>): map<string, Item> {
    map n | n in view :: ReadyItem(view[n])
  }

  /** The ready step on one entry. */
  method ReadyEntry(cd: DesiredComposed) returns (ok: bool)
    requires cd.resource.Some? && cd.resource.value.Map?
    modifies cd
    ensures ok <==> ReadyOk(old(cd.resource.value))
    ensures ok ==> cd.resource.Some? && cd.resource.value.Map?
    ensures ok ==> Item(cd.resource.value, cd.ready) == ReadyItem(Item(old(cd.resource.value), old(cd.ready)))
    ensures !ok ==> cd.resource == old(cd.resource) && cd.ready == old(cd.ready)
  {
    var obj := cd.resource.value;
    var annotations := Annotations(obj);
    if READY_KEY in annotations {
      var v := annotations[READY_KEY];
      if v != "True" && v != "Unspecified" && v != "False" {
        return false;
      }
      RemoveAnnotationFrame(obj, READY_KEY);
      cd.ready := v;
      cd.resource := Some(RemoveAnnotation(obj, READY_KEY));
    }
    ok := true;
  }

  /** The ready step on the entry of one name. */
  method ReadyOne(desired: map<string, DesiredComposed>, name: string) returns (ok: bool)
    requires ValidDesired(desired) && name in desired
    modifies desired[name]
    ensures ok <==> ReadyOk(old(View(desired))[name].obj)
    ensures ok ==> ValidDesired(desired) && View(desired) == old(View(desired))[name := ReadyItem(old(View(desired))[name])]
  {
    ok := ReadyEntry(desired[name]);
  }

  /** The entries outside `remaining` have gone through the ready step. */
  ghost predicate ReadyBut(was: map<string, Item>, now: map<string, Item>, remaining: set<string>) {
    && now.Keys == was.Keys
    && forall n | n in was :: if n in remaining then now[n] == was[n] else ReadyOk(was[n].obj) && now[n] == ReadyItem(was[n])
  }

  /** The loop over the desired entries (res.go:415-424, 443-452, 460-469), in an arbitrary order. */
  method ProcessReady(desired: map<string, DesiredComposed>) returns (ok: bool)
    requires ValidDesired(desired)
    modifies desired.Values
    ensures ok <==> AllReadyOk(old(View(desired)))
    ensures ok ==> ValidDesired(desired) && View(desired) == AllReady(old(View(desired)))
  {
    ghost var was := View(desired);
    var remaining := desired.Keys;
    while remaining != {}
      invariant remaining <= desired.Keys
      invariant ValidDesired(desired) && ReadyBut(was, View(desired), remaining)
      decreases remaining
    {
      var name :| name in remaining;
      ok := ReadyOne(desired, name);
      if !ok {
        return;
      }
      remaining := remaining - {name};
    }
    ok := true;
  }

  // ---------------------------------------------------------------- PatchDesired

  /** Replacing one field by a tree that is as good and holds no leaf where there was none. */
  lemma ReplacedFieldGood(path: string, m: map<string, Json>, k: string, j: Json)
    requires GoodKeys(path, Map(m)) && k in m
    requires HasLeaf(j) ==> HasLeaf(m[k]) && GoodKeys(path + Printed(path, Field(k)), j)
    ensures GoodKeys(path, Map(m[k := j]))
    ensures HasLeaf(Map(m[k := j])) ==> HasLeaf(Map(m))
  {
    var m1 := m[k := j];
    if HasLeaf(Map(m1)) {
      var x :| x in m1 && HasLeaf(m1[x]);
      assert HasLeaf(m[x]);
    }
  }

  lemma RemovedFieldGood(path: string, m: map<string, Json>, k: string)
    requires GoodKeys(path, Map(m))
    ensures GoodKeys(path, Map(m - {k}))
    ensures HasLeaf(Map(m - {k})) ==> HasLeaf(Map(m))
  {
    if HasLeaf(Map(m - {k})) {
      var x :| x in m - {k} && HasLeaf((m - {k})[x]);
      assert HasLeaf(m[x]);
    }
  }

  lemma GoodBelow(path: string, m: map<string, Json>, k: string)
    requires GoodKeys(path, Map(m)) && k in m && HasLeaf(m[k])
    ensures GoodKeys(path + Printed(path, Field(k)), m[k])
  {
  }

  lemma FieldHasLeaf(m: map<string, Json>, k: string)
    requires k in m && HasLeaf(m[k])
    ensures HasLeaf(Map(m))
  {
  }

  /** Removing an annotation keeps a patch a patch. */
  lemma CleanIsPatch(d: Json)
    requires IsPatch(d)
    ensures IsPatch(Clean(d))
  {
    if NAME_KEY in Annotations(d) {
      var md := d.fields["metadata"].fields;
      var a := md["annotations"].fields;
      DropAnnotationGood(d.fields, md, a, NAME_KEY);
    }
  }

  lemma DropAnnotationGood(f: map<string, Json>, md: map<string, Json>, a: map<string, Json>, key: string)
    requires "metadata" in f && f["metadata"] == Map(md) && "annotations" in md && md["annotations"] == Map(a)
    requires key in a && HasLeaf(a[key]) && GoodKeys("", Map(f))
    ensures GoodKeys("", Map(f["metadata" := Map(md["annotations" := Map(a - {key})])]))
  {
    var p1 := "" + Printed("", Field("metadata"));
    var p2 := p1 + Printed(p1, Field("annotations"));
    FieldHasLeaf(a, key);
    FieldHasLeaf(md, "annotations");
    GoodBelow("", f, "metadata");
    GoodBelow(p1, md, "annotations");
    RemovedFieldGood(p2, a, key);
    ReplacedFieldGood(p1, md, "annotations", Map(a - {key}));
    ReplacedFieldGood("", f, "metadata", Map(md["annotations" := Map(a - {key})]));
  }

  lemma {:induction false} PatchesArePatches(data: seq<Json>, name: string)
    requires forall i | 0 <= i < |data| :: IsPatch(data[i])
    ensures forall i | 0 <= i < |PatchesFor(data, name)| :: IsPatch(PatchesFor(data, name)[i])
    decreases |data|
  {
    if data != [] {
      PatchesArePatches(data[..|data| - 1], name);
      CleanIsPatch(data[|data| - 1]);
    }
  }

  /** One list of visiting orders for each entry, for the patches of its name. */
  ghost predicate OrdersFor(names: set<string>, data: seq<Json>, orders: map<string, seq<Ordered>>) {
    orders.Keys == names && forall n | n in names :: Visits(orders[n], PatchesFor(data, n))
  }

  /** Can the patches of every entry be written, in these orders? */
  ghost predicate AllRun(view: map<string, Item>, orders: map<string, seq<Ordered>>, overwrite: bool)
    requires view.Keys <= orders.Keys
  {
    forall n | n in view :: RunAll(ComposedKind, Some(view[n].obj), orders[n], overwrite).Ok?
  }

  function ObjectOr(r: Outcome<Option<Json>>, otherwise: Json): Json {
    if r.Ok? && r.value.Some? then r.value.value else otherwise
  }

  /** Each entry with all patches of its name written in data order. */
  ghost function PatchedIn(view: map<string, Item>, orders: map<string, seq<Ordered>>, overwrite: bool): map<string, Item>
    requires view.Keys <= orders.Keys
  {
    map n | n in view :: Item(ObjectOr(RunAll(ComposedKind, Some(view[n].obj), orders[n], overwrite), view[n].obj), view[n].ready)
  }

  /** When patching is accepted: every patch names an entry, all can be written, every ready annotation is valid afterwards. */
  ghost predicate AcceptedIn(view: map<string, Item>, data: seq<Json>, orders: map<string, seq<Ordered>>, overwrite: bool)
    requires view.Keys <= orders.Keys
  {
    AllNamed(view.Keys, data) && AllRun(view, orders, overwrite) && AllReadyOk(PatchedIn(view, orders, overwrite))
  }

  // What this means for patches with safe keys, whatever the orders.

  /** Does every entry accept the patches of its name? */
  ghost predicate AllFit(view: map<string, Item>, data: seq<Json>, overwrite: bool) {
    forall n | n in view :: OverlayAll(ComposedKind, view[n].obj, PatchesFor(data, n), overwrite).Ok?
  }

  ghost predicate PatchAccepted(view: map<string, Item>, data: seq<Json>, overwrite: bool) {
    && AllNamed(view.Keys, data)
    && AllFit(view, data, overwrite)
    && AllReadyOk(Overlaid(view, data, overwrite))
  }

  /** Each entry with all patches of its name overlaid in data order. */
  ghost function Overlaid(view: map<string, Item>, data: seq<Json>, overwrite: bool): map<string, Item>
    requires AllFit(view, data, overwrite)
  {
    map n | n in view :: Item(OverlayAll(ComposedKind, view[n].obj, PatchesFor(data, n), overwrite).value, view[n].ready)
  }

  lemma OrdersDoNotMatter(view: map<string, Item>, data: seq<Json>, orders: map<string, seq<Ordered>>, overwrite: bool)
    requires ArePatches(data) && OrdersFor(view.Keys, data, orders)
    ensures AllRun(view, orders, overwrite) <==> AllFit(view, data, overwrite)
    ensures AllFit(view, data, overwrite) ==> PatchedIn(view, orders, overwrite) == Overlaid(view, data, overwrite)
  {
    forall n | n in view
      ensures RunAll(ComposedKind, Some(view[n].obj), orders[n], overwrite) ==
        Lifted(OverlayAll(ComposedKind, view[n].obj, PatchesFor(data, n), overwrite))
    {
      PatchesArePatches(data, n);
      RunAllIsOverlayAll(ComposedKind, view[n].obj, orders[n], PatchesFor(data, n), overwrite);
    }
  }

  /** With safe keys the visiting orders do not show: patching is overlaying. */
  lemma AcceptedIffOverlaid(view: map<string, Item>, data: seq<Json>, orders: map<string, seq<Ordered>>, overwrite: bool)
    requires ArePatches(data) && OrdersFor(view.Keys, data, orders)
    ensures AcceptedIn(view, data, orders, overwrite) <==> PatchAccepted(view, data, overwrite)
    ensures PatchAccepted(view, data, overwrite) ==> PatchedIn(view, orders, overwrite) == Overlaid(view, data, overwrite)
  {
    OrdersDoNotMatter(view, data, orders, overwrite);
  }

  // ---------------------------------------------------------------- PatchDesired as it runs

  /** The orders of the matched objects, told by name; an object without patches has none. */
  ghost function ByName(desired: map<string, DesiredComposed>, orders: map<DesiredComposed, seq<Ordered>>): map<string, seq<Ordered>> {
    map n | n in desired :: if desired[n] in orders then orders[desired[n]] else []
  }

  lemma ByNameVisits(desired: map<string, DesiredComposed>, data: seq<Json>, matches: map<DesiredComposed, seq<Json>>,
                     orders: map<DesiredComposed, seq<Ordered>>)
    requires Matched(desired, data, matches) && OrdersOf(matches, {}, orders)
    ensures OrdersFor(desired.Keys, data, ByName(desired, orders))
  {
    forall n | n in desired ensures Visits(ByName(desired, orders)[n], PatchesFor(data, n)) {
      assert Filed(matches, desired[n]) == PatchesFor(data, n);
    }
  }

  /** The matched objects can all be patched exactly when every entry can. */
  lemma MatchedRuns(desired: map<string, DesiredComposed>, matches: map<DesiredComposed, seq<Json>>,
                    orders: map<DesiredComposed, seq<Ordered>>, view: map<string, Item>, overwrite: bool)
    requires matches.Keys <= desired.Values && orders.Keys == matches.Keys && view.Keys == desired.Keys
    ensures AllRun(view, ByName(desired, orders), overwrite) <==>
      forall n | n in desired && desired[n] in matches ::
        RunAll(ComposedKind, Some(view[n].obj), orders[desired[n]], overwrite).Ok?
  {
    forall n | n in desired && desired[n] !in matches
      ensures RunAll(ComposedKind, Some(view[n].obj), ByName(desired, orders)[n], overwrite).Ok?
    {
    }
  }

  /** Once every matched object holds what its run gives and the others are as they were, all entries do. */
  lemma PatchedIsView(desired: map<string, DesiredComposed>, matches: map<DesiredComposed, seq<Json>>,
                      orders: map<DesiredComposed, seq<Ordered>>, was: map<string, Item>, overwrite: bool)
    requires DistinctEntries(desired) && orders.Keys == matches.Keys && was.Keys == desired.Keys
    requires forall n | n in desired :: desired[n].ready == was[n].ready && was[n].obj.Map?
    requires forall n | n in desired && desired[n] in matches ::
      RunAll(ComposedKind, Some(was[n].obj), orders[desired[n]], overwrite) == Ok(desired[n].resource)
    requires forall n | n in desired && desired[n] !in matches :: desired[n].resource == Some(was[n].obj)
    ensures ValidDesired(desired) && View(desired) == PatchedIn(was, ByName(desired, orders), overwrite)
  {
    forall n | n in desired
      ensures desired[n].resource == Some(PatchedIn(was, ByName(desired, orders), overwrite)[n].obj)
      ensures desired[n].resource.value.Map?
    {
      if desired[n] in matches {
        RunAllKeepsMap(ComposedKind, was[n].obj, orders[desired[n]], overwrite);
      }
    }
  }

  /** The patches once matched (res.go:278-289, 411-413). */
  method ApplyMatches(desired: map<string, DesiredComposed>, data: seq<Json>, matches: map<DesiredComposed, seq<Json>>, overwrite: bool)
    returns (ok: bool, ghost orders: map<string, seq<Ordered>>)
    requires ValidDesired(desired) && Matched(desired, data, matches)
    modifies desired.Values
    ensures OrdersFor(desired.Keys, data, orders)
    ensures ok <==> AllRun(old(View(desired)), orders, overwrite)
    ensures ok ==> ValidDesired(desired) && View(desired) == PatchedIn(old(View(desired)), orders, overwrite)
  {
    ghost var was := View(desired);
    ghost var visited;
    ok, visited := PatchMatches(matches, overwrite);
    orders := ByName(desired, visited);
    ByNameVisits(desired, data, matches, visited);
    MatchedRuns(desired, matches, visited, was, overwrite);
    if ok {
      PatchedIsView(desired, matches, visited, was, overwrite);
    }
  }

  ghost function SomeOrders(names: set<string>, data: seq<Json>): (r: map<string, seq<Ordered>>)
    ensures OrdersFor(names, data, r)
  {
    map n | n in names :: CompleteVisits([], PatchesFor(data, n))
  }

  /**
   PatchDesired (res.go:406-426), the ghost result telling in which orders the maps of the patches
   were visited. With safe keys these do not show.
   */
  method ProcessPatchDesired(desired: map<string, DesiredComposed>, data: seq<Json>, overwrite: bool)
    returns (ok: bool, ghost orders: map<string, seq<Ordered>>)
    requires ValidDesired(desired)
    modifies desired.Values
    ensures OrdersFor(desired.Keys, data, orders)
    ensures ok <==> AcceptedIn(old(View(desired)), data, orders, overwrite)
    ensures ok ==> ValidDesired(desired) && View(desired) == AllReady(PatchedIn(old(View(desired)), orders, overwrite))
    ensures ArePatches(data) ==> (ok <==> PatchAccepted(old(View(desired)), data, overwrite))
    ensures ArePatches(data) && ok ==> View(desired) == AllReady(Overlaid(old(View(desired)), data, overwrite))
  {
    ghost var was := View(desired);
    orders := SomeOrders(desired.Keys, data);
    var matches;
    matches, ok := MatchResources(desired, data);
    if ok {
      ok, orders := ApplyMatches(desired, data, matches, overwrite);
    }
    if ok {
      ok := ProcessReady(desired);
    }
    if ArePatches(data) {
      AcceptedIffOverlaid(was, data, orders, overwrite);
    }
  }

  // ---------------------------------------------------------------- PatchResources

  /** KCLInput.spec.resources: a name and a base object. */
  datatype Base = Base(name: string, obj: Json)

  /** The bases put into the desired state; a later base of the same name wins. */
  ghost function WithBases(view: map<string, Item>, bases: seq<Base>): map<string, Item> {
    if bases == [] then view
    else
      var b := bases[|bases| - 1];
      WithBases(view, bases[..|bases| - 1])[b.name := Item(b.obj, "")]
  }

  /** Storing an entry under a name, whether or not the name was taken. */
  method SetEntry(desired: Desired, name: string, cd: DesiredComposed)
    requires ValidDesired(desired.entries) && cd !in desired.entries.Values
    requires cd.resource.Some? && cd.resource.value.Map?
    modifies desired
    ensures desired.entries == old(desired.entries)[name := cd] && ValidDesired(desired.entries)
    ensures View(desired.entries) == old(View(desired.entries))[name := Item(cd.resource.value, cd.ready)]
  {
    desired.entries := desired.entries[name := cd];
  }

  method Put(desired: Desired, name: string, obj: Json) returns (cd: DesiredComposed)
    requires ValidDesired(desired.entries) && obj.Map?
    modifies desired
    ensures fresh(cd) && desired.entries == old(desired.entries)[name := cd]
    ensures ValidDesired(desired.entries)
    ensures View(desired.entries) == old(View(desired.entries))[name := Item(obj, "")]
  {
    cd := new DesiredComposed(Some(obj));
    SetEntry(desired, name, cd);
  }

  /** PatchResources (res.go:427-454). */
  method ProcessPatchResources(desired: Desired, bases: seq<Base>, data: seq<Json>, overwrite: bool)
    returns (ok: bool, ghost orders: map<string, seq<Ordered>>)
    requires ValidDesired(desired.entries)
    requires forall i | 0 <= i < |bases| :: bases[i].obj.Map?
    modifies desired, desired.entries.Values
    ensures var view := WithBases(old(View(desired.entries)), bases);
            && OrdersFor(view.Keys, data, orders)
            && (ok <==> AcceptedIn(view, data, orders, overwrite))
            && (ok ==> ValidDesired(desired.entries) && View(desired.entries) == AllReady(PatchedIn(view, orders, overwrite)))
            && (ArePatches(data) ==> (ok <==> PatchAccepted(view, data, overwrite)))
            && (ArePatches(data) && ok ==> View(desired.entries) == AllReady(Overlaid(view, data, overwrite)))
  {
    ghost var was := View(desired.entries);
    for i := 0 to |bases|
      invariant ValidDesired(desired.entries)
      invariant View(desired.entries) == WithBases(was, bases[..i])
      invariant forall n | n in desired.entries :: desired.entries[n] in old(desired.entries.Values) || fresh(desired.entries[n])
    {
      assert bases[..i + 1][..i] == bases[..i];
      var cd := Put(desired, bases[i].name, bases[i].obj);
    }
    assert bases[..|bases|] == bases;
    ok, orders := ProcessPatchDesired(desired.entries, data, overwrite);
  }

  // ---------------------------------------------------------------- Resources

  /** duplicateChecker (res.go:572-595). */
  class DuplicateChecker {
    var seen: map<string, string>

    constructor ()
      ensures seen == map[]
    {
      seen := map[];
    }

    method CheckDuplicateName(obj: Json, name: string) returns (ok: bool)
      modifies this
      ensures ok <==> name !in old(seen)
      ensures seen == if ok then old(seen)[name := KindOf(obj) + "/" + NameOf(obj)] else old(seen)
    {
      var kindAndName := KindOf(obj) + "/" + NameOf(obj);
      if name in seen {
        return false;
      }
      seen := seen[name := kindAndName];
      ok := true;
    }
  }

  /** The top-level right-biased merge of an existing object and new data (res.go:242-252). */
  function MergeTop(from: Json, data: Json): Json
    requires from.Map? && data.Map?
  {
    Map(from.fields + data.fields)
  }

  /** One item of the Resources target: merged into the entry of its name, or a new entry. */
  ghost function AddOne(view: map<string, Item>, d: Json): map<string, Item> {
    var name, c := ResourceName(d), Clean(d);
    view[name := Item(if name in view && view[name].obj.Map? && c.Map? then MergeTop(view[name].obj, c) else c, "")]
  }

  ghost function Added(view: map<string, Item>, data: seq<Json>): map<string, Item> {
    if data == [] then view else AddOne(Added(view, data[..|data| - 1]), data[|data| - 1])
  }

  /**
   With distinct names, each named entry is the merge of the old entry and its one item, or the item
   itself; all other entries are as they were.
   */
  lemma {:induction false} AddedFacts(view: map<string, Item>, data: seq<Json>, i: nat, other: string)
    requires DistinctNames(data)
    requires forall n | n in view :: view[n].obj.Map?
    requires forall j | 0 <= j < |data| :: data[j].Map?
    requires !NameAmong(data, other)
    ensures other in Added(view, data) <==> other in view
    ensures other in view ==> Added(view, data)[other] == view[other]
    ensures i < |data| ==>
      var name, c := ResourceName(data[i]), Clean(data[i]);
      name in Added(view, data) && c.Map? &&
      Added(view, data)[name] == Item(if name in view then MergeTop(view[name].obj, c) else c, "")
    decreases |data|
  {
    if data != [] {
      var n := |data| - 1;
      var init, d := data[..n], data[n];
      assert data == init + [d];
      NamesOneMore(init, d);
      RemoveAnnotationFrame(d, NAME_KEY);
      AddedFacts(view, init, i, other);
      AddedFacts(view, init, i, ResourceName(d));
      if i < n {
        assert ResourceName(data[i]) != ResourceName(data[n]);
      }
    }
  }

  /** One item into the desired state (res.go:266-276). */
  method AddItem(desired: Desired, item: Json) returns (cd: DesiredComposed)
    requires ValidDesired(desired.entries) && item.Map?
    modifies desired
    ensures ValidDesired(desired.entries) && View(desired.entries) == AddOne(old(View(desired.entries)), item)
    ensures fresh(cd) && desired.entries == old(desired.entries)[ResourceName(item) := cd]
  {
    var name, d := ResourceName(item), Clean(item);
    RemoveAnnotationFrame(item, NAME_KEY);
    if name in desired.entries {
      var from := desired.entries[name].resource.value;
      assert View(desired.entries)[name].obj == from;
      d := MergeTop(from, d);
    }
    cd := Put(desired, name, d);
  }

  lemma AddedOneMore(view: map<string, Item>, data: seq<Json>, i: nat)
    requires i < |data|
    ensures Added(view, data[..i + 1]) == AddOne(Added(view, data[..i]), data[i])
  {
    assert data[..i + 1][..i] == data[..i];
  }

  /** One item whose name must not have been seen (res.go:259-276). */
  method AddChecked(desired: Desired, checker: DuplicateChecker, item: Json) returns (ok: bool)
    requires ValidDesired(desired.entries) && item.Map?
    modifies desired, checker
    ensures ok <==> ResourceName(item) !in old(checker.seen)
    ensures !ok ==> desired.entries == old(desired.entries)
    ensures ok ==> ValidDesired(desired.entries) && View(desired.entries) == AddOne(old(View(desired.entries)), item)
    ensures ok ==> checker.seen.Keys == old(checker.seen.Keys) + {ResourceName(item)}
    ensures fresh(desired.entries.Values - old(desired.entries.Values))
  {
    ok := checker.CheckDuplicateName(item, ResourceName(item));
    if ok {
      var cd := AddItem(desired, item);
    }
  }

  /** The Resources case of AddResourcesTo (res.go:255-277). */
  method AddResources(desired: Desired, data: seq<Json>) returns (ok: bool)
    requires ValidDesired(desired.entries)
    requires forall i | 0 <= i < |data| :: data[i].Map?
    modifies desired
    ensures ok <==> DistinctNames(data)
    ensures ok ==> ValidDesired(desired.entries) && View(desired.entries) == Added(old(View(desired.entries)), data)
    ensures fresh(desired.entries.Values - old(desired.entries.Values))
  {
    ghost var was := View(desired.entries);
    var checker := new DuplicateChecker();
    var i := 0;
    while i < |data|
      invariant 0 <= i <= |data| && fresh(checker)
      invariant ValidDesired(desired.entries) && View(desired.entries) == Added(was, data[..i])
      invariant fresh(desired.entries.Values - old(desired.entries.Values))
      invariant SeenNames(checker.seen.Keys, data[..i])
    {
      SeenOneMore(checker.seen.Keys, data, i);
      AddedOneMore(was, data, i);
      ok := AddChecked(desired, checker, data[i]);
      if !ok {
        return;
      }
      i := i + 1;
    }
    assert data[..|data|] == data;
    ok := true;
  }

  /** Resources (res.go:455-473). */
  method ProcessResourcesTarget(desired: Desired, data: seq<Json>) returns (ok: bool)
    requires ValidDesired(desired.entries)
    requires forall i | 0 <= i < |data| :: data[i].Map?
    modifies desired, desired.entries.Values
    ensures ok <==> DistinctNames(data) && AllReadyOk(Added(old(View(desired.entries)), data))
    ensures ok ==> ValidDesired(desired.entries) && View(desired.entries) == AllReady(Added(old(View(desired.entries)), data))
  {
    ok := AddResources(desired, data);
    if ok {
      ok := ProcessReady(desired.entries);
    }
  }
}
