/** What the patch targets and the Resources target come to, entry by entry. */
module TargetFacts {
  import opened JsonTree
  import opened PathText
  import opened FieldPath
  import opened Overlays
  import opened AnyOrder
  import opened SetDataSpec
  import opened OverlayFacts
  import opened ResourceNames
  import opened NamesByPath
  import opened Matching
  import opened PatchRuns
  import opened DesiredState
  import opened WrappedKeys

  // ---------------------------------------------------------------- routing patches

  /** Where the patches of `name` stand in the data. */
  function PlacesOf(data: seq<Json>, name: string): (at: seq<nat>)
    ensures forall j | 0 <= j < |at| :: at[j] < |data|
  {
    if data == [] then []
    else
      var n := |data| - 1;
      PlacesOf(data[..n], name) + if ResourceName(data[n]) == name then [n] else []
  }

  /** `at` lists exactly the items of `name`, in order, and `filed` is what they come to without the naming annotation. */
  ghost predicate FiledFrom(data: seq<Json>, name: string, at: seq<nat>, filed: seq<Json>) {
    && (forall j, k | 0 <= j < k < |at| :: at[j] < at[k])
    && (forall i: nat :: i in at <==> i < |data| && NamedBy(data[i], name))
    && |filed| == |at|
    && forall j | 0 <= j < |at| :: at[j] < |data| && filed[j] == Clean(data[at[j]])
  }

  lemma FiledOneMore(data: seq<Json>, d: Json, name: string, at: seq<nat>, filed: seq<Json>)
    requires FiledFrom(data, name, at, filed)
    ensures if ResourceName(d) == name then FiledFrom(data + [d], name, at + [|data|], filed + [Clean(d)])
            else FiledFrom(data + [d], name, at, filed)
  {
    var all := data + [d];
    NamedByOne(d);
    assert all[|data|] == d;
    forall i: nat | i < |data| ensures all[i] == data[i] {}
    assert forall j | 0 <= j < |at| :: at[j] in at;
    if ResourceName(d) == name {
      var at' := at + [|data|];
      assert forall i: nat :: i in at' <==> i in at || i == |data|;
    }
  }

  /** The patches on file for a name are exactly the items of that name, each once, in data order, without the naming annotation. */
  lemma {:induction false} PatchesForAre(data: seq<Json>, name: string)
    ensures FiledFrom(data, name, PlacesOf(data, name), PatchesFor(data, name))
    decreases |data|
  {
    if data != [] {
      var n := |data| - 1;
      PatchesForAre(data[..n], name);
      FiledOneMore(data[..n], data[n], name, PlacesOf(data[..n], name), PatchesFor(data[..n], name));
      assert data == data[..n] + [data[n]];
    }
  }

  // ---------------------------------------------------------------- identity under patching

  predicate SomeMetadataLeaf(patches: seq<Json>) {
    exists i | 0 <= i < |patches| :: MetadataIsLeaf(patches[i])
  }

  predicate MetadataGone(obj: Json) {
    obj.Map? && "metadata" in obj.fields && IsLeaf(obj.fields["metadata"])
  }

  /** A leaf in the place of metadata can only be replaced by another leaf. */
  lemma GoneStaysGone(obj: Json, patch: Json, overwrite: bool)
    requires MetadataGone(obj) && patch.Map? && Overlay(Some(obj), Effective(ComposedKind, patch), overwrite).Ok?
    ensures MetadataGone(Overlay(Some(obj), Effective(ComposedKind, patch), overwrite).value.value)
  {
    var p := Prune([], patch);
    if "metadata" in p.fields && HasLeaf(p.fields["metadata"]) {
      OverlayChild(Some(obj), p, Field("metadata"), overwrite);
    } else {
      OverlayBeside(Some(obj), p, Field("metadata"), overwrite);
    }
  }

  lemma LeafMetadataErases(obj: Json, patch: Json, overwrite: bool)
    requires obj.Map? && patch.Map? && Overlay(Some(obj), Effective(ComposedKind, patch), overwrite).Ok? && MetadataIsLeaf(patch)
    ensures MetadataGone(Overlay(Some(obj), Effective(ComposedKind, patch), overwrite).value.value)
  {
    var p := Prune([], patch);
    var m := [Field("metadata")];
    assert m[1..] == [] && [] + [m[0]] == m;
    assert m !in PROTECTED;
    assert p.fields["metadata"] == Prune(m, patch.fields["metadata"]);
    OverlayChild(Some(obj), p, Field("metadata"), overwrite);
  }

  lemma {:induction false} AllGoneStaysGone(obj: Json, patches: seq<Json>, overwrite: bool)
    requires MetadataGone(obj) && (forall i | 0 <= i < |patches| :: patches[i].Map?)
    requires OverlayAll(ComposedKind, obj, patches, overwrite).Ok?
    ensures MetadataGone(OverlayAll(ComposedKind, obj, patches, overwrite).value)
    decreases |patches|
  {
    if patches != [] {
      GoneStaysGone(obj, patches[0], overwrite);
      AllGoneStaysGone(Overlay(Some(obj), Effective(ComposedKind, patches[0]), overwrite).value.value, patches[1..], overwrite);
    }
  }

  lemma GoneHasNoName(obj: Json, v: Json)
    requires MetadataGone(obj)
    ensures Get(Some(obj), [Field("metadata"), Field("name")]) != Found(v)
  {
    var path := [Field("metadata"), Field("name")];
    assert path[1..] == [Field("name")];
  }

  /**
   A composed resource keeps its apiVersion, kind and name through all of its patches, with one
   exception: the name is lost exactly when one of the patches has a leaf in the place of metadata.
   */
  lemma {:induction false} IdentityKeptIff(obj: Json, patches: seq<Json>, overwrite: bool, path: seq<Seg>, v: Json)
    requires obj.Map? && (forall i | 0 <= i < |patches| :: patches[i].Map?)
    requires OverlayAll(ComposedKind, obj, patches, overwrite).Ok?
    requires path in PROTECTED && IsLeaf(v) && v != Null && Get(Some(obj), path) == Found(v)
    ensures Get(Some(OverlayAll(ComposedKind, obj, patches, overwrite).value), path) == Found(v) <==>
      !(path == [Field("metadata"), Field("name")] && SomeMetadataLeaf(patches))
    decreases |patches|
  {
    if patches != [] {
      var mid := Overlay(Some(obj), Effective(ComposedKind, patches[0]), overwrite).value.value;
      OverlayIsMap(obj, ComposedKind, patches[0], overwrite);
      ProtectedScalarStaysIff(obj, patches[0], overwrite, path, v);
      SomeLeafStep(patches);
      if path == [Field("metadata"), Field("name")] && MetadataIsLeaf(patches[0]) {
        LeafMetadataErases(obj, patches[0], overwrite);
        AllGoneStaysGone(mid, patches[1..], overwrite);
        GoneHasNoName(OverlayAll(ComposedKind, mid, patches[1..], overwrite).value, v);
      } else {
        IdentityKeptIff(mid, patches[1..], overwrite, path, v);
      }
    }
  }

  lemma SomeLeafStep(patches: seq<Json>)
    requires patches != []
    ensures SomeMetadataLeaf(patches) <==> MetadataIsLeaf(patches[0]) || SomeMetadataLeaf(patches[1..])
  {
    if SomeMetadataLeaf(patches[1..]) {
      var i :| 0 <= i < |patches[1..]| && MetadataIsLeaf(patches[1..][i]);
      assert MetadataIsLeaf(patches[i + 1]);
    }
    if SomeMetadataLeaf(patches) && !MetadataIsLeaf(patches[0]) {
      var i :| 0 <= i < |patches| && MetadataIsLeaf(patches[i]);
      assert MetadataIsLeaf(patches[1..][i - 1]);
    }
  }

  // ---------------------------------------------------------------- the ready step

  predicate Beside(path: seq<Seg>, at: seq<Seg>) {
    !(path <= at) && !(at <= path)
  }

  /** Removing an annotation changes nothing beside the path of that annotation. */
  lemma RemovalFrame(obj: Json, key: string, path: seq<Seg>)
    requires Beside(path, [Field("metadata"), Field("annotations"), Field(key)])
    ensures Get(Some(RemoveAnnotation(obj, key)), path) == Get(Some(obj), path)
  {
    var at := [Field("metadata"), Field("annotations"), Field(key)];
    if key in Annotations(obj) {
      if path[0] == at[0] {
        if path[1] == at[1] {
          BelowAnnotations(obj, key, path);
        } else {
          BesideAnnotations(obj, key, path);
        }
      }
    }
  }

  lemma BelowAnnotations(obj: Json, key: string, path: seq<Seg>)
    requires key in Annotations(obj) && |path| > 2
    requires path[0] == Field("metadata") && path[1] == Field("annotations") && path[2] != Field(key)
    ensures Get(Some(RemoveAnnotation(obj, key)), path) == Get(Some(obj), path)
  {
    var md := obj.fields["metadata"].fields;
    var a := md["annotations"].fields;
    var md' := md["annotations" := Map(a - {key})];
    var p1, p2 := path[1..], path[1..][1..];
    assert p1[0] == path[1] && p2[0] == path[2];
    assert Get(Some(Map(a - {key})), p2) == Get(Some(Map(a)), p2);
    assert Get(Some(Map(md')), p1) == Get(Some(Map(md)), p1);
  }

  lemma BesideAnnotations(obj: Json, key: string, path: seq<Seg>)
    requires key in Annotations(obj) && |path| > 1
    requires path[0] == Field("metadata") && path[1] != Field("annotations")
    ensures Get(Some(RemoveAnnotation(obj, key)), path) == Get(Some(obj), path)
  {
    var md := obj.fields["metadata"].fields;
    var md' := md["annotations" := Map(md["annotations"].fields - {key})];
    var p1 := path[1..];
    assert p1[0] == path[1];
    assert Get(Some(Map(md')), p1) == Get(Some(Map(md)), p1);
  }

  /** What the ready step has made of `was`: no ready annotation, readiness from it, all else as before. */
  ghost predicate ReadyTaken(was: Item, now: Item) {
    && READY_KEY !in Annotations(now.obj)
    && now.ready == (if READY_KEY in Annotations(was.obj) then Annotations(was.obj)[READY_KEY] else was.ready)
    && (READY_KEY in Annotations(was.obj) ==> ReadyValue(now.ready))
    && (forall path | Beside(path, [Field("metadata"), Field("annotations"), Field(READY_KEY)]) :: Get(Some(now.obj), path) == Get(Some(was.obj), path))
  }

  lemma ReadyStepMeans(it: Item)
    requires ReadyOk(it.obj)
    ensures ReadyTaken(it, ReadyItem(it))
  {
    ReadyItemFacts(it);
    forall path | Beside(path, [Field("metadata"), Field("annotations"), Field(READY_KEY)])
      ensures Get(Some(ReadyItem(it).obj), path) == Get(Some(it.obj), path)
    {
      RemovalFrame(it.obj, READY_KEY, path);
    }
  }

  // ---------------------------------------------------------------- entry by entry

  lemma NothingFiled(data: seq<Json>, name: string)
    requires !NameAmong(data, name)
    ensures PatchesFor(data, name) == []
  {
    PatchesForAre(data, name);
    var at := PlacesOf(data, name);
    assert forall j | 0 <= j < |at| :: at[j] in at;
  }

  /** An entry's base with the patches of its name laid over it. */
  function PatchedBase(view: map<string, Item>, data: seq<Json>, overwrite: bool, name: string): Item
    requires name in view && OverlayAll(ComposedKind, view[name].obj, PatchesFor(data, name), overwrite).Ok?
  {
    Item(OverlayAll(ComposedKind, view[name].obj, PatchesFor(data, name), overwrite).value, view[name].ready)
  }

  /** The entry of `name` is its patched base after the ready step; without patches, the entry as it was after the ready step. */
  ghost predicate EntryPatched(view: map<string, Item>, data: seq<Json>, overwrite: bool, name: string)
    requires PatchAccepted(view, data, overwrite) && name in view
  {
    var now := AllReady(Overlaid(view, data, overwrite));
    && now.Keys == view.Keys
    && ReadyTaken(PatchedBase(view, data, overwrite, name), now[name])
    && (!NameAmong(data, name) ==> PatchedBase(view, data, overwrite, name) == view[name])
  }

  /**
   PatchDesired and PatchResources on success, for each entry: the base with its patches overlaid in
   data order, then the ready step. An entry that no item names gets the ready step only.
   */
  lemma PatchedEntry(view: map<string, Item>, data: seq<Json>, overwrite: bool, name: string)
    requires PatchAccepted(view, data, overwrite) && name in view
    ensures EntryPatched(view, data, overwrite, name)
  {
    var mid := Overlaid(view, data, overwrite);
    assert ReadyOk(mid[name].obj);
    ReadyStepMeans(mid[name]);
    if !NameAmong(data, name) {
      NothingFiled(data, name);
    }
  }

  /**
   Resources on success: the item at `i` is merged into the entry of its name or becomes it, an entry
   that no item names keeps its content, and every entry has gone through the ready step.
   */
  lemma ResourcesEntry(view: map<string, Item>, data: seq<Json>, i: nat, other: string)
    requires (forall n | n in view :: view[n].obj.Map?) && (forall j | 0 <= j < |data| :: data[j].Map?)
    requires DistinctNames(data) && AllReadyOk(Added(view, data)) && !NameAmong(data, other)
    ensures var now := AllReady(Added(view, data));
            && (other in now <==> other in view)
            && (other in view ==> ReadyTaken(view[other], now[other]))
    ensures i < |data| ==>
      var now, name, c := AllReady(Added(view, data)), ResourceName(data[i]), Clean(data[i]);
      name in now && c.Map? && ReadyTaken(Item(if name in view then MergeTop(view[name].obj, c) else c, ""), now[name])
  {
    AddedFacts(view, data, i, other);
    var mid := Added(view, data);
    if other in view {
      assert ReadyOk(mid[other].obj);
      ReadyStepMeans(mid[other]);
    }
    if i < |data| {
      var name := ResourceName(data[i]);
      assert ReadyOk(mid[name].obj);
      ReadyStepMeans(mid[name]);
    }
  }

  // ---------------------------------------------------------------- identity under the patch targets

  /** A patch that has a leaf for metadata has no name to be filed by. */
  lemma LeafMetadataHasNoName(d: Json)
    requires d.Map?
    ensures MetadataIsLeaf(d) ==> ResourceName(d) == ""
    ensures MetadataIsLeaf(Clean(d)) <==> MetadataIsLeaf(d)
    ensures Clean(d).Map?
  {
    RemoveAnnotationFrame(d, NAME_KEY);
  }

  /** Routing: such a patch reaches no entry but the one with the empty name. */
  lemma {:induction false} FiledLeafIff(data: seq<Json>, name: string)
    requires forall i | 0 <= i < |data| :: data[i].Map?
    ensures forall i | 0 <= i < |PatchesFor(data, name)| :: PatchesFor(data, name)[i].Map?
    ensures SomeMetadataLeaf(PatchesFor(data, name)) <==> name == "" && SomeMetadataLeaf(data)
    decreases |data|
  {
    if data != [] {
      var n := |data| - 1;
      FiledLeafIff(data[..n], name);
      LeafMetadataHasNoName(data[n]);
      var filed := PatchesFor(data[..n], name);
      assert data == data[..n] + [data[n]];
      SomeLeafMore(data[..n], data[n]);
      SomeLeafMore(filed, Clean(data[n]));
      assert PatchesFor(data, name) == if ResourceName(data[n]) == name then filed + [Clean(data[n])] else filed;
    }
  }

  lemma SomeLeafMore(patches: seq<Json>, d: Json)
    ensures SomeMetadataLeaf(patches + [d]) <==> SomeMetadataLeaf(patches) || MetadataIsLeaf(d)
  {
    var all := patches + [d];
    assert all[|patches|] == d && forall i | 0 <= i < |patches| :: all[i] == patches[i];
    if SomeMetadataLeaf(patches) {
      var i :| 0 <= i < |patches| && MetadataIsLeaf(patches[i]);
      assert MetadataIsLeaf(all[i]);
    }
  }

  lemma ProtectedBesideAnnotations(path: seq<Seg>, key: string)
    requires path in PROTECTED
    ensures Beside(path, [Field("metadata"), Field("annotations"), Field(key)])
  {
    var at := [Field("metadata"), Field("annotations"), Field(key)];
    assert path[0] != at[0] || (|path| == 2 && path[1] != at[1]);
  }

  /**
   PatchDesired and PatchResources on success, with safe keys: every entry keeps its apiVersion, kind
   and metadata.name, except that the entry filed under the empty name loses its metadata.name if and
   only if some patch has a leaf for metadata.
   */
  lemma EntryIdentityIff(view: map<string, Item>, data: seq<Json>, orders: map<string, seq<Ordered>>, overwrite: bool,
                         name: string, path: seq<Seg>, v: Json)
    requires ArePatches(data) && OrdersFor(view.Keys, data, orders) && AcceptedIn(view, data, orders, overwrite)
    requires name in view && view[name].obj.Map?
    requires path in PROTECTED && IsLeaf(v) && v != Null && Get(Some(view[name].obj), path) == Found(v)
    ensures Get(Some(AllReady(PatchedIn(view, orders, overwrite))[name].obj), path) == Found(v) <==>
      !(path == [Field("metadata"), Field("name")] && name == "" && SomeMetadataLeaf(data))
  {
    AcceptedIffOverlaid(view, data, orders, overwrite);
    PatchedEntry(view, data, overwrite, name);
    ProtectedBesideAnnotations(path, READY_KEY);
    FiledLeafIff(data, name);
    IdentityKeptIff(view[name].obj, PatchesFor(data, name), overwrite, path, v);
  }

  /** A patch that is nothing but a leaf for metadata. */
  function MetadataPatch(leaf: Json): Json {
    Map(map["metadata" := leaf])
  }

  lemma MetadataPatchIsSafe(leaf: Json)
    requires IsLeaf(leaf)
    ensures IsPatch(MetadataPatch(leaf))
  {
    BracketNeverWraps("");
    assert KeyOk("metadata", false);
  }

  /** Laid over any object such a patch fits and leaves no name. */
  lemma MetadataLeafFits(obj: Json, leaf: Json)
    requires obj.Map? && IsLeaf(leaf)
    ensures var r := PatchedObject(ComposedKind, obj, MetadataPatch(leaf), true);
            r.Ok? && r.value.Some? && MetadataGone(r.value.value)
  {
    var d, m := MetadataPatch(leaf), [Field("metadata")];
    assert m[1..] == [] && [] + [m[0]] == m && m !in PROTECTED;
    var p := Prune([], d);
    assert p.fields == map["metadata" := leaf] by {
      assert p.fields["metadata"] == Prune(m, leaf);
    }
    assert HasLeaf(p.fields["metadata"]) && HasLeaf(p);
    assert FieldsFit(obj.fields, p.fields, p, true);
    LeafMetadataErases(obj, d, true);
  }

  /** SetData with overwrite accepts such a patch on any object and erases the name: the gap of its protection. */
  lemma MetadataPatchErasesName(obj: Json, leaf: Json, t: Ordered, v: Json)
    requires obj.Map? && IsLeaf(leaf) && WellOrdered(t) && Forget(t) == MetadataPatch(leaf)
    ensures var r := InOrder(ComposedKind, obj, t, true);
            && r.Ok? && r.value.Some? && MetadataGone(r.value.value)
            && Get(r.value, [Field("metadata"), Field("name")]) != Found(v)
  {
    MetadataPatchIsSafe(leaf);
    SetDataIsOverlay(ComposedKind, obj, t, true);
    MetadataLeafFits(obj, leaf);
    GoneHasNoName(InOrder(ComposedKind, obj, t, true).value.value, v);
  }

  /** Without overwrite it refuses such a patch on any object that has metadata. */
  lemma MetadataPatchRefused(obj: Json, leaf: Json, t: Ordered)
    requires obj.Map? && "metadata" in obj.fields && obj.fields["metadata"] != Null
    requires IsLeaf(leaf) && WellOrdered(t) && Forget(t) == MetadataPatch(leaf)
    ensures InOrder(ComposedKind, obj, t, false) == Fail
  {
    MetadataPatchIsSafe(leaf);
    SetDataIsOverlay(ComposedKind, obj, t, false);
    MetadataLeafMisfits(obj, leaf);
  }

  lemma MetadataLeafMisfits(obj: Json, leaf: Json)
    requires obj.Map? && "metadata" in obj.fields && obj.fields["metadata"] != Null && IsLeaf(leaf)
    ensures PatchedObject(ComposedKind, obj, MetadataPatch(leaf), false) == Fail
  {
    var d, m := MetadataPatch(leaf), [Field("metadata")];
    assert m[1..] == [] && [] + [m[0]] == m && m !in PROTECTED;
    var p := Prune([], d);
    assert p.fields["metadata"] == Prune(m, leaf) == leaf;
    assert HasLeaf(p.fields["metadata"]) && HasLeaf(p);
    assert Overlay(FieldSlot(obj.fields, "metadata"), p.fields["metadata"], false) == Fail;
    assert !FieldsFit(obj.fields, p.fields, p, false);
    assert FieldsOf(Some(obj)) == Some(obj.fields);
    OverlayMapIs(Some(obj), p.fields, obj.fields, false);
  }

  lemma FiledUnnamed(leaf: Json)
    requires IsLeaf(leaf)
    ensures PatchesFor([MetadataPatch(leaf)], "") == [MetadataPatch(leaf)]
    ensures AllNamed({""}, [MetadataPatch(leaf)])
  {
    var d := MetadataPatch(leaf);
    LeafMetadataHasNoName(d);
    assert [d][..0] == [];
  }

  lemma GoneHasNoAnnotations(obj: Json)
    requires MetadataGone(obj)
    ensures Annotations(obj) == map[]
  {
  }

  lemma RunOfOne(obj: Json, t: Ordered, overwrite: bool)
    ensures RunAll(ComposedKind, Some(obj), [t], overwrite) == InOrder(ComposedKind, obj, t, overwrite)
  {
    assert [t][1..] == [];
  }

  lemma ReadyLeavesIt(r: Json, ready: string)
    requires Annotations(r) == map[]
    ensures ReadyOk(r) && ReadyItem(Item(r, ready)) == Item(r, ready)
  {
  }

  /** A single entry whose one patch leaves it without annotations. */
  lemma OnlyEntry(obj: Json, t: Ordered, r: Json)
    requires PatchesFor([Forget(t)], "") == [Forget(t)] && AllNamed({""}, [Forget(t)]) && WellOrdered(t)
    requires InOrder(ComposedKind, obj, t, true) == Ok(Some(r)) && Annotations(r) == map[]
    ensures var view, data, orders := map["" := Item(obj, "")], [Forget(t)], map["" := [t]];
            && OrdersFor(view.Keys, data, orders)
            && AcceptedIn(view, data, orders, true)
            && AllReady(PatchedIn(view, orders, true))[""].obj == r
  {
    var view, data, orders := map["" := Item(obj, "")], [Forget(t)], map["" := [t]];
    assert view.Keys == {""} && orders.Keys == {""};
    RunOfOne(obj, t, true);
    ReadyLeavesIt(r, "");
    assert Visits(orders[""], PatchesFor(data, ""));
    assert AllRun(view, orders, true);
    assert PatchedIn(view, orders, true)[""].obj == r;
  }

  /** And a run of the patch target in which it happens: the entry of the empty name loses its metadata.name. */
  lemma UnnamedEntryCanLoseName(obj: Json, leaf: Json, t: Ordered, v: Json)
    requires obj.Map? && IsLeaf(leaf) && WellOrdered(t) && Forget(t) == MetadataPatch(leaf)
    ensures var view, data, orders := map["" := Item(obj, "")], [MetadataPatch(leaf)], map["" := [t]];
            && OrdersFor(view.Keys, data, orders)
            && AcceptedIn(view, data, orders, true)
            && Get(Some(AllReady(PatchedIn(view, orders, true))[""].obj), [Field("metadata"), Field("name")]) != Found(v)
  {
    FiledUnnamed(leaf);
    MetadataPatchErasesName(obj, leaf, t, v);
    var r := InOrder(ComposedKind, obj, t, true).value.value;
    GoneHasNoAnnotations(r);
    OnlyEntry(obj, t, r);
  }
}
