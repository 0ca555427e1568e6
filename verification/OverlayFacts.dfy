/** What a caller can rely on after an overlay: what is there, what stayed, what never changes. */
module OverlayFacts {
  import opened JsonTree
  import opened PathText
  import opened FieldPath
  import opened Overlays
  import opened SetDataSpec

  /** The subtree one step down, as Get walks. */
  function Child(j: Json, seg: Seg): Option<Json> {
    match (seg, j)
    case (Field(k), Map(m)) => FieldSlot(m, k)
    case (Index(i), List(l)) => if i < |l| then Some(l[i]) else None
    case (_, _) => None
  }

  /** The place one step down, as Overlay sees it: a null element is a hole. */
  function Place(slot: Option<Json>, seg: Seg): Option<Json> {
    match (seg, slot)
    case (Field(k), Some(Map(m))) => FieldSlot(m, k)
    case (Index(i), Some(List(l))) => ElemSlot(l, i)
    case (_, _) => None
  }

  lemma GetChild(j: Json, path: seq<Seg>)
    requires path != [] && Child(j, path[0]).Some?
    ensures Get(Some(j), path) == Get(Child(j, path[0]), path[1..])
  {
  }

  /** One step down an overlay: below a child that holds leaves, the result is that child's overlay. */
  lemma OverlayChild(slot: Option<Json>, patch: Json, seg: Seg, overwrite: bool)
    requires Overlay(slot, patch, overwrite).Ok?
    requires Child(patch, seg).Some? && HasLeaf(Child(patch, seg).value)
    ensures HasLeaf(patch)
    ensures var r, c := Overlay(slot, patch, overwrite).value, Overlay(Place(slot, seg), Child(patch, seg).value, overwrite);
            c.Ok? && r.Some? && Child(r.value, seg) == c.value
  {
    match (seg, patch)
    case (Field(k), Map(m)) =>
    case (Index(i), List(e)) =>
      assert i < LeafLength(e);
    case (_, _) =>
  }

  /** One step down beside the patch's leaves: what was there is still there. */
  lemma OverlayBeside(slot: Option<Json>, patch: Json, seg: Seg, overwrite: bool)
    requires Overlay(slot, patch, overwrite).Ok? && !IsLeaf(patch)
    requires Child(patch, seg).None? || !HasLeaf(Child(patch, seg).value)
    requires slot.Some? && Child(slot.value, seg).Some?
    ensures var r := Overlay(slot, patch, overwrite).value;
            r.Some? && Child(r.value, seg) == Child(slot.value, seg)
  {
    if HasLeaf(patch) {
      match (seg, patch)
      case (Field(k), Map(m)) =>
        if k in m { assert Overlay(FieldSlot(FieldsOf(slot).value, k), m[k], overwrite).Ok?; }
      case (Index(i), List(e)) =>
        if i < |e| { assert Overlay(ElemSlot(ElemsOf(slot).value, i), e[i], overwrite).Ok?; }
      case (_, _) =>
    }
  }

  lemma {:induction false} LeafBelowHasLeaf(j: Json, path: seq<Seg>, v: Json)
    requires Get(Some(j), path) == Found(v) && IsLeaf(v)
    ensures HasLeaf(j)
    decreases path
  {
    if path != [] {
      match (path[0], j)
      case (Field(k), Map(m)) => LeafBelowHasLeaf(m[k], path[1..], v);
      case (Index(i), List(l)) => LeafBelowHasLeaf(l[i], path[1..], v);
      case (_, _) =>
    }
  }

  /** Every leaf of the patch is in the result, at its own path. */
  lemma {:induction false} PatchLeavesPresent(slot: Option<Json>, patch: Json, overwrite: bool, path: seq<Seg>, v: Json)
    requires Overlay(slot, patch, overwrite).Ok?
    requires Get(Some(patch), path) == Found(v) && IsLeaf(v)
    ensures Get(Overlay(slot, patch, overwrite).value, path) == Found(v)
    decreases path
  {
    if path != [] {
      var seg := path[0];
      var c := Child(patch, seg).value;
      LeafBelowHasLeaf(c, path[1..], v);
      OverlayChild(slot, patch, seg, overwrite);
      PatchLeavesPresent(Place(slot, seg), c, overwrite, path[1..], v);
      GetChild(Overlay(slot, patch, overwrite).value.value, path);
    }
  }

  /** Does the patch hold a leaf at `path` or above it? */
  predicate LeafAtOrAbove(patch: Json, path: seq<Seg>)
    decreases path
  {
    IsLeaf(patch) || (path != [] && Child(patch, path[0]).Some? && LeafAtOrAbove(Child(patch, path[0]).value, path[1..]))
  }

  /** A scalar at `path` stays unless the patch puts a leaf there or above. */
  lemma {:induction false} OthersStay(slot: Option<Json>, patch: Json, overwrite: bool, path: seq<Seg>, v: Json)
    requires Overlay(slot, patch, overwrite).Ok?
    requires Get(slot, path) == Found(v) && IsLeaf(v) && v != Null
    requires !LeafAtOrAbove(patch, path)
    ensures Get(Overlay(slot, patch, overwrite).value, path) == Found(v)
    decreases path
  {
    if path == [] {
      assert !HasLeaf(patch);
    } else {
      var seg := path[0];
      assert Child(slot.value, seg).Some?;
      if Child(patch, seg).Some? && HasLeaf(Child(patch, seg).value) {
        OverlayChild(slot, patch, seg, overwrite);
        OthersStay(Place(slot, seg), Child(patch, seg).value, overwrite, path[1..], v);
      } else {
        OverlayBeside(slot, patch, seg, overwrite);
      }
      GetChild(Overlay(slot, patch, overwrite).value.value, path);
      GetChild(slot.value, path);
    }
  }

  /** Without overwrite, every scalar that was present is still there with its value. */
  lemma {:induction false} ScalarsKept(slot: Option<Json>, patch: Json, path: seq<Seg>, v: Json)
    requires Overlay(slot, patch, false).Ok?
    requires Get(slot, path) == Found(v) && IsLeaf(v) && v != Null
    ensures Get(Overlay(slot, patch, false).value, path) == Found(v)
    decreases path
  {
    if path != [] && !IsLeaf(patch) {
      var seg := path[0];
      GetChild(slot.value, path);
      if Child(patch, seg).Some? && HasLeaf(Child(patch, seg).value) {
        OverlayChild(slot, patch, seg, false);
        ScalarsKept(Place(slot, seg), Child(patch, seg).value, path[1..], v);
      } else {
        OverlayBeside(slot, patch, seg, false);
      }
      GetChild(Overlay(slot, patch, false).value.value, path);
    }
  }

  /** No scalar appears that neither the old object nor the patch holds at that very path. */
  lemma {:induction false} NothingInvented(slot: Option<Json>, patch: Json, overwrite: bool, path: seq<Seg>, v: Json)
    requires Overlay(slot, patch, overwrite).Ok?
    requires Get(Overlay(slot, patch, overwrite).value, path) == Found(v) && IsLeaf(v) && v != Null
    ensures Get(slot, path) == Found(v) || Get(Some(patch), path) == Found(v)
    decreases path
  {
    var r := Overlay(slot, patch, overwrite).value;
    if path != [] && HasLeaf(patch) && !IsLeaf(patch) {
      var seg := path[0];
      GetChild(r.value, path);
      if Child(patch, seg).Some? && HasLeaf(Child(patch, seg).value) {
        OverlayChild(slot, patch, seg, overwrite);
        NothingInvented(Place(slot, seg), Child(patch, seg).value, overwrite, path[1..], v);
      } else {
        match (seg, patch)
        case (Field(k), Map(m)) =>
          assert k in m ==> Overlay(FieldSlot(FieldsOf(slot).value, k), m[k], overwrite).value == FieldSlot(FieldsOf(slot).value, k);
        case (Index(i), List(e)) =>
          var l := ElemsOf(slot).value;
          assert i < |e| ==> Overlay(ElemSlot(l, i), e[i], overwrite).value == ElemSlot(l, i);
          assert Child(r.value, seg) == Some(if i < |l| then l[i] else Null);
          assert path[1..] == [] || Get(Some(Null), path[1..]) == NotFound;
        case (_, _) =>
      }
    }
  }

  /** A patch is applied once and for all: applying it again changes nothing. */
  lemma {:induction false} OverlayTwice(slot: Option<Json>, patch: Json)
    requires Overlay(slot, patch, true).Ok?
    ensures Overlay(Overlay(slot, patch, true).value, patch, true) == Overlay(slot, patch, true)
    decreases patch, 1
  {
    if HasLeaf(patch) {
      match patch
      case Map(m) =>
        var f := FieldsOf(slot).value;
        var f1 := OverlayFields(f, m, patch, true);
        FieldsTwice(f, m, patch);
        OverlayMapIs(slot, m, f, true);
        OverlayMapIs(Some(Map(f1)), m, f1, true);
      case List(e) =>
        var l := ElemsOf(slot).value;
        var l1 := OverlayElems(l, e, patch, true);
        ElemsTwice(l, e, patch);
        OverlayListIs(slot, e, l, true);
        OverlayListIs(Some(List(l1)), e, l1, true);
      case _ =>
    }
  }

  lemma {:induction false} FieldsTwice(f: map<string, Json>, m: map<string, Json>, patch: Json)
    requires patch == Map(m) && FieldsFit(f, m, patch, true)
    ensures var f1 := OverlayFields(f, m, patch, true);
            FieldsFit(f1, m, patch, true) && OverlayFields(f1, m, patch, true) == f1
    decreases patch, 0
  {
    var f1 := OverlayFields(f, m, patch, true);
    forall k | k in m
      ensures Overlay(FieldSlot(f1, k), m[k], true) == Overlay(FieldSlot(f, k), m[k], true)
      ensures FieldSlot(f1, k) == Overlay(FieldSlot(f, k), m[k], true).value
    {
      assert Overlay(FieldSlot(f, k), m[k], true).Ok?;
      OverlayTwice(FieldSlot(f, k), m[k]);
    }
  }

  lemma {:induction false} ElemsTwice(l: seq<Json>, e: seq<Json>, patch: Json)
    requires patch == List(e) && ElemsFit(l, e, patch, true)
    ensures var l1 := OverlayElems(l, e, patch, true);
            ElemsFit(l1, e, patch, true) && OverlayElems(l1, e, patch, true) == l1
    decreases patch, 0
  {
    var l1 := OverlayElems(l, e, patch, true);
    forall i | 0 <= i < |e|
      ensures Overlay(ElemSlot(l1, i), e[i], true).Ok?
      ensures i < |l1| ==> Filled(Overlay(ElemSlot(l1, i), e[i], true).value) == l1[i]
    {
      assert Overlay(ElemSlot(l, i), e[i], true).Ok?;
      OverlayTwice(ElemSlot(l, i), e[i]);
    }
    assert |OverlayElems(l1, e, patch, true)| == |l1|;
  }

  /** Is every place that the patch's leaves go to absent or null? */
  ghost predicate NoConflict(slot: Option<Json>, patch: Json) {
    forall path: seq<Seg> | Get(Some(patch), path).Found? && IsLeaf(Get(Some(patch), path).value) ::
      Free(Get(slot, path))
  }

  predicate Free(g: Found) {
    g == NotFound || g == Found(Null)
  }

  /** Reading through a place or through the raw child differs only where the child is null. */
  lemma GetPlace(slot: Option<Json>, patch: Json, seg: Seg, rest: seq<Seg>, overwrite: bool)
    requires Overlay(slot, patch, overwrite).Ok? && Child(patch, seg).Some? && HasLeaf(Child(patch, seg).value)
    ensures Free(Get(slot, [seg] + rest)) <==> Free(Get(Place(slot, seg), rest))
  {
    OverlayChild(slot, patch, seg, overwrite);
    assert ([seg] + rest)[1..] == rest;
    match slot
    case None =>
    case Some(j) =>
      if Child(j, seg).Some? {
        GetChild(j, [seg] + rest);
        assert rest != [] ==> Get(Some(Null), rest) == NotFound;
      }
  }

  lemma {:induction false} WroteOnlyFreePlaces(slot: Option<Json>, patch: Json, path: seq<Seg>)
    requires Overlay(slot, patch, false).Ok?
    requires Get(Some(patch), path).Found? && IsLeaf(Get(Some(patch), path).value)
    ensures Free(Get(slot, path))
    decreases path
  {
    if path != [] {
      var seg := path[0];
      var c := Child(patch, seg).value;
      LeafBelowHasLeaf(c, path[1..], Get(Some(patch), path).value);
      OverlayChild(slot, patch, seg, false);
      WroteOnlyFreePlaces(Place(slot, seg), c, path[1..]);
      assert path == [seg] + path[1..];
      GetPlace(slot, patch, seg, path[1..], false);
    }
  }

  lemma NoConflictBelow(slot: Option<Json>, patch: Json, seg: Seg)
    requires Overlay(slot, patch, true).Ok? && NoConflict(slot, patch)
    requires Child(patch, seg).Some? && HasLeaf(Child(patch, seg).value)
    ensures NoConflict(Place(slot, seg), Child(patch, seg).value)
  {
    var c := Child(patch, seg).value;
    forall path: seq<Seg> | Get(Some(c), path).Found? && IsLeaf(Get(Some(c), path).value)
      ensures Free(Get(Place(slot, seg), path))
    {
      var full := [seg] + path;
      assert full[1..] == path && full[0] == seg;
      GetChild(patch, full);
      assert Free(Get(slot, full));
      GetPlace(slot, patch, seg, path, true);
    }
  }

  lemma {:induction false} FreePlacesSuffice(slot: Option<Json>, patch: Json)
    requires Overlay(slot, patch, true).Ok? && NoConflict(slot, patch)
    ensures Overlay(slot, patch, false).Ok?
    decreases patch
  {
    if HasLeaf(patch) {
      match patch
      case Map(m) =>
        var f := FieldsOf(slot).value;
        forall k | k in m ensures Overlay(FieldSlot(f, k), m[k], false).Ok? {
          if HasLeaf(m[k]) {
            assert Child(patch, Field(k)) == Some(m[k]);
            NoConflictBelow(slot, patch, Field(k));
            OverlayChild(slot, patch, Field(k), true);
            FreePlacesSuffice(FieldSlot(f, k), m[k]);
          }
        }
      case List(e) =>
        var l := ElemsOf(slot).value;
        forall i | 0 <= i < |e| ensures Overlay(ElemSlot(l, i), e[i], false).Ok? {
          if HasLeaf(e[i]) {
            assert Child(patch, Index(i)) == Some(e[i]);
            NoConflictBelow(slot, patch, Index(i));
            OverlayChild(slot, patch, Index(i), true);
            FreePlacesSuffice(ElemSlot(l, i), e[i]);
          }
        }
      case _ =>
        assert Get(Some(patch), []) == Found(patch);
    }
  }

  lemma {:induction false} SameResult(slot: Option<Json>, patch: Json)
    requires Overlay(slot, patch, false).Ok?
    ensures Overlay(slot, patch, true) == Overlay(slot, patch, false)
    decreases patch
  {
    if HasLeaf(patch) {
      match patch
      case Map(m) =>
        var f := FieldsOf(slot).value;
        forall k | k in m ensures Overlay(FieldSlot(f, k), m[k], true) == Overlay(FieldSlot(f, k), m[k], false) {
          assert Overlay(FieldSlot(f, k), m[k], false).Ok?;
          SameResult(FieldSlot(f, k), m[k]);
        }
        assert FieldsFit(f, m, patch, true);
        assert OverlayFields(f, m, patch, true) == OverlayFields(f, m, patch, false);
      case List(e) =>
        var l := ElemsOf(slot).value;
        forall i | 0 <= i < |e| ensures Overlay(ElemSlot(l, i), e[i], true) == Overlay(ElemSlot(l, i), e[i], false) {
          assert Overlay(ElemSlot(l, i), e[i], false).Ok?;
          SameResult(ElemSlot(l, i), e[i]);
        }
        assert ElemsFit(l, e, patch, true);
        assert OverlayElems(l, e, patch, true) == OverlayElems(l, e, patch, false);
      case _ =>
    }
  }

  /**
   Without overwrite the patch is accepted exactly when it would be with overwrite and every leaf
   goes to an absent or null place; the object built is then the same.
   */
  lemma NoOverwriteIff(slot: Option<Json>, patch: Json)
    ensures Overlay(slot, patch, false).Ok? <==> Overlay(slot, patch, true).Ok? && NoConflict(slot, patch)
    ensures Overlay(slot, patch, false).Ok? ==> Overlay(slot, patch, true) == Overlay(slot, patch, false)
  {
    if Overlay(slot, patch, false).Ok? {
      SameResult(slot, patch);
      forall path: seq<Seg> | Get(Some(patch), path).Found? && IsLeaf(Get(Some(patch), path).value)
        ensures Free(Get(slot, path))
      {
        WroteOnlyFreePlaces(slot, patch, path);
      }
    } else if Overlay(slot, patch, true).Ok? && NoConflict(slot, patch) {
      FreePlacesSuffice(slot, patch);
    }
  }

  // ---------------------------------------------------------------- protected leaves

  lemma {:induction false} PruneGet(route: seq<Seg>, j: Json, path: seq<Seg>)
    ensures var g, h := Get(Some(Prune(route, j)), path), Get(Some(j), path);
            g.Found? <==> h.Found?
    ensures var g, h := Get(Some(Prune(route, j)), path), Get(Some(j), path);
            g.Found? ==> g.value == Prune(route + path, h.value)
    decreases path
  {
    if path == [] {
      assert route + path == route;
    } else {
      assert route + [path[0]] + path[1..] == route + path;
      match (path[0], j)
      case (Field(k), Map(m)) => if k in m { PruneGet(route + [Field(k)], m[k], path[1..]); }
      case (Index(i), List(e)) => if i < |e| { PruneGet(route + [Index(i)], e[i], path[1..]); }
      case (_, _) =>
        assert !Get(Some(j), path).Found?;
        assert !Get(Some(Prune(route, j)), path).Found?;
    }
  }

  /** A patch whose `metadata` is itself a leaf. */
  predicate MetadataIsLeaf(data: Json) {
    data.Map? && "metadata" in data.fields && IsLeaf(data.fields["metadata"])
  }

  lemma ProtectedNotInPatch(data: Json, path: seq<Seg>)
    requires data.Map? && path in PROTECTED
    ensures LeafAtOrAbove(Prune([], data), path) <==> path == [Field("metadata"), Field("name")] && MetadataIsLeaf(data)
    ensures Get(Some(Prune([], data)), path).Found? ==> !IsLeaf(Get(Some(Prune([], data)), path).value)
  {
    var patch := Prune([], data);
    PruneGet([], data, path);
    assert [] + path == path;
    var k := path[0].name;
    assert [] + [Field(k)] == [Field(k)];
    if k in data.fields {
      assert Child(patch, Field(k)) == Some(Prune([Field(k)], data.fields[k]));
      if |path| == 2 {
        var n := Field("name");
        assert path[1..] == [n] && [n][1..] == [];
        assert [Field(k)] + [n] == path;
      } else {
        assert path == [Field(k)] && path[1..] == [];
      }
    }
  }

  /**
   Patching a composed resource keeps a scalar at apiVersion, kind or metadata.name, with one
   exception that the code leaves open: a patch whose `metadata` is a leaf replaces the whole
   of metadata, and the name with it.
   */
  lemma ProtectedScalarStaysIff(obj: Json, data: Json, overwrite: bool, path: seq<Seg>, v: Json)
    requires data.Map? && Overlay(Some(obj), Effective(ComposedKind, data), overwrite).Ok?
    requires path in PROTECTED && IsLeaf(v) && v != Null && Get(Some(obj), path) == Found(v)
    ensures Get(Overlay(Some(obj), Effective(ComposedKind, data), overwrite).value, path) == Found(v) <==>
      !(path == [Field("metadata"), Field("name")] && MetadataIsLeaf(data))
  {
    var patch := Prune([], data);
    ProtectedNotInPatch(data, path);
    if path == [Field("metadata"), Field("name")] && MetadataIsLeaf(data) {
      var m := [Field("metadata")];
      assert m[1..] == [] && [] + [m[0]] == m;
      assert m !in PROTECTED;
      assert Get(Some(patch), m) == Found(data.fields["metadata"]);
      PatchLeavesPresent(Some(obj), patch, overwrite, m, data.fields["metadata"]);
      var r := Overlay(Some(obj), patch, overwrite).value;
      assert Get(r, path) == Get(Some(r.value.fields["metadata"]), path[1..]);
    } else {
      OthersStay(Some(obj), patch, overwrite, path, v);
    }
  }

  /** No scalar ever appears at a protected path by patching, and every other leaf of the patch arrives. */
  lemma ComposedPatchArrives(obj: Json, data: Json, overwrite: bool, path: seq<Seg>, v: Json)
    requires data.Map? && Overlay(Some(obj), Effective(ComposedKind, data), overwrite).Ok? && IsLeaf(v)
    ensures var r := Overlay(Some(obj), Effective(ComposedKind, data), overwrite).value;
            if path in PROTECTED then v != Null && Get(r, path) == Found(v) ==> Get(Some(obj), path) == Found(v)
            else Get(Some(data), path) == Found(v) ==> Get(r, path) == Found(v)
  {
    var patch := Prune([], data);
    if path in PROTECTED {
      ProtectedNotInPatch(data, path);
      if v != Null && Get(Overlay(Some(obj), patch, overwrite).value, path) == Found(v) {
        NothingInvented(Some(obj), patch, overwrite, path, v);
      }
    } else if Get(Some(data), path) == Found(v) {
      PruneGet([], data, path);
      assert [] + path == path;
      PatchLeavesPresent(Some(obj), patch, overwrite, path, v);
    }
  }
}
