/** The meaning of a patch: a recursive overlay of one tree on another, with no path and no order in it. */
module Overlays {
  import opened JsonTree
  import opened FieldPath

  /** One past the last element that holds a leaf. */
  function LeafLength(e: seq<Json>): (n: nat)
    ensures n <= |e|
    ensures n > 0 ==> HasLeaf(e[n - 1])
    ensures forall i | n <= i < |e| :: !HasLeaf(e[i])
  {
    if e == [] then 0
    else if HasLeaf(e[|e| - 1]) then |e|
    else LeafLength(e[..|e| - 1])
  }

  function Filled(slot: Option<Json>): Json {
    if slot.Some? then slot.value else Null
  }

  function Max(a: nat, b: nat): nat {
    if a < b then b else a
  }

  /**
   Leaves replace, maps merge by key, lists merge by index keeping the tail, and a container
   without leaves leaves its place as it is. Without `overwrite` a leaf may only fill an absent
   or null place.
   */
  function Overlay(slot: Option<Json>, patch: Json, overwrite: bool): (r: Outcome<Option<Json>>)
    ensures r.Ok? && (HasLeaf(patch) || slot.Some?) ==> r.value.Some?
    ensures r.Ok? && !HasLeaf(patch) ==> r.value == slot
    decreases patch, 2
  {
    if !HasLeaf(patch) then Ok(slot)
    else
      match patch
      case Map(m) =>
        var f := FieldsOf(slot);
        if f.Some? && FieldsFit(f.value, m, patch, overwrite) then Ok(Some(Map(OverlayFields(f.value, m, patch, overwrite)))) else Fail
      case List(e) =>
        var l := ElemsOf(slot);
        if l.Some? && ElemsFit(l.value, e, patch, overwrite) then Ok(Some(List(OverlayElems(l.value, e, patch, overwrite)))) else Fail
      case _ =>
        if overwrite || slot.None? || slot.value == Null then Ok(Some(patch)) else Fail
  }

  predicate FieldsFit(f: map<string, Json>, m: map<string, Json>, ghost patch: Json, overwrite: bool)
    requires patch == Map(m)
    decreases patch, 0
  {
    forall k | k in m :: Overlay(FieldSlot(f, k), m[k], overwrite).Ok?
  }

  function OverlayFields(f: map<string, Json>, m: map<string, Json>, ghost patch: Json, overwrite: bool): map<string, Json>
    requires patch == Map(m) && FieldsFit(f, m, patch, overwrite)
    decreases patch, 1
  {
    map k | k in f.Keys + m.Keys && (k in f || HasLeaf(m[k])) ::
      if k in m then Overlay(FieldSlot(f, k), m[k], overwrite).value.value else f[k]
  }

  predicate ElemsFit(l: seq<Json>, e: seq<Json>, ghost patch: Json, overwrite: bool)
    requires patch == List(e)
    decreases patch, 0
  {
    forall i | 0 <= i < |e| :: Overlay(ElemSlot(l, i), e[i], overwrite).Ok?
  }

  function OverlayElems(l: seq<Json>, e: seq<Json>, ghost patch: Json, overwrite: bool): (r: seq<Json>)
    requires patch == List(e) && ElemsFit(l, e, patch, overwrite)
    decreases patch, 1
  {
    seq(Max(|l|, LeafLength(e)), i requires 0 <= i < Max(|l|, LeafLength(e)) =>
      if i < |e| then Filled(Overlay(ElemSlot(l, i), e[i], overwrite).value) else l[i])
  }

  lemma OverlayNoLeafFields(f: map<string, Json>, m: map<string, Json>, overwrite: bool)
    requires !HasLeaf(Map(m))
    ensures FieldsFit(f, m, Map(m), overwrite) && OverlayFields(f, m, Map(m), overwrite) == f
  {
    assert forall k | k in m :: !HasLeaf(m[k]);
  }

  /** Overlay of a map, one level unfolded; leafless maps included. */
  lemma OverlayMapIs(slot: Option<Json>, m: map<string, Json>, f: map<string, Json>, overwrite: bool)
    requires FieldsOf(slot) == Some(f)
    requires HasLeaf(Map(m)) || slot == Some(Map(f))
    ensures Overlay(slot, Map(m), overwrite) ==
      if FieldsFit(f, m, Map(m), overwrite) then Ok(Some(Map(OverlayFields(f, m, Map(m), overwrite)))) else Fail
  {
    if !HasLeaf(Map(m)) {
      OverlayNoLeafFields(f, m, overwrite);
    }
  }

  lemma OverlayNoLeafElems(l: seq<Json>, e: seq<Json>, overwrite: bool)
    requires !HasLeaf(List(e))
    ensures ElemsFit(l, e, List(e), overwrite) && OverlayElems(l, e, List(e), overwrite) == l
  {
    assert forall i | 0 <= i < |e| :: !HasLeaf(e[i]);
    assert LeafLength(e) == 0;
  }

  lemma OverlayListIs(slot: Option<Json>, e: seq<Json>, l: seq<Json>, overwrite: bool)
    requires ElemsOf(slot) == Some(l)
    requires HasLeaf(List(e)) || slot == Some(List(l))
    ensures Overlay(slot, List(e), overwrite) ==
      if ElemsFit(l, e, List(e), overwrite) then Ok(Some(List(OverlayElems(l, e, List(e), overwrite)))) else Fail
  {
    if !HasLeaf(List(e)) {
      OverlayNoLeafElems(l, e, overwrite);
    }
  }
}
