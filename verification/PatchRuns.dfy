/** Several patches written into one target, one after the other, and what that means when their keys are safe. */
module PatchRuns {
  import opened JsonTree
  import opened Overlays
  import opened AnyOrder
  import opened SetDataSpec
  import opened SetDataOrders

  // ---------------------------------------------------------------- in given visiting orders

  /** One visiting order for each patch. */
  ghost predicate Visits(ts: seq<Ordered>, patches: seq<Json>) {
    |ts| == |patches| && forall i | 0 <= i < |ts| :: WellOrdered(ts[i]) && Forget(ts[i]) == patches[i]
  }

  /** SetData from the empty path for each patch in turn. */
  function RunAll(kind: Kind, obj: Option<Json>, ts: seq<Ordered>, overwrite: bool): Outcome<Option<Json>>
    decreases |ts|
  {
    if ts == [] then Ok(obj)
    else
      match RunText(kind, obj, TextWrites(ts[0], ""), overwrite)
      case Fail => Fail
      case Ok(r) => RunAll(kind, r, ts[1..], overwrite)
  }

  /** Orders for the patches that are left. */
  ghost function CompleteVisits(ts: seq<Ordered>, patches: seq<Json>): (r: seq<Ordered>)
    requires |ts| <= |patches| && Visits(ts, patches[..|ts|])
    ensures Visits(r, patches) && ts <= r
    decreases |patches| - |ts|
  {
    if |ts| == |patches| then
      assert patches[..|ts|] == patches;
      ts
    else
      var t := SomeOrder(patches[|ts|]);
      VisitsOneMore(ts, patches, t);
      CompleteVisits(ts + [t], patches)
  }

  lemma VisitsOneMore(ts: seq<Ordered>, patches: seq<Json>, t: Ordered)
    requires |ts| < |patches| && Visits(ts, patches[..|ts|])
    requires WellOrdered(t) && Forget(t) == patches[|ts|]
    ensures Visits(ts + [t], patches[..|ts + [t]|])
  {
    var all, ps := ts + [t], patches[..|ts| + 1];
    forall i | 0 <= i < |all| ensures WellOrdered(all[i]) && Forget(all[i]) == ps[i] {
      if i < |ts| {
        assert all[i] == ts[i] && patches[..|ts|][i] == ps[i];
      }
    }
  }

  lemma {:induction false} RunAllAppend(kind: Kind, obj: Option<Json>, a: seq<Ordered>, t: Ordered, overwrite: bool)
    ensures RunAll(kind, obj, a + [t], overwrite) ==
      match RunAll(kind, obj, a, overwrite)
      case Fail => Fail
      case Ok(r) => RunText(kind, r, TextWrites(t, ""), overwrite)
    decreases |a|
  {
    if a == [] {
      assert a + [t] == [t] && [t][1..] == [];
    } else {
      assert (a + [t])[0] == a[0] && (a + [t])[1..] == a[1..] + [t];
      match RunText(kind, obj, TextWrites(a[0], ""), overwrite)
      case Fail =>
      case Ok(r) => RunAllAppend(kind, r, a[1..], t, overwrite);
    }
  }

  lemma {:induction false} FailedRunFails(kind: Kind, obj: Option<Json>, ts: seq<Ordered>, all: seq<Ordered>, overwrite: bool)
    requires ts <= all && RunAll(kind, obj, ts, overwrite) == Fail
    ensures RunAll(kind, obj, all, overwrite) == Fail
    decreases |all| - |ts|
  {
    if |ts| == |all| {
      assert ts == all;
    } else {
      RunAllAppend(kind, obj, ts, all[|ts|], overwrite);
      assert all[..|ts| + 1] == ts + [all[|ts|]];
      FailedRunFails(kind, obj, all[..|ts| + 1], all, overwrite);
    }
  }

  /** The patches before the one in turn have been written in the orders `ts`. */
  ghost predicate RanSome(kind: Kind, was: Option<Json>, patches: seq<Json>, ts: seq<Ordered>, overwrite: bool, now: Option<Json>) {
    |ts| <= |patches| && Visits(ts, patches[..|ts|]) && RunAll(kind, was, ts, overwrite) == Ok(now)
  }

  lemma RanOnePatch(kind: Kind, was: Option<Json>, patches: seq<Json>, ts: seq<Ordered>, overwrite: bool, mid: Option<Json>,
                    t: Ordered, now: Option<Json>)
    requires |ts| < |patches| && RanSome(kind, was, patches, ts, overwrite, mid)
    requires RanTree(patches[|ts|], t, Call(kind, mid, "", overwrite), true, now)
    ensures RanSome(kind, was, patches, ts + [t], overwrite, now)
  {
    VisitsOneMore(ts, patches, t);
    RanOk(kind, mid, TextWrites(t, ""), overwrite, now);
    RunAllAppend(kind, was, ts, t, overwrite);
  }

  /** A patch that fails makes the whole run fail, whatever the orders of the patches after it. */
  lemma RefusedPatch(kind: Kind, was: Option<Json>, patches: seq<Json>, ts: seq<Ordered>, overwrite: bool, mid: Option<Json>,
                     t: Ordered, now: Option<Json>) returns (all: seq<Ordered>)
    requires |ts| < |patches| && RanSome(kind, was, patches, ts, overwrite, mid)
    requires RanTree(patches[|ts|], t, Call(kind, mid, "", overwrite), false, now)
    ensures Visits(all, patches) && RunAll(kind, was, all, overwrite) == Fail
  {
    VisitsOneMore(ts, patches, t);
    RunAllAppend(kind, was, ts, t, overwrite);
    all := CompleteVisits(ts + [t], patches);
    FailedRunFails(kind, was, ts + [t], all, overwrite);
  }

  // ---------------------------------------------------------------- an object stays an object

  lemma WriteKeepsMap(kind: Kind, obj: Json, w: TextWrite, overwrite: bool)
    requires obj.Map? && WriteText(kind, Some(obj), w.path, w.value, overwrite).Ok?
    ensures WriteText(kind, Some(obj), w.path, w.value, overwrite).value.Some?
    ensures WriteText(kind, Some(obj), w.path, w.value, overwrite).value.value.Map?
  {
  }

  lemma {:induction false} RunKeepsMap(kind: Kind, obj: Json, tws: seq<TextWrite>, overwrite: bool)
    requires obj.Map? && RunText(kind, Some(obj), tws, overwrite).Ok?
    ensures RunText(kind, Some(obj), tws, overwrite).value.Some?
    ensures RunText(kind, Some(obj), tws, overwrite).value.value.Map?
    decreases |tws|
  {
    if tws != [] {
      WriteKeepsMap(kind, obj, tws[0], overwrite);
      RunKeepsMap(kind, WriteText(kind, Some(obj), tws[0].path, tws[0].value, overwrite).value.value, tws[1..], overwrite);
    }
  }

  /** Patching turns an object into an object. */
  lemma {:induction false} RunAllKeepsMap(kind: Kind, obj: Json, ts: seq<Ordered>, overwrite: bool)
    requires obj.Map? && RunAll(kind, Some(obj), ts, overwrite).Ok?
    ensures RunAll(kind, Some(obj), ts, overwrite).value.Some?
    ensures RunAll(kind, Some(obj), ts, overwrite).value.value.Map?
    decreases |ts|
  {
    if ts != [] {
      RunKeepsMap(kind, obj, TextWrites(ts[0], ""), overwrite);
      RunAllKeepsMap(kind, RunText(kind, Some(obj), TextWrites(ts[0], ""), overwrite).value.value, ts[1..], overwrite);
    }
  }

  // ---------------------------------------------------------------- the meaning on safe keys

  /** A patch whose keys the path text carries safely. */
  predicate IsPatch(d: Json) {
    d.Map? && GoodKeys("", d)
  }

  predicate ArePatches(patches: seq<Json>) {
    forall i | 0 <= i < |patches| :: IsPatch(patches[i])
  }

  /** Patches overlaid one after the other. */
  function OverlayAll(kind: Kind, obj: Json, patches: seq<Json>, overwrite: bool): Outcome<Json>
    decreases |patches|
  {
    if patches == [] then Ok(obj)
    else
      match Overlay(Some(obj), Effective(kind, patches[0]), overwrite)
      case Fail => Fail
      case Ok(r) => OverlayAll(kind, r.value, patches[1..], overwrite)
  }

  /** An overlay of a map by a map is a map. */
  lemma OverlayIsMap(obj: Json, kind: Kind, patch: Json, overwrite: bool)
    requires obj.Map? && patch.Map? && Overlay(Some(obj), Effective(kind, patch), overwrite).Ok?
    ensures Overlay(Some(obj), Effective(kind, patch), overwrite).value.Some?
    ensures Overlay(Some(obj), Effective(kind, patch), overwrite).value.value.Map?
  {
  }

  function Lifted(r: Outcome<Json>): Outcome<Option<Json>> {
    if r.Ok? then Ok(Some(r.value)) else Fail
  }

  /** With safe keys the run of several patches, in any orders, is their overlay one after the other. */
  lemma {:induction false} RunAllIsOverlayAll(kind: Kind, obj: Json, ts: seq<Ordered>, patches: seq<Json>, overwrite: bool)
    requires kind != OtherKind && Visits(ts, patches) && ArePatches(patches)
    ensures RunAll(kind, Some(obj), ts, overwrite) == Lifted(OverlayAll(kind, obj, patches, overwrite))
    decreases |ts|
  {
    if ts != [] {
      var t, d := ts[0], patches[0];
      assert WellOrdered(t) && Forget(t) == d && IsPatch(d);
      SetDataIsOverlay(kind, obj, t, overwrite);
      var r := PatchedObject(kind, obj, d, overwrite);
      if r.Ok? {
        assert Visits(ts[1..], patches[1..]);
        RunAllIsOverlayAll(kind, r.value.value, ts[1..], patches[1..], overwrite);
      }
    }
  }
}
