/**
 What stands at a path after any run of SetData, safe keys or not: the text of each leaf counts for
 the path it is read as, and the last leaf that is read as the path or as one above it decides.
 */
module LastWrites {
  import opened JsonTree
  import opened PathText
  import opened FieldPath
  import opened AnyOrder
  import opened SetDataSpec
  import opened KeyCondition
  import opened PatchRuns

  predicate IsScalar(v: Json) {
    IsLeaf(v) && v != Null
  }

  // ---------------------------------------------------------------- one write

  lemma NullHasNoScalar(p: seq<Seg>, v: Json)
    requires IsScalar(v)
    ensures Get(Some(Null), p) != Found(v)
  {
  }

  /** A map with one field replaced, seen through a path. */
  lemma ThroughField(slot: Option<Json>, m: map<string, Json>, k: string, r: Json, p: seq<Seg>, v: Json)
    requires FieldsOf(slot) == Some(m) && p != [] && IsScalar(v)
    ensures p[0] == Field(k) ==>
      Get(Some(Map(m[k := r])), p) == Get(Some(r), p[1..]) && Get(slot, p) == Get(FieldSlot(m, k), p[1..])
    ensures p[0] != Field(k) ==> (Get(Some(Map(m[k := r])), p) == Found(v) <==> Get(slot, p) == Found(v))
  {
  }

  /** A list with one element stored, seen through a path; the nulls it may have grown by hold no scalar. */
  lemma ThroughIndex(slot: Option<Json>, l: seq<Json>, i: nat, r: Json, p: seq<Seg>, v: Json)
    requires ElemsOf(slot) == Some(l) && p != [] && IsScalar(v)
    ensures p[0] == Index(i) ==>
      && Get(Some(List(SetElem(l, i, r))), p) == Get(Some(r), p[1..])
      && (Get(slot, p) == Found(v) <==> Get(ElemSlot(l, i), p[1..]) == Found(v))
    ensures p[0] != Index(i) ==> (Get(Some(List(SetElem(l, i, r))), p) == Found(v) <==> Get(slot, p) == Found(v))
  {
    NullHasNoScalar(p[1..], v);
  }

  /** Setting a leaf leaves the scalars alone that are neither at its path nor below it, and makes no others. */
  lemma {:induction false} SetBeside(slot: Option<Json>, q: seq<Seg>, w: Json, p: seq<Seg>, v: Json)
    requires IsScalar(v) && Set(slot, q, w).Ok? && !(q <= p)
    ensures Get(Some(Set(slot, q, w).value), p) == Found(v) <==> Get(slot, p) == Found(v)
    decreases q
  {
    if p != [] {
      assert p[0] == q[0] ==> !(q[1..] <= p[1..]) by {
        assert q == [q[0]] + q[1..] && p == [p[0]] + p[1..];
      }
      match q[0]
      case Field(k) =>
        var m := FieldsOf(slot).value;
        ThroughField(slot, m, k, Set(FieldSlot(m, k), q[1..], w).value, p, v);
        if p[0] == q[0] {
          SetBeside(FieldSlot(m, k), q[1..], w, p[1..], v);
        }
      case Index(i) =>
        var l := ElemsOf(slot).value;
        ThroughIndex(slot, l, i, Set(ElemSlot(l, i), q[1..], w).value, p, v);
        if p[0] == q[0] {
          SetBeside(ElemSlot(l, i), q[1..], w, p[1..], v);
        }
    } else {
      SetInside(slot, q, w);
    }
  }

  /** A place with something below it is no scalar, before and after. */
  lemma SetInside(slot: Option<Json>, q: seq<Seg>, w: Json)
    requires q != [] && Set(slot, q, w).Ok?
    ensures !IsLeaf(Set(slot, q, w).value) && (slot.Some? ==> !IsLeaf(slot.value))
  {
  }

  /** Below a leaf there is nothing. */
  lemma {:induction false} NothingBelowLeaf(slot: Option<Json>, q: seq<Seg>, w: Json, p: seq<Seg>, v: Json)
    requires Get(slot, q) == Found(w) && IsLeaf(w) && q < p
    ensures Get(slot, p) != Found(v)
    decreases q
  {
    if q != [] {
      match (q[0], slot.value)
      case (Field(k), Map(m)) => NothingBelowLeaf(FieldSlot(m, k), q[1..], w, p[1..], v);
      case (Index(i), List(l)) => NothingBelowLeaf(Some(l[i]), q[1..], w, p[1..], v);
      case (_, _) =>
    }
  }

  // ---------------------------------------------------------------- a run

  /** Is the leaf written, and at the path or above it? */
  predicate Hits(kind: Kind, w: TextWrite, p: seq<Seg>) {
    && !(kind == ComposedKind && IsProtectedText(TrimDot(w.path)))
    && ReadsAs(w.path).Some? && ReadsAs(w.path).value <= p
  }

  function LastHit(kind: Kind, tws: seq<TextWrite>, p: seq<Seg>): Option<TextWrite> {
    if tws == [] then None
    else if Hits(kind, tws[|tws| - 1], p) then Some(tws[|tws| - 1])
    else LastHit(kind, tws[..|tws| - 1], p)
  }

  /** Does the run leave the scalar at the path, going by the last leaf that hits it, or else by what was there? */
  predicate LeavesThere(kind: Kind, obj: Json, tws: seq<TextWrite>, p: seq<Seg>, v: Json) {
    match LastHit(kind, tws, p)
    case None => Get(Some(obj), p) == Found(v)
    case Some(w) => ReadsAs(w.path) == Some(p) && w.value == v
  }

  lemma OneWrite(kind: Kind, obj: Json, w: TextWrite, overwrite: bool, p: seq<Seg>, v: Json)
    requires IsScalar(v) && IsLeaf(w.value)
    requires WriteText(kind, Some(obj), w.path, w.value, overwrite).Ok?
    ensures var r := WriteText(kind, Some(obj), w.path, w.value, overwrite).value;
            && r.Some?
            && (Get(r, p) == Found(v) <==>
                if Hits(kind, w, p) then ReadsAs(w.path) == Some(p) && w.value == v else Get(Some(obj), p) == Found(v))
  {
    if !(kind == ComposedKind && IsProtectedText(TrimDot(w.path))) {
      var q, r := ReadsAs(w.path).value, WriteText(kind, Some(obj), w.path, w.value, overwrite).value;
      if q <= p {
        GetAfterSet(Some(obj), q, w.value);
        if q != p {
          NothingBelowLeaf(r, q, w.value, p, v);
        }
      } else {
        SetBeside(Some(obj), q, w.value, p, v);
      }
    }
  }

  lemma SingleText(kind: Kind, obj: Option<Json>, w: TextWrite, overwrite: bool)
    ensures RunText(kind, obj, [w], overwrite) == WriteText(kind, obj, w.path, w.value, overwrite)
  {
    assert [w][1..] == [];
  }

  lemma RunOneText(kind: Kind, obj: Option<Json>, init: seq<TextWrite>, w: TextWrite, overwrite: bool)
    ensures RunText(kind, obj, init + [w], overwrite) ==
      match RunText(kind, obj, init, overwrite)
      case Fail => Fail
      case Ok(mid) => WriteText(kind, mid, w.path, w.value, overwrite)
  {
    RunTextAppend(kind, obj, init, [w], overwrite);
    var r := RunText(kind, obj, init, overwrite);
    if r.Ok? {
      SingleText(kind, r.value, w, overwrite);
    }
  }

  lemma LeavesOneMore(kind: Kind, obj: Json, init: seq<TextWrite>, w: TextWrite, p: seq<Seg>, v: Json)
    ensures LeavesThere(kind, obj, init + [w], p, v) <==>
      if Hits(kind, w, p) then ReadsAs(w.path) == Some(p) && w.value == v else LeavesThere(kind, obj, init, p, v)
  {
    assert (init + [w])[..|init|] == init;
  }

  /**
   After any successful run, whatever the keys and the order: a scalar stands at a path exactly if the
   last leaf whose text is read as that path or as one above it is read as that very path and has
   that value, or, when there is no such leaf, if it stood there before. On a composed target the
   leaves with one of the three protected texts do not count.
   */
  lemma {:induction false} LastHitDecides(kind: Kind, obj: Json, tws: seq<TextWrite>, overwrite: bool, p: seq<Seg>, v: Json)
    requires IsScalar(v) && forall i | 0 <= i < |tws| :: IsLeaf(tws[i].value)
    requires RunText(kind, Some(obj), tws, overwrite).Ok?
    ensures RunText(kind, Some(obj), tws, overwrite).value.Some?
    ensures Get(RunText(kind, Some(obj), tws, overwrite).value, p) == Found(v) <==> LeavesThere(kind, obj, tws, p, v)
    decreases |tws|
  {
    if tws != [] {
      var init, w := tws[..|tws| - 1], tws[|tws| - 1];
      assert tws == init + [w];
      RunOneText(kind, Some(obj), init, w, overwrite);
      LeavesOneMore(kind, obj, init, w, p, v);
      LastHitDecides(kind, obj, init, overwrite, p, v);
      OneWrite(kind, RunText(kind, Some(obj), init, overwrite).value.value, w, overwrite, p, v);
    }
  }

  // ---------------------------------------------------------------- several patches

  /** The leaf texts of several patches, one patch after the other. */
  function AllTexts(ts: seq<Ordered>): seq<TextWrite> {
    if ts == [] then [] else TextWrites(ts[0], "") + AllTexts(ts[1..])
  }

  /** Several patches are one run. */
  lemma {:induction false} RunAllIsOneRun(kind: Kind, obj: Option<Json>, ts: seq<Ordered>, overwrite: bool)
    ensures RunAll(kind, obj, ts, overwrite) == RunText(kind, obj, AllTexts(ts), overwrite)
    decreases |ts|
  {
    if ts != [] {
      RunTextAppend(kind, obj, TextWrites(ts[0], ""), AllTexts(ts[1..]), overwrite);
      match RunText(kind, obj, TextWrites(ts[0], ""), overwrite)
      case Fail =>
      case Ok(mid) => RunAllIsOneRun(kind, mid, ts[1..], overwrite);
    }
  }

  lemma {:induction false} AllTextsAreLeaves(ts: seq<Ordered>)
    requires forall i | 0 <= i < |ts| :: WellOrdered(ts[i])
    ensures forall i | 0 <= i < |AllTexts(ts)| :: IsLeaf(AllTexts(ts)[i].value)
    decreases |ts|
  {
    if ts != [] {
      TextAgrees(ts[0], "");
      WritesAreLeaves(ts[0]);
      AllTextsAreLeaves(ts[1..]);
    }
  }

  /** The same over all patches of a target. */
  lemma LastPatchDecides(kind: Kind, obj: Json, ts: seq<Ordered>, overwrite: bool, p: seq<Seg>, v: Json)
    requires IsScalar(v) && (forall i | 0 <= i < |ts| :: WellOrdered(ts[i]))
    requires RunAll(kind, Some(obj), ts, overwrite).Ok?
    ensures RunAll(kind, Some(obj), ts, overwrite).value.Some?
    ensures Get(RunAll(kind, Some(obj), ts, overwrite).value, p) == Found(v) <==> LeavesThere(kind, obj, AllTexts(ts), p, v)
  {
    RunAllIsOneRun(kind, Some(obj), ts, overwrite);
    AllTextsAreLeaves(ts);
    LastHitDecides(kind, obj, AllTexts(ts), overwrite, p, v);
  }
}
