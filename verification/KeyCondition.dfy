/** The condition on keys under which SetData means an overlay is exact: no patch that breaks it is written faithfully. */
module KeyCondition {
  import opened JsonTree
  import opened PathText
  import opened FieldPath
  import opened Overlays
  import opened AnyOrder
  import opened SetDataSpec
  import opened OverlayFacts
  import opened WrappedKeys
  import opened Misreading

  // ---------------------------------------------------------------- places of a tree

  /** Is there anything, null included, at the path? */
  predicate Present(j: Json, path: seq<Seg>)
    decreases path
  {
    path == [] || (Child(j, path[0]).Some? && Present(Child(j, path[0]).value, path[1..]))
  }

  predicate EndsInKey(path: seq<Seg>) {
    path != [] && path[|path| - 1].Field?
  }

  lemma {:induction false} FoundIsPresent(j: Json, path: seq<Seg>, upTo: seq<Seg>)
    requires Get(Some(j), path).Found? && upTo <= path
    ensures Present(j, upTo)
    decreases path
  {
    if upTo != [] {
      GetChild(j, path);
      FoundIsPresent(Child(j, path[0]).value, path[1..], upTo[1..]);
    }
  }

  /** A place that ends in a key and was not there before lies on the path of the leaf just set. */
  lemma {:induction false} NewPlacesAreOnThePath(slot: Option<Json>, path: seq<Seg>, v: Json, place: seq<Seg>)
    requires IsLeaf(v) && Set(slot, path, v).Ok? && EndsInKey(place)
    requires Present(Set(slot, path, v).value, place)
    ensures (slot.Some? && Present(slot.value, place)) || place <= path
    decreases path
  {
    if path != [] && |place| > 1 {
      match (path[0], place[0])
      case (Field(k), Field(k2)) =>
        if k == k2 {
          NewPlacesAreOnThePath(FieldSlot(FieldsOf(slot).value, k), path[1..], v, place[1..]);
        }
      case (Index(i), Index(i2)) =>
        if i == i2 {
          NewPlacesAreOnThePath(ElemSlot(ElemsOf(slot).value, i), path[1..], v, place[1..]);
        }
      case (_, _) =>
    }
  }

  predicate OnPath(place: seq<Seg>, text: string) {
    ReadsAs(text).Some? && place <= ReadsAs(text).value
  }

  lemma WriteReaches(kind: Kind, obj: Json, w: TextWrite, overwrite: bool, place: seq<Seg>)
    requires IsLeaf(w.value) && EndsInKey(place)
    requires WriteText(kind, Some(obj), w.path, w.value, overwrite).Ok?
    ensures var r := WriteText(kind, Some(obj), w.path, w.value, overwrite).value;
            r.Some? && (Present(r.value, place) ==> Present(obj, place) || OnPath(place, w.path))
  {
    var r := WriteText(kind, Some(obj), w.path, w.value, overwrite).value;
    if r != Some(obj) && Present(r.value, place) {
      NewPlacesAreOnThePath(Some(obj), ReadsAs(w.path).value, w.value, place);
    }
  }

  lemma {:induction false} RunReaches(kind: Kind, obj: Json, tws: seq<TextWrite>, overwrite: bool, place: seq<Seg>)
    requires (forall i | 0 <= i < |tws| :: IsLeaf(tws[i].value)) && EndsInKey(place)
    requires RunText(kind, Some(obj), tws, overwrite).Ok?
    ensures RunText(kind, Some(obj), tws, overwrite).value.Some?
    ensures Present(RunText(kind, Some(obj), tws, overwrite).value.value, place) ==>
      Present(obj, place) || exists i :: 0 <= i < |tws| && OnPath(place, tws[i].path)
    decreases |tws|
  {
    if tws != [] {
      WriteReaches(kind, obj, tws[0], overwrite, place);
      var mid := WriteText(kind, Some(obj), tws[0].path, tws[0].value, overwrite).value.value;
      RunReaches(kind, mid, tws[1..], overwrite, place);
      if exists i :: 0 <= i < |tws[1..]| && OnPath(place, tws[1..][i].path) {
        var i :| 0 <= i < |tws[1..]| && OnPath(place, tws[1..][i].path);
        assert OnPath(place, tws[i + 1].path);
      }
    }
  }

  // ---------------------------------------------------------------- the leaves of a patch

  /** Each leaf write names a leaf of the tree and the path to it. */
  ghost predicate LeavesOf(ws: seq<LeafWrite>, j: Json) {
    forall i | 0 <= i < |ws| :: IsLeaf(ws[i].value) && Get(Some(j), ws[i].path) == Found(ws[i].value)
  }

  lemma LeavesUnder(ws: seq<LeafWrite>, j: Json, seg: Seg, whole: Json)
    requires LeavesOf(ws, j) && Child(whole, seg) == Some(j)
    ensures LeavesOf(Under(seg, ws), whole)
  {
    forall i | 0 <= i < |ws| ensures Get(Some(whole), [seg] + ws[i].path) == Found(ws[i].value) {
      GetChild(whole, [seg] + ws[i].path);
      assert ([seg] + ws[i].path)[1..] == ws[i].path;
    }
  }

  lemma FoundHasChild(j: Json, path: seq<Seg>)
    requires path != [] && Get(Some(j), path).Found?
    ensures Child(j, path[0]).Some?
  {
    match (path[0], j)
    case (Field(k), Map(m)) =>
    case (Index(i), List(l)) =>
    case (_, _) =>
  }

  /** A container that grows keeps the leaves it had. */
  lemma LeavesStay(ws: seq<LeafWrite>, j: Json, bigger: Json)
    requires LeavesOf(ws, j) && forall i | 0 <= i < |ws| :: ws[i].path != []
    requires forall seg :: Child(j, seg).Some? ==> Child(bigger, seg) == Child(j, seg)
    ensures LeavesOf(ws, bigger)
  {
    forall i | 0 <= i < |ws| ensures Get(Some(bigger), ws[i].path) == Found(ws[i].value) {
      var p := ws[i].path;
      assert Get(Some(j), p) == Found(ws[i].value);
      FoundHasChild(j, p);
      GetChild(j, p);
      GetChild(bigger, p);
    }
  }

  lemma {:induction false} WritesAreLeaves(t: Ordered)
    requires WellOrdered(t)
    ensures LeavesOf(Writes(t), Forget(t))
    decreases t
  {
    match t
    case Leaf(v) =>
    case Items(ts) => ItemWritesAreLeaves(ts);
    case Entries(es) => EntryWritesAreLeaves(es);
  }

  lemma LeavesAppend(a: seq<LeafWrite>, b: seq<LeafWrite>, j: Json)
    requires LeavesOf(a, j) && LeavesOf(b, j)
    ensures LeavesOf(a + b, j)
  {
    forall i | 0 <= i < |a + b|
      ensures IsLeaf((a + b)[i].value) && Get(Some(j), (a + b)[i].path) == Found((a + b)[i].value)
    {
      if i < |a| {
        assert (a + b)[i] == a[i];
      } else {
        assert (a + b)[i] == b[i - |a|];
      }
    }
  }

  lemma {:induction false} ItemWritesAreLeaves(ts: seq<Ordered>)
    requires forall i | 0 <= i < |ts| :: WellOrdered(ts[i])
    ensures LeavesOf(WritesOfItems(ts), List(ForgetItems(ts)))
    decreases ts
  {
    if ts != [] {
      var n := |ts| - 1;
      var init, j := List(ForgetItems(ts[..n])), List(ForgetItems(ts));
      ItemWritesAreLeaves(ts[..n]);
      WritesAreLeaves(ts[n]);
      ItemsShape(ts[..n]);
      assert j.elems == init.elems + [Forget(ts[n])];
      LeavesStay(WritesOfItems(ts[..n]), init, j);
      LeavesUnder(Writes(ts[n]), Forget(ts[n]), Index(n), j);
      LeavesAppend(WritesOfItems(ts[..n]), Under(Index(n), Writes(ts[n])), j);
    }
  }

  lemma MapGrows(m: map<string, Json>, k: string, j: Json)
    requires k !in m
    ensures forall seg :: Child(Map(m), seg).Some? ==> Child(Map(m[k := j]), seg) == Child(Map(m), seg)
    ensures Child(Map(m[k := j]), Field(k)) == Some(j)
  {
  }

  lemma {:induction false} EntryWritesAreLeaves(es: seq<Entry>)
    requires WellOrdered(Entries(es))
    ensures LeavesOf(WritesOfEntries(es), Map(ForgetEntries(es)))
    decreases es
  {
    if es != [] {
      var n := |es| - 1;
      var m, init, j := ForgetEntries(es[..n]), Map(ForgetEntries(es[..n])), Map(ForgetEntries(es));
      NewKey(es);
      MapGrows(m, es[n].key, Forget(es[n].tree));
      assert j == Map(m[es[n].key := Forget(es[n].tree)]);
      EntryWritesAreLeaves(es[..n]);
      WritesAreLeaves(es[n].tree);
      EntriesShape(es[..n]);
      LeavesStay(WritesOfEntries(es[..n]), init, j);
      LeavesUnder(Writes(es[n].tree), Forget(es[n].tree), Field(es[n].key), j);
      LeavesAppend(WritesOfEntries(es[..n]), Under(Field(es[n].key), Writes(es[n].tree)), j);
    }
  }

  // ---------------------------------------------------------------- up to the last key

  function ToLastKey(path: seq<Seg>): (r: seq<Seg>)
    ensures r <= path
    ensures r == [] || EndsInKey(r)
  {
    if path == [] || path[|path| - 1].Field? then path else ToLastKey(path[..|path| - 1])
  }

  lemma {:induction false} OneMoreIndex(segs: seq<Seg>, i: nat)
    ensures KeyText(segs + [Index(i)]) == KeyText(segs)
    ensures Plain(segs + [Index(i)]) <==> Plain(segs)
    decreases segs
  {
    if segs == [] {
      assert segs + [Index(i)] == [Index(i)] + [];
      KeyTextCons(Index(i), []);
    } else {
      var x, rest := segs[0], segs[1..];
      OneMoreIndex(rest, i);
      assert segs == [x] + rest && segs + [Index(i)] == [x] + (rest + [Index(i)]);
      KeyTextCons(x, rest);
      KeyTextCons(x, rest + [Index(i)]);
    }
  }

  /** Trailing indexes have no key text and are always safe. */
  lemma {:induction false} ToLastKeyFacts(path: seq<Seg>)
    ensures KeyText(ToLastKey(path)) == KeyText(path)
    ensures Plain(ToLastKey(path)) <==> Plain(path)
    ensures GoodSegs("", ToLastKey(path)) <==> GoodSegs("", path)
    decreases |path|
  {
    if path != [] && path[|path| - 1].Index? {
      var init, last := path[..|path| - 1], path[|path| - 1];
      assert path == init + [last];
      ToLastKeyFacts(init);
      OneMoreIndex(init, last.index);
      OneMoreGood("", init, last);
    }
  }

  lemma {:induction false} GoodPrefix(path: string, a: seq<Seg>, b: seq<Seg>)
    requires a <= b && GoodSegs(path, b)
    ensures GoodSegs(path, a)
    decreases a
  {
    if a != [] {
      GoodPrefix(path + Printed(path, a[0]), a[1..], b[1..]);
    }
  }

  // ---------------------------------------------------------------- an unsafe leaf that is not written where it belongs

  predicate Unsafe(w: LeafWrite) {
    !GoodSegs("", w.path)
  }

  /** No unsafe leaf is further from being read back: `w` has a key no text reads as, or has the most key text. */
  predicate AtLeastAsBad(w: LeafWrite, u: LeafWrite) {
    Plain(w.path) ==> Plain(u.path) && KeyText(u.path) <= KeyText(w.path)
  }

  lemma {:induction false} WorstLeaf(ws: seq<LeafWrite>) returns (w: LeafWrite)
    requires exists u :: u in ws && Unsafe(u)
    ensures w in ws && Unsafe(w) && forall u | u in ws && Unsafe(u) :: AtLeastAsBad(w, u)
    decreases |ws|
  {
    var n := |ws| - 1;
    assert ws == ws[..n] + [ws[n]];
    if exists u :: u in ws[..n] && Unsafe(u) {
      w := WorstLeaf(ws[..n]);
      if Unsafe(ws[n]) && !AtLeastAsBad(w, ws[n]) {
        w := ws[n];
      }
    } else {
      w := ws[n];
    }
  }

  /** The text of no leaf leads to the last key of the worst one. */
  lemma NoPathThere(w: LeafWrite, u: LeafWrite)
    requires Unsafe(w) && u.path != [] && (Unsafe(u) ==> AtLeastAsBad(w, u))
    ensures !OnPath(ToLastKey(w.path), Text(u.path))
  {
    var place := ToLastKey(w.path);
    ToLastKeyFacts(w.path);
    if OnPath(place, Text(u.path)) {
      var q := ReadsAs(Text(u.path)).value;
      if Unsafe(u) {
        UnsafePathLoses(u.path);
        KeyTextOfPrefix(place, q);
      } else {
        PrintedPathParsesBackIff(u.path);
        GoodPrefix("", place, q);
      }
    }
  }

  /** An overlay on nothing always fits. */
  lemma {:induction false} OverlayOnNothing(patch: Json, overwrite: bool)
    ensures Overlay(None, patch, overwrite).Ok?
    ensures patch.Map? ==> Overlay(Some(Map(map[])), patch, overwrite).Ok?
    decreases patch
  {
    match patch
    case Map(m) =>
      forall k | k in m ensures Overlay(FieldSlot(map[], k), m[k], overwrite).Ok? {
        OverlayOnNothing(m[k], overwrite);
      }
    case List(e) =>
      forall i | 0 <= i < |e| ensures Overlay(ElemSlot([], i), e[i], overwrite).Ok? {
        OverlayOnNothing(e[i], overwrite);
      }
    case _ =>
  }

  lemma ProtectedIsSafe(path: seq<Seg>)
    requires path in PROTECTED
    ensures GoodSegs("", path)
  {
    ProtectedKeysOk();
    OneKeyText("apiVersion");
    OneKeyText("kind");
    MetadataNameText();
  }

  /** The overlay on an empty object has every unsafe leaf of the patch in its place. */
  lemma OverlayHasIt(kind: Kind, data: Json, w: LeafWrite, overwrite: bool)
    requires kind != OtherKind && data.Map? && Unsafe(w)
    requires IsLeaf(w.value) && Get(Some(data), w.path) == Found(w.value)
    ensures var r := PatchedObject(kind, Map(map[]), data, overwrite);
            r.Ok? && r.value.Some? && Present(r.value.value, ToLastKey(w.path))
  {
    OverlayOnNothing(Effective(kind, data), overwrite);
    var r := PatchedObject(kind, Map(map[]), data, overwrite).value;
    if kind == ComposedKind {
      if w.path in PROTECTED {
        ProtectedIsSafe(w.path);
      }
      ComposedPatchArrives(Map(map[]), data, overwrite, w.path, w.value);
    } else {
      PatchLeavesPresent(Some(Map(map[])), data, overwrite, w.path, w.value);
    }
    FoundIsPresent(r.value, w.path, ToLastKey(w.path));
  }

  lemma NothingInEmpty(place: seq<Seg>)
    requires place != []
    ensures !Present(Map(map[]), place)
  {
  }

  /** SetData on an empty object leaves out the worst leaf. */
  lemma RunLacksIt(kind: Kind, t: Ordered, w: LeafWrite, overwrite: bool)
    requires WellOrdered(t) && t.Entries? && Unsafe(w)
    requires forall u | u in Writes(t) && Unsafe(u) :: AtLeastAsBad(w, u)
    requires InOrder(kind, Map(map[]), t, overwrite).Ok?
    ensures InOrder(kind, Map(map[]), t, overwrite).value.Some?
    ensures !Present(InOrder(kind, Map(map[]), t, overwrite).value.value, ToLastKey(w.path))
  {
    var place, tws, ws := ToLastKey(w.path), TextWrites(t, ""), Writes(t);
    ToLastKeyFacts(w.path);
    TextAgrees(t, "");
    EntriesShape(t.entries);
    WritesAreLeaves(t);
    RunReaches(kind, Map(map[]), tws, overwrite, place);
    NothingInEmpty(place);
    forall i | 0 <= i < |tws| ensures !OnPath(place, tws[i].path) {
      assert "" + Text(ws[i].path) == Text(ws[i].path);
      assert ws[i] in ws;
      NoPathThere(w, ws[i]);
    }
  }

  /** Is SetData on this patch, in this order, the overlay for every object? */
  ghost predicate AlwaysOverlay(kind: Kind, t: Ordered, overwrite: bool) {
    forall obj :: IsFaithful(kind, obj, t, overwrite)
  }

  /** On a patch with an unsafe key the two differ at least on the empty object. */
  lemma UnsafeKeysShow(kind: Kind, t: Ordered, overwrite: bool)
    requires kind != OtherKind && WellOrdered(t) && t.Entries? && !GoodKeys("", Forget(t))
    ensures !IsFaithful(kind, Map(map[]), t, overwrite)
  {
    TextAgrees(t, "");
    var i :| 0 <= i < |Writes(t)| && !GoodSegs("", Writes(t)[i].path);
    assert Writes(t)[i] in Writes(t) && Unsafe(Writes(t)[i]);
    var w := WorstLeaf(Writes(t));
    WritesAreLeaves(t);
    OverlayHasIt(kind, Forget(t), w, overwrite);
    if InOrder(kind, Map(map[]), t, overwrite).Ok? {
      RunLacksIt(kind, t, w, overwrite);
    }
  }

  /**
   The key condition is exact: SetData is the overlay on every object if and only if every key above
   a leaf is carried safely by the path text, whatever the visiting order, with and without overwrite.
   */
  lemma KeyConditionIsExact(kind: Kind, t: Ordered, overwrite: bool)
    requires kind != OtherKind && WellOrdered(t) && t.Entries?
    ensures AlwaysOverlay(kind, t, overwrite) <==> GoodKeys("", Forget(t))
  {
    if GoodKeys("", Forget(t)) {
      forall obj ensures IsFaithful(kind, obj, t, overwrite) {
        SetDataIsOverlay(kind, obj, t, overwrite);
      }
    } else {
      UnsafeKeysShow(kind, t, overwrite);
    }
  }
}
