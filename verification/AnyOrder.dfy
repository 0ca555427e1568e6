/**
 Go visits map keys in an unspecified order. Here a patch carries one such order, its leaves are
 written one by one through their paths, and the result is shown to be the overlay whatever the order.
 */
module AnyOrder {
  import opened JsonTree
  import opened PathText
  import opened FieldPath
  import opened Overlays

  // ---------------------------------------------------------------- visiting a tree in some order

  /** A JSON tree whose maps carry the order in which a Go range loop happens to visit their keys. */
  datatype Ordered = Leaf(value: Json) | Items(items: seq<Ordered>) | Entries(entries: seq<Entry>)
  datatype Entry = Entry(key: string, tree: Ordered)

  /** Each map key is visited once, and leaves are leaves. */
  ghost predicate WellOrdered(t: Ordered) {
    match t
    case Leaf(v) => IsLeaf(v)
    case Items(ts) => forall i | 0 <= i < |ts| :: WellOrdered(ts[i])
    case Entries(es) =>
      && (forall i | 0 <= i < |es| :: WellOrdered(es[i].tree))
      && (forall i, j | 0 <= i < j < |es| :: es[i].key != es[j].key)
  }

  ghost function Forget(t: Ordered): Json {
    match t
    case Leaf(v) => v
    case Items(ts) => List(ForgetItems(ts))
    case Entries(es) => Map(ForgetEntries(es))
  }

  ghost function ForgetItems(ts: seq<Ordered>): (r: seq<Json>)
    ensures |r| == |ts|
    ensures forall i | 0 <= i < |ts| :: r[i] == Forget(ts[i])
  {
    if ts == [] then [] else ForgetItems(ts[..|ts| - 1]) + [Forget(ts[|ts| - 1])]
  }

  ghost function ForgetEntries(es: seq<Entry>): (r: map<string, Json>)
    ensures forall k :: k in r <==> exists i :: 0 <= i < |es| && es[i].key == k
  {
    if es == [] then map[]
    else
      var e := es[|es| - 1];
      ForgetEntries(es[..|es| - 1])[e.key := Forget(e.tree)]
  }

  /** One leaf and the path to it, relative to the tree's root. */
  datatype LeafWrite = LeafWrite(path: seq<Seg>, value: Json)

  function Under(seg: Seg, ws: seq<LeafWrite>): (r: seq<LeafWrite>)
    ensures |r| == |ws|
    ensures forall i | 0 <= i < |ws| :: r[i] == LeafWrite([seg] + ws[i].path, ws[i].value)
  {
    seq(|ws|, i requires 0 <= i < |ws| => LeafWrite([seg] + ws[i].path, ws[i].value))
  }

  /** The leaves in visiting order. */
  function Writes(t: Ordered): seq<LeafWrite> {
    match t
    case Leaf(v) => [LeafWrite([], v)]
    case Items(ts) => WritesOfItems(ts)
    case Entries(es) => WritesOfEntries(es)
  }

  function WritesOfItems(ts: seq<Ordered>): seq<LeafWrite> {
    if ts == [] then []
    else WritesOfItems(ts[..|ts| - 1]) + Under(Index(|ts| - 1), Writes(ts[|ts| - 1]))
  }

  function WritesOfEntries(es: seq<Entry>): seq<LeafWrite> {
    if es == [] then []
    else
      var e := es[|es| - 1];
      WritesOfEntries(es[..|es| - 1]) + Under(Field(e.key), Writes(e.tree))
  }

  /** Leaf writes one after the other; the first failure ends the run. */
  function Apply(slot: Option<Json>, ws: seq<LeafWrite>, overwrite: bool): Outcome<Option<Json>>
    decreases |ws|
  {
    if ws == [] then Ok(slot)
    else
      match Write(slot, ws[0].path, ws[0].value, overwrite)
      case Fail => Fail
      case Ok(v) => Apply(Some(v), ws[1..], overwrite)
  }

  function Then(r: Outcome<Option<Json>>, ws: seq<LeafWrite>, overwrite: bool): Outcome<Option<Json>> {
    match r
    case Fail => Fail
    case Ok(slot) => Apply(slot, ws, overwrite)
  }

  lemma {:induction false} ApplyAppend(slot: Option<Json>, a: seq<LeafWrite>, b: seq<LeafWrite>, overwrite: bool)
    ensures Apply(slot, a + b, overwrite) == Then(Apply(slot, a, overwrite), b, overwrite)
    decreases |a|
  {
    if a == [] {
      assert a + b == b;
    } else {
      assert (a + b)[1..] == a[1..] + b;
      match Write(slot, a[0].path, a[0].value, overwrite)
      case Fail =>
      case Ok(v) => ApplyAppend(Some(v), a[1..], b, overwrite);
    }
  }

  // ---------------------------------------------------------------- writes below one segment

  /** The writes of one tree: a single write of the root itself, or writes strictly below it. */
  predicate Proper(ws: seq<LeafWrite>) {
    |ws| == 1 || forall i | 0 <= i < |ws| :: ws[i].path != []
  }

  lemma BelowIsContainer(slot: Option<Json>, w: LeafWrite, overwrite: bool)
    requires w.path != [] && Write(slot, w.path, w.value, overwrite).Ok?
    ensures var v := Write(slot, w.path, w.value, overwrite).value; v.Map? || v.List?
  {
  }

  lemma {:induction false} ApplyUnderField(slot: Option<Json>, k: string, ws: seq<LeafWrite>, overwrite: bool)
    requires ws != []
    ensures Apply(slot, Under(Field(k), ws), overwrite) ==
      match FieldsOf(slot)
      case None => Fail
      case Some(m) =>
        match Apply(FieldSlot(m, k), ws, overwrite)
        case Fail => Fail
        case Ok(r) => Ok(Some(Map(m[k := Filled(r)])))
    decreases |ws|
  {
    WriteField(slot, k, ws[0].path, ws[0].value, overwrite);
    assert Under(Field(k), ws)[1..] == Under(Field(k), ws[1..]);
    match FieldsOf(slot)
    case None =>
    case Some(m) =>
      match Write(FieldSlot(m, k), ws[0].path, ws[0].value, overwrite)
      case Fail =>
      case Ok(v) =>
        if ws[1..] != [] {
          ApplyUnderField(Some(Map(m[k := v])), k, ws[1..], overwrite);
          assert FieldSlot(m[k := v], k) == Some(v);
          var r := Apply(Some(v), ws[1..], overwrite);
          assert r.Ok? ==> m[k := v][k := Filled(r.value)] == m[k := Filled(r.value)];
        }
  }

  lemma {:induction false} ApplyUnderIndex(slot: Option<Json>, i: nat, ws: seq<LeafWrite>, overwrite: bool)
    requires ws != [] && Proper(ws)
    ensures Apply(slot, Under(Index(i), ws), overwrite) ==
      match ElemsOf(slot)
      case None => Fail
      case Some(l) =>
        match Apply(ElemSlot(l, i), ws, overwrite)
        case Fail => Fail
        case Ok(r) => Ok(Some(List(SetElem(l, i, Filled(r)))))
    decreases |ws|
  {
    WriteIndex(slot, i, ws[0].path, ws[0].value, overwrite);
    assert Under(Index(i), ws)[1..] == Under(Index(i), ws[1..]);
    match ElemsOf(slot)
    case None =>
    case Some(l) =>
      match Write(ElemSlot(l, i), ws[0].path, ws[0].value, overwrite)
      case Fail =>
      case Ok(v) =>
        if ws[1..] != [] {
          BelowIsContainer(ElemSlot(l, i), ws[0], overwrite);
          ApplyUnderIndex(Some(List(SetElem(l, i, v))), i, ws[1..], overwrite);
          assert ElemSlot(SetElem(l, i, v), i) == Some(v);
          var r := Apply(Some(v), ws[1..], overwrite);
          assert r.Ok? ==> SetElem(SetElem(l, i, v), i, Filled(r.value)) == SetElem(l, i, Filled(r.value));
        }
  }

  // ---------------------------------------------------------------- the order is irrelevant

  lemma {:induction false} WritesShape(t: Ordered)
    requires WellOrdered(t)
    ensures Proper(Writes(t))
    ensures Writes(t) != [] <==> HasLeaf(Forget(t))
    decreases t
  {
    match t
    case Leaf(v) =>
    case Items(ts) => ItemsShape(ts);
    case Entries(es) => EntriesShape(es);
  }

  lemma {:induction false} ItemsShape(ts: seq<Ordered>)
    requires forall i | 0 <= i < |ts| :: WellOrdered(ts[i])
    ensures forall i | 0 <= i < |WritesOfItems(ts)| :: WritesOfItems(ts)[i].path != []
    ensures WritesOfItems(ts) != [] <==> HasLeaf(List(ForgetItems(ts)))
    decreases ts
  {
    if ts != [] {
      var n := |ts| - 1;
      ItemsShape(ts[..n]);
      WritesShape(ts[n]);
      var e, e' := ForgetItems(ts), ForgetItems(ts[..n]);
      assert e == e' + [Forget(ts[n])];
      if HasLeaf(List(e')) {
        var i :| 0 <= i < |e'| && HasLeaf(e'[i]);
        assert HasLeaf(e[i]);
      }
      if HasLeaf(Forget(ts[n])) {
        assert HasLeaf(e[n]);
      }
    }
  }

  lemma MapHasLeaf(m: map<string, Json>, k: string, j: Json)
    requires k !in m
    ensures HasLeaf(Map(m[k := j])) <==> HasLeaf(Map(m)) || HasLeaf(j)
  {
    var m1 := m[k := j];
    if HasLeaf(Map(m)) {
      var x :| x in m && HasLeaf(m[x]);
      assert x in m1 && m1[x] == m[x];
    }
    if HasLeaf(j) {
      assert HasLeaf(m1[k]);
    }
  }

  lemma {:induction false} EntriesShape(es: seq<Entry>)
    requires WellOrdered(Entries(es))
    ensures forall i | 0 <= i < |WritesOfEntries(es)| :: WritesOfEntries(es)[i].path != []
    ensures WritesOfEntries(es) != [] <==> HasLeaf(Map(ForgetEntries(es)))
    decreases es
  {
    if es != [] {
      var n := |es| - 1;
      EntriesShape(es[..n]);
      WritesShape(es[n].tree);
      NewKey(es);
      MapHasLeaf(ForgetEntries(es[..n]), es[n].key, Forget(es[n].tree));
    }
  }

  lemma NewKey(es: seq<Entry>)
    requires es != [] && WellOrdered(Entries(es))
    ensures WellOrdered(Entries(es[..|es| - 1]))
    ensures es[|es| - 1].key !in ForgetEntries(es[..|es| - 1])
  {
  }

  lemma OneMoreEntry(es: seq<Entry>, k: string, t: Ordered)
    requires WellOrdered(Entries(es)) && WellOrdered(t) && k !in ForgetEntries(es)
    ensures WellOrdered(Entries(es + [Entry(k, t)]))
    ensures ForgetEntries(es + [Entry(k, t)]) == ForgetEntries(es)[k := Forget(t)]
  {
    var es1 := es + [Entry(k, t)];
    assert es1[..|es|] == es;
    assert forall i | 0 <= i < |es| :: es[i].key in ForgetEntries(es);
  }

  /** Adding one more key to a map patch: overlay the rest first, then that key's place. */
  ghost function PutField(r: Outcome<Option<Json>>, k: string, j: Json, overwrite: bool): Outcome<Option<Json>> {
    match r
    case Fail => Fail
    case Ok(slot) =>
      match FieldsOf(slot)
      case None => Fail
      case Some(f) =>
        match Overlay(FieldSlot(f, k), j, overwrite)
        case Fail => Fail
        case Ok(v) => Ok(Some(Map(f[k := Filled(v)])))
  }

  ghost function PutItem(r: Outcome<Option<Json>>, i: nat, j: Json, overwrite: bool): Outcome<Option<Json>> {
    match r
    case Fail => Fail
    case Ok(slot) =>
      match ElemsOf(slot)
      case None => Fail
      case Some(l) =>
        match Overlay(ElemSlot(l, i), j, overwrite)
        case Fail => Fail
        case Ok(v) => Ok(Some(List(SetElem(l, i, Filled(v)))))
  }

  lemma FieldsFitOneMore(f: map<string, Json>, m: map<string, Json>, k: string, j: Json, overwrite: bool)
    requires k !in m
    ensures FieldsFit(f, m[k := j], Map(m[k := j]), overwrite) <==>
      FieldsFit(f, m, Map(m), overwrite) && Overlay(FieldSlot(f, k), j, overwrite).Ok?
  {
    var m1 := m[k := j];
    if FieldsFit(f, m1, Map(m1), overwrite) {
      assert m1[k] == j;
      forall x | x in m ensures Overlay(FieldSlot(f, x), m[x], overwrite).Ok? {
        assert m1[x] == m[x];
      }
    }
  }

  lemma FieldsOneMore(f: map<string, Json>, m: map<string, Json>, k: string, j: Json, overwrite: bool)
    requires k !in m
    requires FieldsFit(f, m, Map(m), overwrite) && FieldsFit(f, m[k := j], Map(m[k := j]), overwrite)
    requires Overlay(FieldSlot(f, k), j, overwrite).Ok?
    ensures OverlayFields(f, m[k := j], Map(m[k := j]), overwrite) ==
      if HasLeaf(j) then OverlayFields(f, m, Map(m), overwrite)[k := Overlay(FieldSlot(f, k), j, overwrite).value.value]
      else OverlayFields(f, m, Map(m), overwrite)
  {
    var m1, f1 := m[k := j], OverlayFields(f, m, Map(m), overwrite);
    var lhs := OverlayFields(f, m1, Map(m1), overwrite);
    var rhs := if HasLeaf(j) then f1[k := Overlay(FieldSlot(f, k), j, overwrite).value.value] else f1;
    forall x ensures x in lhs <==> x in rhs {
      if x != k && x in m { assert m1[x] == m[x]; }
    }
    forall x | x in lhs ensures lhs[x] == rhs[x] {
      if x != k && x in m { assert m1[x] == m[x]; }
    }
    assert lhs == rhs;
  }

  lemma PutFieldIs(slot: Option<Json>, g: map<string, Json>, k: string, j: Json, overwrite: bool)
    requires FieldsOf(slot) == Some(g) && HasLeaf(j)
    ensures PutField(Ok(slot), k, j, overwrite) ==
      if Overlay(FieldSlot(g, k), j, overwrite).Ok?
      then Ok(Some(Map(g[k := Overlay(FieldSlot(g, k), j, overwrite).value.value])))
      else Fail
  {
  }

  /** The fields after a map patch, when its leaves fit. */
  ghost function NewFields(f: map<string, Json>, m: map<string, Json>, overwrite: bool): Outcome<map<string, Json>> {
    if FieldsFit(f, m, Map(m), overwrite) then Ok(OverlayFields(f, m, Map(m), overwrite)) else Fail
  }

  ghost function AsMap(r: Outcome<map<string, Json>>): Outcome<Option<Json>> {
    if r.Ok? then Ok(Some(Map(r.value))) else Fail
  }

  lemma NewFieldsStep(f: map<string, Json>, m: map<string, Json>, k: string, j: Json, overwrite: bool)
    requires k !in m
    ensures AsMap(NewFields(f, m[k := j], overwrite)) ==
      if HasLeaf(j) then PutField(AsMap(NewFields(f, m, overwrite)), k, j, overwrite) else AsMap(NewFields(f, m, overwrite))
  {
    FieldsFitOneMore(f, m, k, j, overwrite);
    if FieldsFit(f, m[k := j], Map(m[k := j]), overwrite) {
      FieldsOneMore(f, m, k, j, overwrite);
    }
    if HasLeaf(j) && FieldsFit(f, m, Map(m), overwrite) {
      var g := OverlayFields(f, m, Map(m), overwrite);
      PutFieldIs(Some(Map(g)), g, k, j, overwrite);
      SlotBeside(f, m, k, overwrite);
    }
  }

  lemma SlotBeside(f: map<string, Json>, m: map<string, Json>, k: string, overwrite: bool)
    requires k !in m && FieldsFit(f, m, Map(m), overwrite)
    ensures FieldSlot(OverlayFields(f, m, Map(m), overwrite), k) == FieldSlot(f, k)
  {
  }

  /** The first leaf-bearing key of a map patch is put into the place as it was. */
  lemma FirstField(slot: Option<Json>, f: map<string, Json>, m: map<string, Json>, k: string, j: Json, overwrite: bool)
    requires k !in m && FieldsOf(slot) == Some(f) && !HasLeaf(Map(m)) && HasLeaf(j)
    ensures AsMap(NewFields(f, m[k := j], overwrite)) == PutField(Ok(slot), k, j, overwrite)
  {
    NewFieldsStep(f, m, k, j, overwrite);
    OverlayNoLeafFields(f, m, overwrite);
    PutFieldIs(slot, f, k, j, overwrite);
    PutFieldIs(Some(Map(f)), f, k, j, overwrite);
  }

  lemma OverlayOneMoreField(slot: Option<Json>, m: map<string, Json>, k: string, j: Json, overwrite: bool)
    requires k !in m
    ensures Overlay(slot, Map(m[k := j]), overwrite) ==
      if HasLeaf(j) then PutField(Overlay(slot, Map(m), overwrite), k, j, overwrite) else Overlay(slot, Map(m), overwrite)
  {
    MapHasLeaf(m, k, j);
    if FieldsOf(slot).Some? && HasLeaf(Map(m[k := j])) {
      var f := FieldsOf(slot).value;
      OverlayMapIs(slot, m[k := j], f, overwrite);
      if HasLeaf(Map(m)) {
        OverlayMapIs(slot, m, f, overwrite);
        NewFieldsStep(f, m, k, j, overwrite);
      } else {
        FirstField(slot, f, m, k, j, overwrite);
      }
    }
  }

  // The same for lists: one more element at the end of a list patch.

  lemma ListHasLeaf(e: seq<Json>, j: Json)
    ensures HasLeaf(List(e + [j])) <==> HasLeaf(List(e)) || HasLeaf(j)
  {
    var e1 := e + [j];
    if HasLeaf(List(e)) {
      var i :| 0 <= i < |e| && HasLeaf(e[i]);
      assert HasLeaf(e1[i]);
    }
    if HasLeaf(j) {
      assert HasLeaf(e1[|e|]);
    }
  }

  lemma ElemsFitOneMore(l: seq<Json>, e: seq<Json>, j: Json, overwrite: bool)
    ensures ElemsFit(l, e + [j], List(e + [j]), overwrite) <==>
      ElemsFit(l, e, List(e), overwrite) && Overlay(ElemSlot(l, |e|), j, overwrite).Ok?
  {
    var e1 := e + [j];
    if ElemsFit(l, e1, List(e1), overwrite) {
      assert e1[|e|] == j;
      forall i | 0 <= i < |e| ensures Overlay(ElemSlot(l, i), e[i], overwrite).Ok? {
        assert e1[i] == e[i];
      }
    }
  }

  lemma LeafLengthMore(e: seq<Json>, j: Json)
    ensures LeafLength(e + [j]) == if HasLeaf(j) then |e| + 1 else LeafLength(e)
  {
    assert (e + [j])[..|e|] == e;
  }

  /** The elements below the new one are those of the shorter patch. */
  lemma SameElemsBelow(l: seq<Json>, e: seq<Json>, j: Json, overwrite: bool)
    requires ElemsFit(l, e, List(e), overwrite) && ElemsFit(l, e + [j], List(e + [j]), overwrite)
    ensures var a, b := OverlayElems(l, e, List(e), overwrite), OverlayElems(l, e + [j], List(e + [j]), overwrite);
            forall i | 0 <= i < |b| && i != |e| :: b[i] == if i < |a| then a[i] else Null
  {
    var e1 := e + [j];
    assert forall i | 0 <= i < |e| :: e1[i] == e[i];
    LeafLengthMore(e, j);
    var a := OverlayElems(l, e, List(e), overwrite);
    forall i | |a| <= i < |e| ensures Filled(Overlay(ElemSlot(l, i), e[i], overwrite).value) == Null {
      assert !HasLeaf(e[i]);
    }
  }

  /** The new element itself, and the length. */
  lemma NewElemAt(l: seq<Json>, e: seq<Json>, j: Json, overwrite: bool)
    requires ElemsFit(l, e, List(e), overwrite) && ElemsFit(l, e + [j], List(e + [j]), overwrite)
    requires Overlay(ElemSlot(l, |e|), j, overwrite).Ok?
    ensures var a, b := OverlayElems(l, e, List(e), overwrite), OverlayElems(l, e + [j], List(e + [j]), overwrite);
            && |b| == (if HasLeaf(j) then Max(|a|, |e| + 1) else |a|)
            && (HasLeaf(j) ==> b[|e|] == Overlay(ElemSlot(l, |e|), j, overwrite).value.value)
            && (!HasLeaf(j) && |e| < |b| ==> b[|e|] == a[|e|])
  {
    LeafLengthMore(e, j);
    assert (e + [j])[|e|] == j;
  }

  lemma SetElemIs(a: seq<Json>, b: seq<Json>, n: nat, v: Json)
    requires |b| == Max(|a|, n + 1) && b[n] == v
    requires forall i | 0 <= i < |b| && i != n :: b[i] == if i < |a| then a[i] else Null
    ensures b == SetElem(a, n, v)
  {
  }

  lemma ElemsOneMore(l: seq<Json>, e: seq<Json>, j: Json, overwrite: bool)
    requires ElemsFit(l, e, List(e), overwrite) && ElemsFit(l, e + [j], List(e + [j]), overwrite)
    requires Overlay(ElemSlot(l, |e|), j, overwrite).Ok?
    ensures OverlayElems(l, e + [j], List(e + [j]), overwrite) ==
      if HasLeaf(j) then SetElem(OverlayElems(l, e, List(e), overwrite), |e|, Overlay(ElemSlot(l, |e|), j, overwrite).value.value)
      else OverlayElems(l, e, List(e), overwrite)
  {
    var a, b := OverlayElems(l, e, List(e), overwrite), OverlayElems(l, e + [j], List(e + [j]), overwrite);
    SameElemsBelow(l, e, j, overwrite);
    NewElemAt(l, e, j, overwrite);
    if HasLeaf(j) {
      SetElemIs(a, b, |e|, Overlay(ElemSlot(l, |e|), j, overwrite).value.value);
    }
  }

  lemma PutItemIs(slot: Option<Json>, l: seq<Json>, i: nat, j: Json, overwrite: bool)
    requires ElemsOf(slot) == Some(l) && HasLeaf(j)
    ensures PutItem(Ok(slot), i, j, overwrite) ==
      if Overlay(ElemSlot(l, i), j, overwrite).Ok?
      then Ok(Some(List(SetElem(l, i, Overlay(ElemSlot(l, i), j, overwrite).value.value))))
      else Fail
  {
  }

  /** The elements after a list patch, when its leaves fit. */
  ghost function NewElems(l: seq<Json>, e: seq<Json>, overwrite: bool): Outcome<seq<Json>> {
    if ElemsFit(l, e, List(e), overwrite) then Ok(OverlayElems(l, e, List(e), overwrite)) else Fail
  }

  ghost function AsList(r: Outcome<seq<Json>>): Outcome<Option<Json>> {
    if r.Ok? then Ok(Some(List(r.value))) else Fail
  }

  lemma NewElemsStep(l: seq<Json>, e: seq<Json>, j: Json, overwrite: bool)
    ensures AsList(NewElems(l, e + [j], overwrite)) ==
      if HasLeaf(j) then PutItem(AsList(NewElems(l, e, overwrite)), |e|, j, overwrite) else AsList(NewElems(l, e, overwrite))
  {
    ElemsFitOneMore(l, e, j, overwrite);
    if ElemsFit(l, e + [j], List(e + [j]), overwrite) {
      ElemsOneMore(l, e, j, overwrite);
    }
    if HasLeaf(j) && ElemsFit(l, e, List(e), overwrite) {
      var g := OverlayElems(l, e, List(e), overwrite);
      PutItemIs(Some(List(g)), g, |e|, j, overwrite);
      PlaceBeyond(l, e, overwrite);
    }
  }

  lemma PlaceBeyond(l: seq<Json>, e: seq<Json>, overwrite: bool)
    requires ElemsFit(l, e, List(e), overwrite)
    ensures ElemSlot(OverlayElems(l, e, List(e), overwrite), |e|) == ElemSlot(l, |e|)
  {
  }

  /** The first leaf-bearing element of a list patch is put into the place as it was. */
  lemma FirstElem(slot: Option<Json>, l: seq<Json>, e: seq<Json>, j: Json, overwrite: bool)
    requires ElemsOf(slot) == Some(l) && !HasLeaf(List(e)) && HasLeaf(j)
    ensures AsList(NewElems(l, e + [j], overwrite)) == PutItem(Ok(slot), |e|, j, overwrite)
  {
    NewElemsStep(l, e, j, overwrite);
    OverlayNoLeafElems(l, e, overwrite);
    PutItemIs(slot, l, |e|, j, overwrite);
    PutItemIs(Some(List(l)), l, |e|, j, overwrite);
  }

  lemma OverlayOneMoreItem(slot: Option<Json>, e: seq<Json>, j: Json, overwrite: bool)
    ensures Overlay(slot, List(e + [j]), overwrite) ==
      if HasLeaf(j) then PutItem(Overlay(slot, List(e), overwrite), |e|, j, overwrite) else Overlay(slot, List(e), overwrite)
  {
    ListHasLeaf(e, j);
    if ElemsOf(slot).Some? && HasLeaf(List(e + [j])) {
      var l := ElemsOf(slot).value;
      OverlayListIs(slot, e + [j], l, overwrite);
      if HasLeaf(List(e)) {
        OverlayListIs(slot, e, l, overwrite);
        NewElemsStep(l, e, j, overwrite);
      } else {
        FirstElem(slot, l, e, j, overwrite);
      }
    }
  }

  /**
   The main theorem on trees: writing a patch's leaves one by one through their paths, in whatever
   order its map keys are visited, fails or succeeds as the overlay does, and builds the same tree.
   */
  lemma {:induction false} AnyOrderIsOverlay(slot: Option<Json>, t: Ordered, overwrite: bool)
    requires WellOrdered(t)
    ensures Apply(slot, Writes(t), overwrite) == Overlay(slot, Forget(t), overwrite)
    decreases t
  {
    match t
    case Leaf(v) => OneLeaf(slot, v, overwrite);
    case Items(ts) => AnyOrderItems(slot, ts, overwrite);
    case Entries(es) => AnyOrderEntries(slot, es, overwrite);
  }

  lemma OneLeaf(slot: Option<Json>, v: Json, overwrite: bool)
    requires IsLeaf(v)
    ensures Apply(slot, [LeafWrite([], v)], overwrite) == Overlay(slot, v, overwrite)
  {
    var ws := [LeafWrite([], v)];
    assert ws[1..] == [];
  }

  lemma {:induction false} AnyOrderItems(slot: Option<Json>, ts: seq<Ordered>, overwrite: bool)
    requires forall i | 0 <= i < |ts| :: WellOrdered(ts[i])
    ensures Apply(slot, WritesOfItems(ts), overwrite) == Overlay(slot, List(ForgetItems(ts)), overwrite)
    decreases ts
  {
    if ts != [] {
      var n := |ts| - 1;
      var e, t, ws := ForgetItems(ts[..n]), ts[n], Writes(ts[n]);
      AnyOrderItems(slot, ts[..n], overwrite);
      WritesShape(t);
      ApplyAppend(slot, WritesOfItems(ts[..n]), Under(Index(n), ws), overwrite);
      OverlayOneMoreItem(slot, e, Forget(t), overwrite);
      var r := Overlay(slot, List(e), overwrite);
      if HasLeaf(Forget(t)) && r.Ok? {
        ApplyUnderIndex(r.value, n, ws, overwrite);
        if ElemsOf(r.value).Some? {
          AnyOrderIsOverlay(ElemSlot(ElemsOf(r.value).value, n), t, overwrite);
        }
      }
    }
  }

  lemma {:induction false} AnyOrderEntries(slot: Option<Json>, es: seq<Entry>, overwrite: bool)
    requires WellOrdered(Entries(es))
    ensures Apply(slot, WritesOfEntries(es), overwrite) == Overlay(slot, Map(ForgetEntries(es)), overwrite)
    decreases es
  {
    if es != [] {
      var n := |es| - 1;
      var m, k, t, ws := ForgetEntries(es[..n]), es[n].key, es[n].tree, Writes(es[n].tree);
      NewKey(es);
      AnyOrderEntries(slot, es[..n], overwrite);
      WritesShape(t);
      ApplyAppend(slot, WritesOfEntries(es[..n]), Under(Field(k), ws), overwrite);
      OverlayOneMoreField(slot, m, k, Forget(t), overwrite);
      var r := Overlay(slot, Map(m), overwrite);
      if HasLeaf(Forget(t)) && r.Ok? {
        ApplyUnderField(r.value, k, ws, overwrite);
        if FieldsOf(r.value).Some? {
          AnyOrderIsOverlay(FieldSlot(FieldsOf(r.value).value, k), t, overwrite);
        }
      }
    }
  }
}
