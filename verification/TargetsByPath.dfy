/** The targets said by names and paths: who is patched and when, which base wins, what a merge keeps, which target is which. */
module TargetsByPath {
  import opened JsonTree
  import opened PathText
  import opened FieldPath
  import opened AnyOrder
  import opened SetDataSpec
  import opened ResourceNames
  import opened NamesByPath
  import opened Matching
  import opened PatchRuns
  import opened DesiredState
  import opened DefaultTarget
  import opened TargetFacts
  import opened Processing

  // ---------------------------------------------------------------- patching

  /** No ready annotation that counts, or one with one of the three values. */
  ghost predicate ReadyFineAt(obj: Json) {
    StringAnnotations(obj) && Get(Some(obj), AnnotationPath("krm.kcl.dev/ready")).Found? ==>
      TextAt(obj, AnnotationPath("krm.kcl.dev/ready")) in ["True", "False", "Unspecified"]
  }

  lemma AllNamedIff(names: set<string>, data: seq<Json>)
    ensures AllNamed(names, data) <==> forall i | 0 <= i < |data| :: NamesOneOf(data[i], names)
  {
    forall i | 0 <= i < |data| ensures ResourceName(data[i]) in names <==> NamesOneOf(data[i], names) {
      NamedByOne(data[i]);
    }
  }

  /** The object can be patched so, and has a valid ready annotation or none afterwards. */
  ghost predicate PatchedFine(obj: Json, ts: seq<Ordered>, overwrite: bool) {
    match RunAll(ComposedKind, Some(obj), ts, overwrite)
    case Ok(Some(now)) => ReadyFineAt(now)
    case _ => false
  }

  lemma PatchedFineIff(obj: Json, ts: seq<Ordered>, overwrite: bool)
    requires obj.Map?
    ensures PatchedFine(obj, ts, overwrite) <==>
      var r := RunAll(ComposedKind, Some(obj), ts, overwrite); r.Ok? && ReadyOk(ObjectOr(r, obj))
  {
    var r := RunAll(ComposedKind, Some(obj), ts, overwrite);
    if r.Ok? {
      RunAllKeepsMap(ComposedKind, obj, ts, overwrite);
      ReadyOkIff(r.value.value);
    }
  }

  /**
   Patching is accepted, for any keys and orders, exactly when every item is named by some entry, the
   patches of each entry can be written one after the other, and each object then has a valid ready
   annotation or none.
   */
  lemma AcceptedIff(view: map<string, Item>, data: seq<Json>, orders: map<string, seq<Ordered>>, overwrite: bool)
    requires view.Keys <= orders.Keys && forall n | n in view :: view[n].obj.Map?
    ensures AcceptedIn(view, data, orders, overwrite) <==>
      && (forall i | 0 <= i < |data| :: NamesOneOf(data[i], view.Keys))
      && (forall n | n in view :: PatchedFine(view[n].obj, orders[n], overwrite))
  {
    AllNamedIff(view.Keys, data);
    forall n | n in view
      ensures PatchedFine(view[n].obj, orders[n], overwrite) <==>
        RunAll(ComposedKind, Some(view[n].obj), orders[n], overwrite).Ok? && ReadyOk(PatchedIn(view, orders, overwrite)[n].obj)
    {
      PatchedFineIff(view[n].obj, orders[n], overwrite);
    }
  }

  // ---------------------------------------------------------------- bases

  predicate NoBaseFor(bases: seq<Base>, n: string) {
    forall i | 0 <= i < |bases| :: bases[i].name != n
  }

  /** An entry without a base is as it was. */
  lemma {:induction false} WithoutBase(view: map<string, Item>, bases: seq<Base>, n: string)
    requires NoBaseFor(bases, n)
    ensures (n in WithBases(view, bases) <==> n in view) && (n in view ==> WithBases(view, bases)[n] == view[n])
    decreases |bases|
  {
    if bases != [] {
      WithoutBase(view, bases[..|bases| - 1], n);
    }
  }

  /** Of several bases of one name the last one becomes the entry, and what the entry was does not matter. */
  lemma {:induction false} LastBaseWins(view: map<string, Item>, bases: seq<Base>, i: nat)
    requires i < |bases| && NoBaseFor(bases[i + 1..], bases[i].name)
    ensures bases[i].name in WithBases(view, bases) && WithBases(view, bases)[bases[i].name] == Item(bases[i].obj, "")
    decreases |bases|
  {
    var init, b := bases[..|bases| - 1], bases[|bases| - 1];
    if i < |init| {
      assert bases[i + 1..][|init| - i - 1] == b;
      assert init[i + 1..] == bases[i + 1..][..|init| - i - 1];
      LastBaseWins(view, init, i);
    }
  }

  // ---------------------------------------------------------------- the merge under Resources

  /** Field by field at the top the new object wins, and what it does not have is the old one's. */
  lemma MergeTopAt(from: Json, data: Json, p: seq<Seg>)
    requires from.Map? && data.Map? && p != [] && p[0].Field?
    ensures Get(Some(MergeTop(from, data)), p) == if Get(Some(data), [p[0]]).Found? then Get(Some(data), p) else Get(Some(from), p)
  {
    var k := p[0].name;
    assert [p[0]][1..] == [];
    assert Get(Some(data), [p[0]]) == Get(FieldSlot(data.fields, k), []);
  }

  lemma {:induction false} AddedAt(view: map<string, Item>, data: seq<Json>, i: nat)
    requires (forall n | n in view :: view[n].obj.Map?) && forall j | 0 <= j < |data| :: data[j].Map?
    requires DistinctNames(data) && i < |data|
    ensures var name, c := ResourceName(data[i]), Clean(data[i]);
            name in Added(view, data) && c.Map? &&
            Added(view, data)[name] == Item(if name in view then MergeTop(view[name].obj, c) else c, "")
    decreases |data|
  {
    var n := |data| - 1;
    var init, d := data[..n], data[n];
    assert data == init + [d];
    NamesOneMore(init, d);
    RemoveAnnotationFrame(data[i], NAME_KEY);
    if i < n {
      AddedAt(view, init, i);
    } else {
      AddedFacts(view, init, n, ResourceName(d));
    }
  }

  /**
   Resources on success, value by value: in an entry that was there before, beside the ready annotation,
   each top-level field the item has is the item's and every other one is as it was.
   */
  lemma ResourcesEntryAt(view: map<string, Item>, data: seq<Json>, i: nat, n: string, p: seq<Seg>)
    requires (forall m | m in view :: view[m].obj.Map?) && (forall j | 0 <= j < |data| :: data[j].Map?)
    requires DistinctNames(data) && AllReadyOk(Added(view, data)) && i < |data| && NamedBy(data[i], n) && n in view
    requires p != [] && p[0].Field? && Beside(p, [Field("metadata"), Field("annotations"), Field(READY_KEY)])
    ensures n in AllReady(Added(view, data))
    ensures Get(Some(AllReady(Added(view, data))[n].obj), p) ==
      if Get(Some(Clean(data[i])), [p[0]]).Found? then Get(Some(Clean(data[i])), p) else Get(Some(view[n].obj), p)
  {
    NamedByOne(data[i]);
    AddedAt(view, data, i);
    var it := Added(view, data)[n];
    RemovalFrame(it.obj, READY_KEY, p);
    MergeTopAt(view[n].obj, Clean(data[i]), p);
  }

  // ---------------------------------------------------------------- the targets by their names

  /** The patches written into these entries, if they are accepted. */
  ghost function PatchesOver(st: State, base: map<string, Item>, data: seq<Json>, orders: map<string, seq<Ordered>>, overwrite: bool): Outcome<State>
    requires OrdersFor(base.Keys, data, orders)
  {
    if AcceptedIn(base, data, orders, overwrite) then Ok(st.(desired := AllReady(PatchedIn(base, orders, overwrite)))) else Fail
  }

  /** All patches written into the composite. */
  ghost function PatchesOnXr(st: State, ts: seq<Ordered>, overwrite: bool): Outcome<State> {
    match RunAll(CompositeKind, Some(st.xr), ts, overwrite)
    case Ok(Some(xr)) => Ok(st.(xr := xr))
    case _ => Fail
  }

  /** The items merged in and readied, if their names are distinct and the ready annotations then valid. */
  ghost function ItemsAdded(st: State, data: seq<Json>): Outcome<State> {
    var view := Added(st.desired, data);
    if DistinctNames(data) && AllReadyOk(view) then Ok(st.(desired := AllReady(view))) else Fail
  }

  /** What each target's name stands for; any other name does nothing and succeeds. */
  lemma TargetsByName(cfg: Config, target: string, st: State, bases: seq<Base>, data: seq<Json>, orders: Orders, overwrite: bool)
    requires OrdersFit(RouteOf(target), Start(RouteOf(target), st.desired, bases), data, orders)
    ensures var r := Processed(cfg, RouteOf(target), st, bases, data, orders, overwrite);
            if target == "XR" then
              Visits(orders.xr, data) && r == PatchesOnXr(st, orders.xr, overwrite)
            else if target == "PatchDesired" then
              OrdersFor(st.desired.Keys, data, orders.named) && r == PatchesOver(st, st.desired, data, orders.named, overwrite)
            else if target == "PatchResources" then
              var base := WithBases(st.desired, bases);
              OrdersFor(base.Keys, data, orders.named) && r == PatchesOver(st, base, data, orders.named, overwrite)
            else if target == "Resources" then r == ItemsAdded(st, data)
            else if target == "Default" then
              (r.Ok? <==> Run(cfg, st, data).Ok?) && (r.Ok? ==> r.value == Run(cfg, st, data).value.(names := {}))
            else r == Ok(st)
  {
  }
}
