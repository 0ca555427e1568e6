/** The Default target said by paths into the items: which item is what, what it gives, and what a run leaves. */
module DefaultByPath {
  import opened JsonTree
  import opened PathText
  import opened FieldPath
  import opened ResourceNames
  import opened NamesByPath
  import opened DefaultTarget
  import opened StatusMerge

  // ---------------------------------------------------------------- which item is what

  predicate IsXr(cfg: Config, d: Json) {
    TextAt(d, [Field("apiVersion")]) == cfg.apiVersion && TextAt(d, [Field("kind")]) == cfg.kind
  }

  predicate IsMetaItem(cfg: Config, d: Json) {
    !IsXr(cfg, d) && TextAt(d, [Field("apiVersion")]) == "meta.krm.kcl.dev/v1alpha1"
  }

  /** An item patches the XR if both its apiVersion and its kind are the XR's; else the meta apiVersion decides. */
  lemma ClassifyIff(cfg: Config, d: Json)
    ensures Classify(cfg, d) == XrPatch <==> IsXr(cfg, d)
    ensures Classify(cfg, d) == Meta <==> IsMetaItem(cfg, d)
  {
    IdentityByPath(d);
  }

  // ---------------------------------------------------------------- the XR's status

  function StatusPath(p: seq<Seg>): seq<Seg> {
    [Field("status")] + p
  }

  /** A status counts if it is a map, null or absent; the values below it are those of the object. */
  lemma StatusByPath(d: Json, p: seq<Seg>, v: Json)
    requires p != []
    ensures StatusOf(d).Ok? <==>
      var g := Get(Some(d), [Field("status")]); g.NotFound? || g == Found(Null) || (g.Found? && g.value.Map?)
    ensures StatusOf(d).Ok? ==> (Get(Some(StatusOr(d)), p) == Found(v) <==> Get(Some(d), StatusPath(p)) == Found(v))
  {
    var st := [Field("status")];
    assert StatusPath(p)[1..] == p && st[1..] == [];
  }

  /** The item has something to say at this path below status. */
  ghost predicate GivesStatus(cfg: Config, d: Json, p: seq<Seg>) {
    IsXr(cfg, d) && !Untouched(StatusOr(d), p)
  }

  lemma XrItemStatus(st: State, d: Json, p: seq<Seg>, v: Json)
    requires st.xr.Map? && p != [] && !v.Map? && XrStep(st, d).Ok?
    ensures Get(Some(XrStep(st, d).value.xr), StatusPath(p)) == Found(v) <==>
      if Untouched(StatusOr(d), p) then Get(Some(st.xr), StatusPath(p)) == Found(v) else Get(Some(d), StatusPath(p)) == Found(v)
  {
    assert p[..|p|] == p;
    XrStepIs(st, d);
    var xr, merged := XrStep(st, d).value.xr, MergeValue(StatusOr(st.xr), StatusOr(d));
    MergedAt(StatusOr(st.xr), StatusOr(d), p, v);
    StatusByPath(st.xr, p, v);
    StatusByPath(d, p, v);
    assert StatusPath(p)[1..] == p;
    assert Get(Some(xr), StatusPath(p)) == Get(FieldSlot(xr.fields, "status"), p);
  }

  /** The last item of a list that gives something at the path. */
  ghost function LastStatus(cfg: Config, data: seq<Json>, p: seq<Seg>): Option<Json> {
    if data == [] then None
    else
      var d := data[|data| - 1];
      if GivesStatus(cfg, d, p) then Some(d) else LastStatus(cfg, data[..|data| - 1], p)
  }

  /** The item at `i` gives something at the path, and none after it does. */
  ghost predicate IsLastGiver(cfg: Config, data: seq<Json>, p: seq<Seg>, i: nat) {
    i < |data| && GivesStatus(cfg, data[i], p) && forall j | i < j < |data| :: !GivesStatus(cfg, data[j], p)
  }

  lemma GiverStays(cfg: Config, init: seq<Json>, d: Json, p: seq<Seg>, i: nat)
    requires IsLastGiver(cfg, init, p, i) && !GivesStatus(cfg, d, p)
    ensures IsLastGiver(cfg, init + [d], p, i) && (init + [d])[i] == init[i]
  {
    var data := init + [d];
    forall j | i < j < |data| ensures !GivesStatus(cfg, data[j], p) {
      assert j < |init| ==> data[j] == init[j];
    }
  }

  ghost predicate NoneGives(cfg: Config, data: seq<Json>, p: seq<Seg>) {
    forall i | 0 <= i < |data| :: !GivesStatus(cfg, data[i], p)
  }

  lemma NoneGivesMore(cfg: Config, init: seq<Json>, d: Json, p: seq<Seg>)
    requires NoneGives(cfg, init, p) && !GivesStatus(cfg, d, p)
    ensures NoneGives(cfg, init + [d], p)
  {
  }

  lemma {:induction false} LastStatusIs(cfg: Config, data: seq<Json>, p: seq<Seg>)
    ensures match LastStatus(cfg, data, p)
            case None => NoneGives(cfg, data, p)
            case Some(d) => exists i: nat :: IsLastGiver(cfg, data, p, i) && data[i] == d
    decreases |data|
  {
    if data != [] {
      var init, d := data[..|data| - 1], data[|data| - 1];
      assert data == init + [d];
      LastStatusIs(cfg, init, p);
      if GivesStatus(cfg, d, p) {
        assert IsLastGiver(cfg, data, p, |init|);
      } else if LastStatus(cfg, init, p).Some? {
        var i: nat :| IsLastGiver(cfg, init, p, i) && init[i] == LastStatus(cfg, init, p).value;
        GiverStays(cfg, init, d, p, i);
      } else {
        NoneGivesMore(cfg, init, d, p);
      }
    }
  }

  lemma XrOneMore(cfg: Config, st: State, d: Json, p: seq<Seg>, v: Json)
    requires st.xr.Map? && p != [] && !v.Map? && Step(cfg, st, d).Ok?
    ensures Step(cfg, st, d).value.xr.Map?
    ensures Get(Some(Step(cfg, st, d).value.xr), StatusPath(p)) == Found(v) <==>
      if GivesStatus(cfg, d, p) then Get(Some(d), StatusPath(p)) == Found(v) else Get(Some(st.xr), StatusPath(p)) == Found(v)
  {
    ClassifyIff(cfg, d);
    if IsXr(cfg, d) {
      XrStepIs(st, d);
      XrItemStatus(st, d, p, v);
    } else {
      EachClassItsOwnPart(cfg, st, d);
    }
  }

  /**
   The status after a successful run, value by value: at each path below status the last XR item that
   gives something there decides, and where none does the composite's own value stays. An item gives
   something at a path if its status has a value there, or above it something that is no map.
   */
  lemma {:induction false} LastStatusWins(cfg: Config, st: State, data: seq<Json>, p: seq<Seg>, v: Json)
    requires st.xr.Map? && p != [] && !v.Map? && Run(cfg, st, data).Ok?
    ensures Run(cfg, st, data).value.xr.Map?
    ensures Get(Some(Run(cfg, st, data).value.xr), StatusPath(p)) == Found(v) <==>
      match LastStatus(cfg, data, p)
      case None => Get(Some(st.xr), StatusPath(p)) == Found(v)
      case Some(d) => Get(Some(d), StatusPath(p)) == Found(v)
    decreases |data|
  {
    if data != [] {
      var n := |data| - 1;
      LastItem(cfg, st, data);
      LastStatusWins(cfg, st, data[..n], p, v);
      XrOneMore(cfg, Run(cfg, st, data[..n]).value, data[n], p, v);
    }
  }

  /** A composite whose status has one text and an item that gives another: the item's is left. */
  lemma ItemStatusWins(cfg: Config, st: State, d: Json, k: string, v: Json)
    requires st.xr.Map? && IsXr(cfg, d) && !v.Map? && Step(cfg, st, d).Ok?
    requires Get(Some(d), StatusPath([Field(k)])) == Found(v)
    ensures Get(Some(Step(cfg, st, d).value.xr), StatusPath([Field(k)])) == Found(v)
  {
    ClassifyIff(cfg, d);
    XrStepIs(st, d);
    StatusByPath(d, [Field(k)], v);
    assert [Field(k)][..1] == [Field(k)];
    XrOneMore(cfg, st, d, [Field(k)], v);
  }

  // ---------------------------------------------------------------- what a meta item gives

  /** The strings of a map at a path: one counts if it is there and everything beside it is a string too. */
  lemma DetailIff(d: Json, k: string, s: string)
    ensures k in ConnectionData(d) && ConnectionData(d)[k] == s <==>
      OnlyTexts(d, "data") && Get(Some(d), [Field("data"), Field(k)]) == Found(Str(s))
  {
    var data := FieldOf(Some(d), "data");
    GetTwo(d, "data", k, Str(s));
    if data.Some? && data.value.Map? {
      var m := data.value.fields;
      if StringMap(data).Some? {
        forall x: string | Get(Some(d), [Field("data"), Field(x)]).Found?
          ensures Get(Some(d), [Field("data"), Field(x)]).value.Str?
        {
          GetTwo(d, "data", x, Get(Some(d), [Field("data"), Field(x)]).value);
        }
      } else {
        var x :| x in m && !m[x].Str?;
        GetTwo(d, "data", x, m[x]);
        assert !OnlyTexts(d, "data");
      }
    }
  }

  ghost predicate OnlyTexts(d: Json, f: string) {
    forall k: string :: Get(Some(d), [Field(f), Field(k)]).Found? ==> Get(Some(d), [Field(f), Field(k)]).value.Str?
  }

  lemma GetTwo(d: Json, f: string, k: string, v: Json)
    ensures Get(Some(d), [Field(f), Field(k)]) == Found(v) <==>
      FieldOf(Some(d), f).Some? && FieldOf(Some(d), f).value.Map? && FieldSlot(FieldOf(Some(d), f).value.fields, k) == Some(v)
  {
    assert [Field(f), Field(k)] == [Field(f)] + [Field(k)];
    GetField(d, f, [Field(k)], v);
    var slot := FieldOf(Some(d), f);
    if slot.Some? {
      GetOneField(slot.value, k, v);
    }
  }

  /** A meta item of the kind `kind`. */
  predicate IsKind(cfg: Config, d: Json, kind: string) {
    IsMetaItem(cfg, d) && TextAt(d, [Field("kind")]) == kind
  }

  /** Connection details are taken from data if that holds strings only, decoded, and nothing else is changed. */
  lemma DetailItem(cfg: Config, st: State, d: Json, k: string, s: string)
    requires IsKind(cfg, d, "CompositeConnectionDetails")
    ensures Step(cfg, st, d).Ok? && Step(cfg, st, d).value == st.(connection := Step(cfg, st, d).value.connection)
    ensures OnlyTexts(d, "data") && Get(Some(d), [Field("data"), Field(k)]) == Found(Str(s)) ==>
      k in Step(cfg, st, d).value.connection && Step(cfg, st, d).value.connection[k] == cfg.decoders.base64(s)
  {
    ClassifyIff(cfg, d);
    IdentityByPath(d);
    DetailIff(d, k, s);
  }

  /** Selectors are decoded from requirements; the item is refused if a key is there already, and else they are added to its kind's own map. */
  lemma SelectorItemIff(cfg: Config, st: State, d: Json, kind: string)
    requires IsKind(cfg, d, kind) && (kind == "ExtraResources" || kind == "RequiredResources")
    ensures var g := Get(Some(d), [Field("requirements")]);
            var sel := if g.Found? then cfg.decoders.selectors(g.value) else None;
            Step(cfg, st, d) ==
              if sel.None? then Fail
              else if kind == "ExtraResources" && sel.value.Keys !! st.extra.Keys then Ok(st.(extra := st.extra + sel.value))
              else if kind == "RequiredResources" && sel.value.Keys !! st.required.Keys then Ok(st.(required := st.required + sel.value))
              else Fail
  {
    ClassifyIff(cfg, d);
    IdentityByPath(d);
    OneSlot(d, "requirements");
  }

  lemma OneSlot(d: Json, k: string)
    ensures FieldOf(Some(d), k) == match Get(Some(d), [Field(k)]) case Found(v) => Some(v) case _ => None
  {
    var slot, g := FieldOf(Some(d), k), Get(Some(d), [Field(k)]);
    if slot.Some? {
      GetOneField(d, k, slot.value);
    } else if g.Found? {
      GetOneField(d, k, g.value);
    }
  }

  /** Conditions, events and context: what stands in the kind's own field is handed on if its decoder accepts it. */
  lemma PayloadIff(cfg: Config, st: State, d: Json, kind: string, f: string)
    requires IsKind(cfg, d, kind)
    requires (kind, f) in [("Conditions", "conditions"), ("Events", "events"), ("Context", "data")]
    ensures var g := Get(Some(d), [Field(f)]);
            Step(cfg, st, d) ==
              if g.Found? && cfg.decoders.accepts(kind, g.value) then Ok(st.(decoded := st.decoded + [(kind, g.value)])) else Fail
  {
    ClassifyIff(cfg, d);
    IdentityByPath(d);
    OneSlot(d, f);
  }

  /** A meta item of any other kind is an error. */
  lemma OtherKindFails(cfg: Config, st: State, d: Json)
    requires IsMetaItem(cfg, d)
    requires TextAt(d, [Field("kind")]) !in
      ["CompositeConnectionDetails", "ExtraResources", "RequiredResources", "Conditions", "Events", "Context"]
    ensures Step(cfg, st, d) == Fail
  {
    ClassifyIff(cfg, d);
    IdentityByPath(d);
  }

  /** An item that is neither XR nor meta goes into the desired state under the name it is named by, and nowhere else. */
  lemma ComposedItemLands(cfg: Config, st: State, d: Json, n: string)
    requires !IsXr(cfg, d) && !IsMetaItem(cfg, d) && NamedBy(d, n)
    ensures Step(cfg, st, d).Ok? <==> n !in st.names && ReadyOk(d)
    ensures Step(cfg, st, d).Ok? ==>
      var st' := Step(cfg, st, d).value;
      st'.desired.Keys == st.desired.Keys + {n} && st' == st.(desired := st.desired[n := st'.desired[n]], names := st.names + {n})
  {
    ClassifyIff(cfg, d);
    ResourceNameIff(d, n);
  }
}
