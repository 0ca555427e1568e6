/** The Default target (res.go:474-566): XR patches, meta resources and composed resources in one list. */
module DefaultTarget {
  import opened JsonTree
  import opened PathText
  import opened FieldPath
  import opened SetDataRun
  import opened ResourceNames
  import opened Patching
  import opened DesiredState

  /** mergo.Merge with override: a recursive right-biased merge. */
  function MergeValue(dst: Json, src: Json): Json
    decreases src
  {
    if dst.Map? && src.Map? then
      Map(map k | k in dst.fields.Keys + src.fields.Keys ::
        if k in src.fields then (if k in dst.fields then MergeValue(dst.fields[k], src.fields[k]) else src.fields[k])
        else dst.fields[k])
    else src
  }

  /** What the decoders outside this repository make of a value; None or false is a decoding error. */
  datatype Decoders = Decoders(
    base64: string -> string,
    selectors: Json -> Option<map<string, Json>>,
    accepts: (string, Json) -> bool)

  /** The XR that exists, by apiVersion and kind. */
  datatype Config = Config(apiVersion: string, kind: string, decoders: Decoders)

  datatype Class = XrPatch | Meta | ComposedItem

  function Classify(cfg: Config, d: Json): Class {
    if ApiVersionOf(d) == cfg.apiVersion && KindOf(d) == cfg.kind then XrPatch
    else if ApiVersionOf(d) == META_API_VERSION then Meta
    else ComposedItem
  }

  /** GetValueInto a fresh map, absence tolerated: a status that is not a map is an error. */
  function StatusOf(obj: Json): Outcome<Json> {
    match Get(Some(obj), [Field("status")])
    case NotFound => Ok(Map(map[]))
    case Found(Null) => Ok(Map(map[]))
    case Found(Map(m)) => Ok(Map(m))
    case _ => Fail
  }

  /** All that the Default target may change. `decoded` lists the condition, event and context values handed to their decoders. */
  datatype State = State(
    xr: Json,
    connection: map<string, string>,
    desired: map<string, Item>,
    names: set<string>,
    extra: map<string, Json>,
    required: map<string, Json>,
    decoded: seq<(string, Json)>)

  function XrStep(st: State, d: Json): Outcome<State> {
    match (StatusOf(st.xr), StatusOf(d))
    case (Ok(dst), Ok(src)) =>
      (match Set(Some(st.xr), [Field("status")], MergeValue(dst, src))
       case Ok(xr) => Ok(st.(xr := xr))
       case Fail => Fail)
    case (_, _) => Fail
  }

  function ConnectionData(d: Json): map<string, string> {
    var con := StringMap(FieldOf(Some(d), "data"));
    if con.Some? then con.value else map[]
  }

  function Decoded(cfg: Config, con: map<string, string>): map<string, string> {
    map k | k in con :: cfg.decoders.base64(con[k])
  }

  function SelectorsOf(cfg: Config, d: Json): Option<map<string, Json>> {
    match FieldOf(Some(d), "requirements")
    case None => None
    case Some(j) => cfg.decoders.selectors(j)
  }

  /** Which field a decoded meta resource carries its payload in. */
  function Payload(kind: string): string {
    if kind == "Conditions" then "conditions" else if kind == "Events" then "events" else "data"
  }

  function MetaStep(cfg: Config, st: State, d: Json): Outcome<State> {
    var kind := KindOf(d);
    if kind == "CompositeConnectionDetails" then
      Ok(st.(connection := st.connection + Decoded(cfg, ConnectionData(d))))
    else if kind == "ExtraResources" || kind == "RequiredResources" then
      var sel := SelectorsOf(cfg, d);
      if sel.None? then Fail
      else if kind == "ExtraResources" then
        if sel.value.Keys !! st.extra.Keys then Ok(st.(extra := st.extra + sel.value)) else Fail
      else
        if sel.value.Keys !! st.required.Keys then Ok(st.(required := st.required + sel.value)) else Fail
    else if kind == "Conditions" || kind == "Events" || kind == "Context" then
      match FieldOf(Some(d), Payload(kind))
      case None => Fail
      case Some(j) => if cfg.decoders.accepts(kind, j) then Ok(st.(decoded := st.decoded + [(kind, j)])) else Fail
    else Fail
  }

  /** The entry a composed item becomes: ready annotation taken, both meta annotations removed. */
  function ComposedEntry(d: Json): Item {
    var it := ReadyItem(Item(d, ""));
    Item(Clean(it.obj), it.ready)
  }

  function ComposedStep(st: State, d: Json): Outcome<State> {
    var name := ResourceName(d);
    if !ReadyOk(d) || name in st.names then Fail
    else Ok(st.(desired := st.desired[name := ComposedEntry(d)], names := st.names + {name}))
  }

  function Step(cfg: Config, st: State, d: Json): Outcome<State> {
    match Classify(cfg, d)
    case XrPatch => XrStep(st, d)
    case Meta => MetaStep(cfg, st, d)
    case ComposedItem => ComposedStep(st, d)
  }

  /** The items in order; the first error ends the run. */
  function Run(cfg: Config, st: State, data: seq<Json>): Outcome<State> {
    if data == [] then Ok(st)
    else
      match Run(cfg, st, data[..|data| - 1])
      case Fail => Fail
      case Ok(mid) => Step(cfg, mid, data[|data| - 1])
  }

  lemma RunOneMore(cfg: Config, st: State, data: seq<Json>, d: Json)
    ensures Run(cfg, st, data + [d]) ==
      match Run(cfg, st, data)
      case Fail => Fail
      case Ok(mid) => Step(cfg, mid, d)
  {
    assert (data + [d])[..|data|] == data;
  }

  lemma {:induction false} RunFailsOn(cfg: Config, st: State, data: seq<Json>, i: nat)
    requires i <= |data| && Run(cfg, st, data[..i]) == Fail
    ensures Run(cfg, st, data) == Fail
    decreases |data| - i
  {
    if i == |data| {
      assert data[..i] == data;
    } else {
      assert data[..i + 1] == data[..i] + [data[i]];
      RunOneMore(cfg, st, data[..i], data[i]);
      RunFailsOn(cfg, st, data, i + 1);
    }
  }

  // ---------------------------------------------------------------- what a run means

  /** The items of one class, in order. */
  function Of(cfg: Config, data: seq<Json>, c: Class): seq<Json> {
    if data == [] then []
    else
      var d := data[|data| - 1];
      Of(cfg, data[..|data| - 1], c) + if Classify(cfg, d) == c then [d] else []
  }

  lemma LastItem(cfg: Config, st: State, data: seq<Json>)
    requires data != []
    ensures var init, d := data[..|data| - 1], data[|data| - 1];
            && (Run(cfg, st, data).Ok? ==> Run(cfg, st, init).Ok? && Step(cfg, Run(cfg, st, init).value, d) == Run(cfg, st, data))
            && (forall c :: Of(cfg, data, c) == if Classify(cfg, d) == c then Of(cfg, init, c) + [d] else Of(cfg, init, c))
  {
  }

  /** Right-biased merge of the statuses of `items` into `status`, in order. */
  function MergedStatus(status: Json, items: seq<Json>): Json {
    if items == [] then status
    else
      var src := StatusOf(items[|items| - 1]);
      MergeValue(MergedStatus(status, items[..|items| - 1]), if src.Ok? then src.value else Map(map[]))
  }

  function StatusOr(obj: Json): Json {
    var s := StatusOf(obj);
    if s.Ok? then s.value else Map(map[])
  }

  /** What the XR items of a run have done to the composite. */
  ghost predicate StatusMerged(was: Json, xr: Json, items: seq<Json>)
    requires was.Map?
  {
    && xr.Map?
    && xr.fields - {"status"} == was.fields - {"status"}
    && (items == [] ==> xr == was)
    && (items != [] ==> StatusOf(was).Ok? && FieldSlot(xr.fields, "status") == Some(MergedStatus(StatusOr(was), items)))
  }

  lemma StatusOfMap(m: map<string, Json>)
    ensures StatusOf(Map(m)) ==
      match FieldSlot(m, "status")
      case None => Ok(Map(map[]))
      case Some(Null) => Ok(Map(map[]))
      case Some(Map(s)) => Ok(Map(s))
      case _ => Fail
  {
    assert [Field("status")][1..] == [];
  }

  lemma XrStepIs(st: State, d: Json)
    requires st.xr.Map? && XrStep(st, d).Ok?
    ensures StatusOf(st.xr).Ok? && StatusOf(d).Ok?
    ensures XrStep(st, d).value.xr == Map(st.xr.fields["status" := MergeValue(StatusOf(st.xr).value, StatusOf(d).value)])
  {
    assert [Field("status")][1..] == [];
  }

  lemma MergedStatusIsMap(was: Json, items: seq<Json>)
    requires was.Map?
    ensures MergedStatus(was, items).Map?
  {
  }

  lemma XrItemMerges(was: Json, st: State, items: seq<Json>, d: Json)
    requires was.Map? && StatusMerged(was, st.xr, items) && XrStep(st, d).Ok?
    ensures StatusMerged(was, XrStep(st, d).value.xr, items + [d])
  {
    XrStepIs(st, d);
    StatusOfMap(st.xr.fields);
    StatusOfMap(was.fields);
    assert (items + [d])[..|items|] == items;
    MergedStatusIsMap(StatusOr(was), items);
    var xr := XrStep(st, d).value.xr;
    assert xr.fields - {"status"} == st.xr.fields - {"status"};
  }

  /**
   The composite after a successful run: with no XR item it is untouched; otherwise `status` is the
   in-order right-biased merge of the XR items' statuses, and every other field is as before.
   */
  lemma {:induction false} CompositeChangesOnlyStatus(cfg: Config, st: State, data: seq<Json>)
    requires st.xr.Map? && Run(cfg, st, data).Ok?
    ensures StatusMerged(st.xr, Run(cfg, st, data).value.xr, Of(cfg, data, XrPatch))
    decreases |data|
  {
    if data != [] {
      var n := |data| - 1;
      LastItem(cfg, st, data);
      CompositeChangesOnlyStatus(cfg, st, data[..n]);
      if Classify(cfg, data[n]) == XrPatch {
        XrItemMerges(st.xr, Run(cfg, st, data[..n]).value, Of(cfg, data[..n], XrPatch), data[n]);
      } else {
        EachClassItsOwnPart(cfg, Run(cfg, st, data[..n]).value, data[n]);
      }
    }
  }

  /** The entries named by `items` are replaced wholesale, all others kept. */
  ghost predicate ReplacedBy(was: map<string, Item>, now: map<string, Item>, names: set<string>, items: seq<Json>) {
    && DistinctNames(items)
    && (forall n :: n in names <==> NameAmong(items, n))
    && (forall i | 0 <= i < |items| :: Entry(now, ResourceName(items[i])) == Some(ComposedEntry(items[i])) && ReadyOk(items[i]))
    && (forall n | !NameAmong(items, n) :: Entry(now, n) == Entry(was, n))
  }

  function Entry(m: map<string, Item>, k: string): Option<Item> {
    if k in m then Some(m[k]) else None
  }

  lemma ReplaceOneMore(was: map<string, Item>, now: map<string, Item>, names: set<string>, items: seq<Json>, d: Json)
    requires ReplacedBy(was, now, names, items)
    requires ResourceName(d) !in names && ReadyOk(d)
    ensures ReplacedBy(was, now[ResourceName(d) := ComposedEntry(d)], names + {ResourceName(d)}, items + [d])
  {
    NamesOneMore(items, d);
    var all, now' := items + [d], now[ResourceName(d) := ComposedEntry(d)];
    forall i | 0 <= i < |all| ensures Entry(now', ResourceName(all[i])) == Some(ComposedEntry(all[i])) && ReadyOk(all[i]) {
      if i < |items| {
        assert all[i] == items[i] && NameAmong(items, ResourceName(items[i]));
      } else {
        assert all[i] == d;
      }
    }
  }

  /**
   The desired map after a successful run: the composed items' names are pairwise distinct, each
   holds exactly its item's entry, replaced wholesale, and every other entry is as before.
   */
  lemma {:induction false} DesiredIsReplacedByName(cfg: Config, st: State, data: seq<Json>)
    requires Run(cfg, st, data).Ok? && st.names == {}
    ensures ReplacedBy(st.desired, Run(cfg, st, data).value.desired, Run(cfg, st, data).value.names, Of(cfg, data, ComposedItem))
    decreases |data|
  {
    if data != [] {
      var n := |data| - 1;
      LastItem(cfg, st, data);
      DesiredIsReplacedByName(cfg, st, data[..n]);
      var mid := Run(cfg, st, data[..n]).value;
      EachClassItsOwnPart(cfg, mid, data[n]);
      if Classify(cfg, data[n]) == ComposedItem {
        ReplaceOneMore(st.desired, mid.desired, mid.names, Of(cfg, data[..n], ComposedItem), data[n]);
      }
    }
  }

  /** Every item is handled as exactly one class, and each class changes its own part of the state only. */
  lemma EachClassItsOwnPart(cfg: Config, st: State, d: Json)
    requires Step(cfg, st, d).Ok?
    ensures var st' := Step(cfg, st, d).value;
            match Classify(cfg, d)
            case XrPatch => st' == st.(xr := st'.xr)
            case Meta => st'.xr == st.xr && st'.desired == st.desired && st'.names == st.names
            case ComposedItem => st' == st.(desired := st'.desired, names := st'.names)
  {
  }

  /** A composed entry keeps no meta annotation and takes its readiness from the item. */
  lemma ComposedEntryFacts(d: Json)
    ensures var a := Annotations(ComposedEntry(d).obj);
            a == Annotations(d) - {READY_KEY, NAME_KEY}
    ensures ComposedEntry(d).ready == if READY_KEY in Annotations(d) then Annotations(d)[READY_KEY] else ""
    ensures NameOf(ComposedEntry(d).obj) == NameOf(d)
  {
    ReadyItemFacts(Item(d, ""));
    RemoveAnnotationFrame(ReadyItem(Item(d, "")).obj, NAME_KEY);
    assert Annotations(d) - {READY_KEY} - {NAME_KEY} == Annotations(d) - {READY_KEY, NAME_KEY};
  }

  // ---------------------------------------------------------------- the three classes do not interact

  function Combine(x: Outcome<State>, m: Outcome<State>, c: Outcome<State>): Outcome<State> {
    match (x, m, c)
    case (Ok(x), Ok(m), Ok(c)) => Ok(State(x.xr, m.connection, c.desired, c.names, m.extra, m.required, m.decoded))
    case (_, _, _) => Fail
  }

  lemma XrIsLocal(x: State, m: State, c: State, d: Json)
    ensures XrStep(Combine(Ok(x), Ok(m), Ok(c)).value, d) == Combine(XrStep(x, d), Ok(m), Ok(c))
  {
  }

  lemma MetaIsLocal(cfg: Config, x: State, m: State, c: State, d: Json)
    ensures MetaStep(cfg, Combine(Ok(x), Ok(m), Ok(c)).value, d) == Combine(Ok(x), MetaStep(cfg, m, d), Ok(c))
  {
  }

  lemma ComposedIsLocal(x: State, m: State, c: State, d: Json)
    ensures ComposedStep(Combine(Ok(x), Ok(m), Ok(c)).value, d) == Combine(Ok(x), Ok(m), ComposedStep(c, d))
  {
  }

  /** A step of one class looks at its own part of the state only. */
  lemma StepIsLocal(cfg: Config, x: State, m: State, c: State, d: Json)
    ensures var st := Combine(Ok(x), Ok(m), Ok(c)).value;
            Step(cfg, st, d) ==
              match Classify(cfg, d)
              case XrPatch => Combine(Step(cfg, x, d), Ok(m), Ok(c))
              case Meta => Combine(Ok(x), Step(cfg, m, d), Ok(c))
              case ComposedItem => Combine(Ok(x), Ok(m), Step(cfg, c, d))
  {
    match Classify(cfg, d)
    case XrPatch => XrIsLocal(x, m, c, d);
    case Meta => MetaIsLocal(cfg, x, m, c, d);
    case ComposedItem => ComposedIsLocal(x, m, c, d);
  }

  /** One run for each class, put together. */
  function ThreeRuns(cfg: Config, st: State, data: seq<Json>): Outcome<State> {
    Combine(Run(cfg, st, Of(cfg, data, XrPatch)), Run(cfg, st, Of(cfg, data, Meta)), Run(cfg, st, Of(cfg, data, ComposedItem)))
  }

  ghost predicate SplitsByClass(cfg: Config, st: State, data: seq<Json>) {
    Run(cfg, st, data) == ThreeRuns(cfg, st, data)
  }

  /**
   The partition theorem: a run over a mixed list is three independent runs, one over the XR items,
   one over the meta resources and one over the composed items, each in its own order. It fails
   exactly when one of the three fails.
   */
  lemma {:induction false} RunIsThreeRuns(cfg: Config, st: State, data: seq<Json>)
    ensures SplitsByClass(cfg, st, data)
    decreases |data|
  {
    if data != [] {
      var n := |data| - 1;
      var d, init := data[n], data[..n];
      LastItem(cfg, st, data);
      RunIsThreeRuns(cfg, st, init);
      RunOneMore(cfg, st, Of(cfg, init, Classify(cfg, d)), d);
      var x, m, c := Run(cfg, st, Of(cfg, init, XrPatch)), Run(cfg, st, Of(cfg, init, Meta)), Run(cfg, st, Of(cfg, init, ComposedItem));
      if x.Ok? && m.Ok? && c.Ok? {
        StepIsLocal(cfg, x.value, m.value, c.value, d);
      }
    }
  }

  predicate ReadyFine(items: seq<Json>) {
    forall i | 0 <= i < |items| :: ReadyOk(items[i])
  }

  lemma ReadyFineStep(items: seq<Json>, d: Json)
    ensures ReadyFine(items + [d]) <==> ReadyFine(items) && ReadyOk(d)
  {
    var all := items + [d];
    assert all[|items|] == d && forall i | 0 <= i < |items| :: all[i] == items[i];
  }

  /** The names met by a run over composed items. */
  lemma NamesOfRun(cfg: Config, st: State, items: seq<Json>, name: string)
    requires st.names == {} && Run(cfg, st, items).Ok?
    requires forall i | 0 <= i < |items| :: Classify(cfg, items[i]) == ComposedItem
    ensures name in Run(cfg, st, items).value.names <==> NameAmong(items, name)
  {
    DesiredIsReplacedByName(cfg, st, items);
    OfAll(cfg, items, ComposedItem);
  }

  /** The composed part succeeds exactly when names are distinct and ready annotations valid. */
  lemma {:induction false} ComposedRunIff(cfg: Config, st: State, items: seq<Json>)
    requires st.names == {}
    requires forall i | 0 <= i < |items| :: Classify(cfg, items[i]) == ComposedItem
    ensures Run(cfg, st, items).Ok? <==> DistinctNames(items) && ReadyFine(items)
    decreases |items|
  {
    if items != [] {
      var n := |items| - 1;
      var init, d := items[..n], items[n];
      assert items == init + [d];
      ComposedRunIff(cfg, st, init);
      NamesOneMore(init, d);
      ReadyFineStep(init, d);
      RunOneMore(cfg, st, init, d);
      if Run(cfg, st, init).Ok? {
        NamesOfRun(cfg, st, init, ResourceName(d));
      }
    }
  }

  lemma {:induction false} OfAll(cfg: Config, items: seq<Json>, c: Class)
    requires forall i | 0 <= i < |items| :: Classify(cfg, items[i]) == c
    ensures Of(cfg, items, c) == items
    decreases |items|
  {
    if items != [] {
      OfAll(cfg, items[..|items| - 1], c);
    }
  }

  lemma XrStepIff(st: State, d: Json)
    requires st.xr.Map?
    ensures XrStep(st, d).Ok? <==> StatusOf(st.xr).Ok? && StatusOf(d).Ok?
  {
    assert [Field("status")][1..] == [];
  }

  lemma MergedStatusIsFine(was: Json, xr: Json, items: seq<Json>)
    requires was.Map? && StatusMerged(was, xr, items) && items != []
    ensures StatusOf(xr).Ok?
  {
    StatusOfMap(xr.fields);
    MergedStatusIsMap(StatusOr(was), items);
  }

  predicate StatusesFine(items: seq<Json>) {
    forall i | 0 <= i < |items| :: StatusOf(items[i]).Ok?
  }

  lemma StatusesFineStep(items: seq<Json>, d: Json)
    ensures StatusesFine(items + [d]) <==> StatusesFine(items) && StatusOf(d).Ok?
  {
    var all := items + [d];
    assert all[|items|] == d && forall i | 0 <= i < |items| :: all[i] == items[i];
  }

  /** Once XR items have been merged, the composite's status is a map. */
  lemma XrMidIsFine(cfg: Config, st: State, items: seq<Json>)
    requires st.xr.Map? && Run(cfg, st, items).Ok?
    requires forall i | 0 <= i < |items| :: Classify(cfg, items[i]) == XrPatch
    ensures var xr := Run(cfg, st, items).value.xr;
            xr.Map? && (StatusOf(xr).Ok? <==> items != [] || StatusOf(st.xr).Ok?)
  {
    OfAll(cfg, items, XrPatch);
    CompositeChangesOnlyStatus(cfg, st, items);
    if items != [] {
      MergedStatusIsFine(st.xr, Run(cfg, st, items).value.xr, items);
    }
  }

  /** The XR part succeeds exactly when every status involved, the composite's included, is a map, null or absent. */
  lemma {:induction false} XrRunIff(cfg: Config, st: State, items: seq<Json>)
    requires st.xr.Map?
    requires forall i | 0 <= i < |items| :: Classify(cfg, items[i]) == XrPatch
    ensures Run(cfg, st, items).Ok? <==> (items == [] || StatusOf(st.xr).Ok?) && StatusesFine(items)
    decreases |items|
  {
    if items != [] {
      var n := |items| - 1;
      var init, d := items[..n], items[n];
      assert items == init + [d];
      XrRunIff(cfg, st, init);
      RunOneMore(cfg, st, init, d);
      StatusesFineStep(init, d);
      if Run(cfg, st, init).Ok? {
        XrMidIsFine(cfg, st, init);
        XrStepIff(Run(cfg, st, init).value, d);
      }
    }
  }

  // ---------------------------------------------------------------- the run itself

  /** The out-parameters of ProcessResources beside the composite and the desired map. */
  class Requirements {
    var extra: map<string, Json>
    var required: map<string, Json>
    var decoded: seq<(string, Json)>

    constructor ()
      ensures extra == map[] && required == map[] && decoded == []
    {
      extra, required, decoded := map[], map[], [];
    }
  }

  ghost function StateOf(dxr: Composite, desired: Desired, reqs: Requirements, names: set<string>): State
    requires dxr.resource.Some? && ValidDesired(desired.entries)
    reads dxr, desired, desired.entries.Values, reqs
  {
    State(dxr.resource.value, dxr.connectionDetails, View(desired.entries), names, reqs.extra, reqs.required, reqs.decoded)
  }

  /** One XR item (res.go:480-496). */
  method PatchXr(dxr: Composite, d: Json) returns (ok: bool)
    requires dxr.resource.Some? && dxr.resource.value.Map?
    modifies dxr`resource
    ensures ok <==> StatusOf(old(dxr.resource.value)).Ok? && StatusOf(d).Ok?
    ensures ok ==> dxr.resource == Some(Map(old(dxr.resource.value).fields[
      "status" := MergeValue(StatusOf(old(dxr.resource.value)).value, StatusOf(d).value)]))
  {
    var dst := StatusOf(dxr.resource.value);
    if dst.Fail? {
      return false;
    }
    var src := StatusOf(d);
    if src.Fail? {
      return false;
    }
    dxr.resource := Some(Map(dxr.resource.value.fields["status" := MergeValue(dst.value, src.value)]));
    ok := true;
  }

  /** The loop over connection details (res.go:501-505), in an arbitrary key order. */
  method AddConnectionDetails(cfg: Config, dxr: Composite, con: map<string, string>)
    modifies dxr`connectionDetails
    ensures dxr.connectionDetails == old(dxr.connectionDetails) + Decoded(cfg, con)
  {
    var remaining := con.Keys;
    while remaining != {}
      invariant remaining <= con.Keys
      invariant dxr.connectionDetails == old(dxr.connectionDetails) + (Decoded(cfg, con) - remaining)
      decreases remaining
    {
      var k :| k in remaining;
      remaining := remaining - {k};
      dxr.connectionDetails := dxr.connectionDetails[k := cfg.decoders.base64(con[k])];
    }
  }

  /** The loop over decoded requirements (res.go:512-517, 524-529): a key already present is an error. */
  method AddSelectors(into: map<string, Json>, sel: map<string, Json>) returns (ok: bool, r: map<string, Json>)
    ensures ok <==> sel.Keys !! into.Keys
    ensures ok ==> r == into + sel
  {
    r := into;
    var remaining := sel.Keys;
    while remaining != {}
      invariant remaining <= sel.Keys
      invariant r == into + (sel - remaining)
      invariant (sel.Keys - remaining) !! into.Keys
      decreases remaining
    {
      var k :| k in remaining;
      if k in r {
        return false, r;
      }
      remaining := remaining - {k};
      r := r[k := sel[k]];
    }
    ok := true;
  }

  /** One meta resource (res.go:498-548). */
  method ProcessMeta(cfg: Config, dxr: Composite, reqs: Requirements, d: Json, ghost st: State) returns (ok: bool)
    requires st.connection == dxr.connectionDetails && st.extra == reqs.extra && st.required == reqs.required && st.decoded == reqs.decoded
    modifies dxr`connectionDetails, reqs
    ensures ok <==> MetaStep(cfg, st, d).Ok?
    ensures ok ==> MetaStep(cfg, st, d) == Ok(
      st.(connection := dxr.connectionDetails, extra := reqs.extra, required := reqs.required, decoded := reqs.decoded))
  {
    match KindOf(d)
    case "CompositeConnectionDetails" =>
      AddConnectionDetails(cfg, dxr, ConnectionData(d));
      ok := true;
    case "ExtraResources" =>
      var sel := SelectorsOf(cfg, d);
      if sel.None? {
        return false;
      }
      var r;
      ok, r := AddSelectors(reqs.extra, sel.value);
      reqs.extra := r;
    case "RequiredResources" =>
      var sel := SelectorsOf(cfg, d);
      if sel.None? {
        return false;
      }
      var r;
      ok, r := AddSelectors(reqs.required, sel.value);
      reqs.required := r;
    case kind =>
      if kind != "Conditions" && kind != "Events" && kind != "Context" {
        return false;
      }
      var j := FieldOf(Some(d), Payload(kind));
      if j.None? || !cfg.decoders.accepts(kind, j.value) {
        return false;
      }
      reqs.decoded := reqs.decoded + [(kind, j.value)];
      ok := true;
  }

  /** The name and the entry of a composed item, read after the ready step. */
  lemma AfterReadyStep(d: Json)
    requires d.Map?
    ensures var obj := ReadyItem(Item(d, "")).obj;
            ResourceName(obj) == ResourceName(d) && Clean(obj).Map? && ComposedEntry(d) == Item(Clean(obj), ReadyItem(Item(d, "")).ready)
  {
    CleanTwice(d);
    RemoveAnnotationFrame(d, READY_KEY);
    RemoveAnnotationFrame(ReadyItem(Item(d, "")).obj, NAME_KEY);
  }

  /** One composed item (res.go:550-561). */
  method ProcessComposed(desired: Desired, checker: DuplicateChecker, d: Json) returns (ok: bool)
    requires ValidDesired(desired.entries) && d.Map?
    modifies desired, checker
    ensures ok <==> ReadyOk(d) && ResourceName(d) !in old(checker.seen)
    ensures ok ==> ValidDesired(desired.entries)
    ensures ok ==> View(desired.entries) == old(View(desired.entries))[ResourceName(d) := ComposedEntry(d)]
    ensures ok ==> checker.seen.Keys == old(checker.seen.Keys) + {ResourceName(d)}
  {
    var cd := new DesiredComposed(Some(d));
    ok := ReadyEntry(cd);
    if !ok {
      return;
    }
    AfterReadyStep(d);
    var name := ResourceName(cd.resource.value);
    cd.resource := Some(Clean(cd.resource.value));
    ok := CheckAndSetDesired(desired, checker, cd, name);
  }

  /** CheckAndSetDesired (res.go:579-586), the name already read. */
  method CheckAndSetDesired(desired: Desired, checker: DuplicateChecker, cd: DesiredComposed, name: string) returns (ok: bool)
    requires ValidDesired(desired.entries) && cd !in desired.entries.Values
    requires cd.resource.Some? && cd.resource.value.Map?
    modifies desired, checker
    ensures ok <==> name !in old(checker.seen)
    ensures ok ==> ValidDesired(desired.entries)
    ensures ok ==> View(desired.entries) == old(View(desired.entries))[name := Item(cd.resource.value, cd.ready)]
    ensures ok ==> checker.seen.Keys == old(checker.seen.Keys) + {name}
  {
    ok := checker.CheckDuplicateName(cd.resource.value, name);
    if ok {
      SetEntry(desired, name, cd);
    }
  }

  /** One item (res.go:476-562). */
  method ProcessItem(cfg: Config, dxr: Composite, desired: Desired, reqs: Requirements, checker: DuplicateChecker, d: Json) returns (ok: bool)
    requires dxr.resource.Some? && dxr.resource.value.Map? && ValidDesired(desired.entries) && d.Map?
    modifies dxr, desired, reqs, checker
    ensures match Step(cfg, old(StateOf(dxr, desired, reqs, checker.seen.Keys)), d)
            case Ok(st) =>
              && ok && dxr.resource.Some? && dxr.resource.value.Map? && ValidDesired(desired.entries)
              && StateOf(dxr, desired, reqs, checker.seen.Keys) == st
            case Fail => !ok
  {
    ghost var was := StateOf(dxr, desired, reqs, checker.seen.Keys);
    if ApiVersionOf(d) == cfg.apiVersion && KindOf(d) == cfg.kind {
      XrStepIff(was, d);
      ok := PatchXr(dxr, d);
      if ok {
        XrStepIs(was, d);
        EachClassItsOwnPart(cfg, was, d);
      }
    } else if ApiVersionOf(d) == META_API_VERSION {
      ok := ProcessMeta(cfg, dxr, reqs, d, was);
    } else {
      ok := ProcessComposed(desired, checker, d);
    }
  }

  /** The next item either extends the run or makes all of it fail. */
  lemma NextItem(cfg: Config, st: State, data: seq<Json>, i: nat, mid: State)
    requires i < |data| && Run(cfg, st, data[..i]) == Ok(mid)
    ensures match Step(cfg, mid, data[i])
            case Ok(next) => Run(cfg, st, data[..i + 1]) == Ok(next)
            case Fail => Run(cfg, st, data) == Fail
  {
    RunOneMore(cfg, st, data[..i], data[i]);
    assert data[..i + 1] == data[..i] + [data[i]];
    if Step(cfg, mid, data[i]).Fail? {
      RunFailsOn(cfg, st, data, i + 1);
    }
  }

  /** The first `i` items have made `now` of the state. */
  ghost predicate RanTo(cfg: Config, st: State, data: seq<Json>, i: nat, now: State) {
    i <= |data| && Run(cfg, st, data[..i]) == Ok(now)
  }

  lemma RanToStart(cfg: Config, st: State, data: seq<Json>)
    ensures RanTo(cfg, st, data, 0, st)
  {
  }

  lemma RanToEnd(cfg: Config, st: State, data: seq<Json>, now: State)
    requires RanTo(cfg, st, data, |data|, now)
    ensures Run(cfg, st, data) == Ok(now)
  {
    assert data[..|data|] == data;
  }

  /** One turn of the loop. */
  method ProcessNext(cfg: Config, dxr: Composite, desired: Desired, reqs: Requirements, checker: DuplicateChecker,
                     data: seq<Json>, i: nat, ghost was: State)
    returns (ok: bool)
    requires dxr.resource.Some? && dxr.resource.value.Map? && ValidDesired(desired.entries)
    requires i < |data| && data[i].Map? && RanTo(cfg, was, data, i, StateOf(dxr, desired, reqs, checker.seen.Keys))
    modifies dxr, desired, reqs, checker
    ensures ok ==> dxr.resource.Some? && dxr.resource.value.Map? && ValidDesired(desired.entries)
    ensures ok ==> RanTo(cfg, was, data, i + 1, StateOf(dxr, desired, reqs, checker.seen.Keys))
    ensures !ok ==> Run(cfg, was, data) == Fail
  {
    NextItem(cfg, was, data, i, StateOf(dxr, desired, reqs, checker.seen.Keys));
    ok := ProcessItem(cfg, dxr, desired, reqs, checker, data[i]);
  }

  /** The Default target (res.go:474-566). */
  method ProcessDefault(cfg: Config, dxr: Composite, desired: Desired, reqs: Requirements, data: seq<Json>) returns (ok: bool)
    requires dxr.resource.Some? && dxr.resource.value.Map? && ValidDesired(desired.entries)
    requires forall i | 0 <= i < |data| :: data[i].Map?
    modifies dxr, desired, reqs
    ensures match Run(cfg, old(StateOf(dxr, desired, reqs, {})), data)
            case Ok(st) => ok && dxr.resource.Some? && ValidDesired(desired.entries) && st == StateOf(dxr, desired, reqs, st.names)
            case Fail => !ok
  {
    ghost var was := StateOf(dxr, desired, reqs, {});
    var checker := new DuplicateChecker();
    assert checker.seen.Keys == {};
    RanToStart(cfg, was, data);
    var i := 0;
    while i < |data|
      invariant i <= |data| && fresh(checker)
      invariant dxr.resource.Some? && dxr.resource.value.Map? && ValidDesired(desired.entries)
      invariant RanTo(cfg, was, data, i, StateOf(dxr, desired, reqs, checker.seen.Keys))
    {
      ok := ProcessNext(cfg, dxr, desired, reqs, checker, data, i, was);
      if !ok {
        return;
      }
      i := i + 1;
    }
    RanToEnd(cfg, was, data, StateOf(dxr, desired, reqs, checker.seen.Keys));
    ok := true;
  }
}
