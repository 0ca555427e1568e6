/** What the meta resources of a Default run leave behind: connection details and selector requirements, key by key. */
module DefaultFacts {
  import opened JsonTree
  import opened ResourceNames
  import opened DefaultTarget

  predicate IsMetaOf(cfg: Config, d: Json, kind: string) {
    Classify(cfg, d) == Meta && KindOf(d) == kind
  }

  // ---------------------------------------------------------------- connection details

  /** The last value given for a connection detail. */
  function LastDetail(cfg: Config, data: seq<Json>, k: string): Option<string> {
    if data == [] then None
    else
      var d := data[|data| - 1];
      if IsMetaOf(cfg, d, "CompositeConnectionDetails") && k in ConnectionData(d) then Some(cfg.decoders.base64(ConnectionData(d)[k]))
      else LastDetail(cfg, data[..|data| - 1], k)
  }

  function Detail(m: map<string, string>, k: string): Option<string> {
    if k in m then Some(m[k]) else None
  }

  lemma DetailStep(cfg: Config, st: State, d: Json, k: string)
    requires Step(cfg, st, d).Ok?
    ensures Detail(Step(cfg, st, d).value.connection, k) ==
      if IsMetaOf(cfg, d, "CompositeConnectionDetails") && k in ConnectionData(d) then Some(cfg.decoders.base64(ConnectionData(d)[k]))
      else Detail(st.connection, k)
  {
    EachClassItsOwnPart(cfg, st, d);
  }

  /** Each connection detail ends as the last item that gives it says, decoded, or stays as it was. */
  lemma {:induction false} LastDetailWins(cfg: Config, st: State, data: seq<Json>, k: string)
    requires Run(cfg, st, data).Ok?
    ensures var last := LastDetail(cfg, data, k);
            Detail(Run(cfg, st, data).value.connection, k) == if last.Some? then last else Detail(st.connection, k)
    decreases |data|
  {
    if data != [] {
      var n := |data| - 1;
      LastItem(cfg, st, data);
      LastDetailWins(cfg, st, data[..n], k);
      DetailStep(cfg, Run(cfg, st, data[..n]).value, data[n], k);
    }
  }

  // ---------------------------------------------------------------- selector requirements

  function SelectorFor(cfg: Config, d: Json, kind: string, k: string): Option<Json> {
    var sel := SelectorsOf(cfg, d);
    if IsMetaOf(cfg, d, kind) && sel.Some? then FieldSlot(sel.value, k) else None
  }

  /** The selectors of a state that items of `kind` add to. */
  function SelectorsIn(st: State, kind: string): map<string, Json> {
    if kind == "ExtraResources" then st.extra else st.required
  }

  predicate SelectorKind(kind: string) {
    kind == "ExtraResources" || kind == "RequiredResources"
  }

  /** An item of the kind adds its selectors, which must be new. */
  lemma SelectorItem(cfg: Config, st: State, d: Json, kind: string)
    requires SelectorKind(kind) && IsMetaOf(cfg, d, kind) && Step(cfg, st, d).Ok?
    ensures SelectorsOf(cfg, d).Some? && SelectorsOf(cfg, d).value.Keys !! SelectorsIn(st, kind).Keys
    ensures SelectorsIn(Step(cfg, st, d).value, kind) == SelectorsIn(st, kind) + SelectorsOf(cfg, d).value
  {
    assert Step(cfg, st, d) == MetaStep(cfg, st, d);
  }

  /** Any other item leaves them alone. */
  lemma OtherItem(cfg: Config, st: State, d: Json, kind: string)
    requires SelectorKind(kind) && !IsMetaOf(cfg, d, kind) && Step(cfg, st, d).Ok?
    ensures SelectorsIn(Step(cfg, st, d).value, kind) == SelectorsIn(st, kind)
  {
    EachClassItsOwnPart(cfg, st, d);
    if Classify(cfg, d) == Meta {
      assert Step(cfg, st, d) == MetaStep(cfg, st, d) && KindOf(d) != kind;
    }
  }

  lemma SelectorStep(cfg: Config, st: State, d: Json, kind: string, k: string)
    requires SelectorKind(kind) && Step(cfg, st, d).Ok?
    ensures var was, now := FieldSlot(SelectorsIn(st, kind), k), FieldSlot(SelectorsIn(Step(cfg, st, d).value, kind), k);
            if SelectorFor(cfg, d, kind, k).Some? then was.None? && now == SelectorFor(cfg, d, kind, k) else now == was
  {
    if IsMetaOf(cfg, d, kind) {
      SelectorItem(cfg, st, d, kind);
      SlotOfSum(SelectorsIn(st, kind), SelectorsOf(cfg, d).value, k);
    } else {
      OtherItem(cfg, st, d, kind);
    }
  }

  lemma SlotOfSum(a: map<string, Json>, b: map<string, Json>, k: string)
    requires a.Keys !! b.Keys
    ensures FieldSlot(a + b, k) == if k in b then FieldSlot(b, k) else FieldSlot(a, k)
    ensures k in b ==> FieldSlot(a, k).None?
  {
  }

  /** The places in the data that give a selector for `k`. */
  ghost predicate GivenAt(cfg: Config, data: seq<Json>, kind: string, k: string, i: nat) {
    i < |data| && SelectorFor(cfg, data[i], kind, k).Some?
  }

  /** `k` is given at most once; given, it was absent and is now what its one item says; not given, it is as it was. */
  ghost predicate Once(cfg: Config, data: seq<Json>, kind: string, k: string, was: Option<Json>, now: Option<Json>) {
    && (forall i: nat, j: nat | GivenAt(cfg, data, kind, k, i) && GivenAt(cfg, data, kind, k, j) :: i == j)
    && (forall i: nat | GivenAt(cfg, data, kind, k, i) :: was.None? && now == SelectorFor(cfg, data[i], kind, k))
    && ((forall i: nat | i < |data| :: !GivenAt(cfg, data, kind, k, i)) ==> now == was)
  }

  lemma OnceMore(cfg: Config, data: seq<Json>, d: Json, kind: string, k: string, was: Option<Json>, mid: Option<Json>, now: Option<Json>)
    requires Once(cfg, data, kind, k, was, mid)
    requires if SelectorFor(cfg, d, kind, k).Some? then mid.None? && now == SelectorFor(cfg, d, kind, k) else now == mid
    ensures Once(cfg, data + [d], kind, k, was, now)
  {
    var all := data + [d];
    forall i: nat | i < |data| ensures GivenAt(cfg, all, kind, k, i) <==> GivenAt(cfg, data, kind, k, i) {
      assert all[i] == data[i];
    }
    assert GivenAt(cfg, all, kind, k, |data|) <==> SelectorFor(cfg, d, kind, k).Some?;
  }

  /**
   A run succeeds only if no selector key is given twice or was there before; each given key then
   holds what its one item says, and the others are as they were.
   */
  lemma {:induction false} EachSelectorOnce(cfg: Config, st: State, data: seq<Json>, kind: string, k: string)
    requires SelectorKind(kind) && Run(cfg, st, data).Ok?
    ensures Once(cfg, data, kind, k, FieldSlot(SelectorsIn(st, kind), k), FieldSlot(SelectorsIn(Run(cfg, st, data).value, kind), k))
    decreases |data|
  {
    if data != [] {
      var n := |data| - 1;
      var init, d := data[..n], data[n];
      assert data == init + [d];
      LastItem(cfg, st, data);
      EachSelectorOnce(cfg, st, init, kind, k);
      var mid := Run(cfg, st, init).value;
      SelectorStep(cfg, mid, d, kind, k);
      OnceMore(cfg, init, d, kind, k, FieldSlot(SelectorsIn(st, kind), k), FieldSlot(SelectorsIn(mid, kind), k),
        FieldSlot(SelectorsIn(Run(cfg, st, data).value, kind), k));
    }
  }
}
