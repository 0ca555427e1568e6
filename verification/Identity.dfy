/** What the protection of apiVersion, kind and metadata.name comes to when keys may be anything. */
module Identity {
  import opened JsonTree
  import opened PathText
  import opened FieldPath
  import opened AnyOrder
  import opened SetDataSpec
  import opened ResourceNames
  import opened Matching
  import opened PatchRuns
  import opened DesiredState
  import opened TargetFacts
  import opened LastWrites
  import opened UnsafeKeys

  // ---------------------------------------------------------------- entries of the patch targets

  predicate BesideReady(p: seq<Seg>) {
    Beside(p, [Field("metadata"), Field("annotations"), Field(READY_KEY)])
  }

  /** The entry of a name after a patch target, before and after the ready step. */
  lemma AfterReady(view: map<string, Item>, orders: map<string, seq<Ordered>>, overwrite: bool, name: string, p: seq<Seg>)
    requires view.Keys <= orders.Keys && name in view && BesideReady(p)
    ensures Get(Some(AllReady(PatchedIn(view, orders, overwrite))[name].obj), p) ==
            Get(Some(PatchedIn(view, orders, overwrite)[name].obj), p)
  {
    var it := PatchedIn(view, orders, overwrite)[name];
    assert AllReady(PatchedIn(view, orders, overwrite))[name] == ReadyItem(it);
    RemovalFrame(it.obj, READY_KEY, p);
  }

  /** The scalar at a path of an entry that has been patched, for any keys and orders, the ready annotation aside. */
  lemma EntryDecided(view: map<string, Item>, data: seq<Json>, orders: map<string, seq<Ordered>>, overwrite: bool,
                     name: string, p: seq<Seg>, v: Json)
    requires OrdersFor(view.Keys, data, orders) && AcceptedIn(view, data, orders, overwrite)
    requires name in view && IsScalar(v) && BesideReady(p)
    ensures Get(Some(AllReady(PatchedIn(view, orders, overwrite))[name].obj), p) == Found(v) <==>
            LeavesThere(ComposedKind, view[name].obj, AllTexts(orders[name]), p, v)
  {
    AfterReady(view, orders, overwrite, name, p);
    LastPatchDecides(ComposedKind, view[name].obj, orders[name], overwrite, p, v);
  }

  /** Is the last unprotected leaf text that is read as the path, or as one above it, read as that path with that value? */
  predicate KeptBy(tws: seq<TextWrite>, p: seq<Seg>, v: Json) {
    match LastHit(ComposedKind, tws, p)
    case None => true
    case Some(w) => ReadsAs(w.path) == Some(p) && w.value == v
  }

  /**
   The protection, exactly. Through any successful run on a composed resource, whatever the keys and
   the order, the apiVersion, the kind or the metadata.name stays if and only if no leaf whose text is
   not one of the three is read as its path or as one above it, or the last such leaf puts it back.
   */
  lemma ProtectionIff(obj: Json, tws: seq<TextWrite>, overwrite: bool, p: seq<Seg>, v: Json)
    requires forall i | 0 <= i < |tws| :: IsLeaf(tws[i].value)
    requires RunText(ComposedKind, Some(obj), tws, overwrite).Ok?
    requires p in PROTECTED && IsScalar(v) && Get(Some(obj), p) == Found(v)
    ensures Get(RunText(ComposedKind, Some(obj), tws, overwrite).value, p) == Found(v) <==> KeptBy(tws, p, v)
  {
    LastHitDecides(ComposedKind, obj, tws, overwrite, p, v);
  }

  /** The same over all patches of one resource. */
  lemma ProtectionOfAllIff(obj: Json, ts: seq<Ordered>, overwrite: bool, p: seq<Seg>, v: Json)
    requires forall i | 0 <= i < |ts| :: WellOrdered(ts[i])
    requires RunAll(ComposedKind, Some(obj), ts, overwrite).Ok?
    requires p in PROTECTED && IsScalar(v) && Get(Some(obj), p) == Found(v)
    ensures Get(RunAll(ComposedKind, Some(obj), ts, overwrite).value, p) == Found(v) <==> KeptBy(AllTexts(ts), p, v)
  {
    LastPatchDecides(ComposedKind, obj, ts, overwrite, p, v);
  }

  /** And for each entry under PatchDesired and PatchResources. */
  lemma EntryProtectionIff(view: map<string, Item>, data: seq<Json>, orders: map<string, seq<Ordered>>, overwrite: bool,
                           name: string, p: seq<Seg>, v: Json)
    requires OrdersFor(view.Keys, data, orders) && AcceptedIn(view, data, orders, overwrite) && name in view
    requires p in PROTECTED && IsScalar(v) && Get(Some(view[name].obj), p) == Found(v)
    ensures Get(Some(AllReady(PatchedIn(view, orders, overwrite))[name].obj), p) == Found(v) <==>
            KeptBy(AllTexts(orders[name]), p, v)
  {
    ProtectedBesideAnnotations(p, READY_KEY);
    EntryDecided(view, data, orders, overwrite, name, p, v);
  }

  // ---------------------------------------------------------------- a spelling that gets through

  /** A key that a bracket segment names. */
  predicate Bracketable(k: string) {
    k != "" && BracketFree(k) && !AllDigits(k)
  }

  function Bracketed(k: string): string {
    "[" + k + "]"
  }

  lemma BracketedText(k: string)
    ensures "" + Printed("", Field(Bracketed(k))) == "." + Bracketed(k) && TrimDot("." + Bracketed(k)) == Bracketed(k)
  {
    assert ("." + Bracketed(k))[1..] == Bracketed(k);
  }

  lemma BracketedIsNoProtectedText(k: string)
    ensures !IsProtectedText(Bracketed(k))
  {
    assert Bracketed(k)[0] == '[';
  }

  lemma BracketedParses(k: string)
    requires Bracketable(k)
    ensures Parse(Bracketed(k)) == Some([Field(k)])
  {
    LexBracketed(k, "");
    assert Bracketed(k) + "" == Bracketed(k) && Lex("") == Some([]);
    assert [Field(k)] + [] == [Field(k)];
  }

  /** The bracketed spelling of a top-level key is none of the three texts, and is read as the key. */
  lemma BracketedReadsAs(k: string)
    requires Bracketable(k)
    ensures "" + Printed("", Field(Bracketed(k))) == "." + Bracketed(k)
    ensures TrimDot("." + Bracketed(k)) == Bracketed(k) && !IsProtectedText(Bracketed(k))
    ensures ReadsAs("." + Bracketed(k)) == Some([Field(k)])
  {
    BracketedText(k);
    BracketedIsNoProtectedText(k);
    BracketedParses(k);
  }

  /** Writing the text of the bracketed spelling on a composed resource sets the key. */
  lemma BracketedSets(m: map<string, Json>, k: string, v: Json)
    requires Bracketable(k)
    ensures WriteText(ComposedKind, Some(Map(m)), "." + Bracketed(k), v, true) == Ok(Some(Map(m[k := v])))
  {
    BracketedReadsAs(k);
    SetsField(m, k, v);
  }

  lemma SetsField(m: map<string, Json>, k: string, v: Json)
    ensures Write(Some(Map(m)), [Field(k)], v, true) == Ok(Map(m[k := v]))
  {
    assert [Field(k)][1..] == [];
    assert Set(FieldSlot(m, k), [], v) == Ok(v);
    assert Get(Some(Map(m)), [Field(k)]) == Get(FieldSlot(m, k), []);
  }

  /** The entry of a patch that names the resource, in the usual way. */
  function NameEntry(name: string): Entry {
    Entry("metadata", Entries([Entry("name", Leaf(Str(name)))]))
  }

  /** A patch that names a resource and has a bracketed spelling of a key. */
  function SpelledPatch(name: string, k: string, v: Json): Ordered {
    Entries([NameEntry(name), Entry(Bracketed(k), Leaf(v))])
  }

  lemma NameEntryText(name: string)
    ensures TextWrites(NameEntry(name).tree, "" + Printed("", Field("metadata"))) == [TextWrite(".metadata.name", Str(name))]
    ensures TrimDot(".metadata.name") == "metadata.name"
  {
    var p := "" + Printed("", Field("metadata"));
    assert p == ".metadata";
    OneEntryText(Entry("name", Leaf(Str(name))), p);
    assert p + Printed(p, Field("name")) == ".metadata.name";
  }

  lemma SpelledText(name: string, k: string, v: Json)
    requires Bracketable(k)
    ensures TextWrites(SpelledPatch(name, k, v), "") ==
            [TextWrite(".metadata.name", Str(name))] + [TextWrite("." + Bracketed(k), v)]
  {
    NameEntryText(name);
    BracketedReadsAs(k);
    TwoEntriesText(NameEntry(name), Entry(Bracketed(k), Leaf(v)), "");
  }

  /** Written into a composed resource, it sets that key, whichever it is. */
  lemma SpelledRun(name: string, m: map<string, Json>, k: string, v: Json)
    requires Bracketable(k)
    ensures RunAll(ComposedKind, Some(Map(m)), [SpelledPatch(name, k, v)], true) == Ok(Some(Map(m[k := v])))
  {
    var t, first := SpelledPatch(name, k, v), TextWrite(".metadata.name", Str(name));
    SpelledText(name, k, v);
    NameEntryText(name);
    assert WriteText(ComposedKind, Some(Map(m)), first.path, first.value, true) == Ok(Some(Map(m)));
    SingleText(ComposedKind, Some(Map(m)), first, true);
    RunOneText(ComposedKind, Some(Map(m)), [first], TextWrite("." + Bracketed(k), v), true);
    BracketedSets(m, k, v);
    assert [t][1..] == [];
  }

  lemma SpelledForgets(name: string, k: string, v: Json)
    requires IsLeaf(v)
    ensures WellOrdered(SpelledPatch(name, k, v))
    ensures Forget(SpelledPatch(name, k, v)) == Map(map["metadata" := Map(map["name" := Str(name)]), Bracketed(k) := v])
  {
    var e := Entry("name", Leaf(Str(name)));
    OneKeyIsOrdered(e);
    assert [e][..0] == [];
    assert ForgetEntries([e]) == map["name" := Str(name)];
    assert Bracketed(k)[0] != "metadata"[0];
    TwoKeys(NameEntry(name), Entry(Bracketed(k), Leaf(v)));
  }

  lemma SpelledIsNamed(name: string, k: string, v: Json)
    requires IsLeaf(v)
    ensures var d := Forget(SpelledPatch(name, k, v)); ResourceName(d) == name && Clean(d) == d
  {
    SpelledForgets(name, k, v);
    var d := Forget(SpelledPatch(name, k, v));
    assert Bracketed(k)[0] != "metadata"[0];
    assert d.fields["metadata"] == Map(map["name" := Str(name)]);
    assert AnnotationsField(d) == None;
  }

  lemma OnlyPatchFiled(d: Json, name: string)
    requires ResourceName(d) == name && Clean(d) == d
    ensures PatchesFor([d], name) == [d] && AllNamed({name}, [d])
  {
    assert [d][..0] == [];
  }

  /** Setting another field than metadata changes no annotation. */
  lemma AnnotationsElsewhere(m: map<string, Json>, k: string, v: Json)
    requires k != "metadata"
    ensures Annotations(Map(m[k := v])) == Annotations(Map(m))
  {
    assert AnnotationsField(Map(m[k := v])) == AnnotationsField(Map(m));
  }

  /**
   The three texts do not cover all spellings of the three paths: under PatchDesired a patch routed to
   an entry by its name, whatever the name, can overwrite that entry's kind, or any other top-level field
   but metadata, by spelling the key in brackets.
   */
  lemma SpellingGetsThrough(name: string, it: Item, k: string, v: Json)
    requires it.obj.Map? && ReadyOk(it.obj) && Bracketable(k) && k != "metadata" && IsLeaf(v)
    ensures var view, data, orders := map[name := it], [Forget(SpelledPatch(name, k, v))], map[name := [SpelledPatch(name, k, v)]];
            && OrdersFor(view.Keys, data, orders)
            && AcceptedIn(view, data, orders, true)
            && PatchedIn(view, orders, true)[name] == Item(Map(it.obj.fields[k := v]), it.ready)
  {
    var t := SpelledPatch(name, k, v);
    var view, data, orders := map[name := it], [Forget(t)], map[name := [t]];
    SpelledForgets(name, k, v);
    SpelledIsNamed(name, k, v);
    OnlyPatchFiled(Forget(t), name);
    SpelledRun(name, it.obj.fields, k, v);
    AnnotationsElsewhere(it.obj.fields, k, v);
    assert view.Keys == {name} && orders.Keys == {name};
    assert Visits(orders[name], PatchesFor(data, name));
    assert AllRun(view, orders, true);
  }

  /** In particular the kind, which stays overwritten through the ready step. */
  lemma KindCanBeOverwritten(name: string, it: Item, v: Json)
    requires it.obj.Map? && ReadyOk(it.obj) && IsLeaf(v)
    ensures var view, data, orders := map[name := it], [Forget(SpelledPatch(name, "kind", v))], map[name := [SpelledPatch(name, "kind", v)]];
            && OrdersFor(view.Keys, data, orders)
            && AcceptedIn(view, data, orders, true)
            && Get(Some(AllReady(PatchedIn(view, orders, true))[name].obj), [Field("kind")]) == Found(v)
  {
    var view, orders := map[name := it], map[name := [SpelledPatch(name, "kind", v)]];
    assert "kind"[0] == 'k' && "kind"[0] in "kind" && "metadata"[0] == 'm';
    SpellingGetsThrough(name, it, "kind", v);
    ProtectedBesideAnnotations([Field("kind")], READY_KEY);
    AfterReady(view, orders, true, name, [Field("kind")]);
    assert [Field("kind")][1..] == [];
  }
}
