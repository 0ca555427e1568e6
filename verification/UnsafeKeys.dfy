/** Why the key condition is needed: with a dotted key the result of SetData depends on the visiting order. */
module UnsafeKeys {
  import opened JsonTree
  import opened PathText
  import opened FieldPath
  import opened AnyOrder
  import opened SetDataSpec

  const DOTTED := Entry("a.b", Leaf(Num(1)))
  const NESTED := Entry("a", Entries([Entry("b", Leaf(Num(2)))]))

  /** The patch {"a.b": 1, "a": {"b": 2}}, visited in its two orders. */
  const DOTTED_FIRST := Entries([DOTTED, NESTED])
  const NESTED_FIRST := Entries([NESTED, DOTTED])

  lemma OneEntryText(e: Entry, path: string)
    ensures TextWritesOfEntries([e], path) == TextWrites(e.tree, path + Printed(path, Field(e.key)))
  {
    assert [e][..0] == [];
  }

  lemma TwoEntriesText(d: Entry, e: Entry, path: string)
    ensures TextWritesOfEntries([d, e], path) ==
      TextWrites(d.tree, path + Printed(path, Field(d.key))) + TextWrites(e.tree, path + Printed(path, Field(e.key)))
  {
    assert [d, e][..1] == [d];
    OneEntryText(d, path);
  }

  lemma DottedText()
    ensures TextWrites(DOTTED.tree, "" + Printed("", Field(DOTTED.key))) == [TextWrite(".a.b", Num(1))]
    ensures TextWrites(NESTED.tree, "" + Printed("", Field(NESTED.key))) == [TextWrite(".a.b", Num(2))]
  {
    assert "" + Printed("", Field("a.b")) == ".a.b";
    var p := "" + Printed("", Field("a"));
    assert p == ".a";
    OneEntryText(Entry("b", Leaf(Num(2))), p);
    assert p + Printed(p, Field("b")) == ".a.b";
  }

  lemma PathOfText()
    ensures Parse(TrimDot(".a.b")) == Some([Field("a"), Field("b")])
  {
    var segs := [Field("a"), Field("b")];
    assert segs[1..] == [Field("b")] && segs[1..][1..] == [];
    assert "" + Printed("", segs[0]) == ".a" && ".a" + Printed(".a", Field("b")) == ".a.b";
    assert PrintedAll(".a.b", []) == "" && PrintedAll(".a", [Field("b")]) == ".b";
    assert Text(segs) == ".a.b";
    assert GoodSegs(".a", [Field("b")]);
    assert GoodSegs("", segs);
    PrintedPathParsesBackIff(segs);
  }

  lemma SetB(inner: Option<Json>, v: Json)
    requires inner.None? || exists w :: inner == Some(Map(map["b" := w]))
    ensures Get(inner, [Field("b")]) != Broken
    ensures Set(inner, [Field("b")], v) == Ok(Map(map["b" := v]))
  {
    assert [Field("b")][1..] == [];
    if inner.Some? {
      var w :| inner == Some(Map(map["b" := w]));
      assert Set(FieldSlot(map["b" := w], "b"), [], v) == Ok(v);
      assert map["b" := w]["b" := v] == map["b" := v];
    } else {
      assert Set(FieldSlot(map[], "b"), [], v) == Ok(v);
      assert map[]["b" := v] == map["b" := v];
    }
  }

  function HoldsAB(v: Json): Json {
    Map(map["a" := Map(map["b" := v])])
  }

  /** Setting a.b on an object that holds at most a.b leaves exactly that. */
  lemma SetAB(obj: Json, v: Json)
    requires obj == Map(map[]) || exists w :: obj == HoldsAB(w)
    ensures Get(Some(obj), [Field("a"), Field("b")]) != Broken
    ensures Set(Some(obj), [Field("a"), Field("b")], v) == Ok(HoldsAB(v))
  {
    assert [Field("a"), Field("b")][1..] == [Field("b")];
    SetB(FieldSlot(obj.fields, "a"), v);
    assert obj.fields["a" := Map(map["b" := v])] == HoldsAB(v).fields;
  }

  lemma WriteParsed(obj: Json, path: string, segs: seq<Seg>, v: Json, r: Json)
    requires segs != [] && Parse(TrimDot(path)) == Some(segs)
    requires Get(Some(obj), segs) != Broken && Set(Some(obj), segs, v) == Ok(r)
    ensures WriteText(CompositeKind, Some(obj), path, v, true) == Ok(Some(r))
  {
  }

  /** Two writes through one path, which parses to a.b: the later one is left. */
  lemma LastWriteWins(path: string, v: Json, w: Json)
    requires Parse(TrimDot(path)) == Some([Field("a"), Field("b")])
    ensures RunText(CompositeKind, Some(Map(map[])), [TextWrite(path, v)] + [TextWrite(path, w)], true) == Ok(Some(HoldsAB(w)))
  {
    SetAB(Map(map[]), v);
    WriteParsed(Map(map[]), path, [Field("a"), Field("b")], v, HoldsAB(v));
    SetAB(HoldsAB(v), w);
    WriteParsed(HoldsAB(v), path, [Field("a"), Field("b")], w, HoldsAB(w));
    TwoWrites(Map(map[]), TextWrite(path, v), HoldsAB(v), TextWrite(path, w), HoldsAB(w));
  }

  lemma TwoWrites(obj: Json, x: TextWrite, mid: Json, y: TextWrite, r: Json)
    requires WriteText(CompositeKind, Some(obj), x.path, x.value, true) == Ok(Some(mid))
    requires WriteText(CompositeKind, Some(mid), y.path, y.value, true) == Ok(Some(r))
    ensures RunText(CompositeKind, Some(obj), [x] + [y], true) == Ok(Some(r))
  {
    assert ([x] + [y])[0] == x && ([x] + [y])[1..] == [y] && [y][1..] == [];
    assert RunText(CompositeKind, Some(mid), [y], true) == Ok(Some(r));
  }

  lemma TwoKeys(d: Entry, e: Entry)
    requires d.key != e.key && WellOrdered(d.tree) && WellOrdered(e.tree)
    ensures WellOrdered(Entries([d, e]))
    ensures Forget(Entries([d, e])) == Map(map[d.key := Forget(d.tree), e.key := Forget(e.tree)])
  {
    assert [d, e][..1] == [d] && [d][..0] == [];
    assert ForgetEntries([d]) == map[d.key := Forget(d.tree)];
  }

  /** Two keys in either order make one patch. */
  lemma EitherOrder(d: Entry, e: Entry)
    requires d.key != e.key && WellOrdered(d.tree) && WellOrdered(e.tree)
    ensures WellOrdered(Entries([d, e])) && WellOrdered(Entries([e, d]))
    ensures Forget(Entries([d, e])) == Forget(Entries([e, d]))
  {
    TwoKeys(d, e);
    TwoKeys(e, d);
  }

  lemma OneKeyIsOrdered(e: Entry)
    requires WellOrdered(e.tree)
    ensures WellOrdered(Entries([e]))
  {
  }

  lemma SamePatch()
    ensures WellOrdered(DOTTED_FIRST) && WellOrdered(NESTED_FIRST) && Forget(DOTTED_FIRST) == Forget(NESTED_FIRST)
  {
    OneKeyIsOrdered(Entry("b", Leaf(Num(2))));
    assert |DOTTED.key| != |NESTED.key|;
    EitherOrder(DOTTED, NESTED);
  }

  /** One patch, two visiting orders, two results. */
  lemma OrderMattersForDottedKeys()
    ensures WellOrdered(DOTTED_FIRST) && WellOrdered(NESTED_FIRST) && Forget(DOTTED_FIRST) == Forget(NESTED_FIRST)
    ensures RunText(CompositeKind, Some(Map(map[])), TextWrites(DOTTED_FIRST, ""), true) !=
            RunText(CompositeKind, Some(Map(map[])), TextWrites(NESTED_FIRST, ""), true)
  {
    SamePatch();
    DottedText();
    TwoEntriesText(DOTTED, NESTED, "");
    TwoEntriesText(NESTED, DOTTED, "");
    PathOfText();
    LastWriteWins(".a.b", Num(1), Num(2));
    LastWriteWins(".a.b", Num(2), Num(1));
    assert HoldsAB(Num(1)).fields["a"].fields["b"] != HoldsAB(Num(2)).fields["a"].fields["b"];
  }
}
