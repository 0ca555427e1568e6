/** SetData (res.go:311-392) as a run of textual leaf writes, and what that run means. */
module SetDataSpec {
  import opened JsonTree
  import opened PathText
  import opened FieldPath
  import opened Overlays
  import opened AnyOrder

  /** The type switch on the target. */
  datatype Kind = ComposedKind | CompositeKind | OtherKind

  datatype TextWrite = TextWrite(path: string, value: Json)

  /** The leaves SetData reaches, with the path text it has built for each. */
  function TextWrites(t: Ordered, path: string): seq<TextWrite>
    decreases t
  {
    match t
    case Leaf(v) => [TextWrite(path, v)]
    case Items(ts) => TextWritesOfItems(ts, path)
    case Entries(es) => TextWritesOfEntries(es, path)
  }

  function TextWritesOfItems(ts: seq<Ordered>, path: string): seq<TextWrite>
    decreases ts
  {
    if ts == [] then []
    else
      var n := |ts| - 1;
      TextWritesOfItems(ts[..n], path) + TextWrites(ts[n], path + Printed(path, Index(n)))
  }

  function TextWritesOfEntries(es: seq<Entry>, path: string): seq<TextWrite>
    decreases es
  {
    if es == [] then []
    else
      var n := |es| - 1;
      TextWritesOfEntries(es[..n], path) + TextWrites(es[n].tree, path + Printed(path, Field(es[n].key)))
  }

  predicate IsProtectedText(path: string) {
    path == "apiVersion" || path == "kind" || path == "metadata.name"
  }

  /** The leaf case (res.go:341-389). `obj` is None for a nil Resource. */
  function WriteText(kind: Kind, obj: Option<Json>, path: string, v: Json, overwrite: bool): Outcome<Option<Json>> {
    var p := TrimDot(path);
    if kind == OtherKind then Fail
    else if kind == ComposedKind && IsProtectedText(p) then Ok(obj)
    else if obj.None? then Fail
    else
      match Parse(p)
      case None => Fail
      case Some(segs) =>
        if segs == [] then Fail
        else
          match Write(obj, segs, v, overwrite)
          case Fail => Fail
          case Ok(r) => Ok(Some(r))
  }

  function RunText(kind: Kind, obj: Option<Json>, ws: seq<TextWrite>, overwrite: bool): Outcome<Option<Json>>
    decreases |ws|
  {
    if ws == [] then Ok(obj)
    else
      match WriteText(kind, obj, ws[0].path, ws[0].value, overwrite)
      case Fail => Fail
      case Ok(obj') => RunText(kind, obj', ws[1..], overwrite)
  }

  function ThenText(kind: Kind, r: Outcome<Option<Json>>, ws: seq<TextWrite>, overwrite: bool): Outcome<Option<Json>> {
    match r
    case Fail => Fail
    case Ok(obj) => RunText(kind, obj, ws, overwrite)
  }

  lemma {:induction false} RunTextAppend(kind: Kind, obj: Option<Json>, a: seq<TextWrite>, b: seq<TextWrite>, overwrite: bool)
    ensures RunText(kind, obj, a + b, overwrite) == ThenText(kind, RunText(kind, obj, a, overwrite), b, overwrite)
    decreases |a|
  {
    if a == [] {
      assert a + b == b;
    } else {
      assert (a + b)[1..] == a[1..] + b;
      match WriteText(kind, obj, a[0].path, a[0].value, overwrite)
      case Fail =>
      case Ok(obj') => RunTextAppend(kind, obj', a[1..], b, overwrite);
    }
  }

  /** The object that a run leaves behind: all writes before the first refused one, which changes nothing, have been made. */
  function LeftBy(kind: Kind, obj: Option<Json>, ws: seq<TextWrite>, overwrite: bool): Option<Json>
    decreases |ws|
  {
    if ws == [] then obj
    else
      match WriteText(kind, obj, ws[0].path, ws[0].value, overwrite)
      case Fail => obj
      case Ok(obj') => LeftBy(kind, obj', ws[1..], overwrite)
  }

  /** A run leaves what it gives; and after a refusal nothing more is written. */
  lemma {:induction false} LeftByAppend(kind: Kind, obj: Option<Json>, a: seq<TextWrite>, b: seq<TextWrite>, overwrite: bool)
    ensures RunText(kind, obj, a, overwrite).Ok? ==> LeftBy(kind, obj, a, overwrite) == RunText(kind, obj, a, overwrite).value
    ensures LeftBy(kind, obj, a + b, overwrite) ==
      match RunText(kind, obj, a, overwrite)
      case Fail => LeftBy(kind, obj, a, overwrite)
      case Ok(mid) => LeftBy(kind, mid, b, overwrite)
    decreases |a|
  {
    if a == [] {
      assert a + b == b;
    } else {
      assert (a + b)[1..] == a[1..] + b;
      match WriteText(kind, obj, a[0].path, a[0].value, overwrite)
      case Fail =>
      case Ok(obj') => LeftByAppend(kind, obj', a[1..], b, overwrite);
    }
  }

  // ---------------------------------------------------------------- the condition on keys

  /** Every key above a leaf is carried safely by the path text. */
  predicate GoodKeys(path: string, j: Json)
    decreases j
  {
    match j
    case Map(m) =>
      forall k | k in m && HasLeaf(m[k]) ::
        KeyOk(k, WrapsKeys(path)) && GoodKeys(path + Printed(path, Field(k)), m[k])
    case List(e) =>
      forall i | 0 <= i < |e| && HasLeaf(e[i]) :: GoodKeys(path + Printed(path, Index(i)), e[i])
    case _ => true
  }

  ghost predicate Agree(tws: seq<TextWrite>, path: string, ws: seq<LeafWrite>) {
    && |tws| == |ws|
    && forall i | 0 <= i < |ws| :: tws[i] == TextWrite(path + PrintedAll(path, ws[i].path), ws[i].value)
  }

  ghost predicate AllGood(path: string, ws: seq<LeafWrite>) {
    forall i | 0 <= i < |ws| :: GoodSegs(path, ws[i].path)
  }

  /** Is this one step safe where it is printed? */
  predicate StepOk(path: string, seg: Seg) {
    seg.Field? ==> KeyOk(seg.name, WrapsKeys(path))
  }

  lemma OneStepDown(path: string, seg: Seg, segs: seq<Seg>)
    ensures path + PrintedAll(path, [seg] + segs) == path + Printed(path, seg) + PrintedAll(path + Printed(path, seg), segs)
    ensures GoodSegs(path, [seg] + segs) <==> StepOk(path, seg) && GoodSegs(path + Printed(path, seg), segs)
  {
    assert ([seg] + segs)[1..] == segs;
  }

  lemma AgreeUnder(tws: seq<TextWrite>, path: string, seg: Seg, ws: seq<LeafWrite>)
    requires Agree(tws, path + Printed(path, seg), ws)
    ensures Agree(tws, path, Under(seg, ws))
  {
    forall i | 0 <= i < |ws| ensures tws[i] == TextWrite(path + PrintedAll(path, Under(seg, ws)[i].path), ws[i].value) {
      OneStepDown(path, seg, ws[i].path);
    }
  }

  lemma AllGoodUnder(path: string, seg: Seg, ws: seq<LeafWrite>)
    ensures AllGood(path, Under(seg, ws)) <==> ws == [] || (StepOk(path, seg) && AllGood(path + Printed(path, seg), ws))
  {
    var us := Under(seg, ws);
    forall i | 0 <= i < |ws|
      ensures GoodSegs(path, us[i].path) <==> StepOk(path, seg) && GoodSegs(path + Printed(path, seg), ws[i].path)
    {
      OneStepDown(path, seg, ws[i].path);
    }
    if ws != [] && AllGood(path, us) {
      assert GoodSegs(path, us[0].path);
      forall i | 0 <= i < |ws| ensures GoodSegs(path + Printed(path, seg), ws[i].path) {
        assert GoodSegs(path, us[i].path);
      }
    }
  }

  lemma AgreeAppend(a: seq<TextWrite>, b: seq<TextWrite>, path: string, c: seq<LeafWrite>, d: seq<LeafWrite>)
    requires Agree(a, path, c) && Agree(b, path, d)
    ensures Agree(a + b, path, c + d)
  {
    forall i | 0 <= i < |c + d|
      ensures (a + b)[i] == TextWrite(path + PrintedAll(path, (c + d)[i].path), (c + d)[i].value)
    {
      if i < |c| {
        assert (c + d)[i] == c[i] && (a + b)[i] == a[i];
      } else {
        assert (c + d)[i] == d[i - |c|] && (a + b)[i] == b[i - |c|];
      }
    }
  }

  lemma AllGoodAppend(path: string, c: seq<LeafWrite>, d: seq<LeafWrite>)
    ensures AllGood(path, c + d) <==> AllGood(path, c) && AllGood(path, d)
  {
    var cd := c + d;
    if AllGood(path, cd) {
      forall i | 0 <= i < |c| ensures GoodSegs(path, c[i].path) { assert cd[i] == c[i]; }
      forall i | 0 <= i < |d| ensures GoodSegs(path, d[i].path) { assert cd[|c| + i] == d[i]; }
    }
  }

  /** The printed paths are those of the leaves, and they are safe exactly when the keys are. */
  lemma {:induction false} TextAgrees(t: Ordered, path: string)
    requires WellOrdered(t)
    ensures Agree(TextWrites(t, path), path, Writes(t))
    ensures AllGood(path, Writes(t)) <==> GoodKeys(path, Forget(t))
    decreases t
  {
    match t
    case Leaf(v) =>
    case Items(ts) => TextAgreesItems(ts, path);
    case Entries(es) => TextAgreesEntries(es, path);
  }

  lemma {:induction false} TextAgreesItems(ts: seq<Ordered>, path: string)
    requires forall i | 0 <= i < |ts| :: WellOrdered(ts[i])
    ensures Agree(TextWritesOfItems(ts, path), path, WritesOfItems(ts))
    ensures AllGood(path, WritesOfItems(ts)) <==> GoodKeys(path, List(ForgetItems(ts)))
    decreases ts
  {
    if ts != [] {
      var n := |ts| - 1;
      var init, t := ts[..n], ts[n];
      var path' := path + Printed(path, Index(n));
      TextAgreesItems(init, path);
      TextAgrees(t, path');
      WritesShape(t);
      AgreeUnder(TextWrites(t, path'), path, Index(n), Writes(t));
      AllGoodUnder(path, Index(n), Writes(t));
      AgreeAppend(TextWritesOfItems(init, path), TextWrites(t, path'), path, WritesOfItems(init), Under(Index(n), Writes(t)));
      AllGoodAppend(path, WritesOfItems(init), Under(Index(n), Writes(t)));
      GoodItemsOneMore(path, ForgetItems(init), Forget(t));
      assert ForgetItems(ts) == ForgetItems(init) + [Forget(t)] && |ForgetItems(init)| == n;
    }
  }

  lemma {:induction false} TextAgreesEntries(es: seq<Entry>, path: string)
    requires WellOrdered(Entries(es))
    ensures Agree(TextWritesOfEntries(es, path), path, WritesOfEntries(es))
    ensures AllGood(path, WritesOfEntries(es)) <==> GoodKeys(path, Map(ForgetEntries(es)))
    decreases es
  {
    if es != [] {
      var n := |es| - 1;
      var k, t := es[n].key, es[n].tree;
      var path' := path + Printed(path, Field(k));
      NewKey(es);
      TextAgreesEntries(es[..n], path);
      TextAgrees(t, path');
      WritesShape(t);
      AgreeUnder(TextWrites(t, path'), path, Field(k), Writes(t));
      AllGoodUnder(path, Field(k), Writes(t));
      AgreeAppend(TextWritesOfEntries(es[..n], path), TextWrites(t, path'), path, WritesOfEntries(es[..n]), Under(Field(k), Writes(t)));
      AllGoodAppend(path, WritesOfEntries(es[..n]), Under(Field(k), Writes(t)));
      GoodKeysOneMore(path, ForgetEntries(es[..n]), k, Forget(t));
    }
  }

  /** The condition on one element of a list. */
  predicate GoodItem(path: string, i: nat, j: Json) {
    HasLeaf(j) ==> GoodKeys(path + Printed(path, Index(i)), j)
  }

  ghost predicate ForEach(e: seq<Json>, good: (nat, Json) -> bool) {
    forall i | 0 <= i < |e| :: good(i, e[i])
  }

  lemma ForEachOneMore(e: seq<Json>, j: Json, good: (nat, Json) -> bool)
    ensures ForEach(e + [j], good) <==> ForEach(e, good) && good(|e|, j)
  {
    var e1 := e + [j];
    assert e1[|e|] == j && forall i | 0 <= i < |e| :: e1[i] == e[i];
    if ForEach(e1, good) {
      assert forall i | 0 <= i < |e| :: good(i, e1[i]);
    }
  }

  lemma GoodItems(path: string, e: seq<Json>, good: (nat, Json) -> bool)
    requires forall i, j :: good(i, j) == GoodItem(path, i, j)
    ensures GoodKeys(path, List(e)) <==> ForEach(e, good)
  {
    if ForEach(e, good) {
      forall i | 0 <= i < |e| && HasLeaf(e[i]) ensures GoodKeys(path + Printed(path, Index(i)), e[i]) {
        assert good(i, e[i]);
      }
    }
  }

  lemma GoodItemsOneMore(path: string, e: seq<Json>, j: Json)
    ensures GoodKeys(path, List(e + [j])) <==> GoodKeys(path, List(e)) && GoodItem(path, |e|, j)
  {
    var good := (i: nat, x: Json) => GoodItem(path, i, x);
    GoodItems(path, e, good);
    GoodItems(path, e + [j], good);
    ForEachOneMore(e, j, good);
  }

  lemma GoodKeysOneMore(path: string, m: map<string, Json>, k: string, j: Json)
    requires k !in m
    ensures GoodKeys(path, Map(m[k := j])) <==>
      GoodKeys(path, Map(m)) && (HasLeaf(j) ==> KeyOk(k, WrapsKeys(path)) && GoodKeys(path + Printed(path, Field(k)), j))
  {
    var m1 := m[k := j];
    assert m1[k] == j && forall x | x in m :: m1[x] == m[x];
  }

  /**
   Printing is unambiguous exactly on safe keys: reading back each printed path gives the segments
   SetData walked down.
   */
  lemma PathsParseBackIff(t: Ordered)
    requires WellOrdered(t) && t.Entries?
    ensures |TextWrites(t, "")| == |Writes(t)|
    ensures (forall i | 0 <= i < |Writes(t)| :: Parse(TrimDot(TextWrites(t, "")[i].path)) == Some(Writes(t)[i].path))
      <==> GoodKeys("", Forget(t))
  {
    TextAgrees(t, "");
    EntriesShape(t.entries);
    forall i | 0 <= i < |Writes(t)|
      ensures Parse(TrimDot(TextWrites(t, "")[i].path)) == Some(Writes(t)[i].path) <==> GoodSegs("", Writes(t)[i].path)
    {
      PrintedPathParsesBackIff(Writes(t)[i].path);
      assert "" + Text(Writes(t)[i].path) == Text(Writes(t)[i].path);
    }
  }

  ghost predicate Incomparable(a: seq<LeafWrite>, b: seq<LeafWrite>) {
    forall i, j | 0 <= i < |a| && 0 <= j < |b| :: !(a[i].path <= b[j].path) && !(b[j].path <= a[i].path)
  }

  ghost predicate PrefixFree(ws: seq<LeafWrite>) {
    forall i, j | 0 <= i < j < |ws| :: !(ws[i].path <= ws[j].path) && !(ws[j].path <= ws[i].path)
  }

  lemma PrefixFreeUnder(seg: Seg, ws: seq<LeafWrite>)
    requires PrefixFree(ws)
    ensures PrefixFree(Under(seg, ws))
  {
    forall i, j | 0 <= i < |ws| && 0 <= j < |ws| && [seg] + ws[i].path <= [seg] + ws[j].path
      ensures ws[i].path <= ws[j].path
    {
      assert ws[i].path == ([seg] + ws[i].path)[1..] && ws[j].path == ([seg] + ws[j].path)[1..];
    }
  }

  /** All paths of these writes start with one of these segments. */
  ghost predicate Heads(ws: seq<LeafWrite>, segs: set<Seg>) {
    forall i | 0 <= i < |ws| :: ws[i].path != [] && ws[i].path[0] in segs
  }

  lemma HeadsDiffer(a: seq<LeafWrite>, sa: set<Seg>, seg: Seg, ws: seq<LeafWrite>)
    requires Heads(a, sa) && seg !in sa && PrefixFree(a) && PrefixFree(ws)
    ensures PrefixFree(a + Under(seg, ws))
    ensures Heads(a + Under(seg, ws), sa + {seg})
  {
    PrefixFreeUnder(seg, ws);
    var b := Under(seg, ws);
    assert Incomparable(a, b) by {
      forall i, j | 0 <= i < |a| && 0 <= j < |b| ensures !(a[i].path <= b[j].path) && !(b[j].path <= a[i].path) {
        assert a[i].path[0] != b[j].path[0];
      }
    }
    var ab := a + b;
    forall i, j | 0 <= i < j < |ab| ensures !(ab[i].path <= ab[j].path) && !(ab[j].path <= ab[i].path) {
      if j < |a| {
        assert ab[i] == a[i] && ab[j] == a[j];
      } else if i < |a| {
        assert ab[i] == a[i] && ab[j] == b[j - |a|];
      } else {
        assert ab[i] == b[i - |a|] && ab[j] == b[j - |a|];
      }
    }
  }

  /** Two leaves of one patch never have paths of which one is a prefix of the other. */
  lemma {:induction false} LeafPathsPrefixFree(t: Ordered)
    requires WellOrdered(t)
    ensures PrefixFree(Writes(t))
    decreases t
  {
    match t
    case Leaf(v) =>
    case Items(ts) => ItemPathsPrefixFree(ts);
    case Entries(es) => EntryPathsPrefixFree(es);
  }

  lemma {:induction false} ItemPathsPrefixFree(ts: seq<Ordered>)
    requires forall i | 0 <= i < |ts| :: WellOrdered(ts[i])
    ensures PrefixFree(WritesOfItems(ts)) && Heads(WritesOfItems(ts), set i | 0 <= i < |ts| :: Index(i))
    decreases ts
  {
    if ts != [] {
      var n := |ts| - 1;
      ItemPathsPrefixFree(ts[..n]);
      LeafPathsPrefixFree(ts[n]);
      var heads := set i | 0 <= i < n :: Index(i);
      HeadsDiffer(WritesOfItems(ts[..n]), heads, Index(n), Writes(ts[n]));
      assert heads + {Index(n)} == set i | 0 <= i < |ts| :: Index(i);
    }
  }

  lemma {:induction false} EntryPathsPrefixFree(es: seq<Entry>)
    requires WellOrdered(Entries(es))
    ensures PrefixFree(WritesOfEntries(es)) && Heads(WritesOfEntries(es), set k | k in ForgetEntries(es) :: Field(k))
    decreases es
  {
    if es != [] {
      var n := |es| - 1;
      NewKey(es);
      EntryPathsPrefixFree(es[..n]);
      LeafPathsPrefixFree(es[n].tree);
      var heads := set k | k in ForgetEntries(es[..n]) :: Field(k);
      HeadsDiffer(WritesOfEntries(es[..n]), heads, Field(es[n].key), Writes(es[n].tree));
    }
  }

  // ---------------------------------------------------------------- protected leaves

  const PROTECTED: set<seq<Seg>> := {[Field("apiVersion")], [Field("kind")], [Field("metadata"), Field("name")]}

  /** The patch without its protected leaves: each gives way to an empty map, which writes nothing. */
  function Prune(route: seq<Seg>, j: Json): Json
    decreases j
  {
    match j
    case Map(m) => Map(map k | k in m :: Prune(route + [Field(k)], m[k]))
    case List(e) => List(seq(|e|, i requires 0 <= i < |e| => Prune(route + [Index(i)], e[i])))
    case _ => if route in PROTECTED then Map(map[]) else j
  }

  ghost function PruneOrdered(route: seq<Seg>, t: Ordered): Ordered
    decreases t
  {
    match t
    case Leaf(v) => if route in PROTECTED then Entries([]) else t
    case Items(ts) => Items(PruneItems(route, ts))
    case Entries(es) => Entries(PruneEntries(route, es))
  }

  ghost function PruneItems(route: seq<Seg>, ts: seq<Ordered>): (r: seq<Ordered>)
    ensures |r| == |ts|
    decreases ts
  {
    if ts == [] then []
    else
      var n := |ts| - 1;
      PruneItems(route, ts[..n]) + [PruneOrdered(route + [Index(n)], ts[n])]
  }

  ghost function PruneEntries(route: seq<Seg>, es: seq<Entry>): (r: seq<Entry>)
    ensures |r| == |es|
    ensures forall i | 0 <= i < |es| :: r[i].key == es[i].key
    decreases es
  {
    if es == [] then []
    else
      var n := |es| - 1;
      PruneEntries(route, es[..n]) + [Entry(es[n].key, PruneOrdered(route + [Field(es[n].key)], es[n].tree))]
  }

  /** Leaf writes whose path is not protected, seen from `route`. */
  function Unprotected(route: seq<Seg>, ws: seq<LeafWrite>): seq<LeafWrite> {
    if ws == [] then []
    else if route + ws[0].path in PROTECTED then Unprotected(route, ws[1..])
    else [ws[0]] + Unprotected(route, ws[1..])
  }

  lemma {:induction false} UnprotectedAppend(route: seq<Seg>, a: seq<LeafWrite>, b: seq<LeafWrite>)
    ensures Unprotected(route, a + b) == Unprotected(route, a) + Unprotected(route, b)
    decreases |a|
  {
    if a == [] {
      assert a + b == b;
    } else {
      assert (a + b)[1..] == a[1..] + b;
      UnprotectedAppend(route, a[1..], b);
    }
  }

  lemma {:induction false} UnprotectedUnder(route: seq<Seg>, seg: Seg, ws: seq<LeafWrite>)
    ensures Unprotected(route, Under(seg, ws)) == Under(seg, Unprotected(route + [seg], ws))
    decreases |ws|
  {
    if ws != [] {
      UnprotectedUnder(route, seg, ws[1..]);
      assert Under(seg, ws)[1..] == Under(seg, ws[1..]);
      assert route + [seg] + ws[0].path == route + ([seg] + ws[0].path);
      var u := Unprotected(route + [seg], ws[1..]);
      assert Under(seg, [ws[0]] + u) == [Under(seg, ws)[0]] + Under(seg, u);
    }
  }

  lemma {:induction false} PruneAgrees(route: seq<Seg>, t: Ordered)
    requires WellOrdered(t)
    ensures WellOrdered(PruneOrdered(route, t))
    ensures Forget(PruneOrdered(route, t)) == Prune(route, Forget(t))
    ensures Writes(PruneOrdered(route, t)) == Unprotected(route, Writes(t))
    decreases t
  {
    match t
    case Leaf(v) =>
      assert route + [] == route;
    case Items(ts) => PruneItemsAgrees(route, ts);
    case Entries(es) => PruneEntriesAgrees(route, es);
  }

  lemma {:induction false} PruneItemsAgrees(route: seq<Seg>, ts: seq<Ordered>)
    requires forall i | 0 <= i < |ts| :: WellOrdered(ts[i])
    ensures forall i | 0 <= i < |ts| :: WellOrdered(PruneItems(route, ts)[i])
    ensures List(ForgetItems(PruneItems(route, ts))) == Prune(route, List(ForgetItems(ts)))
    ensures WritesOfItems(PruneItems(route, ts)) == Unprotected(route, WritesOfItems(ts))
    decreases ts
  {
    if ts != [] {
      var n := |ts| - 1;
      PruneItemsAgrees(route, ts[..n]);
      PruneAgrees(route + [Index(n)], ts[n]);
      UnprotectedAppend(route, WritesOfItems(ts[..n]), Under(Index(n), Writes(ts[n])));
      UnprotectedUnder(route, Index(n), Writes(ts[n]));
      assert PruneItems(route, ts)[..n] == PruneItems(route, ts[..n]);
      PruneOneMoreItem(route, ForgetItems(ts[..n]), Forget(ts[n]));
    }
  }

  lemma PruneOneMoreItem(route: seq<Seg>, e: seq<Json>, j: Json)
    ensures Prune(route, List(e + [j])).elems == Prune(route, List(e)).elems + [Prune(route + [Index(|e|)], j)]
  {
    var e1 := e + [j];
    assert forall i | 0 <= i < |e| :: e1[i] == e[i];
  }

  lemma {:induction false} PruneEntriesAgrees(route: seq<Seg>, es: seq<Entry>)
    requires WellOrdered(Entries(es))
    ensures WellOrdered(Entries(PruneEntries(route, es)))
    ensures Map(ForgetEntries(PruneEntries(route, es))) == Prune(route, Map(ForgetEntries(es)))
    ensures WritesOfEntries(PruneEntries(route, es)) == Unprotected(route, WritesOfEntries(es))
    decreases es
  {
    if es != [] {
      var n := |es| - 1;
      var k, t := es[n].key, es[n].tree;
      NewKey(es);
      PruneEntriesAgrees(route, es[..n]);
      PruneAgrees(route + [Field(k)], t);
      OneMoreEntry(PruneEntries(route, es[..n]), k, PruneOrdered(route + [Field(k)], t));
      UnprotectedAppend(route, WritesOfEntries(es[..n]), Under(Field(k), Writes(t)));
      UnprotectedUnder(route, Field(k), Writes(t));
      assert PruneEntries(route, es)[..n] == PruneEntries(route, es[..n]);
      PruneOneMore(route, ForgetEntries(es[..n]), k, Forget(t));
    }
  }

  lemma PruneOneMore(route: seq<Seg>, m: map<string, Json>, k: string, j: Json)
    ensures Prune(route, Map(m[k := j])).fields == Prune(route, Map(m)).fields[k := Prune(route + [Field(k)], j)]
  {
    var m1 := m[k := j];
    var a, b := Prune(route, Map(m1)).fields, Prune(route, Map(m)).fields[k := Prune(route + [Field(k)], j)];
    forall x | x in m1 ensures a[x] == b[x] {
      if x != k { assert m1[x] == m[x]; }
    }
    assert a == b;
  }

  /** Safe paths printed alike are alike. */
  lemma PrintingIsInjective(p: seq<Seg>, q: seq<Seg>)
    requires p != [] && q != [] && GoodSegs("", p) && GoodSegs("", q)
    requires TrimDot(Text(p)) == TrimDot(Text(q))
    ensures p == q
  {
    PrintedPathParsesBackIff(p);
    PrintedPathParsesBackIff(q);
  }

  lemma OneKeyText(k: string)
    requires KeyOk(k, false)
    ensures GoodSegs("", [Field(k)]) && TrimDot(Text([Field(k)])) == k
  {
    var p := [Field(k)];
    assert Printed("", p[0]) == "." + k && p[1..] == [];
    assert PrintedAll("" + Printed("", p[0]), p[1..]) == "";
    assert Text(p) == "." + k;
  }

  lemma MetadataNameText()
    ensures var p := [Field("metadata"), Field("name")]; GoodSegs("", p) && TrimDot(Text(p)) == "metadata.name"
  {
    var p, q := [Field("metadata"), Field("name")], [Field("name")];
    assert p[1..] == q && q[1..] == [];
    assert "" + Printed("", p[0]) == ".metadata" && Printed(".metadata", q[0]) == ".name";
    assert PrintedAll(".metadata.name", []) == "";
    assert PrintedAll(".metadata", q) == ".name";
    assert Text(p) == ".metadata.name";
    assert GoodSegs(".metadata", q);
  }

  lemma ProtectedKeysOk()
    ensures KeyOk("apiVersion", false) && KeyOk("kind", false)
  {
  }

  /** Is the text SetData prints for the path one of the three it refuses? */
  predicate PrintsProtected(p: seq<Seg>) {
    IsProtectedText(TrimDot(Text(p)))
  }

  predicate IsProtected(p: seq<Seg>) {
    p in PROTECTED
  }

  /** A key at the top is printed as itself by no other safe path. */
  lemma OneKeyTextIff(p: seq<Seg>, k: string)
    requires p != [] && GoodSegs("", p) && KeyOk(k, false)
    ensures TrimDot(Text(p)) == k <==> p == [Field(k)]
  {
    OneKeyText(k);
    if TrimDot(Text(p)) == k {
      PrintingIsInjective(p, [Field(k)]);
    }
  }

  lemma MetadataNameTextIff(p: seq<Seg>)
    requires p != [] && GoodSegs("", p)
    ensures TrimDot(Text(p)) == "metadata.name" <==> p == [Field("metadata"), Field("name")]
  {
    MetadataNameText();
    if TrimDot(Text(p)) == "metadata.name" {
      PrintingIsInjective(p, [Field("metadata"), Field("name")]);
    }
  }

  /** The three protected texts name exactly the three protected paths, among safe paths. */
  lemma ProtectedTextIff(p: seq<Seg>)
    requires p != [] && GoodSegs("", p)
    ensures PrintsProtected(p) <==> IsProtected(p)
  {
    ProtectedKeysOk();
    OneKeyTextIff(p, "apiVersion");
    OneKeyTextIff(p, "kind");
    MetadataNameTextIff(p);
  }

  // ---------------------------------------------------------------- the meaning of SetData

  /** What the patch may write on this kind of target. */
  function Effective(kind: Kind, data: Json): Json {
    if kind == ComposedKind then Prune([], data) else data
  }

  ghost predicate Readable(tws: seq<TextWrite>, ws: seq<LeafWrite>) {
    && |tws| == |ws|
    && forall i | 0 <= i < |ws| ::
         ws[i].path != [] && GoodSegs("", ws[i].path) && tws[i] == TextWrite(Text(ws[i].path), ws[i].value)
  }

  lemma WriteTextIsWrite(kind: Kind, obj: Json, w: LeafWrite, overwrite: bool)
    requires kind != OtherKind && w.path != [] && GoodSegs("", w.path)
    ensures WriteText(kind, Some(obj), Text(w.path), w.value, overwrite) ==
      if kind == ComposedKind && w.path in PROTECTED then Ok(Some(obj)) else Apply(Some(obj), [w], overwrite)
  {
    PrintedPathParsesBackIff(w.path);
    ProtectedTextIff(w.path);
    assert [w][1..] == [];
  }

  lemma ReadableTail(tws: seq<TextWrite>, ws: seq<LeafWrite>)
    requires Readable(tws, ws) && ws != []
    ensures Readable(tws[1..], ws[1..])
    ensures ws[0].path != [] && GoodSegs("", ws[0].path) && tws[0] == TextWrite(Text(ws[0].path), ws[0].value)
  {
    forall i | 0 <= i < |ws[1..]|
      ensures ws[1..][i].path != [] && GoodSegs("", ws[1..][i].path) && tws[1..][i] == TextWrite(Text(ws[1..][i].path), ws[1..][i].value)
    {
      assert ws[1..][i] == ws[i + 1] && tws[1..][i] == tws[i + 1];
    }
  }

  function Kept(kind: Kind, ws: seq<LeafWrite>): seq<LeafWrite> {
    if kind == ComposedKind then Unprotected([], ws) else ws
  }

  lemma KeptStep(kind: Kind, w: LeafWrite, ws: seq<LeafWrite>)
    ensures Kept(kind, [w] + ws) == if kind == ComposedKind && w.path in PROTECTED then Kept(kind, ws) else [w] + Kept(kind, ws)
  {
    assert ([w] + ws)[1..] == ws && [] + w.path == w.path;
  }

  /** A run of textual writes is a run of writes through segment paths, the protected ones skipped. */
  lemma {:induction false} RunTextIsApply(kind: Kind, obj: Json, tws: seq<TextWrite>, ws: seq<LeafWrite>, overwrite: bool)
    requires kind != OtherKind && Readable(tws, ws)
    ensures RunText(kind, Some(obj), tws, overwrite) == Apply(Some(obj), Kept(kind, ws), overwrite)
    decreases |ws|
  {
    if ws != [] {
      var w, rest := ws[0], ws[1..];
      ReadableTail(tws, ws);
      WriteTextIsWrite(kind, obj, w, overwrite);
      assert ws == [w] + rest;
      KeptStep(kind, w, rest);
      ApplyAppend(Some(obj), [w], Kept(kind, rest), overwrite);
      var r := WriteText(kind, Some(obj), tws[0].path, tws[0].value, overwrite);
      if r.Ok? {
        RunTextIsApply(kind, r.value.value, tws[1..], rest, overwrite);
      }
    }
  }

  /** SetData from the empty path, the map keys visited in the order of `t`. */
  function InOrder(kind: Kind, obj: Json, t: Ordered, overwrite: bool): Outcome<Option<Json>> {
    RunText(kind, Some(obj), TextWrites(t, ""), overwrite)
  }

  /** The object with the patch laid over it. */
  function PatchedObject(kind: Kind, obj: Json, data: Json, overwrite: bool): Outcome<Option<Json>> {
    Overlay(Some(obj), Effective(kind, data), overwrite)
  }

  /** Does SetData, in this order, do to the object what laying the patch over it means? */
  ghost predicate IsFaithful(kind: Kind, obj: Json, t: Ordered, overwrite: bool) {
    InOrder(kind, obj, t, overwrite) == PatchedObject(kind, obj, Forget(t), overwrite)
  }

  /**
   SetData from the empty path: for patches with safe keys, the run of textual, path-addressed
   writes fails or succeeds as the overlay does and builds the same object, for every order `t`
   in which the map keys may be visited.
   */
  lemma SetDataIsOverlay(kind: Kind, obj: Json, t: Ordered, overwrite: bool)
    requires kind != OtherKind && WellOrdered(t) && t.Entries? && GoodKeys("", Forget(t))
    ensures IsFaithful(kind, obj, t, overwrite)
  {
    TextAgrees(t, "");
    EntriesShape(t.entries);
    assert Readable(TextWrites(t, ""), Writes(t)) by {
      forall i | 0 <= i < |Writes(t)| ensures "" + Text(Writes(t)[i].path) == Text(Writes(t)[i].path) {}
    }
    RunTextIsApply(kind, obj, TextWrites(t, ""), Writes(t), overwrite);
    if kind == ComposedKind {
      PruneAgrees([], t);
      AnyOrderIsOverlay(Some(obj), PruneOrdered([], t), overwrite);
    } else {
      AnyOrderIsOverlay(Some(obj), t, overwrite);
    }
  }

  /** Any two visiting orders of one patch both fail or both succeed, with the same object. */
  lemma OrderIsIrrelevant(kind: Kind, obj: Json, t: Ordered, u: Ordered, overwrite: bool)
    requires kind != OtherKind && WellOrdered(t) && WellOrdered(u) && t.Entries? && Forget(t) == Forget(u)
    requires GoodKeys("", Forget(t))
    ensures InOrder(kind, obj, t, overwrite) == InOrder(kind, obj, u, overwrite)
  {
    SetDataIsOverlay(kind, obj, t, overwrite);
    SetDataIsOverlay(kind, obj, u, overwrite);
  }

  // ---------------------------------------------------------------- targets that cannot be written

  ghost predicate OnlyProtected(tws: seq<TextWrite>) {
    forall i | 0 <= i < |tws| :: IsProtectedText(TrimDot(tws[i].path))
  }

  lemma {:induction false} NilRunIff(kind: Kind, tws: seq<TextWrite>, overwrite: bool)
    ensures RunText(kind, None, tws, overwrite).Ok? <==> tws == [] || (kind == ComposedKind && OnlyProtected(tws))
    ensures RunText(kind, None, tws, overwrite).Ok? ==> RunText(kind, None, tws, overwrite) == Ok(None)
    decreases |tws|
  {
    if tws != [] {
      NilRunIff(kind, tws[1..], overwrite);
      assert forall i | 0 < i < |tws| :: tws[i] == tws[1..][i - 1];
    }
  }

  /**
   On a nil Resource, or on a target that is neither composed nor composite, SetData is not always an
   error: it succeeds, and changes nothing, exactly when it never gets to write: the patch has no leaf,
   or on a composed target protected leaves only.
   */
  lemma UnwritableTargetIff(kind: Kind, t: Ordered, overwrite: bool)
    requires WellOrdered(t)
    ensures RunText(kind, None, TextWrites(t, ""), overwrite).Ok? <==>
      !HasLeaf(Forget(t)) || (kind == ComposedKind && OnlyProtected(TextWrites(t, "")))
    ensures RunText(kind, None, TextWrites(t, ""), overwrite).Ok? ==> RunText(kind, None, TextWrites(t, ""), overwrite) == Ok(None)
  {
    NilRunIff(kind, TextWrites(t, ""), overwrite);
    TextAgrees(t, "");
    WritesShape(t);
  }

  /** A patch that sets the kind and nothing else. */
  ghost function KindPatch(v: Json): Ordered {
    Entries([Entry("kind", Leaf(v))])
  }

  lemma KindPatchText(v: Json)
    ensures TextWrites(KindPatch(v), "") == [TextWrite(".kind", v)] && TrimDot(".kind") == "kind"
  {
    var e := Entry("kind", Leaf(v));
    assert [e][..0] == [] && TextWritesOfEntries([], "") == [];
    assert "" + Printed("", Field("kind")) == ".kind";
    assert TextWritesOfEntries([e], "") == [] + TextWrites(Leaf(v), ".kind");
  }

  /** So the error on a nil Resource can stay out: this patch is accepted by a composed resource without one. */
  lemma NilResourceCanPass(v: Json, overwrite: bool)
    ensures RunText(ComposedKind, None, TextWrites(KindPatch(v), ""), overwrite) == Ok(None)
    ensures RunText(CompositeKind, None, TextWrites(KindPatch(v), ""), overwrite) == Fail
  {
    KindPatchText(v);
    NilRunIff(ComposedKind, [TextWrite(".kind", v)], overwrite);
    NilRunIff(CompositeKind, [TextWrite(".kind", v)], overwrite);
  }
}
