/** The orders in which a patch may be visited, safe keys or not, and when they have the same outcome. */
module PatchOrders {
  import opened JsonTree
  import opened PathText
  import opened FieldPath
  import opened AnyOrder
  import opened SetDataSpec
  import opened LastWrites
  import opened OrderAgreement
  import opened KeyCondition
  import opened IndexReading
  import opened UnsafeKeys

  // ---------------------------------------------------------------- the texts of a patch in its orders

  /** Taking one key out of an order. */
  function Dropped(es: seq<Entry>, j: nat): seq<Entry>
    requires j < |es|
  {
    es[..j] + es[j + 1..]
  }

  function EntryTexts(e: Entry, path: string): seq<TextWrite> {
    TextWrites(e.tree, path + Printed(path, Field(e.key)))
  }

  lemma InitOrdered(es: seq<Entry>)
    requires es != [] && WellOrdered(Entries(es))
    ensures WellOrdered(Entries(es[..|es| - 1])) && WellOrdered(es[|es| - 1].tree)
    ensures es[|es| - 1].key !in ForgetEntries(es[..|es| - 1])
    ensures ForgetEntries(es) == ForgetEntries(es[..|es| - 1])[es[|es| - 1].key := Forget(es[|es| - 1].tree)]
  {
    NewKey(es);
  }

  lemma DroppedWhole(init: seq<Entry>, j: nat, last: Entry)
    requires j < |init|
    ensures Dropped(init + [last], j) == Dropped(init, j) + [last]
    ensures (init + [last])[j] == init[j]
  {
  }

  lemma SwapKeys(m: map<string, Json>, k: string, v: Json, l: string, w: Json)
    requires k != l
    ensures m[k := v][l := w] == m[l := w][k := v]
  {
  }

  /** Leaving a key out before or after another one is added. */
  lemma DropKeyMore(init: seq<Entry>, j: nat, last: Entry, m: map<string, Json>, v: Json)
    requires j < |init| && WellOrdered(Entries(Dropped(init, j))) && WellOrdered(last.tree)
    requires ForgetEntries(Dropped(init, j)) == m && init[j].key !in m && last.key !in m[init[j].key := v]
    ensures WellOrdered(Entries(Dropped(init, j) + [last]))
    ensures init[j].key !in ForgetEntries(Dropped(init, j) + [last])
    ensures m[init[j].key := v][last.key := Forget(last.tree)] == ForgetEntries(Dropped(init, j) + [last])[init[j].key := v]
  {
    OneMoreEntry(Dropped(init, j), last.key, last.tree);
    assert Entry(last.key, last.tree) == last;
    SwapKeys(m, init[j].key, v, last.key, Forget(last.tree));
  }

  /** What is left of a patch without one of its keys. */
  lemma {:induction false} DropKey(es: seq<Entry>, j: nat)
    requires WellOrdered(Entries(es)) && j < |es|
    ensures WellOrdered(Entries(Dropped(es, j))) && WellOrdered(es[j].tree)
    ensures es[j].key !in ForgetEntries(Dropped(es, j))
    ensures ForgetEntries(es) == ForgetEntries(Dropped(es, j))[es[j].key := Forget(es[j].tree)]
    decreases |es|
  {
    var n := |es| - 1;
    var init, last := es[..n], es[n];
    InitOrdered(es);
    assert es == init + [last];
    if j == n {
      assert Dropped(es, j) == init;
    } else {
      DropKey(init, j);
      DroppedWhole(init, j, last);
      DropKeyMore(init, j, last, ForgetEntries(Dropped(init, j)), Forget(init[j].tree));
    }
  }

  lemma EntriesTextsMore(es: seq<Entry>, e: Entry, path: string)
    ensures TextWritesOfEntries(es + [e], path) == TextWritesOfEntries(es, path) + EntryTexts(e, path)
  {
    assert (es + [e])[..|es|] == es;
  }

  /** The key's texts and the others'. */
  lemma {:induction false} DropTexts(es: seq<Entry>, j: nat, path: string)
    requires j < |es|
    ensures multiset(TextWritesOfEntries(es, path)) ==
            multiset(TextWritesOfEntries(Dropped(es, j), path)) + multiset(EntryTexts(es[j], path))
    decreases |es|
  {
    var n := |es| - 1;
    var init, last := es[..n], es[n];
    assert es == init + [last];
    EntriesTextsMore(init, last, path);
    if j == n {
      assert Dropped(es, j) == init;
    } else {
      DropTexts(init, j, path);
      DroppedWhole(init, j, last);
      EntriesTextsMore(Dropped(init, j), last, path);
    }
  }

  /** Where an order visits a key. */
  lemma {:induction false} KeyPlace(es: seq<Entry>, k: string) returns (j: nat)
    requires k in ForgetEntries(es)
    ensures j < |es| && es[j].key == k
  {
    j :| 0 <= j < |es| && es[j].key == k;
  }

  /** The visiting order changes the order of the leaf texts and nothing else. */
  lemma {:induction false} SameTexts(t: Ordered, u: Ordered, path: string)
    requires WellOrdered(t) && WellOrdered(u) && Forget(t) == Forget(u)
    ensures multiset(TextWrites(t, path)) == multiset(TextWrites(u, path))
    decreases t
  {
    match t
    case Leaf(v) => assert u == Leaf(v);
    case Items(ts) => SameItemTexts(ts, u.items, path);
    case Entries(es) => SameEntryTexts(es, u.entries, path);
  }

  lemma {:induction false} SameItemTexts(ts: seq<Ordered>, us: seq<Ordered>, path: string)
    requires forall i | 0 <= i < |ts| :: WellOrdered(ts[i])
    requires forall i | 0 <= i < |us| :: WellOrdered(us[i])
    requires ForgetItems(ts) == ForgetItems(us)
    ensures multiset(TextWritesOfItems(ts, path)) == multiset(TextWritesOfItems(us, path))
    decreases ts
  {
    assert |ts| == |us|;
    if ts != [] {
      var n := |ts| - 1;
      assert ForgetItems(ts)[n] == ForgetItems(us)[n];
      assert ForgetItems(ts[..n]) == ForgetItems(ts)[..n] && ForgetItems(us[..n]) == ForgetItems(us)[..n];
      SameItemTexts(ts[..n], us[..n], path);
      SameTexts(ts[n], us[n], path + Printed(path, Index(n)));
    }
  }

  lemma {:induction false} SameEntryTexts(es: seq<Entry>, fs: seq<Entry>, path: string)
    requires WellOrdered(Entries(es)) && WellOrdered(Entries(fs)) && ForgetEntries(es) == ForgetEntries(fs)
    ensures multiset(TextWritesOfEntries(es, path)) == multiset(TextWritesOfEntries(fs, path))
    decreases es
  {
    if es == [] {
      NoKeys(fs);
    } else {
      var n := |es| - 1;
      DropKey(es, n);
      DropTexts(es, n, path);
      assert Dropped(es, n) == es[..n];
      var j := KeyPlace(fs, es[n].key);
      DropKey(fs, j);
      DropTexts(fs, j, path);
      SameDropped(ForgetEntries(es[..n]), Forget(es[n].tree), ForgetEntries(Dropped(fs, j)), Forget(fs[j].tree), es[n].key);
      SameEntryTexts(es[..n], Dropped(fs, j), path);
      SameTexts(es[n].tree, fs[j].tree, path + Printed(path, Field(es[n].key)));
    }
  }

  lemma NoKeys(fs: seq<Entry>)
    requires ForgetEntries(fs) == map[]
    ensures fs == []
  {
    assert fs != [] ==> fs[0].key in ForgetEntries(fs);
  }

  lemma SameDropped(m: map<string, Json>, v: Json, l: map<string, Json>, w: Json, k: string)
    requires k !in m && k !in l && m[k := v] == l[k := w]
    ensures m == l && v == w
  {
    assert v == m[k := v][k];
    forall x ensures x in m <==> x in l {
      assert x in m[k := v] <==> x in l[k := w];
    }
    forall x | x in m ensures m[x] == l[x] {
      assert m[x] == m[k := v][x];
    }
  }

  /** Some text cannot be read, or all leaves are compatible. */
  ghost predicate Settled(kind: Kind, tws: seq<TextWrite>) {
    (exists x :: x in tws && Unreadable(kind, x)) || AllCompatible(kind, tws)
  }

  /**
   Order independence for any keys: when some leaf text cannot be read, or the leaves are pairwise
   compatible, all visiting orders of a patch have the same outcome, on every object, with and without
   overwrite.
   */
  lemma OrdersAgree(kind: Kind, obj: Option<Json>, t: Ordered, u: Ordered, path: string, overwrite: bool)
    requires WellOrdered(t) && WellOrdered(u) && Forget(t) == Forget(u) && Settled(kind, TextWrites(t, path))
    ensures RunText(kind, obj, TextWrites(t, path), overwrite) == RunText(kind, obj, TextWrites(u, path), overwrite)
  {
    var a, b := TextWrites(t, path), TextWrites(u, path);
    SameTexts(t, u, path);
    SameMembers(a, b);
    if exists x :: x in a && Unreadable(kind, x) {
      UnreadableFails(kind, obj, a, overwrite);
      UnreadableFails(kind, obj, b, overwrite);
    } else {
      PermutedRun(kind, obj, a, b, overwrite);
    }
  }

  // ---------------------------------------------------------------- an order that comes to a leaf last

  /** All texts of a patch begin with the path it stands at. */
  lemma {:induction false} TextsExtend(t: Ordered, path: string)
    ensures forall x | x in TextWrites(t, path) :: path <= x.path
    decreases t
  {
    match t
    case Leaf(v) =>
    case Items(ts) => ItemTextsExtend(ts, path);
    case Entries(es) => EntryTextsExtend(es, path);
  }

  lemma {:induction false} ItemTextsExtend(ts: seq<Ordered>, path: string)
    ensures forall x | x in TextWritesOfItems(ts, path) :: path <= x.path
    decreases ts
  {
    if ts != [] {
      var n := |ts| - 1;
      ItemTextsExtend(ts[..n], path);
      TextsExtend(ts[n], path + Printed(path, Index(n)));
    }
  }

  lemma {:induction false} EntryTextsExtend(es: seq<Entry>, path: string)
    ensures forall x | x in TextWritesOfEntries(es, path) :: path <= x.path
    decreases es
  {
    if es != [] {
      var n := |es| - 1;
      EntryTextsExtend(es[..n], path);
      TextsExtend(es[n].tree, path + Printed(path, Field(es[n].key)));
    }
  }

  predicate AllApart(xs: seq<TextWrite>, x: TextWrite) {
    forall y | y in xs :: Apart(y.path, x.path)
  }

  /** The leaf is the last of the texts, but for texts apart from it. */
  ghost predicate LastOf(texts: seq<TextWrite>, x: TextWrite) {
    exists i :: 0 <= i < |texts| && LastAt(texts, x, i)
  }

  predicate LastAt(texts: seq<TextWrite>, x: TextWrite, i: nat)
    requires i < |texts|
  {
    texts[i] == x && AllApart(texts[i + 1..], x)
  }

  lemma LastBehind(before: seq<TextWrite>, texts: seq<TextWrite>, x: TextWrite)
    requires LastOf(texts, x)
    ensures LastOf(before + texts, x)
  {
    var i :| 0 <= i < |texts| && LastAt(texts, x, i);
    assert (before + texts)[|before| + i + 1..] == texts[i + 1..];
    assert LastAt(before + texts, x, |before| + i);
  }

  lemma LastBefore(texts: seq<TextWrite>, after: seq<TextWrite>, x: TextWrite)
    requires LastOf(texts, x) && AllApart(after, x)
    ensures LastOf(texts + after, x)
  {
    var i :| 0 <= i < |texts| && LastAt(texts, x, i);
    assert (texts + after)[i + 1..] == texts[i + 1..] + after;
    assert LastAt(texts + after, x, i);
  }

  ghost predicate OrderOf(u: Ordered, t: Ordered) {
    WellOrdered(u) && Forget(u) == Forget(t)
  }

  /** The texts of elements behind another one's are apart from it. */
  lemma LaterItemApart(path: string, i: nat, x: TextWrite, j: nat, y: TextWrite)
    requires i != j && path + IndexText(i) <= x.path && path + IndexText(j) <= y.path
    ensures Apart(y.path, x.path)
  {
    var r, r2 := x.path[|path + IndexText(i)|..], y.path[|path + IndexText(j)|..];
    assert x.path == path + (IndexText(i) + r) && y.path == path + (IndexText(j) + r2);
    ItemsApart(path, j, r2, i, r);
  }

  lemma {:induction false} EntryOfText(es: seq<Entry>, path: string, x: TextWrite) returns (j: nat)
    requires x in TextWritesOfEntries(es, path)
    ensures j < |es| && x in EntryTexts(es[j], path)
    decreases |es|
  {
    var n := |es| - 1;
    if x in EntryTexts(es[n], path) {
      j := n;
    } else {
      j := EntryOfText(es[..n], path, x);
    }
  }

  /** The entries with one key, ordered anew, visited last. */
  function WithKeyLast(es: seq<Entry>, j: nat, v: Ordered): seq<Entry>
    requires j < |es|
  {
    Dropped(es, j) + [Entry(es[j].key, v)]
  }

  lemma KeyLast(es: seq<Entry>, j: nat, v: Ordered)
    requires WellOrdered(Entries(es)) && j < |es| && OrderOf(v, es[j].tree)
    ensures OrderOf(Entries(WithKeyLast(es, j, v)), Entries(es))
  {
    DropKey(es, j);
    OneMoreEntry(Dropped(es, j), es[j].key, v);
  }

  lemma KeyLastTexts(es: seq<Entry>, j: nat, v: Ordered, path: string, x: TextWrite)
    requires j < |es| && LastOf(TextWrites(v, path + Printed(path, Field(es[j].key))), x)
    ensures LastOf(TextWritesOfEntries(WithKeyLast(es, j, v), path), x)
  {
    EntriesTextsMore(Dropped(es, j), Entry(es[j].key, v), path);
    LastBehind(TextWritesOfEntries(Dropped(es, j), path), TextWrites(v, path + Printed(path, Field(es[j].key))), x);
  }

  /** Some order of the patch comes to the leaf last, but for leaves that lead to places apart from it. */
  lemma {:induction false} ComesLast(t: Ordered, path: string, x: TextWrite) returns (u: Ordered)
    requires WellOrdered(t) && x in TextWrites(t, path)
    ensures OrderOf(u, t) && LastOf(TextWrites(u, path), x)
    decreases t
  {
    match t
    case Leaf(v) =>
      u := t;
      assert LastAt([TextWrite(path, v)], x, 0);
    case Items(ts) =>
      var us := ItemComesLast(ts, path, x);
      u := Items(us);
    case Entries(es) =>
      var j := EntryOfText(es, path, x);
      assert WellOrdered(es[j].tree);
      var v := ComesLast(es[j].tree, path + Printed(path, Field(es[j].key)), x);
      KeyLast(es, j, v);
      KeyLastTexts(es, j, v, path, x);
      u := Entries(WithKeyLast(es, j, v));
  }

  lemma ItemsTextsMore(ts: seq<Ordered>, t: Ordered, path: string)
    ensures TextWritesOfItems(ts + [t], path) == TextWritesOfItems(ts, path) + TextWrites(t, path + IndexText(|ts|))
  {
    assert (ts + [t])[..|ts|] == ts;
  }

  ghost predicate ItemOrders(us: seq<Ordered>, ts: seq<Ordered>) {
    |us| == |ts| && forall i | 0 <= i < |us| :: OrderOf(us[i], ts[i])
  }

  lemma {:induction false} ItemComesLast(ts: seq<Ordered>, path: string, x: TextWrite) returns (us: seq<Ordered>)
    requires (forall i | 0 <= i < |ts| :: WellOrdered(ts[i])) && x in TextWritesOfItems(ts, path)
    ensures ItemOrders(us, ts) && ForgetItems(us) == ForgetItems(ts) && LastOf(TextWritesOfItems(us, path), x)
    decreases ts
  {
    var n := |ts| - 1;
    var init, last := ts[..n], ts[n];
    assert ts == init + [last];
    if x in TextWrites(last, path + IndexText(n)) {
      var v := ComesLast(last, path + IndexText(n), x);
      us := init + [v];
      ItemsTextsMore(init, v, path);
      LastBehind(TextWritesOfItems(init, path), TextWrites(v, path + IndexText(n)), x);
    } else {
      var vs := ItemComesLast(init, path, x);
      us := vs + [last];
      ItemsTextsMore(vs, last, path);
      EarlierItem(init, path, x, last);
      LastBefore(TextWritesOfItems(vs, path), TextWrites(last, path + IndexText(n)), x);
    }
  }

  /** A text of one of the elements and those of the element that follows them all. */
  lemma EarlierItem(init: seq<Ordered>, path: string, x: TextWrite, last: Ordered)
    requires x in TextWritesOfItems(init, path)
    ensures AllApart(TextWrites(last, path + IndexText(|init|)), x)
  {
    var i := ItemOfText(init, path, x);
    TextsExtend(init[i], path + IndexText(i));
    TextsExtend(last, path + IndexText(|init|));
    forall y | y in TextWrites(last, path + IndexText(|init|)) ensures Apart(y.path, x.path) {
      LaterItemApart(path, i, x, |init|, y);
    }
  }

  lemma {:induction false} ItemOfText(ts: seq<Ordered>, path: string, x: TextWrite) returns (i: nat)
    requires x in TextWritesOfItems(ts, path)
    ensures i < |ts| && x in TextWrites(ts[i], path + IndexText(i))
    decreases |ts|
  {
    var n := |ts| - 1;
    if x in TextWrites(ts[n], path + IndexText(n)) {
      i := n;
    } else {
      i := ItemOfText(ts[..n], path, x);
    }
  }

  // ---------------------------------------------------------------- what a leaf leaves when it comes last

  /** Setting a leaf leaves alone what is at a path apart from it. */
  lemma {:induction false} SetApart(slot: Option<Json>, q: seq<Seg>, w: Json, p: seq<Seg>, v: Json)
    requires Set(slot, q, w).Ok? && !Comparable(p, q) && Get(slot, p) == Found(v)
    ensures Get(Some(Set(slot, q, w).value), p) == Found(v)
    decreases q
  {
    assert p == [p[0]] + p[1..] && q == [q[0]] + q[1..];
    match q[0]
    case Field(k) =>
      if p[0] == q[0] { SetApart(FieldSlot(FieldsOf(slot).value, k), q[1..], w, p[1..], v); }
    case Index(i) =>
      if p[0] == q[0] { SetApart(ElemSlot(ElemsOf(slot).value, i), q[1..], w, p[1..], v); }
  }

  /** After leaves that are apart from it a leaf is still there. */
  lemma {:induction false} StaysThere(kind: Kind, obj: Json, after: seq<TextWrite>, overwrite: bool, x: TextWrite)
    requires ReadsAs(x.path).Some? && AllApart(after, x) && RunText(kind, Some(obj), after, overwrite).Ok?
    requires Get(Some(obj), ReadsAs(x.path).value) == Found(x.value)
    ensures Get(RunText(kind, Some(obj), after, overwrite).value, ReadsAs(x.path).value) == Found(x.value)
    decreases |after|
  {
    if after != [] {
      var y := after[0];
      assert Apart(y.path, x.path);
      var mid := WriteText(kind, Some(obj), y.path, y.value, overwrite).value;
      if IsWritten(kind, y) {
        WrittenIs(kind, obj, y, overwrite);
        SetApart(Some(obj), ReadsAs(y.path).value, y.value, ReadsAs(x.path).value, x.value);
      } else {
        NotWritten(kind, Some(obj), y, overwrite);
      }
      StaysThere(kind, mid.value, after[1..], overwrite, x);
    }
  }

  lemma WrittenIsThere(kind: Kind, obj: Option<Json>, x: TextWrite, overwrite: bool)
    requires ReadsAs(x.path).Some? && !Skipped(kind, x) && WriteText(kind, obj, x.path, x.value, overwrite).Ok?
    ensures var r := WriteText(kind, obj, x.path, x.value, overwrite).value;
            r.Some? && Get(r, ReadsAs(x.path).value) == Found(x.value)
  {
    if obj.None? || !IsWritten(kind, x) {
      NotWritten(kind, obj, x, overwrite);
    } else {
      WrittenIs(kind, obj.value, x, overwrite);
      GetAfterSet(obj, ReadsAs(x.path).value, x.value);
    }
  }

  lemma RunAround(kind: Kind, obj: Option<Json>, before: seq<TextWrite>, x: TextWrite, after: seq<TextWrite>, overwrite: bool)
    requires RunText(kind, obj, before + [x] + after, overwrite).Ok?
    ensures RunText(kind, obj, before, overwrite).Ok?
    ensures var r := WriteText(kind, RunText(kind, obj, before, overwrite).value, x.path, x.value, overwrite);
            r.Ok? && RunText(kind, obj, before + [x] + after, overwrite) == RunText(kind, r.value, after, overwrite)
  {
    RunTextAppend(kind, obj, before + [x], after, overwrite);
    RunOneText(kind, obj, before, x, overwrite);
  }

  /** A run that comes to a leaf last, but for leaves apart from it, leaves it there. */
  lemma LastIsThere(kind: Kind, obj: Option<Json>, texts: seq<TextWrite>, x: TextWrite, overwrite: bool)
    requires ReadsAs(x.path).Some? && !Skipped(kind, x) && LastOf(texts, x)
    requires RunText(kind, obj, texts, overwrite).Ok?
    ensures Get(RunText(kind, obj, texts, overwrite).value, ReadsAs(x.path).value) == Found(x.value)
  {
    var i :| 0 <= i < |texts| && LastAt(texts, x, i);
    assert texts == texts[..i] + [x] + texts[i + 1..];
    LeftThere(kind, obj, texts[..i], x, texts[i + 1..], overwrite);
  }

  lemma LeftThere(kind: Kind, obj: Option<Json>, before: seq<TextWrite>, x: TextWrite, after: seq<TextWrite>, overwrite: bool)
    requires ReadsAs(x.path).Some? && !Skipped(kind, x) && AllApart(after, x)
    requires RunText(kind, obj, before + [x] + after, overwrite).Ok?
    ensures Get(RunText(kind, obj, before + [x] + after, overwrite).value, ReadsAs(x.path).value) == Found(x.value)
  {
    RunAround(kind, obj, before, x, after, overwrite);
    var mid := RunText(kind, obj, before, overwrite).value;
    WrittenIsThere(kind, mid, x, overwrite);
    StaysThere(kind, WriteText(kind, mid, x.path, x.value, overwrite).value.value, after, overwrite, x);
  }

  /** Two incompatible leaves cannot both be there. */
  lemma NotBoth(kind: Kind, x: TextWrite, y: TextWrite, r: Option<Json>)
    requires IsLeaf(x.value) && IsLeaf(y.value) && !Compatible(kind, x, y)
    requires Get(r, ReadsAs(x.path).value) == Found(x.value)
    ensures Get(r, ReadsAs(y.path).value) != Found(y.value)
  {
    var p, q := ReadsAs(x.path).value, ReadsAs(y.path).value;
    if p < q {
      NothingBelowLeaf(r, p, x.value, q, y.value);
    } else if q < p {
      if Get(r, q) == Found(y.value) {
        NothingBelowLeaf(r, q, y.value, p, x.value);
      }
    } else {
      assert p == q;
    }
  }

  // ---------------------------------------------------------------- exactly when all orders agree

  ghost predicate AllOrdersAgree(kind: Kind, obj: Option<Json>, t: Ordered, overwrite: bool) {
    forall u | OrderOf(u, t) ::
      RunText(kind, obj, TextWrites(u, ""), overwrite) == RunText(kind, obj, TextWrites(t, ""), overwrite)
  }

  ghost predicate AllOrdersFail(kind: Kind, obj: Option<Json>, t: Ordered, overwrite: bool) {
    forall u | OrderOf(u, t) :: RunText(kind, obj, TextWrites(u, ""), overwrite) == Fail
  }

  /** With two incompatible leaves, orders that agree all fail. */
  lemma IncompatibleFail(kind: Kind, obj: Option<Json>, t: Ordered, overwrite: bool, x: TextWrite, y: TextWrite)
    requires WellOrdered(t) && x in TextWrites(t, "") && y in TextWrites(t, "") && !Compatible(kind, x, y)
    requires AllOrdersAgree(kind, obj, t, overwrite)
    ensures RunText(kind, obj, TextWrites(t, ""), overwrite) == Fail
  {
    var u := ComesLast(t, "", x);
    var v := ComesLast(t, "", y);
    if RunText(kind, obj, TextWrites(t, ""), overwrite).Ok? {
      LastIsThere(kind, obj, TextWrites(u, ""), x, overwrite);
      LastIsThere(kind, obj, TextWrites(v, ""), y, overwrite);
      TextLeaves(t);
      NotBoth(kind, x, y, RunText(kind, obj, TextWrites(t, ""), overwrite).value);
    }
  }

  lemma TextLeaves(t: Ordered)
    requires WellOrdered(t)
    ensures forall x | x in TextWrites(t, "") :: IsLeaf(x.value)
  {
    TextAgrees(t, "");
    WritesAreLeaves(t);
  }

  /**
   Exactly, on every object, for any keys, with and without overwrite: all visiting orders of a patch
   have the same outcome if and only if they all fail, or its leaves are pairwise compatible: one of
   two is left out or cannot be read, or they are read as incomparable paths, or they are the same
   write. So on an object that some order can patch, any two leaves that are read as one place with
   different values, or one above the other, make the outcome depend on the order.
   */
  lemma OrdersAgreeIff(kind: Kind, obj: Option<Json>, t: Ordered, overwrite: bool)
    requires WellOrdered(t)
    ensures AllOrdersAgree(kind, obj, t, overwrite) <==>
      AllOrdersFail(kind, obj, t, overwrite) || AllCompatible(kind, TextWrites(t, ""))
  {
    if AllCompatible(kind, TextWrites(t, "")) {
      forall u | OrderOf(u, t)
        ensures RunText(kind, obj, TextWrites(u, ""), overwrite) == RunText(kind, obj, TextWrites(t, ""), overwrite)
      {
        OrdersAgree(kind, obj, t, u, "", overwrite);
      }
    } else if AllOrdersAgree(kind, obj, t, overwrite) {
      var x, y :| x in TextWrites(t, "") && y in TextWrites(t, "") && !Compatible(kind, x, y);
      IncompatibleFail(kind, obj, t, overwrite, x, y);
    } else {
      assert OrderOf(t, t);
    }
  }

  // ---------------------------------------------------------------- without overwrite

  /** Above a scalar there are containers. */
  lemma {:induction false} AboveScalar(slot: Option<Json>, p: seq<Seg>, v: Json, q: seq<Seg>)
    requires Get(slot, p) == Found(v) && IsScalar(v) && q <= p
    ensures Get(slot, q).Found? && Get(slot, q).value != Null
    decreases q
  {
    if q != [] {
      match (q[0], slot.value)
      case (Field(k), Map(m)) => AboveScalar(FieldSlot(m, k), p[1..], v, q[1..]);
      case (Index(i), List(l)) => AboveScalar(Some(l[i]), p[1..], v, q[1..]);
      case (_, _) =>
    }
  }

  /** Without overwrite a scalar outlives every run that succeeds. */
  lemma {:induction false} ScalarStays(kind: Kind, obj: Json, tws: seq<TextWrite>, p: seq<Seg>, v: Json)
    requires Get(Some(obj), p) == Found(v) && IsScalar(v) && RunText(kind, Some(obj), tws, false).Ok?
    ensures Get(RunText(kind, Some(obj), tws, false).value, p) == Found(v)
    decreases |tws|
  {
    if tws != [] {
      var y := tws[0];
      var mid := WriteText(kind, Some(obj), y.path, y.value, false).value;
      if IsWritten(kind, y) {
        WrittenIs(kind, obj, y, false);
        var q := ReadsAs(y.path).value;
        if q <= p {
          AboveScalar(Some(obj), p, v, q);
        } else {
          SetBeside(Some(obj), q, y.value, p, v);
        }
      } else {
        NotWritten(kind, Some(obj), y, false);
      }
      ScalarStays(kind, mid.value, tws[1..], p, v);
    }
  }

  /** So each scalar it writes is there in the end. */
  lemma WrittenScalarStays(kind: Kind, obj: Option<Json>, tws: seq<TextWrite>, x: TextWrite)
    requires x in tws && IsScalar(x.value) && ReadsAs(x.path).Some? && !Skipped(kind, x)
    requires RunText(kind, obj, tws, false).Ok?
    ensures Get(RunText(kind, obj, tws, false).value, ReadsAs(x.path).value) == Found(x.value)
  {
    var i :| 0 <= i < |tws| && tws[i] == x;
    var before, after := tws[..i], tws[i + 1..];
    assert tws == before + [x] + after;
    RunAround(kind, obj, before, x, after, false);
    var mid := RunText(kind, obj, before, false).value;
    WrittenIsThere(kind, mid, x, false);
    ScalarStays(kind, WriteText(kind, mid, x.path, x.value, false).value.value, after, ReadsAs(x.path).value, x.value);
  }

  lemma IncompatibleRefused(kind: Kind, obj: Option<Json>, tws: seq<TextWrite>, x: TextWrite, y: TextWrite)
    requires x in tws && y in tws && IsScalar(x.value) && IsScalar(y.value) && !Compatible(kind, x, y)
    ensures RunText(kind, obj, tws, false) == Fail
  {
    if RunText(kind, obj, tws, false).Ok? {
      WrittenScalarStays(kind, obj, tws, x);
      WrittenScalarStays(kind, obj, tws, y);
      NotBoth(kind, x, y, RunText(kind, obj, tws, false).value);
    }
  }

  /** Without overwrite the order of a patch without nulls never shows, whatever its keys. */
  lemma WithoutOverwriteAgree(kind: Kind, obj: Option<Json>, t: Ordered)
    requires WellOrdered(t) && forall x | x in TextWrites(t, "") :: x.value != Null
    ensures AllOrdersAgree(kind, obj, t, false)
  {
    if !AllCompatible(kind, TextWrites(t, "")) {
      var x, y :| x in TextWrites(t, "") && y in TextWrites(t, "") && !Compatible(kind, x, y);
      TextLeaves(t);
      forall u | OrderOf(u, t) ensures RunText(kind, obj, TextWrites(u, ""), false) == Fail {
        SameTexts(t, u, "");
        SameMembers(TextWrites(t, ""), TextWrites(u, ""));
        IncompatibleRefused(kind, obj, TextWrites(u, ""), x, y);
      }
    }
    OrdersAgreeIff(kind, obj, t, false);
  }

  /** The two orders of a patch of two leaves. */
  function TwoLeaves(k: string, v: Json, l: string, w: Json): Ordered {
    Entries([Entry(k, Leaf(v)), Entry(l, Leaf(w))])
  }

  function LeafText(k: string, v: Json): TextWrite {
    TextWrite("" + Printed("", Field(k)), v)
  }

  lemma TwoLeavesText(k: string, v: Json, l: string, w: Json)
    ensures TextWrites(TwoLeaves(k, v, l, w), "") == [LeafText(k, v)] + [LeafText(l, w)]
  {
    TwoEntriesText(Entry(k, Leaf(v)), Entry(l, Leaf(w)), "");
  }

  ghost predicate OrderHidden(kind: Kind, t: Ordered, u: Ordered) {
    forall obj :: RunText(kind, obj, TextWrites(t, ""), true) == RunText(kind, obj, TextWrites(u, ""), true)
  }

  /** For a patch of two leaves the condition is exact. */
  lemma TwoLeavesAgreeIff(kind: Kind, k: string, v: Json, l: string, w: Json)
    requires kind != OtherKind && IsLeaf(v) && IsLeaf(w)
    ensures OrderHidden(kind, TwoLeaves(k, v, l, w), TwoLeaves(l, w, k, v)) <==> Compatible(kind, LeafText(k, v), LeafText(l, w))
  {
    TwoLeavesText(k, v, l, w);
    TwoLeavesText(l, w, k, v);
    CommuteIff(kind, LeafText(k, v), LeafText(l, w));
    assert OrderHidden(kind, TwoLeaves(k, v, l, w), TwoLeaves(l, w, k, v)) <==> Commute(kind, LeafText(k, v), LeafText(l, w)) by {
      forall obj
        ensures Pair(kind, obj, LeafText(k, v), LeafText(l, w), true) == RunText(kind, obj, TextWrites(TwoLeaves(k, v, l, w), ""), true)
        ensures Pair(kind, obj, LeafText(l, w), LeafText(k, v), true) == RunText(kind, obj, TextWrites(TwoLeaves(l, w, k, v), ""), true)
      {
      }
    }
  }
}
