/** Which leaves of a patch may be written one before the other or the other way round, safe keys or not. */
module OrderAgreement {
  import opened JsonTree
  import opened PathText
  import opened FieldPath
  import opened AnyOrder
  import opened SetDataSpec
  import opened LastWrites
  import opened IndexReading

  // ---------------------------------------------------------------- two writes through paths

  /** One write after another. */
  function Two(slot: Option<Json>, p: seq<Seg>, v: Json, q: seq<Seg>, w: Json, overwrite: bool): Outcome<Json> {
    match Write(slot, p, v, overwrite)
    case Fail => Fail
    case Ok(mid) => Write(Some(mid), q, w, overwrite)
  }

  lemma TwoUnderField(slot: Option<Json>, k: string, p: seq<Seg>, v: Json, q: seq<Seg>, w: Json, overwrite: bool)
    ensures Two(slot, [Field(k)] + p, v, [Field(k)] + q, w, overwrite) ==
      match FieldsOf(slot)
      case None => Fail
      case Some(m) =>
        match Two(FieldSlot(m, k), p, v, q, w, overwrite)
        case Fail => Fail
        case Ok(r) => Ok(Map(m[k := r]))
  {
    WriteField(slot, k, p, v, overwrite);
    if FieldsOf(slot).Some? {
      var m := FieldsOf(slot).value;
      var mid := Write(FieldSlot(m, k), p, v, overwrite);
      if mid.Ok? {
        WriteField(Some(Map(m[k := mid.value])), k, q, w, overwrite);
        var r := Write(Some(mid.value), q, w, overwrite);
        assert r.Ok? ==> m[k := mid.value][k := r.value] == m[k := r.value];
      }
    }
  }

  lemma TwoUnderIndex(slot: Option<Json>, i: nat, p: seq<Seg>, v: Json, q: seq<Seg>, w: Json, overwrite: bool)
    requires p != []
    ensures Two(slot, [Index(i)] + p, v, [Index(i)] + q, w, overwrite) ==
      match ElemsOf(slot)
      case None => Fail
      case Some(l) =>
        match Two(ElemSlot(l, i), p, v, q, w, overwrite)
        case Fail => Fail
        case Ok(r) => Ok(List(SetElem(l, i, r)))
  {
    WriteIndex(slot, i, p, v, overwrite);
    if ElemsOf(slot).Some? {
      var l := ElemsOf(slot).value;
      var mid := Write(ElemSlot(l, i), p, v, overwrite);
      if mid.Ok? {
        BelowIsContainer(ElemSlot(l, i), LeafWrite(p, v), overwrite);
        WriteIndex(Some(List(SetElem(l, i, mid.value))), i, q, w, overwrite);
        var r := Write(Some(mid.value), q, w, overwrite);
        assert r.Ok? ==> SetElem(SetElem(l, i, mid.value), i, r.value) == SetElem(l, i, r.value);
      }
    }
  }

  lemma SwapFields(slot: Option<Json>, k: string, p: seq<Seg>, v: Json, k2: string, q: seq<Seg>, w: Json, overwrite: bool)
    requires k != k2
    ensures Two(slot, [Field(k)] + p, v, [Field(k2)] + q, w, overwrite) == Two(slot, [Field(k2)] + q, w, [Field(k)] + p, v, overwrite)
  {
    WriteField(slot, k, p, v, overwrite);
    WriteField(slot, k2, q, w, overwrite);
    if FieldsOf(slot).Some? {
      var m := FieldsOf(slot).value;
      var a, b := Write(FieldSlot(m, k), p, v, overwrite), Write(FieldSlot(m, k2), q, w, overwrite);
      if a.Ok? {
        WriteField(Some(Map(m[k := a.value])), k2, q, w, overwrite);
      }
      if b.Ok? {
        WriteField(Some(Map(m[k2 := b.value])), k, p, v, overwrite);
      }
      assert a.Ok? && b.Ok? ==> m[k := a.value][k2 := b.value] == m[k2 := b.value][k := a.value];
    }
  }

  lemma SetElemsSwap(l: seq<Json>, i: nat, a: Json, j: nat, b: Json)
    requires i != j
    ensures SetElem(SetElem(l, i, a), j, b) == SetElem(SetElem(l, j, b), i, a)
    ensures ElemSlot(SetElem(l, i, a), j) == ElemSlot(l, j)
  {
  }

  lemma SwapIndexes(slot: Option<Json>, i: nat, p: seq<Seg>, v: Json, j: nat, q: seq<Seg>, w: Json, overwrite: bool)
    requires i != j
    ensures Two(slot, [Index(i)] + p, v, [Index(j)] + q, w, overwrite) == Two(slot, [Index(j)] + q, w, [Index(i)] + p, v, overwrite)
  {
    WriteIndex(slot, i, p, v, overwrite);
    WriteIndex(slot, j, q, w, overwrite);
    if ElemsOf(slot).Some? {
      var l := ElemsOf(slot).value;
      var a, b := Write(ElemSlot(l, i), p, v, overwrite), Write(ElemSlot(l, j), q, w, overwrite);
      if a.Ok? {
        SetElemsSwap(l, i, a.value, j, Null);
        WriteIndex(Some(List(SetElem(l, i, a.value))), j, q, w, overwrite);
      }
      if b.Ok? {
        SetElemsSwap(l, j, b.value, i, Null);
        WriteIndex(Some(List(SetElem(l, j, b.value))), i, p, v, overwrite);
      }
      if a.Ok? && b.Ok? {
        SetElemsSwap(l, i, a.value, j, b.value);
      }
    }
  }

  /** A field of what has just become a list, or an element of what has become a map: both orders fail. */
  lemma SwapKinds(slot: Option<Json>, k: string, p: seq<Seg>, v: Json, i: nat, q: seq<Seg>, w: Json, overwrite: bool)
    ensures Two(slot, [Field(k)] + p, v, [Index(i)] + q, w, overwrite) == Fail
    ensures Two(slot, [Index(i)] + q, w, [Field(k)] + p, v, overwrite) == Fail
  {
    WriteField(slot, k, p, v, overwrite);
    WriteIndex(slot, i, q, w, overwrite);
    var a, b := Write(slot, [Field(k)] + p, v, overwrite), Write(slot, [Index(i)] + q, w, overwrite);
    if a.Ok? {
      WriteIndex(Some(a.value), i, q, w, overwrite);
    }
    if b.Ok? {
      WriteField(Some(b.value), k, p, v, overwrite);
    }
  }

  /** Writes through incomparable paths may change places. */
  lemma {:induction false} SwapWrites(slot: Option<Json>, p: seq<Seg>, v: Json, q: seq<Seg>, w: Json, overwrite: bool)
    requires !Comparable(p, q)
    ensures Two(slot, p, v, q, w, overwrite) == Two(slot, q, w, p, v, overwrite)
    decreases p
  {
    var p1, q1 := p[1..], q[1..];
    assert p == [p[0]] + p1 && q == [q[0]] + q1;
    match (p[0], q[0])
    case (Field(k), Field(k2)) =>
      if k == k2 {
        TwoUnderField(slot, k, p1, v, q1, w, overwrite);
        TwoUnderField(slot, k, q1, w, p1, v, overwrite);
        if FieldsOf(slot).Some? {
          SwapWrites(FieldSlot(FieldsOf(slot).value, k), p1, v, q1, w, overwrite);
        }
      } else {
        SwapFields(slot, k, p1, v, k2, q1, w, overwrite);
      }
    case (Index(i), Index(j)) =>
      if i == j {
        TwoUnderIndex(slot, i, p1, v, q1, w, overwrite);
        TwoUnderIndex(slot, i, q1, w, p1, v, overwrite);
        if ElemsOf(slot).Some? {
          SwapWrites(ElemSlot(ElemsOf(slot).value, i), p1, v, q1, w, overwrite);
        }
      } else {
        SwapIndexes(slot, i, p1, v, j, q1, w, overwrite);
      }
    case (Field(k), Index(j)) => SwapKinds(slot, k, p1, v, j, q1, w, overwrite);
    case (Index(i), Field(k)) => SwapKinds(slot, k, q1, w, i, p1, v, overwrite);
  }

  // ---------------------------------------------------------------- two leaves of a patch

  /** The leaf is not written at all. */
  predicate Skipped(kind: Kind, x: TextWrite) {
    kind == ComposedKind && IsProtectedText(TrimDot(x.path))
  }

  /** The text cannot be read as a place, so that writing the leaf is an error. */
  predicate Unreadable(kind: Kind, x: TextWrite) {
    !Skipped(kind, x) && (ReadsAs(x.path) == None || ReadsAs(x.path) == Some([]))
  }

  /** One of the two is not written or is an error anyway, or they lead to places apart, or they are the same write. */
  predicate Compatible(kind: Kind, x: TextWrite, y: TextWrite) {
    || Skipped(kind, x) || Skipped(kind, y) || Unreadable(kind, x) || Unreadable(kind, y)
    || !Comparable(ReadsAs(x.path).value, ReadsAs(y.path).value)
    || (ReadsAs(x.path) == ReadsAs(y.path) && x.value == y.value)
  }

  function Pair(kind: Kind, obj: Option<Json>, x: TextWrite, y: TextWrite, overwrite: bool): Outcome<Option<Json>> {
    RunText(kind, obj, [x] + [y], overwrite)
  }

  lemma PairIs(kind: Kind, obj: Option<Json>, x: TextWrite, y: TextWrite, overwrite: bool)
    ensures Pair(kind, obj, x, y, overwrite) ==
      match WriteText(kind, obj, x.path, x.value, overwrite)
      case Fail => Fail
      case Ok(mid) => WriteText(kind, mid, y.path, y.value, overwrite)
  {
    RunOneText(kind, obj, [x], y, overwrite);
    SingleText(kind, obj, x, overwrite);
  }

  predicate IsWritten(kind: Kind, x: TextWrite) {
    kind != OtherKind && !Skipped(kind, x) && !Unreadable(kind, x)
  }

  function Lift(r: Outcome<Json>): Outcome<Option<Json>> {
    if r.Ok? then Ok(Some(r.value)) else Fail
  }

  lemma WrittenIs(kind: Kind, obj: Json, x: TextWrite, overwrite: bool)
    requires IsWritten(kind, x)
    ensures WriteText(kind, Some(obj), x.path, x.value, overwrite) == Lift(Write(Some(obj), ReadsAs(x.path).value, x.value, overwrite))
  {
  }

  lemma PairWritten(kind: Kind, obj: Json, x: TextWrite, y: TextWrite, overwrite: bool)
    requires IsWritten(kind, x) && IsWritten(kind, y)
    ensures Pair(kind, Some(obj), x, y, overwrite) ==
      Lift(Two(Some(obj), ReadsAs(x.path).value, x.value, ReadsAs(y.path).value, y.value, overwrite))
  {
    PairIs(kind, Some(obj), x, y, overwrite);
    WrittenIs(kind, obj, x, overwrite);
    var mid := Write(Some(obj), ReadsAs(x.path).value, x.value, overwrite);
    if mid.Ok? {
      WrittenIs(kind, mid.value, y, overwrite);
    }
  }

  lemma NotWritten(kind: Kind, obj: Option<Json>, x: TextWrite, overwrite: bool)
    requires !IsWritten(kind, x) || obj.None?
    ensures WriteText(kind, obj, x.path, x.value, overwrite) == if Skipped(kind, x) then Ok(obj) else Fail
  {
  }

  lemma CompatibleCommute(kind: Kind, obj: Option<Json>, x: TextWrite, y: TextWrite, overwrite: bool)
    requires Compatible(kind, x, y)
    ensures Pair(kind, obj, x, y, overwrite) == Pair(kind, obj, y, x, overwrite)
  {
    if obj.Some? && IsWritten(kind, x) && IsWritten(kind, y) {
      PairWritten(kind, obj.value, x, y, overwrite);
      PairWritten(kind, obj.value, y, x, overwrite);
      if !Comparable(ReadsAs(x.path).value, ReadsAs(y.path).value) {
        SwapWrites(obj, ReadsAs(x.path).value, x.value, ReadsAs(y.path).value, y.value, overwrite);
      }
    } else {
      OneNotWritten(kind, obj, x, y, overwrite);
      OneNotWritten(kind, obj, y, x, overwrite);
    }
  }

  /** With one of two leaves left out or an error, and for a nil object, the outcome is plain. */
  lemma OneNotWritten(kind: Kind, obj: Option<Json>, x: TextWrite, y: TextWrite, overwrite: bool)
    requires obj.None? || !IsWritten(kind, x) || !IsWritten(kind, y)
    ensures Pair(kind, obj, x, y, overwrite) ==
      if Skipped(kind, x) then WriteText(kind, obj, y.path, y.value, overwrite)
      else if Skipped(kind, y) then WriteText(kind, obj, x.path, x.value, overwrite)
      else Fail
  {
    PairIs(kind, obj, x, y, overwrite);
    if obj.None? || !IsWritten(kind, x) {
      NotWritten(kind, obj, x, overwrite);
    } else {
      WrittenIs(kind, obj.value, x, overwrite);
    }
    var mid := WriteText(kind, obj, x.path, x.value, overwrite);
    if mid.Ok? && (mid.value.None? || !IsWritten(kind, y)) {
      NotWritten(kind, mid.value, y, overwrite);
    }
  }

  // ---------------------------------------------------------------- incompatible leaves show the order

  /** The empty object or list into which a path can be set. */
  function Blank(p: seq<Seg>): Json {
    if p != [] && p[0].Index? then List([]) else Map(map[])
  }

  lemma {:induction false} SetOnNothing(p: seq<Seg>, v: Json)
    ensures Set(None, p, v).Ok?
    ensures p != [] ==> Set(Some(Blank(p)), p, v) == Set(None, p, v)
    decreases p
  {
    if p != [] {
      SetOnNothing(p[1..], v);
      assert FieldSlot(map[], if p[0].Field? then p[0].name else "") == None;
    }
  }

  /** What has been set below a place can be set over, at the place or there again. */
  lemma {:induction false} SetAbove(slot: Option<Json>, p: seq<Seg>, v: Json, q: seq<Seg>, w: Json)
    requires q <= p && Set(slot, p, v).Ok?
    ensures Set(Some(Set(slot, p, v).value), q, w).Ok?
    decreases q
  {
    if q != [] {
      match q[0]
      case Field(k) => SetAbove(FieldSlot(FieldsOf(slot).value, k), p[1..], v, q[1..], w);
      case Index(i) =>
        var l := ElemsOf(slot).value;
        SetAbove(ElemSlot(l, i), p[1..], v, q[1..], w);
        if ElemSlot(SetElem(l, i, Set(ElemSlot(l, i), p[1..], v).value), i).None? {
          SetOnNothing(q[1..], w);
        }
    }
  }

  /** Above a leaf that has been set there is a container. */
  lemma {:induction false} ContainerAbove(slot: Option<Json>, p: seq<Seg>, v: Json, q: seq<Seg>)
    requires q < p && Set(slot, p, v).Ok?
    ensures var g := Get(Some(Set(slot, p, v).value), q); g.Found? && !IsLeaf(g.value)
    decreases q
  {
    if q != [] {
      match q[0]
      case Field(k) => ContainerAbove(FieldSlot(FieldsOf(slot).value, k), p[1..], v, q[1..]);
      case Index(i) => ContainerAbove(ElemSlot(ElemsOf(slot).value, i), p[1..], v, q[1..]);
    }
  }

  /** On the blank object a write at or below a place and then one at the place: the latter is left. */
  lemma OverIsLeft(p: seq<Seg>, v: Json, q: seq<Seg>, w: Json)
    requires q != [] && q <= p && IsLeaf(w)
    ensures var r := Two(Some(Blank(p)), p, v, q, w, true); r.Ok? && Get(Some(r.value), q) == Found(w)
  {
    var b := Some(Blank(p));
    SetOnNothing(p, v);
    if Get(b, p) == Broken { BrokenCannotBeSet(b, p, v); }
    var mid := Set(b, p, v).value;
    SetAbove(b, p, v, q, w);
    if Get(Some(mid), q) == Broken { BrokenCannotBeSet(Some(mid), q, w); }
    GetAfterSet(Some(mid), q, w);
  }

  /** The other way round it is not: either the lower write fails, or its container stands there. */
  lemma UnderIsNotLeft(q: seq<Seg>, w: Json, p: seq<Seg>, v: Json)
    requires q != [] && q < p && IsLeaf(w)
    ensures var r := Two(Some(Blank(p)), q, w, p, v, true); r.Ok? ==> Get(Some(r.value), q) != Found(w)
  {
    var r := Two(Some(Blank(p)), q, w, p, v, true);
    if r.Ok? {
      ContainerAbove(Some(Write(Some(Blank(p)), q, w, true).value), p, v, q);
    }
  }

  lemma IncompatibleDiffer(p: seq<Seg>, v: Json, q: seq<Seg>, w: Json)
    requires q != [] && q <= p && IsLeaf(v) && IsLeaf(w) && !(p == q && v == w)
    ensures Two(Some(Blank(p)), p, v, q, w, true) != Two(Some(Blank(p)), q, w, p, v, true)
  {
    OverIsLeft(p, v, q, w);
    if p == q {
      OverIsLeft(q, w, p, v);
    } else {
      UnderIsNotLeft(q, w, p, v);
    }
  }

  ghost predicate Commute(kind: Kind, x: TextWrite, y: TextWrite) {
    forall obj :: Pair(kind, obj, x, y, true) == Pair(kind, obj, y, x, true)
  }

  lemma DifferSomewhere(kind: Kind, x: TextWrite, y: TextWrite)
    requires kind != OtherKind && IsLeaf(x.value) && IsLeaf(y.value) && !Compatible(kind, x, y)
    ensures !Commute(kind, x, y)
  {
    var p, q := ReadsAs(x.path).value, ReadsAs(y.path).value;
    var obj := Blank(if q <= p then p else q);
    PairWritten(kind, obj, x, y, true);
    PairWritten(kind, obj, y, x, true);
    if q <= p {
      IncompatibleDiffer(p, x.value, q, y.value);
    } else {
      IncompatibleDiffer(q, y.value, p, x.value);
    }
    assert Pair(kind, Some(obj), x, y, true) != Pair(kind, Some(obj), y, x, true);
  }

  /**
   Two leaves, exactly: with overwrite their order does not show on any object if and only if one of
   them is not written or is an error anyway, or they are read as incomparable paths, or they are the
   same write.
   */
  lemma CommuteIff(kind: Kind, x: TextWrite, y: TextWrite)
    requires kind != OtherKind && IsLeaf(x.value) && IsLeaf(y.value)
    ensures Commute(kind, x, y) <==> Compatible(kind, x, y)
  {
    if Compatible(kind, x, y) {
      forall obj ensures Pair(kind, obj, x, y, true) == Pair(kind, obj, y, x, true) {
        CompatibleCommute(kind, obj, x, y, true);
      }
    } else {
      DifferSomewhere(kind, x, y);
    }
  }

  // ---------------------------------------------------------------- whole runs

  ghost predicate AllCompatible(kind: Kind, tws: seq<TextWrite>) {
    forall x, y | x in tws && y in tws :: Compatible(kind, x, y)
  }

  lemma {:induction false} ToTheFront(kind: Kind, obj: Option<Json>, before: seq<TextWrite>, x: TextWrite, overwrite: bool)
    requires forall y | y in before :: Compatible(kind, y, x)
    ensures RunText(kind, obj, before + [x], overwrite) == RunText(kind, obj, [x] + before, overwrite)
    decreases |before|
  {
    if before == [] {
      assert before + [x] == [x] + before;
    } else {
      var y, rest := before[0], before[1..];
      assert before + [x] == [y] + (rest + [x]);
      assert [x] + before == ([x] + [y]) + rest;
      RunTextAppend(kind, obj, [y], rest + [x], overwrite);
      RunTextAppend(kind, obj, [x] + [y], rest, overwrite);
      CompatibleCommute(kind, obj, y, x, overwrite);
      var mid := RunText(kind, obj, [y], overwrite);
      if mid.Ok? {
        ToTheFront(kind, mid.value, rest, x, overwrite);
        RunTextAppend(kind, mid.value, [x], rest, overwrite);
      }
      RunTextAppend(kind, obj, [y], [x], overwrite);
    }
  }

  lemma Cut(b: seq<TextWrite>, x: TextWrite) returns (i: nat)
    requires x in b
    ensures i < |b| && b == b[..i] + [x] + b[i + 1..]
    ensures multiset(b) == multiset(b[..i] + b[i + 1..]) + multiset{x}
  {
    i :| 0 <= i < |b| && b[i] == x;
    assert b == b[..i] + [x] + b[i + 1..];
  }

  lemma SameRest(x: TextWrite, rest: seq<TextWrite>, b: seq<TextWrite>, c: seq<TextWrite>)
    requires multiset([x] + rest) == multiset(b) && multiset(b) == multiset(c) + multiset{x}
    ensures multiset(rest) == multiset(c)
  {
    assert multiset([x] + rest) == multiset(rest) + multiset{x};
    assert multiset(rest) == (multiset(rest) + multiset{x}) - multiset{x};
    assert multiset(c) == (multiset(c) + multiset{x}) - multiset{x};
  }

  lemma FromTheMiddle(kind: Kind, obj: Option<Json>, b1: seq<TextWrite>, x: TextWrite, b2: seq<TextWrite>, overwrite: bool)
    requires forall y | y in b1 :: Compatible(kind, y, x)
    ensures RunText(kind, obj, b1 + [x] + b2, overwrite) == ThenText(kind, RunText(kind, obj, [x], overwrite), b1 + b2, overwrite)
  {
    ToTheFront(kind, obj, b1, x, overwrite);
    RunTextAppend(kind, obj, b1 + [x], b2, overwrite);
    RunTextAppend(kind, obj, [x] + b1, b2, overwrite);
    assert ([x] + b1) + b2 == [x] + (b1 + b2);
    RunTextAppend(kind, obj, [x], b1 + b2, overwrite);
  }

  /** Compatible leaves may be written in any order. */
  lemma {:induction false} PermutedRun(kind: Kind, obj: Option<Json>, a: seq<TextWrite>, b: seq<TextWrite>, overwrite: bool)
    requires multiset(a) == multiset(b) && AllCompatible(kind, a)
    ensures RunText(kind, obj, a, overwrite) == RunText(kind, obj, b, overwrite)
    decreases |a|
  {
    if a == [] {
      assert |multiset(b)| == 0;
    } else {
      var x, rest := a[0], a[1..];
      assert a == [x] + rest;
      SameMembers(a, b);
      var i := Cut(b, x);
      var c := b[..i] + b[i + 1..];
      SameRest(x, rest, b, c);
      FromTheMiddle(kind, obj, b[..i], x, b[i + 1..], overwrite);
      RunTextAppend(kind, obj, [x], rest, overwrite);
      var mid := RunText(kind, obj, [x], overwrite);
      if mid.Ok? {
        PermutedRun(kind, mid.value, rest, c, overwrite);
      }
    }
  }

  lemma SameMembers(a: seq<TextWrite>, b: seq<TextWrite>)
    requires multiset(a) == multiset(b)
    ensures forall x :: x in a <==> x in b
  {
    forall x ensures x in a <==> x in b {
      assert x in a <==> x in multiset(a);
      assert x in b <==> x in multiset(b);
    }
  }

  /** A run with an unreadable text in it fails. */
  lemma {:induction false} UnreadableFails(kind: Kind, obj: Option<Json>, tws: seq<TextWrite>, overwrite: bool)
    requires exists x :: x in tws && Unreadable(kind, x)
    ensures RunText(kind, obj, tws, overwrite) == Fail
    decreases |tws|
  {
    var x :| x in tws && Unreadable(kind, x);
    if tws[0] != x {
      assert x in tws[1..];
      var mid := WriteText(kind, obj, tws[0].path, tws[0].value, overwrite);
      if mid.Ok? {
        UnreadableFails(kind, mid.value, tws[1..], overwrite);
      }
    } else {
      NotWritten(kind, obj, x, overwrite);
    }
  }
}
