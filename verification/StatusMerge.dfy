/** What mergo's merge with override comes to, value by value along paths. */
module StatusMerge {
  import opened JsonTree
  import opened PathText
  import opened FieldPath
  import opened DefaultTarget

  /**
   Merging `src` leaves what stands at the path: `src` has nothing there, and above it nothing but maps
   that the path enters by a field.
   */
  ghost predicate Untouched(src: Json, p: seq<Seg>) {
    forall i | 0 <= i <= |p| && Get(Some(src), p[..i]).Found? ::
      i < |p| && Get(Some(src), p[..i]).value.Map? && p[i].Field?
  }

  /** A map at the top is only passed through. */
  lemma UntouchedBelow(m: map<string, Json>, k: string, p: seq<Seg>)
    ensures Untouched(Map(m), [Field(k)] + p) <==> k !in m || Untouched(m[k], p)
  {
    var full := [Field(k)] + p;
    assert full[..0] == [];
    forall i | 1 <= i <= |full| ensures Get(Some(Map(m)), full[..i]) == Get(FieldSlot(m, k), p[..i - 1]) {
      assert full[..i] == [Field(k)] + p[..i - 1] && full[..i][1..] == p[..i - 1];
    }
    if k in m && !Untouched(m[k], p) {
      var i :| 0 <= i <= |p| && Get(Some(m[k]), p[..i]).Found? && !(i < |p| && Get(Some(m[k]), p[..i]).value.Map? && p[i].Field?);
      assert Get(Some(Map(m)), full[..i + 1]) == Get(Some(m[k]), p[..i]);
    } else {
      forall i | 0 <= i <= |full| && Get(Some(Map(m)), full[..i]).Found?
        ensures i < |full| && Get(Some(Map(m)), full[..i]).value.Map? && full[i].Field?
      {
      }
    }
  }

  /** Something that is no map touches everything, and so does a map what is there itself or by an index. */
  lemma TouchedAtOnce(src: Json, p: seq<Seg>)
    requires !src.Map? || p == [] || p[0].Index?
    ensures !Untouched(src, p)
  {
    assert p[..0] == [];
    assert Get(Some(src), p[..0]) == Found(src);
  }

  /**
   Value by value: what is no map stands in the merge at a path if and only if the source has it there,
   or the destination has it there and the source leaves it alone. So the source wins, and nothing
   else appears.
   */
  lemma {:induction false} MergedAt(dst: Json, src: Json, p: seq<Seg>, v: Json)
    requires !v.Map?
    ensures Get(Some(MergeValue(dst, src)), p) == Found(v) <==>
      Get(Some(src), p) == Found(v) || (Get(Some(dst), p) == Found(v) && Untouched(src, p))
    decreases src
  {
    if !src.Map? || p == [] || p[0].Index? {
      TouchedAtOnce(src, p);
    } else if dst.Map? {
      var k, rest := p[0].name, p[1..];
      assert p == [Field(k)] + rest;
      UntouchedBelow(src.fields, k, rest);
      if k in src.fields && k in dst.fields {
        MergedAt(dst.fields[k], src.fields[k], rest, v);
      }
    }
  }

  /** Maps likewise: where the source has one, or the destination has one that is left alone or merged into. */
  lemma {:induction false} MergedMapAt(dst: Json, src: Json, p: seq<Seg>)
    ensures IsMapAt(MergeValue(dst, src), p) <==> IsMapAt(src, p) || (IsMapAt(dst, p) && Untouched(src, p))
    decreases src
  {
    if !src.Map? || p == [] || p[0].Index? {
      TouchedAtOnce(src, p);
    } else if dst.Map? {
      var k, rest := p[0].name, p[1..];
      assert p == [Field(k)] + rest;
      UntouchedBelow(src.fields, k, rest);
      var merged := MergeValue(dst, src).fields;
      assert Get(Some(Map(merged)), p) == Get(FieldSlot(merged, k), rest);
      assert Get(Some(dst), p) == Get(FieldSlot(dst.fields, k), rest);
      assert Get(Some(src), p) == Get(FieldSlot(src.fields, k), rest);
      if k in src.fields && k in dst.fields {
        MergedMapAt(dst.fields[k], src.fields[k], rest);
      }
    }
  }

  predicate IsMapAt(j: Json, p: seq<Seg>) {
    Get(Some(j), p).Found? && Get(Some(j), p).value.Map?
  }
}
