/** When SetData prints a key in brackets: said of the path text in the code, here said of the keys. */
module WrappedKeys {
  import opened PathText
  import opened SetDataSpec

  lemma PrintedCons(path: string, x: Seg, segs: seq<Seg>)
    ensures PrintedAll(path, [x] + segs) == Printed(path, x) + PrintedAll(path + Printed(path, x), segs)
  {
    assert ([x] + segs)[1..] == segs;
  }

  lemma Regroup(a: string, b: string, c: string)
    ensures a + (b + c) == a + b + c
  {
  }

  lemma {:induction false} OneMorePrinted(path: string, segs: seq<Seg>, s: Seg)
    ensures PrintedAll(path, segs + [s]) == PrintedAll(path, segs) + Printed(path + PrintedAll(path, segs), s)
    decreases segs
  {
    if segs == [] {
      PrintedCons(path, s, []);
      assert segs + [s] == [s] + [];
      assert path + "" == path;
    } else {
      var x, rest, p := segs[0], segs[1..], Printed(path, segs[0]);
      var q := PrintedAll(path + p, rest);
      PrintedCons(path, x, rest);
      PrintedCons(path, x, rest + [s]);
      assert segs == [x] + rest && segs + [s] == [x] + (rest + [s]);
      OneMorePrinted(path + p, rest, s);
      Regroup(path, p, q);
      Regroup(p, q, Printed(path + p + q, s));
    }
  }

  lemma {:induction false} OneMoreGood(path: string, segs: seq<Seg>, s: Seg)
    ensures GoodSegs(path, segs + [s]) <==> GoodSegs(path, segs) && StepOk(path + PrintedAll(path, segs), s)
    decreases segs
  {
    if segs == [] {
      OneStepDown(path, s, []);
      assert segs + [s] == [s] + [];
      assert path + "" == path;
    } else {
      var x, rest, p := segs[0], segs[1..], path + Printed(path, segs[0]);
      assert segs == [x] + rest && segs + [s] == [x] + (rest + [s]);
      OneStepDown(path, x, rest);
      OneStepDown(path, x, rest + [s]);
      OneMoreGood(p, rest, s);
    }
  }

  /** In a text that ends in a dotless `k` after a dot, no later place holds a dot. */
  lemma LastDotPlace(a: string, k: string, i: nat)
    requires '.' !in k && i < |a + "." + k| && (a + "." + k)[i] == '.'
    ensures i <= |a|
  {
    assert forall j | |a| < j < |a + "." + k| :: (a + "." + k)[j] == k[j - |a| - 1];
  }

  /** The last dotted piece of a text, and what stands before it, are determined. */
  lemma LastDot(a: string, k: string, p: string, w: string)
    requires '.' !in k && '.' !in w && HasSuffix(a + "." + k, p + "." + w)
    ensures k == w && HasSuffix(a, p)
  {
    var t, s := a + "." + k, p + "." + w;
    var d := |t| - |s|;
    assert t == t[..d] + s;
    var b := t[..d] + p;
    assert t == b + "." + w;
    LastDotPlace(a, k, |b|);
    LastDotPlace(b, w, |a|);
    assert a == t[..|a|] == b && k == t[|a| + 1..] == w;
    assert a[|a| - |p|..] == p;
  }

  /** Is `segs` the path of some object's annotations or labels, the word `metadata` itself not being an annotation key? */
  predicate UnderMetadata(segs: seq<Seg>) {
    var n := |segs|;
    && n >= 2
    && segs[n - 2] == Field("metadata")
    && (segs[n - 1] == Field("annotations") || segs[n - 1] == Field("labels"))
    && !UnderMetadata(segs[..n - 2])
  }

  /** The text of a path that ends in a dotted key. */
  lemma EndsDotted(segs: seq<Seg>)
    requires segs != [] && GoodSegs("", segs)
    ensures var init, s := segs[..|segs| - 1], segs[|segs| - 1];
            && GoodSegs("", init) && Text(segs) == Text(init) + Printed(Text(init), s)
            && (s.Field? ==> KeyOk(s.name, WrapsKeys(Text(init))))
  {
    var init, s := segs[..|segs| - 1], segs[|segs| - 1];
    assert segs == init + [s];
    assert "" + PrintedAll("", init) == Text(init);
    OneMorePrinted("", init, s);
    OneMoreGood("", init, s);
  }

  lemma WrapsIsLastTwo(t: string)
    ensures WrapsKeys(t) <==> HasSuffix(t, ".metadata" + "." + "annotations") || HasSuffix(t, ".metadata" + "." + "labels")
  {
    assert ".metadata" + "." + "annotations" == ".metadata.annotations";
    assert ".metadata" + "." + "labels" == ".metadata.labels";
  }

  lemma BracketNeverWraps(t: string)
    requires t == "" || t[|t| - 1] == ']'
    ensures !WrapsKeys(t) && !HasSuffix(t, ".metadata")
  {
    var a, b, c := ".metadata.annotations", ".metadata.labels", ".metadata";
    assert a[|a| - 1] == 's' && b[|b| - 1] == 's' && c[|c| - 1] == 'a';
    assert forall x: string | x != "" && HasSuffix(t, x) :: t[|t| - 1] == x[|x| - 1];
  }

  /** A dotted key `k` after `a`: wrapped below exactly when `k` is annotations or labels and `a` ends in `.metadata`. */
  lemma DottedWraps(a: string, k: string)
    requires '.' !in k
    ensures WrapsKeys(a + "." + k) <==> (k == "annotations" || k == "labels") && HasSuffix(a, ".metadata")
  {
    WrapsIsLastTwo(a + "." + k);
    LastTwo(a, k, ".metadata", "annotations");
    LastTwo(a, k, ".metadata", "labels");
  }

  lemma LastTwo(a: string, k: string, p: string, w: string)
    requires '.' !in k && '.' !in w
    ensures HasSuffix(a + "." + k, p + "." + w) <==> k == w && HasSuffix(a, p)
  {
    if HasSuffix(a + "." + k, p + "." + w) {
      LastDot(a, k, p, w);
    }
    if k == w && HasSuffix(a, p) {
      SuffixAppend(a, p, "." + k);
      Regroup(a, ".", k);
      Regroup(p, ".", w);
    }
  }

  lemma SuffixAppend(a: string, s: string, b: string)
    requires HasSuffix(a, s)
    ensures HasSuffix(a + b, s + b)
  {
    assert (a + b)[|a| - |s|..] == s + b;
  }

  lemma DottedMetadata(a: string, k: string)
    requires '.' !in k
    ensures HasSuffix(a + "." + k, ".metadata") <==> k == "metadata"
  {
    assert "" + "." + "metadata" == ".metadata";
    if HasSuffix(a + "." + k, ".metadata") {
      LastDot(a, k, "", "metadata");
    }
    if k == "metadata" {
      assert (a + "." + k)[|a|..] == "." + k;
    }
  }

  /** A path ends in `.metadata` exactly when its last key is a dotted `metadata`. */
  lemma MetadataLast(segs: seq<Seg>)
    requires GoodSegs("", segs)
    ensures HasSuffix(Text(segs), ".metadata") <==>
      segs != [] && segs[|segs| - 1] == Field("metadata") && !WrapsKeys(Text(segs[..|segs| - 1]))
  {
    if segs == [] {
      BracketNeverWraps("");
    } else {
      EndsDotted(segs);
      MetadataStep(Text(segs[..|segs| - 1]), segs[|segs| - 1], WrapsKeys(Text(segs[..|segs| - 1])));
    }
  }

  lemma MetadataStep(t: string, s: Seg, wrapped: bool)
    requires wrapped == WrapsKeys(t) && (s.Field? ==> KeyOk(s.name, wrapped))
    ensures HasSuffix(t + Printed(t, s), ".metadata") <==> s == Field("metadata") && !wrapped
  {
    if s.Index? || wrapped {
      BracketNeverWraps(t + Printed(t, s));
    } else {
      DottedMetadata(t, s.name);
      assert t + ("." + s.name) == t + "." + s.name;
    }
  }

  lemma WrapsStep(t: string, s: Seg, wrapped: bool)
    requires wrapped == WrapsKeys(t) && (s.Field? ==> KeyOk(s.name, wrapped))
    ensures WrapsKeys(t + Printed(t, s)) <==>
      !wrapped && (s == Field("annotations") || s == Field("labels")) && HasSuffix(t, ".metadata")
  {
    if s.Index? || wrapped {
      BracketNeverWraps(t + Printed(t, s));
    } else {
      DottedWraps(t, s.name);
      assert t + ("." + s.name) == t + "." + s.name;
    }
  }

  /**
   The code's suffix test on the path text means what its comment says: on safe paths the keys below
   are bracketed exactly under `metadata.annotations` or `metadata.labels`, at any depth.
   */
  lemma {:induction false} BracketsExactlyUnderMetadata(segs: seq<Seg>)
    requires GoodSegs("", segs)
    ensures WrapsKeys(Text(segs)) <==> UnderMetadata(segs)
    decreases |segs|
  {
    if segs == [] {
      BracketNeverWraps("");
    } else {
      var n := |segs|;
      var init, s := segs[..n - 1], segs[n - 1];
      EndsDotted(segs);
      WrapsStep(Text(init), s, WrapsKeys(Text(init)));
      MetadataLast(init);
      BracketsExactlyUnderMetadata(init);
      if init != [] {
        var inner := init[..n - 2];
        assert segs[..n - 2] == inner;
        EndsDotted(init);
        BracketsExactlyUnderMetadata(inner);
      }
    }
  }
}
