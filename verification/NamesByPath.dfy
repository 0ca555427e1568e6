/** What res.go reads off an object's metadata, said by paths into the tree. */
module NamesByPath {
  import opened JsonTree
  import opened PathText
  import opened FieldPath
  import opened ResourceNames

  function AnnotationPath(k: string): seq<Seg> {
    [Field("metadata"), Field("annotations"), Field(k)]
  }

  /** Every annotation there is, is a string. */
  ghost predicate StringAnnotations(obj: Json) {
    forall k: string :: Get(Some(obj), AnnotationPath(k)).Found? ==> Get(Some(obj), AnnotationPath(k)).value.Str?
  }

  /** The string at a path, or the empty one. */
  function TextAt(obj: Json, path: seq<Seg>): string {
    match Get(Some(obj), path)
    case Found(Str(s)) => s
    case _ => ""
  }

  /** One step down, as the readers of Kubernetes objects take it. */
  lemma GetField(j: Json, k: string, p: seq<Seg>, v: Json)
    ensures Get(Some(j), [Field(k)] + p) == Found(v) <==>
      FieldOf(Some(j), k).Some? && Get(FieldOf(Some(j), k), p) == Found(v)
  {
    assert ([Field(k)] + p)[1..] == p;
  }

  lemma GetOneField(j: Json, k: string, v: Json)
    ensures Get(Some(j), [Field(k)]) == Found(v) <==> FieldOf(Some(j), k) == Some(v)
  {
    assert [Field(k)] == [Field(k)] + [];
    GetField(j, k, [], v);
  }

  lemma GetAnnotation(obj: Json, k: string, v: Json)
    ensures Get(Some(obj), AnnotationPath(k)) == Found(v) <==>
      AnnotationsField(obj).Some? && AnnotationsField(obj).value.Map? && FieldSlot(AnnotationsField(obj).value.fields, k) == Some(v)
  {
    var md, an := FieldOf(Some(obj), "metadata"), AnnotationsField(obj);
    var p := [Field("annotations")] + [Field(k)];
    assert AnnotationPath(k) == [Field("metadata")] + p;
    GetField(obj, "metadata", p, v);
    if md.Some? {
      GetField(md.value, "annotations", [Field(k)], v);
    }
    if an.Some? {
      GetOneField(an.value, k, v);
    }
  }

  /** GetAnnotations, exactly: an annotation counts if and only if it is there and all annotations are strings. */
  lemma AnnotationIff(obj: Json, k: string, s: string)
    ensures k in Annotations(obj) && Annotations(obj)[k] == s <==>
      StringAnnotations(obj) && Get(Some(obj), AnnotationPath(k)) == Found(Str(s))
  {
    GetAnnotation(obj, k, Str(s));
    var a := AnnotationsField(obj);
    if a.Some? && a.value.Map? {
      var m := a.value.fields;
      if StringMap(a).Some? {
        forall x: string | Get(Some(obj), AnnotationPath(x)).Found? ensures Get(Some(obj), AnnotationPath(x)).value.Str? {
          GetAnnotation(obj, x, Get(Some(obj), AnnotationPath(x)).value);
        }
      } else {
        var x :| x in m && !m[x].Str?;
        GetAnnotation(obj, x, m[x]);
        assert !StringAnnotations(obj);
      }
    }
  }

  lemma OneField(obj: Json, k: string)
    ensures StringOr(FieldOf(Some(obj), k)) == TextAt(obj, [Field(k)])
  {
    var slot := FieldOf(Some(obj), k);
    if slot.Some? {
      GetOneField(obj, k, slot.value);
    } else if Get(Some(obj), [Field(k)]).Found? {
      GetOneField(obj, k, Get(Some(obj), [Field(k)]).value);
    }
  }

  lemma NameAtPath(obj: Json)
    ensures NameOf(obj) == TextAt(obj, [Field("metadata"), Field("name")])
  {
    var md, path := FieldOf(Some(obj), "metadata"), [Field("metadata"), Field("name")];
    assert path == [Field("metadata")] + [Field("name")];
    forall v ensures Get(Some(obj), path) == Found(v) <==> md.Some? && FieldOf(md, "name") == Some(v) {
      GetField(obj, "metadata", [Field("name")], v);
      if md.Some? {
        GetOneField(md.value, "name", v);
      }
    }
  }

  /** The identity fields are the strings at their paths. */
  lemma IdentityByPath(obj: Json)
    ensures ApiVersionOf(obj) == TextAt(obj, [Field("apiVersion")])
    ensures KindOf(obj) == TextAt(obj, [Field("kind")])
    ensures NameOf(obj) == TextAt(obj, [Field("metadata"), Field("name")])
  {
    OneField(obj, "apiVersion");
    OneField(obj, "kind");
    NameAtPath(obj);
  }

  /** The name an object is meant for: that of its naming annotation if that counts, else metadata.name. */
  ghost predicate NamedBy(obj: Json, n: string) {
    if StringAnnotations(obj) && Get(Some(obj), AnnotationPath(NAME_KEY)).Found?
    then Get(Some(obj), AnnotationPath(NAME_KEY)) == Found(Str(n))
    else n == TextAt(obj, [Field("metadata"), Field("name")])
  }

  /** GetResourceName's result, exactly. */
  lemma ResourceNameIff(obj: Json, n: string)
    ensures ResourceName(obj) == n <==> NamedBy(obj, n)
  {
    IdentityByPath(obj);
    AnnotationIff(obj, NAME_KEY, n);
    if NAME_KEY in Annotations(obj) {
      AnnotationIff(obj, NAME_KEY, Annotations(obj)[NAME_KEY]);
    } else if StringAnnotations(obj) && Get(Some(obj), AnnotationPath(NAME_KEY)).Found? {
      AnnotationIff(obj, NAME_KEY, Get(Some(obj), AnnotationPath(NAME_KEY)).value.s);
    }
  }

  /** ReadyOk, by path: a ready annotation that counts says True, False or Unspecified. */
  lemma ReadyOkIff(obj: Json)
    ensures ReadyOk(obj) <==>
      (StringAnnotations(obj) && Get(Some(obj), AnnotationPath(READY_KEY)).Found? ==>
         TextAt(obj, AnnotationPath(READY_KEY)) in ["True", "False", "Unspecified"])
  {
    if READY_KEY in Annotations(obj) {
      AnnotationIff(obj, READY_KEY, Annotations(obj)[READY_KEY]);
    } else if StringAnnotations(obj) && Get(Some(obj), AnnotationPath(READY_KEY)).Found? {
      AnnotationIff(obj, READY_KEY, Get(Some(obj), AnnotationPath(READY_KEY)).value.s);
    }
  }

  /** So every object has one name. */
  lemma NamedByOne(obj: Json)
    ensures forall n :: NamedBy(obj, n) <==> n == ResourceName(obj)
  {
    forall n ensures NamedBy(obj, n) <==> n == ResourceName(obj) {
      ResourceNameIff(obj, n);
    }
  }

  /** Removing an annotation, by path: one that counts is gone; when annotations do not count nothing changes. */
  lemma RemovedByPath(obj: Json, k: string)
    ensures StringAnnotations(obj) ==> !Get(Some(RemoveAnnotation(obj, k)), AnnotationPath(k)).Found?
    ensures !StringAnnotations(obj) ==> RemoveAnnotation(obj, k) == obj
  {
    if k in Annotations(obj) {
      AnnotationIff(obj, k, Annotations(obj)[k]);
      var r := RemoveAnnotation(obj, k);
      if Get(Some(r), AnnotationPath(k)).Found? {
        GetAnnotation(r, k, Get(Some(r), AnnotationPath(k)).value);
      }
    } else if StringAnnotations(obj) && Get(Some(obj), AnnotationPath(k)).Found? {
      AnnotationIff(obj, k, Get(Some(obj), AnnotationPath(k)).value.s);
    }
  }
}
