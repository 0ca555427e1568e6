/** Names and annotations of Kubernetes objects, as res.go reads and removes them. */
module ResourceNames {
  import opened JsonTree

  const READY_KEY := "krm.kcl.dev/ready"
  const NAME_KEY := "krm.kcl.dev/composition-resource-name"
  const META_API_VERSION := "meta.krm.kcl.dev/v1alpha1"

  /** A map of strings, or nothing when some value is not a string. */
  function StringMap(j: Option<Json>): Option<map<string, string>> {
    match j
    case Some(Map(m)) => if forall k | k in m :: m[k].Str? then Some(map k | k in m :: m[k].s) else None
    case _ => None
  }

  function FieldOf(j: Option<Json>, k: string): Option<Json> {
    match j
    case Some(Map(m)) => FieldSlot(m, k)
    case _ => None
  }

  function StringOr(j: Option<Json>): string {
    match j
    case Some(Str(s)) => s
    case _ => ""
  }

  function AnnotationsField(obj: Json): Option<Json> {
    FieldOf(FieldOf(Some(obj), "metadata"), "annotations")
  }

  /** GetAnnotations: empty when absent or when some value is not a string. */
  function Annotations(obj: Json): map<string, string> {
    var a := StringMap(AnnotationsField(obj));
    if a.Some? then a.value else map[]
  }

  /** meta.RemoveAnnotations with one key. */
  function RemoveAnnotation(obj: Json, key: string): Json {
    if key !in Annotations(obj) then obj
    else
      var md := obj.fields["metadata"].fields;
      Map(obj.fields["metadata" := Map(md["annotations" := Map(md["annotations"].fields - {key})])])
  }

  function ApiVersionOf(obj: Json): string { StringOr(FieldOf(Some(obj), "apiVersion")) }
  function KindOf(obj: Json): string { StringOr(FieldOf(Some(obj), "kind")) }
  function NameOf(obj: Json): string { StringOr(FieldOf(FieldOf(Some(obj), "metadata"), "name")) }

  /** GetResourceName's result (res.go:597-604): the annotation, else metadata.name. */
  function ResourceName(obj: Json): string {
    var a := Annotations(obj);
    if NAME_KEY in a then a[NAME_KEY] else NameOf(obj)
  }

  /** GetResourceName's effect on the object. */
  function Clean(obj: Json): Json {
    RemoveAnnotation(obj, NAME_KEY)
  }

  lemma StringMapMinus(m: map<string, Json>, key: string)
    requires StringMap(Some(Map(m))).Some?
    ensures StringMap(Some(Map(m - {key}))) == Some(StringMap(Some(Map(m))).value - {key})
  {
    var b := m - {key};
    assert forall k | k in b :: b[k] == m[k] && m[k].Str?;
    var x, y := StringMap(Some(Map(b))).value, StringMap(Some(Map(m))).value - {key};
    assert x.Keys == y.Keys;
    assert forall k | k in x :: x[k] == y[k];
    assert x == y;
  }

  /** Removing an annotation removes that one and nothing else: not another annotation, not the name. */
  lemma RemoveAnnotationFrame(obj: Json, key: string)
    ensures Annotations(RemoveAnnotation(obj, key)) == Annotations(obj) - {key}
    ensures NameOf(RemoveAnnotation(obj, key)) == NameOf(obj)
    ensures ApiVersionOf(RemoveAnnotation(obj, key)) == ApiVersionOf(obj) && KindOf(RemoveAnnotation(obj, key)) == KindOf(obj)
    ensures RemoveAnnotation(obj, key).Map? <==> obj.Map?
  {
    if key in Annotations(obj) {
      var a := obj.fields["metadata"].fields["annotations"].fields;
      assert AnnotationsField(RemoveAnnotation(obj, key)) == Some(Map(a - {key}));
      StringMapMinus(a, key);
    }
  }

  /** Reading the name leaves the ready annotation alone, and reading it twice is harmless. */
  lemma CleanTwice(obj: Json)
    ensures Clean(Clean(obj)) == Clean(obj)
    ensures NAME_KEY !in Annotations(Clean(obj))
    ensures READY_KEY in Annotations(Clean(obj)) <==> READY_KEY in Annotations(obj)
    ensures ResourceName(RemoveAnnotation(obj, READY_KEY)) == ResourceName(obj)
  {
    RemoveAnnotationFrame(obj, NAME_KEY);
    RemoveAnnotationFrame(obj, READY_KEY);
    assert READY_KEY[|READY_KEY| - 1] == 'y' && NAME_KEY[|NAME_KEY| - 1] == 'e';
  }

  // ---------------------------------------------------------------- names within one list of objects

  predicate DistinctNames(data: seq<Json>) {
    forall i, j | 0 <= i < j < |data| :: ResourceName(data[i]) != ResourceName(data[j])
  }

  predicate NameAmong(data: seq<Json>, name: string) {
    exists i | 0 <= i < |data| :: ResourceName(data[i]) == name
  }

  lemma NamesOneMore(data: seq<Json>, d: Json)
    ensures DistinctNames(data + [d]) <==> DistinctNames(data) && !NameAmong(data, ResourceName(d))
    ensures forall n :: NameAmong(data + [d], n) <==> NameAmong(data, n) || n == ResourceName(d)
  {
    var all := data + [d];
    assert all[|data|] == d && forall i | 0 <= i < |data| :: all[i] == data[i];
    forall n ensures NameAmong(all, n) <==> NameAmong(data, n) || n == ResourceName(d) {
      if NameAmong(data, n) {
        var i :| 0 <= i < |data| && ResourceName(data[i]) == n;
        assert ResourceName(all[i]) == n;
      }
      if n == ResourceName(d) {
        assert ResourceName(all[|data|]) == n;
      }
    }
  }

  /** The names met so far, all different. */
  ghost predicate SeenNames(seen: set<string>, data: seq<Json>) {
    DistinctNames(data) && forall n :: n in seen <==> NameAmong(data, n)
  }

  lemma SeenOneMore(seen: set<string>, data: seq<Json>, i: nat)
    requires i < |data| && SeenNames(seen, data[..i])
    ensures if ResourceName(data[i]) in seen then !DistinctNames(data)
            else SeenNames(seen + {ResourceName(data[i])}, data[..i + 1])
  {
    assert data[..i + 1] == data[..i] + [data[i]];
    NamesOneMore(data[..i], data[i]);
    if ResourceName(data[i]) in seen {
      DuplicateStays(data, i + 1);
    }
  }

  lemma DuplicateStays(data: seq<Json>, i: nat)
    requires i <= |data| && !DistinctNames(data[..i])
    ensures !DistinctNames(data)
  {
  }

  // ---------------------------------------------------------------- the ready annotation

  predicate ReadyValue(v: string) {
    v == "True" || v == "Unspecified" || v == "False"
  }

  /** An object and its readiness, as one entry of the desired state. */
  datatype Item = Item(obj: Json, ready: string)

  predicate ReadyOk(obj: Json) {
    READY_KEY in Annotations(obj) ==> ReadyValue(Annotations(obj)[READY_KEY])
  }

  /** The ready step on one entry (res.go:415-424): take the annotation's value, drop the annotation. */
  function ReadyItem(it: Item): Item {
    var a := Annotations(it.obj);
    if READY_KEY in a then Item(RemoveAnnotation(it.obj, READY_KEY), a[READY_KEY]) else it
  }

  /** After the ready step no entry keeps the annotation, and readiness is what the annotation said, if there was one. */
  lemma ReadyItemFacts(it: Item)
    ensures READY_KEY !in Annotations(ReadyItem(it).obj)
    ensures ReadyItem(it).ready == if READY_KEY in Annotations(it.obj) then Annotations(it.obj)[READY_KEY] else it.ready
    ensures Annotations(ReadyItem(it).obj) == Annotations(it.obj) - {READY_KEY}
    ensures NameOf(ReadyItem(it).obj) == NameOf(it.obj)
    ensures READY_KEY !in Annotations(it.obj) ==> ReadyItem(it) == it
  {
    RemoveAnnotationFrame(it.obj, READY_KEY);
  }
}
