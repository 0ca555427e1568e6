/** normalizeMap and DataResourcesFromYaml (res.go:96-154) on trees as the YAML decoder builds them. */
module Normalization {
  import opened JsonTree

  /** A YAML map key: a string, or some other scalar. */
  datatype Key = StrKey(s: string) | OtherKey(id: int)

  /** AnyMap is map[interface{}]interface{}, as decoded; StrMap is map[string]interface{}, as normalized. */
  datatype Yaml =
    | Nil
    | Scalar(id: int)
    | Sequence(items: seq<Yaml>)
    | AnyMap(entries: map<Key, Yaml>)
    | StrMap(fields: map<string, Yaml>)

  /** What the decoder yields: no string-keyed map anywhere. */
  predicate Decoded(y: Yaml) {
    match y
    case Sequence(items) => forall i | 0 <= i < |items| :: Decoded(items[i])
    case AnyMap(entries) => forall k | k in entries :: Decoded(entries[k])
    case StrMap(_) => false
    case _ => true
  }

  predicate AllKeysAreStrings(y: Yaml) {
    match y
    case Sequence(items) => forall i | 0 <= i < |items| :: AllKeysAreStrings(items[i])
    case AnyMap(entries) => forall k | k in entries :: k.StrKey? && AllKeysAreStrings(entries[k])
    case _ => true
  }

  predicate OnlyStringMaps(y: Yaml) {
    match y
    case Sequence(items) => forall i | 0 <= i < |items| :: OnlyStringMaps(items[i])
    case StrMap(fields) => forall k | k in fields :: OnlyStringMaps(fields[k])
    case AnyMap(_) => false
    case _ => true
  }

  function StringKeys(entries: map<Key, Yaml>): (ks: set<string>)
    ensures forall s :: s in ks <==> StrKey(s) in entries
  {
    set k | k in entries && k.StrKey? :: k.s
  }

  function TypedKeys(fields: map<string, Yaml>): (ks: set<Key>)
    ensures forall k :: k in ks <==> k.StrKey? && k.s in fields
  {
    set s | s in fields :: StrKey(s)
  }

  function Normalize(y: Yaml): Outcome<Yaml> {
    match y
    case AnyMap(entries) =>
      if forall k | k in entries :: k.StrKey? && Normalize(entries[k]).Ok? then
        Ok(StrMap(map s | s in StringKeys(entries) :: Normalize(entries[StrKey(s)]).value))
      else Fail
    case Sequence(items) =>
      if forall i | 0 <= i < |items| :: Normalize(items[i]).Ok? then
        Ok(Sequence(seq(|items|, i requires 0 <= i < |items| => Normalize(items[i]).value)))
      else Fail
    case _ => Ok(y)
  }

  /** The decoded tree that a normalized tree stands for. */
  function Denormalize(y: Yaml): Yaml {
    match y
    case Sequence(items) => Sequence(seq(|items|, i requires 0 <= i < |items| => Denormalize(items[i])))
    case StrMap(fields) => AnyMap(map k | k in TypedKeys(fields) :: Denormalize(fields[k.s]))
    case _ => y
  }

  /** On decoded trees normalization fails exactly when some map, at any depth, has a key that is not a string. */
  lemma {:induction false} NormalizeIff(y: Yaml)
    requires Decoded(y)
    ensures Normalize(y).Ok? <==> AllKeysAreStrings(y)
    decreases y
  {
    match y
    case Sequence(items) =>
      forall i | 0 <= i < |items| ensures Normalize(items[i]).Ok? <==> AllKeysAreStrings(items[i]) {
        NormalizeIff(items[i]);
      }
    case AnyMap(entries) =>
      forall k | k in entries ensures Normalize(entries[k]).Ok? <==> AllKeysAreStrings(entries[k]) {
        NormalizeIff(entries[k]);
      }
    case _ =>
  }

  /** The result has the same shape: read back with untyped maps it is the tree it came from. */
  lemma {:induction false} NormalizeReadsBack(y: Yaml)
    requires Decoded(y) && Normalize(y).Ok?
    ensures OnlyStringMaps(Normalize(y).value)
    ensures Denormalize(Normalize(y).value) == y
    decreases y
  {
    match y
    case Sequence(items) =>
      forall i | 0 <= i < |items|
        ensures OnlyStringMaps(Normalize(items[i]).value) && Denormalize(Normalize(items[i]).value) == items[i]
      {
        NormalizeReadsBack(items[i]);
      }
      SequenceReadsBack(items);
    case AnyMap(entries) =>
      forall k | k in entries
        ensures OnlyStringMaps(Normalize(entries[k]).value) && Denormalize(Normalize(entries[k]).value) == entries[k]
      {
        NormalizeReadsBack(entries[k]);
      }
      MapReadsBack(entries);
    case _ =>
  }

  lemma SequenceReadsBack(items: seq<Yaml>)
    requires forall i | 0 <= i < |items| ::
      Normalize(items[i]).Ok? && OnlyStringMaps(Normalize(items[i]).value) && Denormalize(Normalize(items[i]).value) == items[i]
    ensures OnlyStringMaps(Normalize(Sequence(items)).value)
    ensures Denormalize(Normalize(Sequence(items)).value) == Sequence(items)
  {
    assert Denormalize(Normalize(Sequence(items)).value).items == items;
  }

  lemma MapReadsBack(entries: map<Key, Yaml>)
    requires forall k | k in entries ::
      k.StrKey? && Normalize(entries[k]).Ok? && OnlyStringMaps(Normalize(entries[k]).value) && Denormalize(Normalize(entries[k]).value) == entries[k]
    ensures OnlyStringMaps(Normalize(AnyMap(entries)).value)
    ensures Denormalize(Normalize(AnyMap(entries)).value) == AnyMap(entries)
  {
    var fields := Normalize(AnyMap(entries)).value.fields;
    var back := Denormalize(StrMap(fields)).entries;
    assert forall k :: k in back <==> k in entries;
    forall k | k in entries ensures back[k] == entries[k] {
      assert k == StrKey(k.s) && fields[k.s] == Normalize(entries[StrKey(k.s)]).value;
    }
    assert back == entries;
  }

  /** Normalizing a normalized tree changes nothing. */
  lemma {:induction false} NormalizeTwice(y: Yaml)
    requires OnlyStringMaps(y)
    ensures Normalize(y) == Ok(y)
    decreases y
  {
    match y
    case Sequence(items) =>
      forall i | 0 <= i < |items| ensures Normalize(items[i]) == Ok(items[i]) {
        NormalizeTwice(items[i]);
      }
      assert Normalize(y).value.items == items;
    case _ =>
  }

  /** normalizeMap (res.go:96-124): map keys in an arbitrary order, list slots overwritten one by one. */
  method NormalizeMap(input: Yaml) returns (r: Outcome<Yaml>)
    ensures r == Normalize(input)
    decreases input
  {
    match input
    case AnyMap(entries) =>
      var normalized: map<string, Yaml> := map[];
      var remaining := entries.Keys;
      while remaining != {}
        invariant remaining <= entries.Keys
        invariant forall k | k in entries.Keys - remaining :: k.StrKey? && Normalize(entries[k]).Ok?
        invariant forall s :: s in normalized <==> StrKey(s) in entries.Keys - remaining
        invariant forall s | s in normalized :: normalized[s] == Normalize(entries[StrKey(s)]).value
        decreases remaining
      {
        var key :| key in remaining;
        if key.OtherKey? {
          return Fail;
        }
        var v := NormalizeMap(entries[key]);
        if v.Fail? {
          return Fail;
        }
        remaining := remaining - {key};
        normalized := normalized[key.s := v.value];
      }
      assert normalized == Normalize(input).value.fields;
      return Ok(StrMap(normalized));
    case Sequence(items) =>
      var list := items;
      for i := 0 to |items|
        invariant |list| == |items|
        invariant forall j | 0 <= j < i :: Normalize(items[j]).Ok? && list[j] == Normalize(items[j]).value
        invariant forall j | i <= j < |items| :: list[j] == items[j]
      {
        var v := NormalizeMap(list[i]);
        if v.Fail? {
          return Fail;
        }
        list := list[i := v.value];
      }
      assert Normalize(input).value.items == list;
      return Ok(Sequence(list));
    case _ =>
      return Ok(input);
  }

  /** The manifests of a stream: an error, the panic of a document that is no map, or the maps in order. */
  datatype Manifests = DecodeError | Panic | Manifests(maps: seq<Yaml>)

  /** What one document adds to the manifests before it. */
  function AddDocument(before: Manifests, doc: Outcome<Yaml>): Manifests {
    match before
    case Manifests(maps) =>
      if doc.Fail? || Normalize(doc.value).Fail? then DecodeError
      else
        (match Normalize(doc.value).value
         case Nil => before
         case StrMap(_) => Manifests(maps + [Normalize(doc.value).value])
         case _ => Panic)
    case _ => before
  }

  function ManifestsOf(docs: seq<Outcome<Yaml>>): Manifests {
    if docs == [] then Manifests([]) else AddDocument(ManifestsOf(docs[..|docs| - 1]), docs[|docs| - 1])
  }

  /** A stream of decoded documents gives manifests exactly when every document is null or a map with string keys throughout. */
  lemma {:induction false} ManifestsIff(docs: seq<Outcome<Yaml>>)
    requires forall i | 0 <= i < |docs| && docs[i].Ok? :: Decoded(docs[i].value)
    ensures ManifestsOf(docs).Manifests? <==>
      forall i | 0 <= i < |docs| :: docs[i].Ok? && (docs[i].value.Nil? || docs[i].value.AnyMap?) && AllKeysAreStrings(docs[i].value)
    ensures ManifestsOf(docs).Manifests? ==> forall m | m in ManifestsOf(docs).maps :: m.StrMap? && OnlyStringMaps(m)
    decreases |docs|
  {
    if docs != [] {
      var n := |docs| - 1;
      ManifestsIff(docs[..n]);
      if docs[n].Ok? {
        NormalizeIff(docs[n].value);
        if Normalize(docs[n].value).Ok? {
          NormalizeReadsBack(docs[n].value);
        }
      }
    }
  }

  ghost predicate AllDecoded(docs: seq<Outcome<Yaml>>) {
    forall i | 0 <= i < |docs| && docs[i].Ok? :: Decoded(docs[i].value)
  }

  /** `at` lists the documents that are not null, in order, and `maps` what they come to, one by one. */
  ghost predicate Lists(docs: seq<Outcome<Yaml>>, at: seq<nat>, maps: seq<Yaml>) {
    && (forall j, k | 0 <= j < k < |at| :: at[j] < at[k])
    && (forall i: nat :: i in at <==> i < |docs| && docs[i] != Ok(Nil))
    && |maps| == |at|
    && forall j | 0 <= j < |at| :: at[j] < |docs| && maps[j].StrMap? && docs[at[j]] == Ok(Denormalize(maps[j]))
  }

  /** The positions of the documents that are not null. */
  function Places(docs: seq<Outcome<Yaml>>): seq<nat> {
    if docs == [] then []
    else
      var n := |docs| - 1;
      Places(docs[..n]) + if docs[n] == Ok(Nil) then [] else [n]
  }

  lemma ListsMore(docs: seq<Outcome<Yaml>>, at: seq<nat>, maps: seq<Yaml>, doc: Outcome<Yaml>, more: seq<Yaml>)
    requires Lists(docs, at, maps)
    requires if doc == Ok(Nil) then more == [] else exists m: Yaml :: more == [m] && m.StrMap? && doc == Ok(Denormalize(m))
    ensures Lists(docs + [doc], at + (if doc == Ok(Nil) then [] else [|docs|]), maps + more)
  {
    var all := docs + [doc];
    assert all[|docs|] == doc && forall i | 0 <= i < |docs| :: all[i] == docs[i];
    assert forall j | 0 <= j < |at| :: at[j] in at;
    if doc != Ok(Nil) {
      assert forall i: nat :: i in at + [|docs|] <==> i in at || i == |docs|;
    } else {
      assert at + [] == at && maps + [] == maps;
    }
  }

  /**
   The manifests of a stream are those of its documents that are not null, each once and in order, and
   each is that document: read back with untyped maps it is what had been decoded.
   */
  lemma {:induction false} ManifestsAre(docs: seq<Outcome<Yaml>>)
    requires AllDecoded(docs) && ManifestsOf(docs).Manifests?
    ensures Lists(docs, Places(docs), ManifestsOf(docs).maps)
    decreases |docs|
  {
    if docs != [] {
      var n := |docs| - 1;
      var init, doc := docs[..n], docs[n];
      assert docs == init + [doc];
      ManifestsAre(init);
      var r := Normalize(doc.value).value;
      NormalizeReadsBack(doc.value);
      if doc == Ok(Nil) {
        ListsMore(init, Places(init), ManifestsOf(init).maps, doc, []);
      } else {
        assert r.StrMap?;
        ListsMore(init, Places(init), ManifestsOf(init).maps, doc, [r]);
      }
    }
  }

  /** A document that gives a manifest or nothing. */
  predicate FineDocument(doc: Outcome<Yaml>) {
    doc.Ok? && (doc.value.Nil? || doc.value.AnyMap?) && AllKeysAreStrings(doc.value)
  }

  /** The first document that does not decides how the stream fails: by a panic if it is a scalar or a list whose maps have string keys, else by an error. */
  lemma {:induction false} FirstBadDecides(docs: seq<Outcome<Yaml>>, i: nat)
    requires AllDecoded(docs) && i < |docs| && !FineDocument(docs[i]) && forall j | 0 <= j < i :: FineDocument(docs[j])
    ensures ManifestsOf(docs) == if docs[i].Ok? && AllKeysAreStrings(docs[i].value) then Panic else DecodeError
    decreases |docs|
  {
    var n := |docs| - 1;
    if i < n {
      FirstBadDecides(docs[..n], i);
    } else {
      ManifestsIff(docs[..n]);
      if docs[n].Ok? {
        NormalizeIff(docs[n].value);
      }
    }
  }

  lemma {:induction false} ErrorsStay(docs: seq<Outcome<Yaml>>, i: nat)
    requires i <= |docs| && !ManifestsOf(docs[..i]).Manifests?
    ensures ManifestsOf(docs) == ManifestsOf(docs[..i])
    decreases |docs| - i
  {
    if i == |docs| {
      assert docs[..i] == docs;
    } else {
      assert docs[..i + 1][..i] == docs[..i];
      ErrorsStay(docs, i + 1);
    }
  }

  /** DataResourcesFromYaml (res.go:127-154), each document given as its decoding or a decoding error. */
  method DataResourcesFromYaml(docs: seq<Outcome<Yaml>>) returns (r: Manifests)
    ensures r == ManifestsOf(docs)
    ensures AllDecoded(docs) && r.Manifests? ==> Lists(docs, Places(docs), r.maps)
  {
    var result: seq<Yaml> := [];
    var i := 0;
    while i < |docs|
      invariant 0 <= i <= |docs| && ManifestsOf(docs[..i]) == Manifests(result)
    {
      assert docs[..i + 1][..i] == docs[..i];
      var normalized := Fail;
      if docs[i].Ok? {
        normalized := NormalizeMap(docs[i].value);
      }
      if normalized.Fail? {
        ErrorsStay(docs, i + 1);
        return DecodeError;
      }
      if !normalized.value.Nil? {
        if !normalized.value.StrMap? {
          ErrorsStay(docs, i + 1);
          return Panic;
        }
        result := result + [normalized.value];
      }
      i := i + 1;
    }
    assert docs[..|docs|] == docs;
    if AllDecoded(docs) {
      ManifestsAre(docs);
    }
    return Manifests(result);
  }
}
