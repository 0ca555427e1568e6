/** The lookup, render, store protocol of one call (fn.go:213-253). */
module CachedRendering {
  import opened JsonTree
  import opened CacheSpec
  import opened EntryRing
  import opened RenderCaching

  /** `key` is renderKey and `render` the KCL pipeline on a prepared input; either may fail. */
  datatype Pipeline = Pipeline(key: Json -> Outcome<Bytes>, render: Json -> Outcome<Bytes>)

  /** Turned away while draining, a fatal result, or the pipeline's output. */
  datatype Answer = Unavailable | Fatal | Output(bytes: Bytes)

  /** Inputs of one digest render alike: rendering is deterministic and the digest tells keys apart. */
  ghost predicate Identifies(p: Pipeline, digest: Bytes -> Key) {
    forall a, b | p.key(a).Ok? && p.key(b).Ok? && digest(p.key(a).value) == digest(p.key(b).value) :: p.render(a) == p.render(b)
  }

  ghost predicate IsRender(p: Pipeline, digest: Bytes -> Key, e: Entry) {
    exists i :: p.key(i).Ok? && digest(p.key(i).value) == e.key && p.render(i) == Ok(e.value)
  }

  ghost predicate CacheSound(p: Pipeline, digest: Bytes -> Key, view: seq<Entry>) {
    forall e | e in view :: IsRender(p, digest, e)
  }

  /** A cache, if there is one, that holds renders only. */
  ghost predicate Trusted(c: RenderCache?, p: Pipeline)
    reads if c == null then {} else {c, c.ll} + Nodes(c.ll.ring)
  {
    c != null ==> c.Valid() && Identifies(p, c.digest) && CacheSound(p, c.digest, c.view)
  }

  /** The answer of a function that renders every time, `keyed` telling whether the cache key is derived first. */
  function Uncached(p: Pipeline, keyed: bool, input: Json): Answer {
    if keyed && p.key(input).Fail? then Fatal
    else
      match p.render(input)
      case Fail => Fatal
      case Ok(v) => Output(v)
  }

  lemma LookupIsSound(p: Pipeline, digest: Bytes -> Key, view: seq<Entry>, input: Json, now: int, ttl: int)
    requires Identifies(p, digest) && CacheSound(p, digest, view) && p.key(input).Ok?
    ensures var (view', hit) := CacheSpec.Lookup(view, digest(p.key(input).value), now, ttl);
            CacheSound(p, digest, view') && (hit.Some? ==> p.render(input) == Ok(hit.value))
  {
    var k := digest(p.key(input).value);
    FindIff(view, k);
    WithoutFacts(view, k);
  }

  lemma StoreIsSound(p: Pipeline, digest: Bytes -> Key, view: seq<Entry>, input: Json, v: Bytes, now: int, max: nat)
    requires CacheSound(p, digest, view) && p.key(input).Ok? && p.render(input) == Ok(v)
    ensures CacheSound(p, digest, CacheSpec.Store(view, digest(p.key(input).value), v, now, max))
  {
    var k := digest(p.key(input).value);
    WithoutFacts(view, k);
    assert IsRender(p, digest, Entry(k, v, now));
  }

  /** An entry of the key that is younger than the TTL, if there is one. */
  ghost predicate IsCached(view: seq<Entry>, k: Key, now: int, ttl: int) {
    exists e :: e in view && e.key == k && (ttl <= 0 || now - e.stored < ttl)
  }

  /** The render of `k` stands first, and behind it, up to the size, what was there under other keys. */
  ghost predicate StoredFirst(was: seq<Entry>, now: seq<Entry>, e: Entry, max: int) {
    now != [] && now[0] == e && max > 0 && now == Take([e] + Without(was, e.key), max)
  }

  /** The entry of `k` stands first as it was, and the others keep their order behind it. */
  ghost predicate Promoted(was: seq<Entry>, now: seq<Entry>, k: Key) {
    now != [] && now[0] in was && now[0].key == k && now == [now[0]] + Without(was, k)
  }

  /** What one call leaves in the cache. */
  ghost predicate CallLeft(c: RenderCache, p: Pipeline, was: seq<Entry>, now: seq<Entry>, input: Json, lookupTime: int, storeTime: int) {
    match p.key(input)
    case Fail => now == was
    case Ok(key) =>
      var k := c.digest(key);
      if IsCached(was, k, lookupTime, c.ttl) then Promoted(was, now, k)
      else
        match p.render(input)
        case Fail => now == Without(was, k)
        case Ok(v) => StoredFirst(was, now, Entry(k, v, storeTime), c.max)
  }

  /** The output of a render goes into the cache, if there is one (fn.go:252). */
  method Keep(c: RenderCache?, p: Pipeline, input: Json, key: Bytes, v: Bytes, now: int)
    requires Trusted(c, p) && p.render(input) == Ok(v) && (c != null ==> p.key(input) == Ok(key))
    modifies if c == null then {} else {c, c.ll} + Nodes(c.ll.ring)
    ensures Trusted(c, p)
    ensures c != null ==> c.hits == old(c.hits) && c.misses == old(c.misses)
    ensures c != null ==> fresh(Nodes(c.ll.ring) - Nodes(old(c.ll.ring)))
    ensures c != null ==> StoredFirst(old(c.view), c.view, Entry(c.digest(key), v, now), c.max)
  {
    if c != null {
      StoreIsSound(p, c.digest, c.view, input, v, now, c.max);
    }
    var outputData := Buffer(v);
    StoreIn(c, key, outputData, now);
  }

  /** The pipeline on a miss (fn.go:226-252): run it and keep its output. */
  method RenderAndStore(c: RenderCache?, p: Pipeline, input: Json, key: Bytes, now: int) returns (answer: Answer)
    requires Trusted(c, p) && (c != null ==> p.key(input) == Ok(key))
    modifies if c == null then {} else {c, c.ll} + Nodes(c.ll.ring)
    ensures answer == match p.render(input) case Fail => Fatal case Ok(v) => Output(v)
    ensures Trusted(c, p)
    ensures c != null ==> c.hits == old(c.hits) && c.misses == old(c.misses)
    ensures c != null ==> fresh(Nodes(c.ll.ring) - Nodes(old(c.ll.ring)))
    ensures c != null && answer.Fatal? ==> c.view == old(c.view)
    ensures c != null && answer.Output? ==> StoredFirst(old(c.view), c.view, Entry(c.digest(key), answer.bytes, now), c.max)
  {
    var out := p.render(input);
    if out.Fail? {
      return Fatal;
    }
    Keep(c, p, input, key, out.value, now);
    answer := Output(out.value);
  }

  method Buffer(v: Bytes) returns (a: array<bv8>)
    ensures fresh(a) && a[..] == v
  {
    a := new bv8[|v|](i requires 0 <= i < |v| => v[i]);
  }

  /** What a lookup leaves is what a call leaves up to then. */
  lemma LookupLeaves(was: seq<Entry>, now: seq<Entry>, k: Key, time: int, ttl: int)
    requires Unique(was) && now == CacheSpec.Lookup(was, k, time, ttl).0
    ensures if IsCached(was, k, time, ttl) then Promoted(was, now, k) else now == Without(was, k)
    ensures Without(Without(was, k), k) == Without(was, k)
  {
    LookupHitsIff(was, k, time, ttl);
    WithoutFacts(was, k);
    WithoutAbsent(Without(was, k), k);
    FindIff(was, k);
    if Find(was, k).None? {
      WithoutAbsent(was, k);
    }
  }

  /**
   The lookup, render, store protocol (fn.go:213-253): the answer is that of rendering every time. A
   cached render is promoted and counted as a hit; otherwise the key counts as a miss, and a render
   that succeeds is kept with the time it is stored at.
   */
  method CachedRender(c: RenderCache?, p: Pipeline, input: Json, lookupTime: int, storeTime: int) returns (answer: Answer)
    requires Trusted(c, p)
    modifies if c == null then {} else {c, c.ll} + Nodes(c.ll.ring)
    ensures answer == Uncached(p, c != null, input)
    ensures answer.Output? ==> p.render(input) == Ok(answer.bytes)
    ensures answer.Fatal? <==> p.render(input).Fail? || (c != null && p.key(input).Fail?)
    ensures Trusted(c, p)
    ensures c != null ==> fresh(Nodes(c.ll.ring) - Nodes(old(c.ll.ring)))
    ensures c != null ==> CallLeft(c, p, old(c.view), c.view, input, lookupTime, storeTime)
    ensures c != null && p.key(input).Ok? ==>
      var cached := IsCached(old(c.view), c.digest(p.key(input).value), lookupTime, c.ttl);
      c.hits == old(c.hits) + (if cached then 1 else 0) && c.misses == old(c.misses) + if cached then 0 else 1
  {
    var key := [];
    if c != null {
      var k := p.key(input);
      if k.Fail? {
        return Fatal;
      }
      key := k.value;
      LookupIsSound(p, c.digest, c.view, input, lookupTime, c.ttl);
      c.UniqueKeys();
      LookupLeaves(c.view, CacheSpec.Lookup(c.view, c.digest(key), lookupTime, c.ttl).0, c.digest(key), lookupTime, c.ttl);
    }
    var cached, hit := LookupIn(c, key, lookupTime);
    if hit {
      return Output(cached);
    }
    answer := RenderAndStore(c, p, input, key, storeTime);
  }

  /** A key that stands first with a time less than the TTL ago is cached. */
  lemma FirstIsCached(view: seq<Entry>, now: int, ttl: int)
    requires view != [] && (ttl <= 0 || now - view[0].stored < ttl)
    ensures IsCached(view, view[0].key, now, ttl)
  {
    assert view[0] in view;
  }

  /**
   Two calls on one input. When the first gives an output and its entry is younger than the TTL at
   the second lookup, the second is a hit: it gives the same output, counts as a hit and renders nothing.
   The entry's time is that of the first call's store, or that of the store which the first call hit.
   */
  method RenderTwice(c: RenderCache, p: Pipeline, input: Json, lookupTime: int, storeTime: int, again: int, storeAgain: int)
    returns (first: Answer, second: Answer, ghost stored: int)
    requires Trusted(c, p)
    modifies c, c.ll, Nodes(c.ll.ring)
    ensures second == first && (first.Output? ==> p.key(input).Ok?)
    ensures first.Output? && (c.ttl <= 0 || again - stored < c.ttl) ==>
      var cached := IsCached(old(c.view), c.digest(p.key(input).value), lookupTime, c.ttl);
      c.hits == old(c.hits) + (if cached then 2 else 1) && c.misses == old(c.misses) + if cached then 0 else 1
    ensures first.Output? ==>
      if IsCached(old(c.view), c.digest(p.key(input).value), lookupTime, c.ttl)
      then exists e :: e in old(c.view) && e.key == c.digest(p.key(input).value) && e.stored == stored
      else stored == storeTime
  {
    first := CachedRender(c, p, input, lookupTime, storeTime);
    stored := 0;
    if first.Output? {
      stored := c.view[0].stored;
      if c.ttl <= 0 || again - stored < c.ttl {
        FirstIsCached(c.view, again, c.ttl);
      }
    }
    second := CachedRender(c, p, input, again, storeAgain);
  }
}
