/**
 The render cache as rendercache.go builds it: a hash map into a doubly linked list of entries, most
 recent first, proved to refine the recency list of CacheSpec.
 */
module RenderCaching {
  import opened JsonTree
  import opened CacheSpec
  import opened EntryRing

  class RenderCache {
    const max: int
    const ttl: int
    const digest: Bytes -> Key
    const ll: EntryList
    var items: map<Key, Element>
    var hits: nat
    var misses: nat
    /** The recency list: the entries front to back. */
    ghost var view: seq<Entry>

    /** Map and list hold the same keys, without repetition. */
    ghost predicate Consistent()
      reads this, ll, ll.ring
    {
      ll.Valid() && Mirrors(items, ll.ring, view) && Covered(items, view)
    }

    /** Between calls the size is within bounds as well. */
    ghost predicate Valid()
      reads this, ll, ll.ring
    {
      Consistent() && 0 < max && |view| <= max
    }

    /** newRenderCache for a positive size (rendercache.go:68-74). */
    constructor (max: int, ttl: int, digest: Bytes -> Key)
      requires max > 0
      ensures Valid() && view == [] && hits == misses == 0
      ensures this.max == max && this.ttl == ttl && this.digest == digest
      ensures fresh(ll) && fresh(ll.ring)
    {
      this.max, this.ttl, this.digest := max, ttl, digest;
      this.ll := new EntryList();
      this.items := map[];
      this.hits, this.misses := 0, 0;
      this.view := [];
    }

    lemma UniqueKeys()
      requires Consistent()
      ensures Unique(view)
    {
      ViewIsUnique(items, ll.ring, view);
    }

    /** Where the map's element for `k` stands, and what it means for the recency list. */
    lemma PlaceOf(k: Key) returns (i: nat)
      requires Consistent() && k in items
      ensures 0 < i < |ll.ring| && ll.ring[i] == items[k] && items[k].entry.key == k
      ensures Find(view, k) == Some(items[k].entry) && |Without(view, k)| == |view| - 1
    {
      assert Has(view, k);
      var j :| 0 <= j < |view| && view[j].key == k;
      i := j + 1;
      assert ll.ring[i].entry == view[j];
      AtPlace(items, ll.ring, view, i);
      CutAt(view, j);
    }

    lemma NoPlaceOf(k: Key)
      requires Consistent() && k !in items
      ensures Find(view, k) == None && Without(view, k) == view
    {
      forall i | 0 <= i < |view| ensures view[i].key != k {
        assert ll.ring[i + 1].entry == view[i];
      }
      WithoutAbsent(view, k);
    }

    /** Out of the list and out of the map (rendercache.go:102-103 and 138-139). */
    method Drop(el: Element, ghost i: nat)
      requires Consistent() && 0 < i < |ll.ring| && ll.ring[i] == el
      modifies this`items, this`view, ll, Nodes(ll.ring)`next, Nodes(ll.ring)`prev
      ensures Consistent() && view == Without(old(view), el.entry.key)
      ensures Nodes(ll.ring) <= Nodes(old(ll.ring))
    {
      ll.RemoveKey(el, i, items, view);
      items := items - {el.entry.key};
      view := Without(view, el.entry.key);
    }

    /** To the front of the list (rendercache.go:107 and 128). */
    method Promote(el: Element, ghost i: nat)
      requires Consistent() && 0 < i < |ll.ring| && ll.ring[i] == el
      modifies this`view, ll, Nodes(ll.ring)`next, Nodes(ll.ring)`prev
      ensures Consistent() && view == [el.entry] + Without(old(view), el.entry.key)
      ensures Nodes(ll.ring) <= Nodes(old(ll.ring))
    {
      ll.PromoteKey(el, i, items, view);
      view := [el.entry] + Without(view, el.entry.key);
    }

    /** lookup on an enabled cache (rendercache.go:92-109). */
    method Lookup(input: Bytes, now: int) returns (value: Bytes, hit: bool)
      requires Valid()
      modifies this, ll, Nodes(ll.ring)`next, Nodes(ll.ring)`prev
      ensures Valid() && Nodes(ll.ring) <= Nodes(old(ll.ring))
      ensures (view, if hit then Some(value) else None) == CacheSpec.Lookup(old(view), digest(input), now, ttl)
      ensures hit <==> exists e :: e in old(view) && e.key == digest(input) && (ttl <= 0 || now - e.stored < ttl)
      ensures hit ==> view != [] && view[0] in old(view) && view[0].key == digest(input) && view[0].value == value
      ensures !hit ==> !Has(view, digest(input))
      ensures Without(view, digest(input)) == Without(old(view), digest(input))
      ensures hits == old(hits) + (if hit then 1 else 0) && misses == old(misses) + if hit then 0 else 1
    {
      var k := digest(input);
      UniqueKeys();
      LookupHitsIff(view, k, now, ttl);
      if k !in items {
        NoPlaceOf(k);
        misses := misses + 1;
        return [], false;
      }
      value, hit := LookupFound(k, items[k], now);
    }

    /** The part of lookup after the map has given an element (rendercache.go:100-109). */
    method LookupFound(k: Key, el: Element, now: int) returns (value: Bytes, hit: bool)
      requires Valid() && k in items && items[k] == el
      modifies this, ll, Nodes(ll.ring)`next, Nodes(ll.ring)`prev
      ensures Valid() && Nodes(ll.ring) <= Nodes(old(ll.ring))
      ensures (view, if hit then Some(value) else None) == CacheSpec.Lookup(old(view), k, now, ttl)
      ensures hits == old(hits) + (if hit then 1 else 0) && misses == old(misses) + if hit then 0 else 1
    {
      ghost var i := PlaceOf(k);
      if ttl > 0 && now - el.entry.stored >= ttl {
        Drop(el, i);
        misses := misses + 1;
        return [], false;
      }
      Promote(el, i);
      hits := hits + 1;
      return el.entry.value, true;
    }

    /** An existing entry gets the new value and time (rendercache.go:126-127). */
    method Renew(el: Element, ghost i: nat, value: Bytes, now: int)
      requires Consistent() && 0 < i < |ll.ring| && ll.ring[i] == el
      modifies this`view, el`entry
      ensures Consistent() && |view| == |old(view)|
      ensures el.entry == Entry(old(el.entry.key), value, now)
      ensures Without(view, el.entry.key) == Without(old(view), el.entry.key)
    {
      ghost var e := Entry(el.entry.key, value, now);
      RenewFacts(items, ll.ring, view, i, e);
      ll.SetEntry(el, value, now, i, items, view);
      view := view[i - 1 := e];
    }

    /** A store of a key that is present (rendercache.go:125-129). */
    method Refresh(el: Element, ghost i: nat, value: Bytes, now: int)
      requires Consistent() && 0 < i < |ll.ring| && ll.ring[i] == el
      modifies this`view, el`entry, ll, Nodes(ll.ring)`next, Nodes(ll.ring)`prev
      ensures Consistent() && |view| == |old(view)|
      ensures view == [Entry(old(el.entry.key), value, now)] + Without(old(view), old(el.entry.key))
      ensures Nodes(ll.ring) <= Nodes(old(ll.ring))
    {
      Renew(el, i, value, now);
      AtPlace(items, ll.ring, view, i);
      CutAt(view, i - 1);
      Promote(el, i);
    }

    /** A new entry at the front (rendercache.go:131-132). */
    method Add(k: Key, value: Bytes, now: int)
      requires Consistent() && k !in items
      modifies this`view, this`items, ll, Nodes(ll.ring)`next, Nodes(ll.ring)`prev
      ensures Consistent() && view == [Entry(k, value, now)] + old(view)
      ensures fresh(Nodes(ll.ring) - Nodes(old(ll.ring)))
    {
      var el := ll.PushNew(Entry(k, value, now), items, view);
      items := items[k := el];
      view := [Entry(k, value, now)] + view;
    }

    /** One eviction (rendercache.go:134-139). */
    method DropOldest()
      requires Consistent() && view != []
      modifies this`items, this`view, ll, Nodes(ll.ring)`next, Nodes(ll.ring)`prev
      ensures Consistent() && view == old(view)[..|old(view)| - 1]
      ensures Nodes(ll.ring) <= Nodes(old(ll.ring))
    {
      var oldest := ll.Back();
      ghost var i := |ll.ring| - 1;
      AtPlace(items, ll.ring, view, i);
      CutAt(view, i - 1);
      Drop(oldest, i);
    }

    /** The eviction loop (rendercache.go:133-140). */
    method Evict()
      requires Consistent() && max >= 0
      modifies this`items, this`view, ll, Nodes(ll.ring)`next, Nodes(ll.ring)`prev
      ensures Consistent() && view == Take(old(view), max)
      ensures Nodes(ll.ring) <= Nodes(old(ll.ring))
    {
      while ll.len > max
        invariant Consistent() && |view| <= |old(view)| && view == old(view)[..|view|]
        invariant |view| == |old(view)| || |view| >= max
        invariant Nodes(ll.ring) <= Nodes(old(ll.ring))
        decreases ll.len
      {
        ghost var n := |view| - 1;
        assert old(view)[..n + 1][..n] == old(view)[..n];
        DropOldest();
      }
    }

    /** store on an enabled cache (rendercache.go:118-140): the output is copied, the oldest entries make room. */
    method Store(input: Bytes, output: array<bv8>, now: int)
      requires Valid()
      modifies this`view, this`items, ll, Nodes(ll.ring)`next, Nodes(ll.ring)`prev, Nodes(ll.ring)`entry
      ensures Valid() && fresh(Nodes(ll.ring) - Nodes(old(ll.ring)))
      ensures view == CacheSpec.Store(old(view), digest(input), output[..], now, max)
    {
      var k := digest(input);
      var cp := output[..];
      if k in items {
        var el := items[k];
        ghost var i := PlaceOf(k);
        Refresh(el, i, cp, now);
      } else {
        NoPlaceOf(k);
        Add(k, cp, now);
        Evict();
      }
    }
  }

  // ---------------------------------------------------------------- the disabled cache is nil

  /** newRenderCache (rendercache.go:64-75): nil when the size is not positive. */
  method NewRenderCache(max: int, ttl: int, digest: Bytes -> Key) returns (c: RenderCache?)
    ensures c == null <==> max <= 0
    ensures c != null ==> fresh(c) && c.Valid() && c.view == [] && c.max == max && c.ttl == ttl && c.digest == digest
  {
    if max <= 0 {
      return null;
    }
    c := new RenderCache(max, ttl, digest);
  }

  /** lookup with its nil check (rendercache.go:88-91): a nil cache misses and counts nothing. */
  method LookupIn(c: RenderCache?, input: Bytes, now: int) returns (value: Bytes, hit: bool)
    requires c != null ==> c.Valid()
    modifies if c == null then {} else {c, c.ll} + Nodes(c.ll.ring)
    ensures c == null ==> !hit
    ensures c != null ==> c.Valid() && c.hits + c.misses == old(c.hits + c.misses) + 1
    ensures c != null ==> (c.view, if hit then Some(value) else None) == CacheSpec.Lookup(old(c.view), c.digest(input), now, c.ttl)
    ensures c != null ==>
      (hit <==> exists e :: e in old(c.view) && e.key == c.digest(input) && (c.ttl <= 0 || now - e.stored < c.ttl))
    ensures hit ==> c != null && c.view != [] && c.view[0] in old(c.view) && c.view[0].key == c.digest(input) && c.view[0].value == value
    ensures c != null ==> c.hits == old(c.hits) + (if hit then 1 else 0) && c.misses == old(c.misses) + if hit then 0 else 1
    ensures c != null ==> Nodes(c.ll.ring) <= Nodes(old(c.ll.ring))
  {
    if c == null {
      return [], false;
    }
    value, hit := c.Lookup(input, now);
  }

  /** store with its nil check (rendercache.go:114-117). */
  method StoreIn(c: RenderCache?, input: Bytes, output: array<bv8>, now: int)
    requires c != null ==> c.Valid()
    modifies if c == null then {} else {c, c.ll} + Nodes(c.ll.ring)
    ensures c != null ==> c.Valid() && c.view == CacheSpec.Store(old(c.view), c.digest(input), output[..], now, c.max)
    ensures c != null ==> c.hits == old(c.hits) && c.misses == old(c.misses)
    ensures c != null ==> fresh(Nodes(c.ll.ring) - Nodes(old(c.ll.ring)))
  {
    if c != null {
      c.Store(input, output, now);
    }
  }
}
