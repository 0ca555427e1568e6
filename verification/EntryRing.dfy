/** The doubly linked list of cache entries, and how a map into it mirrors a list of entries. */
module EntryRing {
  import opened JsonTree
  import opened CacheSpec

  /** A list element with the entry it carries. */
  class Element {
    var next: Element?
    var prev: Element?
    var entry: Entry

    constructor (entry: Entry)
      ensures this.entry == entry
    {
      this.entry := entry;
      this.next, this.prev := null, null;
    }
  }

  ghost function Pushed(ring: seq<Element>, e: Element): seq<Element>
    requires ring != []
  {
    [ring[0], e] + ring[1..]
  }

  ghost function Removed(ring: seq<Element>, i: nat): seq<Element>
    requires i < |ring|
  {
    ring[..i] + ring[i + 1..]
  }

  ghost function Moved(ring: seq<Element>, i: nat): seq<Element>
    requires 0 < i < |ring|
  {
    [ring[0], ring[i]] + (ring[1..i] + ring[i + 1..])
  }

  /** container/list: a ring through a sentinel. `ring` lists the sentinel, then the elements front to back. */
  class EntryList {
    const root: Element
    var len: nat
    ghost var ring: seq<Element>

    ghost predicate Linked(a: Element, b: Element)
      reads a`next, b`prev
    {
      a.next == b && b.prev == a
    }

    ghost predicate Valid()
      reads this, ring
    {
      && 0 < |ring| && ring[0] == root && len == |ring| - 1
      && (forall i, j | 0 <= i < j < |ring| :: ring[i] != ring[j])
      && (forall i | 0 <= i < |ring| - 1 :: Linked(ring[i], ring[i + 1]))
      && Linked(ring[|ring| - 1], root)
    }

    constructor ()
      ensures Valid() && fresh(root) && ring == [root]
    {
      var r := new Element(Entry([], [], 0));
      root, len, ring := r, 0, [r];
      new;
      root.next := root;
      root.prev := root;
    }

    method PushFront(e: Element)
      requires Valid() && e !in ring
      modifies this, e`next, e`prev, ring`next, ring`prev
      ensures Valid() && ring == Pushed(old(ring), e)
    {
      assert Linked(ring[0], if |ring| > 1 then ring[1] else root);
      var front := root.next;
      e.prev := root;
      e.next := front;
      front.prev := e;
      root.next := e;
      len := len + 1;
      ring := [root, e] + ring[1..];
    }

    /** A new element for a new key: map and recency list follow. */
    method PushNew(entry: Entry, ghost items: map<Key, Element>, ghost view: seq<Entry>) returns (e: Element)
      requires Valid() && Mirrors(items, ring, view) && Covered(items, view) && entry.key !in items
      modifies this, ring`next, ring`prev
      ensures Valid() && fresh(e) && e.entry == entry && Nodes(ring) == Nodes(old(ring)) + {e}
      ensures Mirrors(items[entry.key := e], ring, [entry] + view) && Covered(items[entry.key := e], [entry] + view)
    {
      e := new Element(entry);
      AddFacts(items, ring, view, e);
      PushFront(e);
    }

    method Remove(e: Element, ghost i: nat)
      requires Valid() && 0 < i < |ring| && ring[i] == e
      modifies this, ring`next, ring`prev
      ensures Valid() && ring == Removed(old(ring), i)
    {
      assert Linked(ring[i - 1], ring[i]) && Linked(ring[i], if i + 1 < |ring| then ring[i + 1] else root);
      e.prev.next := e.next;
      e.next.prev := e.prev;
      e.next := null;
      e.prev := null;
      len := len - 1;
      ring := ring[..i] + ring[i + 1..];
    }

    /** Remove of a key's element: map and recency list follow. */
    method RemoveKey(e: Element, ghost i: nat, ghost items: map<Key, Element>, ghost view: seq<Entry>)
      requires Valid() && 0 < i < |ring| && ring[i] == e && Mirrors(items, ring, view) && Covered(items, view)
      modifies this, ring`next, ring`prev
      ensures Valid() && Nodes(ring) <= Nodes(old(ring))
      ensures Mirrors(items - {e.entry.key}, ring, Without(view, e.entry.key))
      ensures Covered(items - {e.entry.key}, Without(view, e.entry.key))
    {
      DropFacts(items, ring, view, i);
      Remove(e, i);
    }

    method MoveToFront(e: Element, ghost i: nat)
      requires Valid() && 0 < i < |ring| && ring[i] == e
      modifies this, ring`next, ring`prev
      ensures Valid() && ring == Moved(old(ring), i)
    {
      if root.next == e {
        assert Linked(ring[0], ring[1]);
        assert i == 1;
        return;
      }
      Remove(e, i);
      PushFront(e);
    }

    /** MoveToFront of a key's element: the recency list follows. */
    method PromoteKey(e: Element, ghost i: nat, ghost items: map<Key, Element>, ghost view: seq<Entry>)
      requires Valid() && 0 < i < |ring| && ring[i] == e && Mirrors(items, ring, view) && Covered(items, view)
      modifies this, ring`next, ring`prev
      ensures Valid() && Nodes(ring) <= Nodes(old(ring))
      ensures Mirrors(items, ring, [e.entry] + Without(view, e.entry.key))
      ensures Covered(items, [e.entry] + Without(view, e.entry.key))
    {
      PromoteFacts(items, ring, view, i);
      MoveToFront(e, i);
    }

    /** A new value and time for an element: links, map and all other entries are undisturbed. */
    method SetEntry(e: Element, value: Bytes, stored: int, ghost i: nat, ghost items: map<Key, Element>, ghost view: seq<Entry>)
      requires Valid() && 0 < i < |ring| && ring[i] == e && Mirrors(items, ring, view)
      modifies e`entry
      ensures Valid() && e.entry == old(e.entry).(value := value, stored := stored)
      ensures Mirrors(items, ring, view[i - 1 := e.entry])
    {
      e.entry := e.entry.(value := value, stored := stored);
    }

    method Back() returns (e: Element?)
      requires Valid()
      ensures if |ring| == 1 then e == null else e == ring[|ring| - 1]
    {
      if len == 0 {
        return null;
      }
      assert Linked(ring[|ring| - 1], root);
      e := root.prev;
    }
  }

  // ---------------------------------------------------------------- the map and the recency list over the ring

  /** The list of entries read off the ring; the map points from each key to the element that carries it. */
  ghost predicate Mirrors(items: map<Key, Element>, ring: seq<Element>, view: seq<Entry>)
    reads ring`entry
  {
    |ring| == |view| + 1 &&
    forall i | 0 < i < |ring| ::
      ring[i].entry == view[i - 1] && ring[i].entry.key in items && items[ring[i].entry.key] == ring[i]
  }

  /** The map holds no key that the list does not. */
  ghost predicate Covered(items: map<Key, Element>, view: seq<Entry>) {
    forall k | k in items :: Has(view, k)
  }

  ghost predicate AllDistinct(ring: seq<Element>) {
    forall i, j | 0 <= i < j < |ring| :: ring[i] != ring[j]
  }

  lemma ViewIsUnique(items: map<Key, Element>, ring: seq<Element>, view: seq<Entry>)
    requires AllDistinct(ring) && Mirrors(items, ring, view)
    ensures Unique(view)
  {
    forall i, j | 0 <= i < j < |view| ensures view[i].key != view[j].key {
      assert ring[i + 1].entry == view[i] && ring[j + 1].entry == view[j];
    }
  }

  ghost function Cut<T>(s: seq<T>, i: nat): seq<T>
    requires i < |s|
  {
    s[..i] + s[i + 1..]
  }

  lemma CutAt<T>(s: seq<T>, i: nat)
    requires i < |s|
    ensures |Cut(s, i)| == |s| - 1
    ensures forall j | 0 <= j < |s| - 1 :: Cut(s, i)[j] == if j < i then s[j] else s[j + 1]
  {
  }

  /** What the element at place `i` means for the recency list. */
  lemma AtPlace(items: map<Key, Element>, ring: seq<Element>, view: seq<Entry>, i: nat)
    requires AllDistinct(ring) && 0 < i < |ring| && Mirrors(items, ring, view)
    ensures Find(view, ring[i].entry.key) == Some(ring[i].entry)
    ensures Without(view, ring[i].entry.key) == Cut(view, i - 1)
  {
    ViewIsUnique(items, ring, view);
    FindAt(view, i - 1);
  }

  lemma CutMirrors(items: map<Key, Element>, ring: seq<Element>, view: seq<Entry>, i: nat)
    requires AllDistinct(ring) && 0 < i < |ring| && Mirrors(items, ring, view)
    ensures Mirrors(items - {ring[i].entry.key}, Cut(ring, i), Cut(view, i - 1))
  {
    ViewIsUnique(items, ring, view);
    CutAt(ring, i);
    CutAt(view, i - 1);
  }

  lemma CutCovered(items: map<Key, Element>, view: seq<Entry>, k: Key)
    requires Covered(items, view)
    ensures Covered(items - {k}, Without(view, k))
  {
    WithoutFacts(view, k);
    forall x | x in items - {k} ensures Has(Without(view, k), x) {
      var i :| 0 <= i < |view| && view[i].key == x;
      assert view[i] in Without(view, k);
    }
  }

  /** Taking the element at place `i` out of ring, map and list together. */
  lemma DropFacts(items: map<Key, Element>, ring: seq<Element>, view: seq<Entry>, i: nat)
    requires AllDistinct(ring) && 0 < i < |ring| && Mirrors(items, ring, view) && Covered(items, view)
    ensures var k := ring[i].entry.key;
            Mirrors(items - {k}, Removed(ring, i), Without(view, k)) && Covered(items - {k}, Without(view, k))
    ensures Nodes(Removed(ring, i)) <= Nodes(ring)
  {
    AtPlace(items, ring, view, i);
    CutMirrors(items, ring, view, i);
    CutCovered(items, view, ring[i].entry.key);
    assert Removed(ring, i) == Cut(ring, i);
  }

  ghost function ToFront<T>(s: seq<T>, i: nat): seq<T>
    requires i < |s|
  {
    [s[i]] + Cut(s, i)
  }

  lemma FrontMirrors(items: map<Key, Element>, ring: seq<Element>, view: seq<Entry>, i: nat)
    requires 0 < i < |ring| && Mirrors(items, ring, view)
    ensures Mirrors(items, [ring[0]] + ToFront(ring[1..], i - 1), ToFront(view, i - 1))
  {
    var es := ring[1..];
    CutAt(es, i - 1);
    CutAt(view, i - 1);
    var r, v := [ring[0]] + ToFront(es, i - 1), ToFront(view, i - 1);
    forall x | 0 < x < |r|
      ensures r[x].entry == v[x - 1] && r[x].entry.key in items && items[r[x].entry.key] == r[x]
    {
      assert r[x] == if x == 1 then ring[i] else if x <= i then ring[x - 1] else ring[x];
    }
  }

  lemma FrontCovered(items: map<Key, Element>, view: seq<Entry>, i: nat)
    requires i < |view| && Covered(items, view)
    ensures Covered(items, ToFront(view, i))
  {
    CutAt(view, i);
    var v := ToFront(view, i);
    forall x | x in items ensures Has(v, x) {
      var j :| 0 <= j < |view| && view[j].key == x;
      assert v[if j == i then 0 else if j < i then j + 1 else j].key == x;
    }
  }

  /** Moving the element at place `i` to the front, in ring and list together. */
  lemma PromoteFacts(items: map<Key, Element>, ring: seq<Element>, view: seq<Entry>, i: nat)
    requires AllDistinct(ring) && 0 < i < |ring| && Mirrors(items, ring, view) && Covered(items, view)
    ensures var e := ring[i].entry; var v := [e] + Without(view, e.key); Mirrors(items, Moved(ring, i), v) && Covered(items, v)
    ensures Nodes(Moved(ring, i)) <= Nodes(ring)
  {
    AtPlace(items, ring, view, i);
    FrontMirrors(items, ring, view, i);
    FrontCovered(items, view, i - 1);
    MovedIsToFront(ring, i);
  }

  lemma MovedIsToFront(ring: seq<Element>, i: nat)
    requires 0 < i < |ring|
    ensures Moved(ring, i) == [ring[0]] + ToFront(ring[1..], i - 1)
    ensures Nodes(Moved(ring, i)) <= Nodes(ring)
  {
    assert ring[1..][..i - 1] == ring[1..i] && ring[1..][i..] == ring[i + 1..];
  }

  ghost function Nodes(ring: seq<Element>): set<Element> {
    set e | e in ring
  }

  /** A new element for a new key at the front. */
  lemma AddFacts(items: map<Key, Element>, ring: seq<Element>, view: seq<Entry>, el: Element)
    requires ring != [] && Mirrors(items, ring, view) && Covered(items, view)
    requires el.entry.key !in items
    ensures Mirrors(items[el.entry.key := el], Pushed(ring, el), [el.entry] + view)
    ensures Covered(items[el.entry.key := el], [el.entry] + view)
    ensures Nodes(Pushed(ring, el)) == Nodes(ring) + {el}
  {
    var r, v, items' := Pushed(ring, el), [el.entry] + view, items[el.entry.key := el];
    forall i | 0 < i < |r|
      ensures r[i].entry == v[i - 1] && r[i].entry.key in items' && items'[r[i].entry.key] == r[i]
    {
      assert i > 1 ==> r[i] == ring[i - 1] && v[i - 1] == view[i - 2];
    }
    AddedCovered(items', view, v, el.entry.key);
    PushedNodes(ring, el);
  }

  lemma PushedNodes(ring: seq<Element>, el: Element)
    requires ring != []
    ensures Nodes(Pushed(ring, el)) == Nodes(ring) + {el}
  {
    var r := Pushed(ring, el);
    assert r[0] == ring[0] && r[1] == el;
    forall i | 0 <= i < |ring| ensures ring[i] in r {
      if i > 0 { assert r[i + 1] == ring[i]; }
    }
  }

  lemma RenewedCovered(items: map<Key, Element>, view: seq<Entry>, i: nat, e: Entry)
    requires i < |view| && Covered(items, view) && view[i].key == e.key
    ensures Covered(items, view[i := e])
  {
    var v := view[i := e];
    forall x | x in items ensures Has(v, x) {
      var j :| 0 <= j < |view| && view[j].key == x;
      assert v[j].key == x;
    }
  }

  lemma RenewFacts(items: map<Key, Element>, ring: seq<Element>, view: seq<Entry>, i: nat, e: Entry)
    requires AllDistinct(ring) && 0 < i < |ring| && Mirrors(items, ring, view) && Covered(items, view)
    requires e.key == ring[i].entry.key
    ensures Covered(items, view[i - 1 := e]) && Without(view[i - 1 := e], e.key) == Without(view, e.key)
  {
    AtPlace(items, ring, view, i);
    RenewedCovered(items, view, i - 1, e);
    var v := view[i - 1 := e];
    ViewIsUnique(items, ring, view);
    assert Unique(v) by {
      forall x, y | 0 <= x < y < |v| ensures v[x].key != v[y].key {
        assert v[x].key == view[x].key && v[y].key == view[y].key;
      }
    }
    FindAt(v, i - 1);
    assert v[..i - 1] == view[..i - 1] && v[i..] == view[i..];
  }

  lemma AddedCovered(items: map<Key, Element>, view: seq<Entry>, v: seq<Entry>, k: Key)
    requires k in items && Covered(items - {k}, view) && v != [] && v[0].key == k && v[1..] == view
    ensures Covered(items, v)
  {
    forall x | x in items ensures Has(v, x) {
      if x == k {
        assert v[0].key == x;
      } else {
        assert x in items - {k};
        var j :| 0 <= j < |view| && view[j].key == x;
        assert v[j + 1].key == x;
      }
    }
  }
}
