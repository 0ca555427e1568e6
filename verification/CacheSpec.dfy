/** The render cache as a recency list, most recent first, and what whole traces of operations do to it. */
module CacheSpec {
  import opened JsonTree

  type Bytes = seq<bv8>
  type Key = Bytes

  datatype Entry = Entry(key: Key, value: Bytes, stored: int)

  // ---------------------------------------------------------------- one operation

  function Find(s: seq<Entry>, k: Key): Option<Entry> {
    if s == [] then None else if s[0].key == k then Some(s[0]) else Find(s[1..], k)
  }

  function Without(s: seq<Entry>, k: Key): (r: seq<Entry>)
    ensures |r| <= |s|
  {
    if s == [] then [] else if s[0].key == k then Without(s[1..], k) else [s[0]] + Without(s[1..], k)
  }

  function Take(s: seq<Entry>, n: nat): seq<Entry> {
    if |s| <= n then s else s[..n]
  }

  predicate Expired(e: Entry, now: int, ttl: int) {
    ttl > 0 && now - e.stored >= ttl
  }

  /** lookup (rendercache.go:88-110): the new list and the value, if it is a hit. */
  function Lookup(s: seq<Entry>, k: Key, now: int, ttl: int): (seq<Entry>, Option<Bytes>) {
    match Find(s, k)
    case None => (s, None)
    case Some(e) => if Expired(e, now, ttl) then (Without(s, k), None) else ([e] + Without(s, k), Some(e.value))
  }

  /** store (rendercache.go:114-141). */
  function Store(s: seq<Entry>, k: Key, v: Bytes, now: int, max: nat): seq<Entry> {
    Take([Entry(k, v, now)] + Without(s, k), max)
  }

  // ---------------------------------------------------------------- lists without repeated keys

  ghost predicate Unique(s: seq<Entry>) {
    forall i, j | 0 <= i < j < |s| :: s[i].key != s[j].key
  }

  ghost predicate Has(s: seq<Entry>, k: Key) {
    exists i | 0 <= i < |s| :: s[i].key == k
  }

  lemma {:induction false} FindAt(s: seq<Entry>, i: nat)
    requires Unique(s) && i < |s|
    ensures Find(s, s[i].key) == Some(s[i])
    ensures Without(s, s[i].key) == s[..i] + s[i + 1..]
    decreases |s|
  {
    if i == 0 {
      WithoutAbsent(s[1..], s[0].key);
      assert s[..0] + s[1..] == s[1..];
    } else {
      FindAt(s[1..], i - 1);
      assert s[1..][..i - 1] == s[1..i] && s[..i] == [s[0]] + s[1..i];
      assert s[1..][i..] == s[i + 1..];
    }
  }

  lemma {:induction false} WithoutAbsent(s: seq<Entry>, k: Key)
    requires !Has(s, k)
    ensures Without(s, k) == s && Find(s, k) == None
    decreases |s|
  {
    if s != [] {
      assert s[0].key != k;
      forall i | 0 <= i < |s[1..]| ensures s[1..][i].key != k {
        assert s[i + 1].key != k;
      }
      WithoutAbsent(s[1..], k);
    }
  }

  lemma {:induction false} FindIff(s: seq<Entry>, k: Key)
    ensures Find(s, k).Some? <==> Has(s, k)
    ensures Find(s, k).Some? ==> Find(s, k).value in s && Find(s, k).value.key == k
    decreases |s|
  {
    if s != [] {
      FindIff(s[1..], k);
      if s[0].key != k && Has(s, k) {
        var i :| 0 <= i < |s| && s[i].key == k;
        assert s[1..][i - 1].key == k;
      }
    }
  }

  lemma {:induction false} WithoutFacts(s: seq<Entry>, k: Key)
    ensures !Has(Without(s, k), k)
    ensures forall e | e in Without(s, k) :: e in s
    ensures forall e | e in s && e.key != k :: e in Without(s, k)
    ensures Unique(s) ==> Unique(Without(s, k))
    decreases |s|
  {
    WithoutHas(s, k);
    if s != [] {
      WithoutFacts(s[1..], k);
      if Unique(s) && s[0].key != k {
        assert forall e | e in s[1..] :: e.key != s[0].key;
        FrontUnique(s[0], Without(s[1..], k));
      }
    }
  }

  lemma {:induction false} WithoutHas(s: seq<Entry>, k: Key)
    ensures !Has(Without(s, k), k)
    decreases |s|
  {
    if s != [] {
      WithoutHas(s[1..], k);
    }
  }

  lemma FrontUnique(e: Entry, s: seq<Entry>)
    requires Unique(s) && forall x | x in s :: x.key != e.key
    ensures Unique([e] + s)
  {
  }

  ghost predicate Good(s: seq<Entry>, max: nat) {
    Unique(s) && |s| <= max
  }

  /** No operation repeats a key or exceeds the capacity. */
  lemma OperationsKeepGood(s: seq<Entry>, k: Key, v: Bytes, now: int, ttl: int, max: nat)
    requires Good(s, max) && max > 0
    ensures Good(Lookup(s, k, now, ttl).0, max)
    ensures Good(Store(s, k, v, now, max), max)
    ensures Find(Store(s, k, v, now, max), k) == Some(Entry(k, v, now))
  {
    WithoutFacts(s, k);
    FindIff(s, k);
    if Find(s, k).Some? {
      var i :| 0 <= i < |s| && s[i] == Find(s, k).value;
      FindAt(s, i);
    }
    forall i | 0 <= i < |Without(s, k)| ensures Without(s, k)[i].key != k {}
  }

  /** A lookup serves the entry of its key if that is younger than the TTL, which 0 switches off; an older one is gone afterwards. */
  lemma LookupHitsIff(s: seq<Entry>, k: Key, now: int, ttl: int)
    requires Unique(s)
    ensures var (s', hit) := Lookup(s, k, now, ttl);
            && (hit.Some? <==> exists e :: e in s && e.key == k && (ttl <= 0 || now - e.stored < ttl))
            && (hit.Some? ==> s' != [] && s'[0] in s && s'[0].key == k && s'[0].value == hit.value)
            && (hit.None? ==> !Has(s', k))
            && Without(s', k) == Without(s, k)
  {
    FindIff(s, k);
    WithoutFacts(s, k);
    WithoutAbsent(Without(s, k), k);
    if Find(s, k).Some? {
      var e := Find(s, k).value;
      assert forall e' | e' in s && e'.key == k :: e' == e;
      assert ([e] + Without(s, k))[1..] == Without(s, k);
    }
  }

  // ---------------------------------------------------------------- the stack property

  /** One request with TTL 0: look up, and on a miss render and store (fn.go:222-253). */
  function Request(s: seq<Entry>, k: Key, v: Bytes, now: int, max: nat): seq<Entry> {
    var (s', hit) := Lookup(s, k, now, 0);
    if hit.Some? then s' else Store(s', k, v, now, max)
  }

  datatype Req = Req(key: Key, value: Bytes, now: int)

  function Requests(s: seq<Entry>, reqs: seq<Req>, max: nat): seq<Entry> {
    if reqs == [] then s
    else
      var r := reqs[|reqs| - 1];
      Request(Requests(s, reqs[..|reqs| - 1], max), r.key, r.value, r.now, max)
  }

  function Keys(s: seq<Entry>): (r: seq<Key>)
    ensures |r| == |s| && forall i | 0 <= i < |s| :: r[i] == s[i].key
  {
    seq(|s|, i requires 0 <= i < |s| => s[i].key)
  }

  function WithoutKey(ks: seq<Key>, k: Key): seq<Key> {
    if ks == [] then [] else if ks[0] == k then WithoutKey(ks[1..], k) else [ks[0]] + WithoutKey(ks[1..], k)
  }

  /** A request moves its key to the front, hit or miss. */
  function Touch(ks: seq<Key>, k: Key, max: nat): seq<Key> {
    var r := [k] + WithoutKey(ks, k);
    if |r| <= max then r else r[..max]
  }

  lemma {:induction false} KeysWithout(s: seq<Entry>, k: Key)
    ensures Keys(Without(s, k)) == WithoutKey(Keys(s), k)
    decreases |s|
  {
    if s != [] {
      KeysWithout(s[1..], k);
      assert Keys(s)[1..] == Keys(s[1..]);
      if s[0].key != k {
        assert Keys([s[0]] + Without(s[1..], k)) == [s[0].key] + Keys(Without(s[1..], k));
      }
    }
  }

  lemma RequestIsGood(s: seq<Entry>, k: Key, v: Bytes, now: int, max: nat)
    requires Good(s, max) && max > 0
    ensures Good(Request(s, k, v, now, max), max)
  {
    OperationsKeepGood(s, k, v, now, 0, max);
    OperationsKeepGood(Lookup(s, k, now, 0).0, k, v, now, 0, max);
  }

  lemma KeysOfPut(e: Entry, w: seq<Entry>, max: nat)
    ensures Keys([e] + w) == [e.key] + Keys(w)
    ensures |[e] + w| > max ==> Keys(([e] + w)[..max]) == ([e.key] + Keys(w))[..max]
  {
  }

  lemma RequestTouches(s: seq<Entry>, k: Key, v: Bytes, now: int, max: nat)
    requires Good(s, max) && max > 0
    ensures Keys(Request(s, k, v, now, max)) == Touch(Keys(s), k, max)
    ensures Good(Request(s, k, v, now, max), max)
  {
    RequestIsGood(s, k, v, now, max);
    KeysWithout(s, k);
    FindIff(s, k);
    match Find(s, k)
    case Some(e) =>
      var i :| 0 <= i < |s| && s[i] == e;
      FindAt(s, i);
      KeysOfPut(e, Without(s, k), max);
    case None => KeysOfPut(Entry(k, v, now), Without(s, k), max);
  }

  function TakeKeys(ks: seq<Key>, n: nat): seq<Key> {
    if |ks| <= n then ks else ks[..n]
  }

  ghost predicate DistinctKeys(ks: seq<Key>) {
    forall i, j | 0 <= i < j < |ks| :: ks[i] != ks[j]
  }

  lemma {:induction false} WithoutKeyOfPrefix(ks: seq<Key>, k: Key, m: nat)
    requires DistinctKeys(ks) && m <= |ks|
    ensures WithoutKey(ks[..m], k) <= WithoutKey(ks, k)
    ensures |WithoutKey(ks[..m], k)| == if k in ks[..m] then m - 1 else m
    decreases |ks|
  {
    if m > 0 {
      assert ks[..m][1..] == ks[1..][..m - 1];
      WithoutKeyOfPrefix(ks[1..], k, m - 1);
      assert k in ks[..m] <==> k == ks[0] || k in ks[1..][..m - 1];
      if ks[0] == k {
        assert k !in ks[1..][..m - 1];
      }
    }
  }

  /** Truncating before or after a touch comes to the same. */
  lemma TouchOfPrefix(ks: seq<Key>, k: Key, m: nat, n: nat)
    requires DistinctKeys(ks) && 0 < m <= n && |ks| <= n
    ensures Touch(TakeKeys(ks, m), k, m) == TakeKeys(Touch(ks, k, n), m)
  {
    WithoutKeyOfPrefix(ks, k, |ks|);
    assert ks[..|ks|] == ks;
    if |ks| > m {
      WithoutKeyOfPrefix(ks, k, m);
      var a, b := WithoutKey(ks[..m], k), WithoutKey(ks, k);
      assert a == b[..|a|];
      assert ([k] + a)[..m] == ([k] + b)[..m];
    }
  }

  lemma {:induction false} RequestsAreGood(reqs: seq<Req>, max: nat)
    requires max > 0
    ensures Good(Requests([], reqs, max), max)
    decreases |reqs|
  {
    if reqs != [] {
      var r := reqs[|reqs| - 1];
      RequestsAreGood(reqs[..|reqs| - 1], max);
      RequestTouches(Requests([], reqs[..|reqs| - 1], max), r.key, r.value, r.now, max);
    }
  }

  /**
   The stack property: after any trace of requests with TTL 0, the recency list at capacity m is the
   first m entries of the list at capacity n, for m <= n.
   */
  lemma {:induction false} SmallerCacheIsAPrefix(reqs: seq<Req>, m: nat, n: nat)
    requires 0 < m <= n
    ensures Keys(Requests([], reqs, m)) == TakeKeys(Keys(Requests([], reqs, n)), m)
    decreases |reqs|
  {
    if reqs != [] {
      var r, init := reqs[|reqs| - 1], reqs[..|reqs| - 1];
      SmallerCacheIsAPrefix(init, m, n);
      RequestsAreGood(init, m);
      RequestsAreGood(init, n);
      RequestTouches(Requests([], init, m), r.key, r.value, r.now, m);
      RequestTouches(Requests([], init, n), r.key, r.value, r.now, n);
      TouchOfPrefix(Keys(Requests([], init, n)), r.key, m, n);
    }
  }

  /** Hence a larger cache hits whenever a smaller one does. */
  lemma LargerCacheHitsToo(reqs: seq<Req>, m: nat, n: nat, k: Key, now: int)
    requires 0 < m <= n
    requires Lookup(Requests([], reqs, m), k, now, 0).1.Some?
    ensures Lookup(Requests([], reqs, n), k, now, 0).1.Some?
  {
    SmallerCacheIsAPrefix(reqs, m, n);
    var s, l := Requests([], reqs, m), Requests([], reqs, n);
    FindIff(s, k);
    FindIff(l, k);
    var i :| 0 <= i < |s| && s[i].key == k;
    assert Keys(s)[i] == Keys(l)[i];
    assert l[i].key == k;
  }

  // ---------------------------------------------------------------- the same, values included

  datatype Pair = Pair(key: Key, value: Bytes)

  /** What a cache would serve, most recent first. */
  function Pairs(s: seq<Entry>): (r: seq<Pair>)
    ensures |r| == |s| && forall i | 0 <= i < |s| :: r[i] == Pair(s[i].key, s[i].value)
  {
    seq(|s|, i requires 0 <= i < |s| => Pair(s[i].key, s[i].value))
  }

  /** Every value is the render of its key. */
  ghost predicate Renders(s: seq<Entry>, render: Key -> Bytes) {
    forall e | e in s :: e.value == render(e.key)
  }

  lemma RequestRenders(s: seq<Entry>, r: Req, render: Key -> Bytes, max: nat)
    requires Renders(s, render) && r.value == render(r.key)
    ensures Renders(Request(s, r.key, r.value, r.now, max), render)
  {
    WithoutFacts(s, r.key);
    FindIff(s, r.key);
  }

  lemma {:induction false} RequestsRender(reqs: seq<Req>, render: Key -> Bytes, max: nat)
    requires forall i | 0 <= i < |reqs| :: reqs[i].value == render(reqs[i].key)
    ensures Renders(Requests([], reqs, max), render)
    decreases |reqs|
  {
    if reqs != [] {
      var n := |reqs| - 1;
      RequestsRender(reqs[..n], render, max);
      RequestRenders(Requests([], reqs[..n], max), reqs[n], render, max);
    }
  }

  function TakePairs(ps: seq<Pair>, n: nat): seq<Pair> {
    if |ps| <= n then ps else ps[..n]
  }

  /** With a deterministic render the smaller cache holds the same values as well, so a larger cache serves the same bytes. */
  lemma SmallerCacheServesTheSame(reqs: seq<Req>, render: Key -> Bytes, m: nat, n: nat, k: Key, now: int)
    requires 0 < m <= n && forall i | 0 <= i < |reqs| :: reqs[i].value == render(reqs[i].key)
    ensures Pairs(Requests([], reqs, m)) == TakePairs(Pairs(Requests([], reqs, n)), m)
    ensures var hit := Lookup(Requests([], reqs, m), k, now, 0).1;
            hit.Some? ==> Lookup(Requests([], reqs, n), k, now, 0).1 == hit
  {
    SmallerCacheIsAPrefix(reqs, m, n);
    RequestsRender(reqs, render, m);
    RequestsRender(reqs, render, n);
    var s, l := Requests([], reqs, m), Requests([], reqs, n);
    assert |Keys(s)| == |s| && |Keys(l)| == |l|;
    forall i | 0 <= i < |s| ensures Pairs(s)[i] == Pairs(l)[i] {
      assert Keys(s)[i] == Keys(l)[i];
      assert s[i] in s && l[i] in l;
    }
    FindIff(s, k);
    FindIff(l, k);
    if Find(s, k).Some? {
      LargerCacheHitsToo(reqs, m, n, k, now);
    }
  }
}
