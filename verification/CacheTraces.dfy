/** Whole traces of cache operations: recency order and retention. */
module CacheTraces {
  import opened JsonTree
  import opened CacheSpec

  datatype Op = LookupOp(key: Key, now: int) | StoreOp(key: Key, value: Bytes, now: int)

  function Apply(s: seq<Entry>, op: Op, ttl: int, max: nat): seq<Entry> {
    match op
    case LookupOp(k, now) => Lookup(s, k, now, ttl).0
    case StoreOp(k, v, now) => Store(s, k, v, now, max)
  }

  function Trace(ops: seq<Op>, ttl: int, max: nat): seq<Entry> {
    if ops == [] then [] else Apply(Trace(ops[..|ops| - 1], ttl, max), ops[|ops| - 1], ttl, max)
  }

  /** A store touches its key; a lookup touches it when it hits. */
  predicate Touches(s: seq<Entry>, op: Op, ttl: int) {
    op.StoreOp? || Lookup(s, op.key, op.now, ttl).1.Some?
  }

  /** The last step of the trace that touched `k`. */
  function LastTouch(ops: seq<Op>, k: Key, ttl: int, max: nat): Option<nat> {
    if ops == [] then None
    else
      var n := |ops| - 1;
      if ops[n].key == k && Touches(Trace(ops[..n], ttl, max), ops[n], ttl) then Some(n)
      else LastTouch(ops[..n], k, ttl, max)
  }

  /** The keys touched after step `i`. */
  function TouchedSince(ops: seq<Op>, i: nat, ttl: int, max: nat): set<Key> {
    if |ops| <= i + 1 then {}
    else
      var n := |ops| - 1;
      TouchedSince(ops[..n], i, ttl, max) + if Touches(Trace(ops[..n], ttl, max), ops[n], ttl) then {ops[n].key} else {}
  }

  /** What one operation does, told apart by whether it touches its key. */
  lemma ApplyIs(s: seq<Entry>, op: Op, ttl: int, max: nat)
    requires Good(s, max) && max > 0
    ensures Touches(s, op, ttl) ==>
      exists e: Entry :: e.key == op.key && Apply(s, op, ttl, max) == Take([e] + Without(s, op.key), max)
    ensures !Touches(s, op, ttl) ==> Apply(s, op, ttl, max) == Without(s, op.key) || Apply(s, op, ttl, max) == s
    ensures Good(Apply(s, op, ttl, max), max)
  {
    match op
    case StoreOp(k, v, now) =>
      OperationsKeepGood(s, k, v, now, ttl, max);
      assert Entry(k, v, now).key == op.key;
    case LookupOp(k, now) =>
      OperationsKeepGood(s, k, [], now, ttl, max);
      FindIff(s, k);
      match Find(s, k)
      case None =>
      case Some(e) =>
        var i :| 0 <= i < |s| && s[i] == e;
        FindAt(s, i);
        assert |[e] + Without(s, k)| <= max;
        assert e.key == op.key && Take([e] + Without(s, k), max) == [e] + Without(s, k);
  }

  lemma {:induction false} TraceIsGood(ops: seq<Op>, ttl: int, max: nat)
    requires max > 0
    ensures Good(Trace(ops, ttl, max), max)
    decreases |ops|
  {
    if ops != [] {
      TraceIsGood(ops[..|ops| - 1], ttl, max);
      ApplyIs(Trace(ops[..|ops| - 1], ttl, max), ops[|ops| - 1], ttl, max);
    }
  }

  // ---------------------------------------------------------------- positions

  /** Where an entry stands after another key is taken out. */
  lemma {:induction false} WithoutPosition(s: seq<Entry>, k: Key, p: nat) returns (q: nat)
    requires p < |s| && s[p].key != k
    ensures q <= p && q < |Without(s, k)| && Without(s, k)[q] == s[p]
    ensures forall j | 0 <= j < q :: exists i :: 0 <= i < p && s[i] == Without(s, k)[j] && s[i].key != k
    ensures (exists i :: 0 <= i < p && s[i].key == k) ==> q < p
    decreases |s|
  {
    if p == 0 {
      q := 0;
    } else {
      var r := WithoutPosition(s[1..], k, p - 1);
      var w, w1 := Without(s, k), Without(s[1..], k);
      forall j | 0 <= j < r ensures exists i :: 1 <= i < p && s[i] == w1[j] && s[i].key != k {
        var i :| 0 <= i < p - 1 && s[1..][i] == w1[j] && s[1..][i].key != k;
        assert s[i + 1] == w1[j];
      }
      if s[0].key == k {
        q := r;
      } else {
        q := r + 1;
        assert forall j | 1 <= j < q :: w[j] == w1[j - 1];
        if exists i :: 0 <= i < p && s[i].key == k {
          var i :| 0 <= i < p && s[i].key == k;
          assert s[1..][i - 1].key == k;
        }
      }
    }
  }

  // ---------------------------------------------------------------- recency order

  /** The step that last touched `k`, or -1. */
  function Rank(ops: seq<Op>, k: Key, ttl: int, max: nat): int {
    var t := LastTouch(ops, k, ttl, max);
    if t.Some? then t.value else -1
  }

  /** Every key in the list has been touched, and the list is sorted by last touch, latest first. */
  ghost predicate ByRecency(s: seq<Entry>, ops: seq<Op>, ttl: int, max: nat) {
    && (forall i | 0 <= i < |s| :: 0 <= Rank(ops, s[i].key, ttl, max) < |ops|)
    && (forall i, j | 0 <= i < j < |s| :: Rank(ops, s[i].key, ttl, max) > Rank(ops, s[j].key, ttl, max))
  }

  lemma {:induction false} WithoutIsOrdered(s: seq<Entry>, k: Key, ops: seq<Op>, ttl: int, max: nat)
    requires ByRecency(s, ops, ttl, max)
    ensures ByRecency(Without(s, k), ops, ttl, max)
    decreases |s|
  {
    if s != [] {
      var w := Without(s[1..], k);
      WithoutIsOrdered(s[1..], k, ops, ttl, max);
      WithoutFacts(s[1..], k);
      forall i | 0 <= i < |w| ensures Rank(ops, w[i].key, ttl, max) < Rank(ops, s[0].key, ttl, max) {
        assert w[i] in w && w[i] in s[1..];
        var j :| 0 <= j < |s[1..]| && s[1..][j] == w[i];
        assert s[j + 1] == w[i];
      }
      if s[0].key != k {
        InFront(s[0], w, ops, ttl, max);
      }
    }
  }

  lemma RankOneMore(ops: seq<Op>, op: Op, k: Key, ttl: int, max: nat)
    ensures Rank(ops + [op], k, ttl, max) ==
      if k == op.key && Touches(Trace(ops, ttl, max), op, ttl) then |ops| else Rank(ops, k, ttl, max)
  {
    assert (ops + [op])[..|ops|] == ops;
  }

  /** An operation that touches no key of `s` leaves the order of `s` as it was. */
  lemma SameRanks(s: seq<Entry>, ops: seq<Op>, op: Op, ttl: int, max: nat)
    requires ByRecency(s, ops, ttl, max)
    requires !Touches(Trace(ops, ttl, max), op, ttl) || forall i | 0 <= i < |s| :: s[i].key != op.key
    ensures ByRecency(s, ops + [op], ttl, max)
  {
    forall i | 0 <= i < |s| ensures Rank(ops + [op], s[i].key, ttl, max) == Rank(ops, s[i].key, ttl, max) {
      RankOneMore(ops, op, s[i].key, ttl, max);
    }
  }

  /** One more operation: the touched key comes first, the others keep their order. */
  lemma OrderKept(s: seq<Entry>, ops: seq<Op>, op: Op, ttl: int, max: nat)
    requires s == Trace(ops, ttl, max) && Good(s, max) && max > 0 && ByRecency(s, ops, ttl, max)
    ensures ByRecency(Apply(s, op, ttl, max), ops + [op], ttl, max)
  {
    var w, all := Without(s, op.key), ops + [op];
    ApplyIs(s, op, ttl, max);
    WithoutIsOrdered(s, op.key, ops, ttl, max);
    WithoutFacts(s, op.key);
    SameRanks(w, ops, op, ttl, max);
    if Touches(s, op, ttl) {
      var e: Entry :| e.key == op.key && Apply(s, op, ttl, max) == Take([e] + w, max);
      RankOneMore(ops, op, op.key, ttl, max);
      FrontIsLatest(e, w, ops, op, ttl, max);
    } else {
      SameRanks(s, ops, op, ttl, max);
    }
  }

  lemma FrontIsLatest(e: Entry, w: seq<Entry>, ops: seq<Op>, op: Op, ttl: int, max: nat)
    requires e.key == op.key && Rank(ops + [op], op.key, ttl, max) == |ops|
    requires ByRecency(w, ops, ttl, max) && ByRecency(w, ops + [op], ttl, max)
    requires forall i | 0 <= i < |w| :: w[i].key != op.key
    ensures ByRecency(Take([e] + w, max), ops + [op], ttl, max)
  {
    forall i | 0 <= i < |w| ensures Rank(ops + [op], w[i].key, ttl, max) < |ops| {
      RankOneMore(ops, op, w[i].key, ttl, max);
    }
    InFront(e, w, ops + [op], ttl, max);
    TakeIsOrdered([e] + w, max, ops + [op], ttl, max);
  }

  lemma InFront(e: Entry, w: seq<Entry>, ops: seq<Op>, ttl: int, max: nat)
    requires ByRecency(w, ops, ttl, max) && 0 <= Rank(ops, e.key, ttl, max) < |ops|
    requires forall i | 0 <= i < |w| :: Rank(ops, w[i].key, ttl, max) < Rank(ops, e.key, ttl, max)
    ensures ByRecency([e] + w, ops, ttl, max)
  {
    var r := [e] + w;
    assert r[0] == e && forall i | 1 <= i < |r| :: r[i] == w[i - 1];
  }

  lemma TakeIsOrdered(s: seq<Entry>, n: nat, ops: seq<Op>, ttl: int, max: nat)
    requires ByRecency(s, ops, ttl, max)
    ensures ByRecency(Take(s, n), ops, ttl, max)
  {
  }

  /** After any trace the list is ordered by last hit or store. */
  lemma {:induction false} ListIsByRecency(ops: seq<Op>, ttl: int, max: nat)
    requires max > 0
    ensures ByRecency(Trace(ops, ttl, max), ops, ttl, max)
    decreases |ops|
  {
    if ops != [] {
      var n := |ops| - 1;
      ListIsByRecency(ops[..n], ttl, max);
      TraceIsGood(ops[..n], ttl, max);
      OrderKept(Trace(ops[..n], ttl, max), ops[..n], ops[n], ttl, max);
      assert ops == ops[..n] + [ops[n]];
    }
  }

  // ---------------------------------------------------------------- retention

  /** Entry `e` stands at `p`, and all keys ahead of it are among `ahead`. */
  ghost predicate Stands(s: seq<Entry>, e: Entry, p: nat, ahead: set<Key>) {
    p < |s| && s[p] == e && forall j | 0 <= j < p :: s[j].key in ahead
  }

  lemma {:induction false} FewAhead(s: seq<Entry>, p: nat, ahead: set<Key>)
    requires Unique(s) && p <= |s| && forall j | 0 <= j < p :: s[j].key in ahead
    ensures p <= |ahead|
    decreases p
  {
    if p > 0 {
      var k := s[p - 1].key;
      assert forall j | 0 <= j < p - 1 :: s[j].key in ahead - {k};
      FewAhead(s, p - 1, ahead - {k});
    }
  }

  lemma FrontIsUnique(s: seq<Entry>, x: Entry)
    requires Unique(s)
    ensures Unique([x] + Without(s, x.key))
  {
    WithoutFacts(s, x.key);
    assert forall i | 0 <= i < |Without(s, x.key)| :: Without(s, x.key)[i].key != x.key;
  }

  /** Touching another key pushes `e` back by at most one place, and puts at most that key ahead of it. */
  lemma StandsAfterTouch(s: seq<Entry>, e: Entry, p: nat, ahead: set<Key>, x: Entry, max: nat) returns (q: nat)
    requires Good(s, max) && Stands(s, e, p, ahead) && x.key != e.key && |ahead + {x.key}| < max
    ensures Stands(Take([x] + Without(s, x.key), max), e, q, ahead + {x.key})
  {
    var r := WithoutPosition(s, x.key, p);
    var w := Without(s, x.key);
    var l := [x] + w;
    q := r + 1;
    forall j | 0 <= j < q ensures l[j].key in ahead + {x.key} {
      if j > 0 {
        var i :| 0 <= i < p && s[i] == w[j - 1] && s[i].key != x.key;
      }
    }
    FrontIsUnique(s, x);
    FewAhead(l, q, ahead + {x.key});
  }

  lemma StandsAfterRemoval(s: seq<Entry>, e: Entry, p: nat, ahead: set<Key>, k: Key) returns (q: nat)
    requires Stands(s, e, p, ahead) && k != e.key
    ensures Stands(Without(s, k), e, q, ahead)
  {
    q := WithoutPosition(s, k, p);
    forall j | 0 <= j < q ensures Without(s, k)[j].key in ahead {
      var i :| 0 <= i < p && s[i] == Without(s, k)[j] && s[i].key != k;
    }
  }

  /** The key's entry right after step `i` touched it. */
  lemma TouchedIsFirst(ops: seq<Op>, i: nat, ttl: int, max: nat)
    requires i < |ops| && max > 0 && Touches(Trace(ops[..i], ttl, max), ops[i], ttl)
    ensures var s := Trace(ops[..i + 1], ttl, max); s != [] && s[0].key == ops[i].key
  {
    TraceIsGood(ops[..i], ttl, max);
    ApplyIs(Trace(ops[..i], ttl, max), ops[i], ttl, max);
    assert ops[..i + 1][..i] == ops[..i];
  }

  /** One more operation that does not touch `e`'s key: `e` stays, and at most the touched key gets ahead of it. */
  lemma StandsOneMore(s: seq<Entry>, e: Entry, q: nat, ahead: set<Key>, op: Op, now: int, ttl: int, max: nat) returns (p: nat)
    requires Good(s, max) && max > 0 && Stands(s, e, q, ahead)
    requires !(Touches(s, op, ttl) && op.key == e.key)
    requires !Expired(e, now, ttl) && (op.LookupOp? ==> op.now <= now)
    requires |ahead + if Touches(s, op, ttl) then {op.key} else {}| < max
    ensures Stands(Apply(s, op, ttl, max), e, p, ahead + if Touches(s, op, ttl) then {op.key} else {})
  {
    ApplyIs(s, op, ttl, max);
    FindAt(s, q);
    if Touches(s, op, ttl) {
      var x: Entry :| x.key == op.key && Apply(s, op, ttl, max) == Take([x] + Without(s, op.key), max);
      p := StandsAfterTouch(s, e, q, ahead, x, max);
    } else if Apply(s, op, ttl, max) == s {
      p := q;
    } else {
      p := StandsAfterRemoval(s, e, q, ahead, op.key);
    }
  }

  function FirstAfter(ops: seq<Op>, i: nat, ttl: int, max: nat): Entry
    requires i < |ops| && max > 0 && Touches(Trace(ops[..i], ttl, max), ops[i], ttl)
  {
    TouchedIsFirst(ops, i, ttl, max);
    Trace(ops[..i + 1], ttl, max)[0]
  }

  lemma FewerTouched(ops: seq<Op>, i: nat, ttl: int, max: nat)
    requires i + 1 < |ops|
    ensures TouchedSince(ops[..|ops| - 1], i, ttl, max) <= TouchedSince(ops, i, ttl, max)
    ensures |TouchedSince(ops[..|ops| - 1], i, ttl, max)| <= |TouchedSince(ops, i, ttl, max)|
  {
    var a, b := TouchedSince(ops[..|ops| - 1], i, ttl, max), TouchedSince(ops, i, ttl, max);
    assert b == a + (b - a);
  }

  /** The key of `e` was last touched at step `i`, which left `e`; few keys have been since, and no lookup was later than `now`. */
  ghost predicate Watched(ops: seq<Op>, i: nat, e: Entry, now: int, ttl: int, max: nat) {
    && i < |ops| && max > 0
    && Touches(Trace(ops[..i], ttl, max), ops[i], ttl) && e == FirstAfter(ops, i, ttl, max)
    && LastTouch(ops, e.key, ttl, max) == Some(i)
    && |TouchedSince(ops, i, ttl, max)| < max
    && forall j | i < j < |ops| && ops[j].LookupOp? :: ops[j].now <= now
  }

  lemma WatchedBefore(ops: seq<Op>, i: nat, e: Entry, now: int, ttl: int, max: nat)
    requires Watched(ops, i, e, now, ttl, max) && i < |ops| - 1
    ensures Watched(ops[..|ops| - 1], i, e, now, ttl, max)
  {
    var init := ops[..|ops| - 1];
    assert init[..i] == ops[..i] && init[..i + 1] == ops[..i + 1];
    NotTouchedLast(ops, i, e.key, ttl, max);
    FewerTouched(ops, i, ttl, max);
  }

  /**
   The entry of the key touched at step `i`, any number of steps later: it is still in the list, and
   only keys touched since can stand ahead of it.
   */
  lemma {:induction false} StillThere(ops: seq<Op>, i: nat, e: Entry, now: int, ttl: int, max: nat) returns (p: nat)
    requires Watched(ops, i, e, now, ttl, max) && !Expired(e, now, ttl)
    ensures Stands(Trace(ops, ttl, max), e, p, TouchedSince(ops, i, ttl, max))
    decreases |ops|
  {
    var n := |ops| - 1;
    if n == i {
      JustTouched(ops, i, e, ttl, max);
      p := 0;
    } else {
      WatchedBefore(ops, i, e, now, ttl, max);
      var q := StillThere(ops[..n], i, e, now, ttl, max);
      NotTouchedLast(ops, i, e.key, ttl, max);
      TraceIsGood(ops[..n], ttl, max);
      p := StandsOneMore(Trace(ops[..n], ttl, max), e, q, TouchedSince(ops[..n], i, ttl, max), ops[n], now, ttl, max);
    }
  }

  lemma JustTouched(ops: seq<Op>, i: nat, e: Entry, ttl: int, max: nat)
    requires |ops| == i + 1 && max > 0
    requires Touches(Trace(ops[..i], ttl, max), ops[i], ttl) && e == FirstAfter(ops, i, ttl, max)
    ensures Stands(Trace(ops, ttl, max), e, 0, TouchedSince(ops, i, ttl, max))
  {
    assert ops[..i + 1] == ops;
    TouchedIsFirst(ops, i, ttl, max);
  }

  lemma NotTouchedLast(ops: seq<Op>, i: nat, k: Key, ttl: int, max: nat)
    requires i + 1 < |ops| && LastTouch(ops, k, ttl, max) == Some(i)
    ensures var n := |ops| - 1;
            && LastTouch(ops[..n], k, ttl, max) == Some(i)
            && !(Touches(Trace(ops[..n], ttl, max), ops[n], ttl) && ops[n].key == k)
  {
  }

  /**
   Retention: a key last stored or hit at step `i`, with fewer than `max` distinct keys stored or hit
   since, and whose entry is younger than the TTL, if there is one, is hit.
   */
  lemma RecentKeysAreHit(ops: seq<Op>, i: nat, now: int, ttl: int, max: nat)
    requires i < |ops| && max > 0 && Touches(Trace(ops[..i], ttl, max), ops[i], ttl)
    requires LastTouch(ops, ops[i].key, ttl, max) == Some(i)
    requires |TouchedSince(ops, i, ttl, max)| < max
    requires ttl <= 0 || now - FirstAfter(ops, i, ttl, max).stored < ttl
    requires forall j | i < j < |ops| && ops[j].LookupOp? :: ops[j].now <= now
    ensures Lookup(Trace(ops, ttl, max), ops[i].key, now, ttl).1 == Some(FirstAfter(ops, i, ttl, max).value)
  {
    var e := FirstAfter(ops, i, ttl, max);
    TouchedIsFirst(ops, i, ttl, max);
    var p := StillThere(ops, i, e, now, ttl, max);
    TraceIsGood(ops, ttl, max);
    FindAt(Trace(ops, ttl, max), p);
  }
}
