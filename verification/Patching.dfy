/** Patches routed to named resources: MatchResources and the patch cases of AddResourcesTo (res.go). */
module Patching {
  import opened JsonTree
  import opened AnyOrder
  import opened SetDataSpec
  import opened SetDataRun
  import opened ResourceNames
  import opened NamesByPath
  import opened Matching
  import opened PatchRuns

  // ---------------------------------------------------------------- the desired state

  /** Entries are distinct objects with a non-nil Resource. */
  ghost predicate ValidDesired(desired: map<string, DesiredComposed>)
    reads desired.Values
  {
    && DistinctEntries(desired)
    && (forall n | n in desired :: desired[n].resource.Some? && desired[n].resource.value.Map?)
  }

  ghost function View(desired: map<string, DesiredComposed>): map<string, Item>
    reads desired.Values
    requires ValidDesired(desired)
  {
    map n | n in desired :: Item(desired[n].resource.value, desired[n].ready)
  }

  // ---------------------------------------------------------------- MatchResources

  /** One patch filed under the entry it names (res.go:170-180). */
  method MatchOne(desired: map<string, DesiredComposed>, data: seq<Json>, i: nat, matches: map<DesiredComposed, seq<Json>>)
    returns (r: map<DesiredComposed, seq<Json>>, hit: bool)
    requires DistinctEntries(desired) && i < |data| && Matched(desired, data[..i], matches)
    ensures Matched(desired, data[..i + 1], r)
    ensures AllNamed(desired.Keys, data[..i + 1]) <==> AllNamed(desired.Keys, data[..i]) && hit
    ensures hit <==> NamesOneOf(data[i], desired.Keys)
    ensures forall n | n in desired && NamedBy(data[i], n) :: r == matches[desired[n] := Filed(matches, desired[n]) + [Clean(data[i])]]
    ensures !hit ==> r == matches
  {
    NamedByOne(data[i]);
    var name, d := ResourceName(data[i]), Clean(data[i]);
    MatchOneMore(desired, data, i, d, matches);
    r, hit := matches, name in desired;
    if hit {
      var found := desired[name];
      if found !in matches {
        r := matches[found := [] + [d]];
      } else {
        r := matches[found := matches[found] + [d]];
      }
      assert r == matches[found := Filed(matches, found) + [d]];
    }
  }

  /**
   MatchResources (res.go:162-187): every patch goes to the entry it is named by, its naming
   annotation first, in data order; it is an error if some patch names no entry.
   */
  method MatchResources(desired: map<string, DesiredComposed>, data: seq<Json>)
    returns (matches: map<DesiredComposed, seq<Json>>, ok: bool)
    requires DistinctEntries(desired)
    ensures Matched(desired, data, matches)
    ensures ok <==> AllNamed(desired.Keys, data)
    ensures ok <==> forall i | 0 <= i < |data| :: NamesOneOf(data[i], desired.Keys)
    ensures forall i, n | 0 <= i < |data| && n in desired && NamedBy(data[i], n) :: Clean(data[i]) in Filed(matches, desired[n])
  {
    matches := map[];
    var count := 0;
    NothingMatched(desired, data);
    var i := 0;
    while i < |data|
      invariant 0 <= i <= |data|
      invariant Matched(desired, data[..i], matches)
      invariant count <= i
      invariant count == i <==> AllNamed(desired.Keys, data[..i])
    {
      var hit;
      matches, hit := MatchOne(desired, data, i, matches);
      if hit {
        count := count + 1;
      }
      i := i + 1;
    }
    AllMatched(desired, data, i, matches);
    FiledByName(desired, data, matches);
    ok := count == |data|;
  }

  // ---------------------------------------------------------------- AddResourcesTo, the patch cases

  /**
   All patches of one target, in order (res.go:284-288 and 292-296). The ghost result has the orders
   in which their maps were visited.
   */
  method PatchTarget(o: Target, patches: seq<Json>, overwrite: bool) returns (ok: bool, ghost ts: seq<Ordered>)
    modifies o.Composeds()`resource, o.Composites()`resource
    ensures Visits(ts, patches)
    ensures match RunAll(o.Kind(), old(o.Object()), ts, overwrite)
            case Ok(r) => ok && o.Object() == r
            case Fail => !ok
  {
    ghost var kind, was := o.Kind(), o.Object();
    ts := [];
    for i := 0 to |patches|
      invariant |ts| == i && RanSome(kind, was, patches, ts, overwrite, o.Object())
    {
      ghost var mid := o.Object();
      ghost var t;
      ok, t := SetData(patches[i], "", o, overwrite);
      if !ok {
        ts := RefusedPatch(kind, was, patches, ts, overwrite, mid, t, o.Object());
        return;
      }
      RanOnePatch(kind, was, patches, ts, overwrite, mid, t, o.Object());
      ts := ts + [t];
    }
    assert patches[..|patches|] == patches;
    ok := true;
  }

  /** The matched objects outside `remaining` have taken their patches, in the orders given. */
  ghost predicate OrdersOf(matches: map<DesiredComposed, seq<Json>>, remaining: set<DesiredComposed>,
                          orders: map<DesiredComposed, seq<Ordered>>) {
    orders.Keys == matches.Keys - remaining && forall c | c in orders :: Visits(orders[c], matches[c])
  }

  /** Orders for the objects that have not been reached. */
  ghost function CompleteOrders(matches: map<DesiredComposed, seq<Json>>, orders: map<DesiredComposed, seq<Ordered>>)
    : (r: map<DesiredComposed, seq<Ordered>>)
    requires orders.Keys <= matches.Keys && forall c | c in orders :: Visits(orders[c], matches[c])
    ensures OrdersOf(matches, {}, r)
    ensures forall c | c in orders :: r[c] == orders[c]
  {
    map c | c in matches :: if c in orders then orders[c] else CompleteVisits([], matches[c])
  }

  /** The DesiredMatch case (res.go:278-289): the matched objects are taken in an arbitrary order. */
  method PatchMatches(matches: map<DesiredComposed, seq<Json>>, overwrite: bool)
    returns (ok: bool, ghost orders: map<DesiredComposed, seq<Ordered>>)
    modifies matches.Keys`resource
    ensures OrdersOf(matches, {}, orders)
    ensures ok <==> forall c | c in matches :: RunAll(ComposedKind, old(c.resource), orders[c], overwrite).Ok?
    ensures ok ==> forall c | c in matches :: RunAll(ComposedKind, old(c.resource), orders[c], overwrite) == Ok(c.resource)
  {
    orders := map[];
    var remaining := matches.Keys;
    while remaining != {}
      invariant remaining <= matches.Keys && OrdersOf(matches, remaining, orders)
      invariant forall c | c in remaining :: c.resource == old(c.resource)
      invariant forall c | c in orders :: RunAll(ComposedKind, old(c.resource), orders[c], overwrite) == Ok(c.resource)
      decreases remaining
    {
      var obj :| obj in remaining;
      remaining := remaining - {obj};
      ghost var ts;
      ok, ts := PatchTarget(OnComposed(obj), matches[obj], overwrite);
      orders := orders[obj := ts];
      if !ok {
        orders := CompleteOrders(matches, orders);
        return;
      }
    }
    ok := true;
  }

  /** The XR case (res.go:290-296). */
  method PatchComposite(xr: Composite, data: seq<Json>, overwrite: bool) returns (ok: bool, ghost ts: seq<Ordered>)
    modifies xr`resource
    ensures Visits(ts, data)
    ensures match RunAll(CompositeKind, old(xr.resource), ts, overwrite)
            case Ok(r) => ok && xr.resource == r
            case Fail => !ok
    ensures ArePatches(data) && old(xr.resource).Some? ==>
      match OverlayAll(CompositeKind, old(xr.resource).value, data, overwrite)
      case Ok(r) => ok && xr.resource == Some(r)
      case Fail => !ok
  {
    ok, ts := PatchTarget(OnComposite(xr), data, overwrite);
    if ArePatches(data) && old(xr.resource).Some? {
      RunAllIsOverlayAll(CompositeKind, old(xr.resource).value, ts, data, overwrite);
    }
  }
}
