/** ProcessResources (res.go:394-570): one entry point, five targets. */
module Processing {
  import opened JsonTree
  import opened AnyOrder
  import opened SetDataSpec
  import opened SetDataRun
  import opened ResourceNames
  import opened PatchRuns
  import opened Patching
  import opened DesiredState
  import opened DefaultTarget

  /** The targets by name; any other name matches no case. */
  datatype Route = ToXr | ToDesired | ToBases | ToResources | ToDefault | ToNothing

  function RouteOf(target: string): Route {
    match target
    case "XR" => ToXr
    case "PatchDesired" => ToDesired
    case "PatchResources" => ToBases
    case "Resources" => ToResources
    case "Default" => ToDefault
    case _ => ToNothing
  }

  /** The visiting orders of the patches: those written into the XR and those filed by name. */
  datatype Orders = Orders(xr: seq<Ordered>, named: map<string, seq<Ordered>>)

  ghost predicate OrdersFit(route: Route, view: map<string, Item>, data: seq<Json>, orders: Orders) {
    match route
    case ToXr => Visits(orders.xr, data)
    case ToDesired => OrdersFor(view.Keys, data, orders.named)
    case ToBases => OrdersFor(view.Keys, data, orders.named)
    case _ => true
  }

  /** The entries that a target starts from. */
  ghost function Start(route: Route, view: map<string, Item>, bases: seq<Base>): map<string, Item> {
    if route == ToBases then WithBases(view, bases) else view
  }

  /** What the two targets that do not patch make of the state. */
  ghost function Unpatched(cfg: Config, route: Route, st: State, data: seq<Json>): Outcome<State> {
    match route
    case ToResources =>
      if DistinctNames(data) && AllReadyOk(Added(st.desired, data)) then Ok(st.(desired := AllReady(Added(st.desired, data))))
      else Fail
    case ToDefault =>
      (match Run(cfg, st, data)
       case Fail => Fail
       case Ok(st') => Ok(st'.(names := {})))
    case _ => Ok(st)
  }

  /** What each target makes of the state, its patches visited in the given orders; it touches nothing but the part it is named for. */
  ghost function Processed(cfg: Config, route: Route, st: State, bases: seq<Base>, data: seq<Json>, orders: Orders, overwrite: bool)
    : Outcome<State>
    requires OrdersFit(route, Start(route, st.desired, bases), data, orders)
  {
    match route
    case ToXr =>
      (match RunAll(CompositeKind, Some(st.xr), orders.xr, overwrite)
       case Ok(Some(xr)) => Ok(st.(xr := xr))
       case _ => Fail)
    case ToResources => Unpatched(cfg, route, st, data)
    case ToDefault => Unpatched(cfg, route, st, data)
    case ToNothing => Ok(st)
    case _ =>
      var base := Start(route, st.desired, bases);
      if AcceptedIn(base, data, orders.named, overwrite) then Ok(st.(desired := AllReady(PatchedIn(base, orders.named, overwrite))))
      else Fail
  }

  /** What each target means when the keys of all patches are safe: no visiting order is left in it. */
  ghost function Meant(cfg: Config, route: Route, st: State, bases: seq<Base>, data: seq<Json>, overwrite: bool): Outcome<State> {
    match route
    case ToXr =>
      (match OverlayAll(CompositeKind, st.xr, data, overwrite)
       case Ok(xr) => Ok(st.(xr := xr))
       case Fail => Fail)
    case ToResources => Unpatched(cfg, route, st, data)
    case ToDefault => Unpatched(cfg, route, st, data)
    case ToNothing => Ok(st)
    case _ =>
      var base := Start(route, st.desired, bases);
      if PatchAccepted(base, data, overwrite) then Ok(st.(desired := AllReady(Overlaid(base, data, overwrite))))
      else Fail
  }

  /** With safe keys every target does what it means, whatever the visiting orders. */
  lemma ProcessedAsMeant(cfg: Config, route: Route, st: State, bases: seq<Base>, data: seq<Json>, orders: Orders, overwrite: bool)
    requires OrdersFit(route, Start(route, st.desired, bases), data, orders) && ArePatches(data)
    ensures Processed(cfg, route, st, bases, data, orders, overwrite) == Meant(cfg, route, st, bases, data, overwrite)
  {
    match route
    case ToXr => RunAllIsOverlayAll(CompositeKind, st.xr, orders.xr, data, overwrite);
    case ToDesired => AcceptedIffOverlaid(st.desired, data, orders.named, overwrite);
    case ToBases => AcceptedIffOverlaid(WithBases(st.desired, bases), data, orders.named, overwrite);
    case _ =>
  }

  /** The XR target on the composite of the state. */
  method ProcessXr(dxr: Composite, data: seq<Json>, overwrite: bool) returns (ok: bool, ghost ts: seq<Ordered>)
    requires dxr.resource.Some? && dxr.resource.value.Map?
    modifies dxr`resource
    ensures Visits(ts, data)
    ensures match RunAll(CompositeKind, Some(old(dxr.resource).value), ts, overwrite)
            case Ok(Some(xr)) => ok && dxr.resource == Some(xr)
            case _ => !ok
  {
    ok, ts := PatchComposite(dxr, data, overwrite);
    if ok {
      RunAllKeepsMap(CompositeKind, old(dxr.resource).value, ts, overwrite);
    }
  }

  /** The two targets that patch the desired state. */
  method ProcessPatches(desired: Desired, route: Route, bases: seq<Base>, data: seq<Json>, overwrite: bool)
    returns (ok: bool, ghost orders: map<string, seq<Ordered>>)
    requires ValidDesired(desired.entries) && (route == ToDesired || route == ToBases)
    requires forall i | 0 <= i < |bases| :: bases[i].obj.Map?
    modifies desired, desired.entries.Values
    ensures var base := Start(route, old(View(desired.entries)), bases);
            && OrdersFor(base.Keys, data, orders)
            && (ok <==> AcceptedIn(base, data, orders, overwrite))
            && (ok ==> ValidDesired(desired.entries) && View(desired.entries) == AllReady(PatchedIn(base, orders, overwrite)))
  {
    if route == ToDesired {
      ok, orders := ProcessPatchDesired(desired.entries, data, overwrite);
    } else {
      ok, orders := ProcessPatchResources(desired, bases, data, overwrite);
    }
  }

  /**
   A target no case names is no error: nothing is done and success is reported. The ghost result has
   the visiting orders of the patches.
   */
  method ProcessResources(cfg: Config, dxr: Composite, desired: Desired, reqs: Requirements, target: string,
                          bases: seq<Base>, data: seq<Json>, overwrite: bool)
    returns (ok: bool, ghost orders: Orders)
    requires dxr.resource.Some? && dxr.resource.value.Map? && ValidDesired(desired.entries)
    requires forall i | 0 <= i < |bases| :: bases[i].obj.Map?
    requires forall i | 0 <= i < |data| :: data[i].Map?
    modifies dxr, desired, desired.entries.Values, reqs
    ensures OrdersFit(RouteOf(target), Start(RouteOf(target), old(View(desired.entries)), bases), data, orders)
    ensures match Processed(cfg, RouteOf(target), old(StateOf(dxr, desired, reqs, {})), bases, data, orders, overwrite)
            case Ok(st) => ok && dxr.resource.Some? && ValidDesired(desired.entries) && StateOf(dxr, desired, reqs, {}) == st
            case Fail => !ok
  {
    orders := Orders([], map[]);
    match RouteOf(target)
    case ToXr =>
      ghost var ts;
      ok, ts := ProcessXr(dxr, data, overwrite);
      orders := Orders(ts, map[]);
    case ToResources => ok := ProcessResourcesTarget(desired, data);
    case ToDefault => ok := ProcessDefault(cfg, dxr, desired, reqs, data);
    case ToNothing => ok := true;
    case route =>
      ghost var named;
      ok, named := ProcessPatches(desired, route, bases, data, overwrite);
      orders := Orders([], named);
  }
}
