/** SetConditions (pkg/resource/conditions.go:54-107): the first condition of a type wins, later ones only by force. */
module Conditions {
  import opened JsonTree

  datatype Status = StatusTrue | StatusFalse | StatusUnknown
  datatype BindingTarget = CompositeOnly | CompositeAndClaim

  /** One requested condition; `target` and `force` may be absent. */
  datatype Request = Request(typ: string, status: string, reason: string, message: Option<string>, target: Option<string>, force: Option<bool>)

  /** One condition of the response. */
  datatype Condition = Condition(typ: string, status: Status, reason: string, message: Option<string>, target: BindingTarget)

  function TransformTarget(t: Option<string>): BindingTarget {
    if t == Some("CompositeAndClaim") then CompositeAndClaim else CompositeOnly
  }

  function TransformCondition(r: Request): Condition {
    Condition(r.typ,
      if r.status == "True" then StatusTrue else if r.status == "False" then StatusFalse else StatusUnknown,
      r.reason, r.message, TransformTarget(r.target))
  }

  class Response {
    var conditions: seq<Condition>
    var fatal: bool

    constructor ()
      ensures conditions == [] && !fatal
    {
      conditions, fatal := [], false;
    }
  }

  predicate Forced(r: Request) {
    r.force == Some(true)
  }

  predicate TypeAmong(rs: seq<Request>, typ: string) {
    exists i | 0 <= i < |rs| :: rs[i].typ == typ
  }

  /** Does request `i` survive: is it the first of its type, or forced? */
  predicate Survives(rs: seq<Request>, i: nat)
    requires i < |rs|
  {
    Forced(rs[i]) || !TypeAmong(rs[..i], rs[i].typ)
  }

  function Transformed(rs: seq<Request>, idx: seq<nat>): seq<Condition>
    requires forall n | 0 <= n < |idx| :: idx[n] < |rs|
  {
    seq(|idx|, n requires 0 <= n < |idx| => TransformCondition(rs[idx[n]]))
  }

  /** The surviving positions, in order. */
  function Survivors(rs: seq<Request>): (idx: seq<nat>)
    ensures forall n | 0 <= n < |idx| :: idx[n] < |rs|
  {
    if rs == [] then []
    else
      var n := |rs| - 1;
      Survivors(rs[..n]) + if Survives(rs, n) then [n] else []
  }

  /** Said out: a request survives if it is forced, or no request before it has its type. */
  lemma SurvivesIff(rs: seq<Request>, i: nat)
    requires i < |rs|
    ensures i in Survivors(rs) <==> rs[i].force == Some(true) || forall j | 0 <= j < i :: rs[j].typ != rs[i].typ
  {
    SurvivorsAreExactly(rs);
    assert forall j | 0 <= j < i :: rs[..i][j] == rs[j];
  }

  /** The condition of the response carries its request: type, reason, message, status and target. */
  predicate Carries(c: Condition, r: Request) {
    && c.typ == r.typ && c.reason == r.reason && c.message == r.message
    && (c.status == StatusTrue <==> r.status == "True")
    && (c.status == StatusFalse <==> r.status == "False")
    && (c.target == CompositeAndClaim <==> r.target == Some("CompositeAndClaim"))
  }

  /** The conditions appended for some requests are those of the survivors, one by one. */
  lemma AppendedCarry(rs: seq<Request>, n: nat)
    requires n < |Survivors(rs)|
    ensures |Transformed(rs, Survivors(rs))| == |Survivors(rs)|
    ensures Carries(Transformed(rs, Survivors(rs))[n], rs[Survivors(rs)[n]])
  {
  }

  lemma SurvivesInPrefix(rs: seq<Request>, n: nat, i: nat)
    requires i < n <= |rs|
    ensures Survives(rs[..n], i) <==> Survives(rs, i)
  {
    assert rs[..n][..i] == rs[..i];
  }

  /** The survivors are an increasing list of exactly the surviving positions. */
  lemma {:induction false} SurvivorsAreExactly(rs: seq<Request>)
    ensures forall a, b | 0 <= a < b < |Survivors(rs)| :: Survivors(rs)[a] < Survivors(rs)[b]
    ensures forall i: nat :: i in Survivors(rs) <==> i < |rs| && Survives(rs, i)
    decreases |rs|
  {
    if rs != [] {
      var n := |rs| - 1;
      SurvivorsAreExactly(rs[..n]);
      forall i: nat | i < n ensures Survives(rs[..n], i) <==> Survives(rs, i) {
        SurvivesInPrefix(rs, n, i);
      }
    }
  }

  /** The condition of a type that has the last word: the first one, replaced by every later forced one. */
  function Winner(rs: seq<Request>, typ: string): Option<Request> {
    if rs == [] then None
    else
      var r, before := rs[|rs| - 1], Winner(rs[..|rs| - 1], typ);
      if r.typ == typ && (before.None? || Forced(r)) then Some(r) else before
  }

  /** The last surviving request of a type. */
  function LastSurvivor(rs: seq<Request>, typ: string): Option<Request> {
    if rs == [] then None
    else
      var n := |rs| - 1;
      if rs[n].typ == typ && Survives(rs, n) then Some(rs[n]) else LastSurvivor(rs[..n], typ)
  }

  lemma {:induction false} WinnerIff(rs: seq<Request>, typ: string)
    ensures Winner(rs, typ).Some? <==> TypeAmong(rs, typ)
    decreases |rs|
  {
    if rs != [] {
      var n := |rs| - 1;
      WinnerIff(rs[..n], typ);
      if TypeAmong(rs[..n], typ) {
        var i :| 0 <= i < n && rs[..n][i].typ == typ;
        assert rs[i].typ == typ;
      }
      if TypeAmong(rs, typ) && rs[n].typ != typ {
        var i :| 0 <= i < |rs| && rs[i].typ == typ;
        assert rs[..n][i].typ == typ;
      }
    }
  }

  /** So the last appended condition of each type is the last forced one after the first, or else the first. */
  lemma {:induction false} LastSurvivorWins(rs: seq<Request>, typ: string)
    ensures LastSurvivor(rs, typ) == Winner(rs, typ)
    decreases |rs|
  {
    if rs != [] {
      var n := |rs| - 1;
      LastSurvivorWins(rs[..n], typ);
      WinnerIff(rs[..n], typ);
    }
  }

  ghost predicate DistinctTypes(cs: seq<Condition>) {
    forall a, b | 0 <= a < b < |cs| :: cs[a].typ != cs[b].typ
  }

  /** Is a type forced that some earlier request has set? */
  predicate ForcedAgain(rs: seq<Request>) {
    exists i | 0 <= i < |rs| :: Forced(rs[i]) && TypeAmong(rs[..i], rs[i].typ)
  }

  /** The first request of a type survives. */
  lemma {:induction false} FirstOfType(rs: seq<Request>, typ: string) returns (i: nat)
    requires TypeAmong(rs, typ)
    ensures i < |rs| && rs[i].typ == typ && !TypeAmong(rs[..i], typ)
    decreases |rs|
  {
    var n := |rs| - 1;
    if TypeAmong(rs[..n], typ) {
      i := FirstOfType(rs[..n], typ);
      assert rs[..n][..i] == rs[..i];
    } else {
      i := n;
      assert forall j | 0 <= j < n :: rs[..n][j] == rs[j];
    }
  }

  /** A forced request and the first of its type before it both survive. */
  lemma BothSurvive(rs: seq<Request>, i: nat) returns (j: nat)
    requires i < |rs| && Forced(rs[i]) && TypeAmong(rs[..i], rs[i].typ)
    ensures j < i && rs[j].typ == rs[i].typ && j in Survivors(rs) && i in Survivors(rs)
  {
    SurvivorsAreExactly(rs);
    j := FirstOfType(rs[..i], rs[i].typ);
    assert rs[..i][..j] == rs[..j];
    assert Survives(rs, j) && Survives(rs, i);
  }

  lemma ForcedAgainRepeats(rs: seq<Request>, i: nat)
    requires i < |rs| && Forced(rs[i]) && TypeAmong(rs[..i], rs[i].typ)
    ensures !DistinctTypes(Transformed(rs, Survivors(rs)))
  {
    var j := BothSurvive(rs, i);
    var idx, cs := Survivors(rs), Transformed(rs, Survivors(rs));
    var a :| 0 <= a < |idx| && idx[a] == j;
    var b :| 0 <= b < |idx| && idx[b] == i;
    TypesMeet(cs, a, b);
  }

  lemma TypesMeet(cs: seq<Condition>, a: nat, b: nat)
    requires a < |cs| && b < |cs| && a != b && cs[a].typ == cs[b].typ
    ensures !DistinctTypes(cs)
  {
  }

  /** Two survivors of one type: the later one is forced. */
  lemma RepeatIsForced(rs: seq<Request>, a: nat, b: nat)
    requires a < b < |Survivors(rs)| && rs[Survivors(rs)[a]].typ == rs[Survivors(rs)[b]].typ
    ensures ForcedAgain(rs)
  {
    SurvivorsAreExactly(rs);
    var i, j := Survivors(rs)[a], Survivors(rs)[b];
    assert i in Survivors(rs) && j in Survivors(rs);
    assert rs[..j][i].typ == rs[j].typ;
    assert TypeAmong(rs[..j], rs[j].typ);
  }

  /**
   The appended conditions have pairwise distinct types if and only if no request forces a type that
   an earlier one has set.
   */
  lemma DistinctIffNothingForcedAgain(rs: seq<Request>)
    ensures DistinctTypes(Transformed(rs, Survivors(rs))) <==> !ForcedAgain(rs)
  {
    if ForcedAgain(rs) {
      var i :| 0 <= i < |rs| && Forced(rs[i]) && TypeAmong(rs[..i], rs[i].typ);
      ForcedAgainRepeats(rs, i);
    } else if !DistinctTypes(Transformed(rs, Survivors(rs))) {
      var cs := Transformed(rs, Survivors(rs));
      var a, b :| 0 <= a < b < |cs| && cs[a].typ == cs[b].typ;
      RepeatIsForced(rs, a, b);
    }
  }

  /** Such a duplicate: a condition and, after it, a forced one of the same type are both appended. */
  lemma ForcedTypeOccursTwice(r: Request, f: Request)
    requires r.typ == f.typ && Forced(f)
    ensures Transformed([r, f], Survivors([r, f])) == [TransformCondition(r), TransformCondition(f)]
    ensures TransformCondition(r).typ == TransformCondition(f).typ
  {
    var rs := [r, f];
    assert rs[..1] == [r] && [r][..0] == [];
    assert Survives([r], 0) && Survivors([r]) == [0];
    assert Survivors(rs) == [0, 1];
  }

  /** Requests before the first reserved type: all of them when there is none. */
  function BeforeReserved(rs: seq<Request>, isSystem: string -> bool): (n: nat)
    ensures n <= |rs|
    ensures forall i | 0 <= i < n :: !isSystem(rs[i].typ)
    ensures n < |rs| ==> isSystem(rs[n].typ)
  {
    if rs == [] || isSystem(rs[0].typ) then 0 else 1 + BeforeReserved(rs[1..], isSystem)
  }

  lemma BeforeReservedIs(rs: seq<Request>, isSystem: string -> bool, n: nat)
    requires n <= |rs| && (forall i | 0 <= i < n :: !isSystem(rs[i].typ)) && (n < |rs| ==> isSystem(rs[n].typ))
    ensures BeforeReserved(rs, isSystem) == n
  {
  }

  lemma TransformedOneMore(rs: seq<Request>, n: nat)
    requires n < |rs|
    ensures rs[..n + 1][..n] == rs[..n]
    ensures Transformed(rs[..n + 1], Survivors(rs[..n + 1])) ==
      Transformed(rs[..n], Survivors(rs[..n])) + if Survives(rs, n) then [TransformCondition(rs[n])] else []
    ensures forall t :: TypeAmong(rs[..n + 1], t) <==> TypeAmong(rs[..n], t) || t == rs[n].typ
  {
    var a, b := rs[..n], rs[..n + 1];
    assert b[..n] == a && b[n] == rs[n];
    SurvivesInPrefix(rs, n + 1, n);
    forall t ensures TypeAmong(b, t) <==> TypeAmong(a, t) || t == rs[n].typ {
      if TypeAmong(a, t) {
        var i :| 0 <= i < n && a[i].typ == t;
        assert b[i].typ == t;
      }
      if TypeAmong(b, t) && t != rs[n].typ {
        var i :| 0 <= i < n + 1 && b[i].typ == t;
        assert a[i].typ == t;
      }
    }
  }

  /**
   SetConditions (conditions.go:87-107). Without reserved types the survivors are appended in order;
   at the first reserved type the response becomes fatal and the rest is not looked at.
   */
  method SetConditions(rsp: Response, cr: seq<Request>, isSystem: string -> bool) returns (ok: bool)
    modifies rsp
    ensures var seen := cr[..BeforeReserved(cr, isSystem)];
            rsp.conditions == old(rsp.conditions) + Transformed(seen, Survivors(seen))
    ensures ok <==> forall i | 0 <= i < |cr| :: !isSystem(cr[i].typ)
    ensures rsp.fatal == (old(rsp.fatal) || !ok)
  {
    var conditionsSet: set<string> := {};
    var i := 0;
    while i < |cr|
      invariant 0 <= i <= |cr| && rsp.fatal == old(rsp.fatal)
      invariant forall j | 0 <= j < i :: !isSystem(cr[j].typ)
      invariant rsp.conditions == old(rsp.conditions) + Transformed(cr[..i], Survivors(cr[..i]))
      invariant forall t :: t in conditionsSet <==> TypeAmong(cr[..i], t)
    {
      var cs := cr[i];
      if isSystem(cs.typ) {
        BeforeReservedIs(cr, isSystem, i);
        rsp.fatal := true;
        return false;
      }
      TransformedOneMore(cr, i);
      if cs.typ in conditionsSet && cs.force != Some(true) {
        i := i + 1;
        continue;
      }
      rsp.conditions := rsp.conditions + [TransformCondition(cs)];
      conditionsSet := conditionsSet + {cs.typ};
      i := i + 1;
    }
    BeforeReservedIs(cr, isSystem, |cr|);
    ok := true;
  }
}
