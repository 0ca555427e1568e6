/** One call of RunFunction: the recycler's bracket around the cached render (fn.go:52-59 and 213-253). */
module FunctionRun {
  import opened JsonTree
  import opened EntryRing
  import opened RenderCaching
  import opened CachedRendering
  import Drain
  import opened Recycling

  /** The protocol's state once the call `c` is over: one more call counted and completed, nothing else changed. */
  function Completed(s: Drain.State, c: nat): Drain.State
    requires c < |s.calls|
  {
    s.(calls := s.calls[c := Drain.Done], count := s.count + 1)
  }

  /** What begin does and end undoes. */
  lemma BracketCloses(s: Drain.State, c: nat)
    requires c < |s.calls|
    ensures c < |LetIn(s, c).calls| && LetIn(s, c).calls[c] == Drain.Running
    ensures LetOut(LetIn(s, c), c) == Completed(s, c)
  {
    assert s.calls[c := Drain.Running][c := Drain.Done] == s.calls[c := Drain.Done];
  }

  /** The part after admission, with end deferred (fn.go:59 and 213-253). */
  method Admitted(r: Recycler?, c: RenderCache?, p: Pipeline, input: Json, lookupTime: int, storeTime: int, call: nat)
    returns (answer: Answer)
    requires InCall(r, call)
    requires Trusted(c, p)
    modifies r, if c == null then {} else {c, c.ll} + Nodes(c.ll.ring)
    ensures answer == Uncached(p, c != null, input) && Trusted(c, p)
    ensures c != null ==> CallLeft(c, p, old(c.view), c.view, input, lookupTime, storeTime)
    ensures r != null ==> r.Valid() && r.View() == LetOut(old(r.View()), call)
  {
    answer := CachedRender(c, p, input, lookupTime, storeTime);
    End(r, call);
  }

  /**
   RunFunction with nobody interleaving. A draining process turns the call away and touches nothing.
   Otherwise the cache, whatever it holds, does not show in the answer, and on every way out, fatal
   ones included, the bracket is closed: the gate and the in-flight counter are as before and one
   more call is counted.
   */
  method RunFunction(r: Recycler?, c: RenderCache?, p: Pipeline, input: Json, lookupTime: int, storeTime: int, call: nat)
    returns (answer: Answer)
    requires AtTheDoor(r, call)
    requires Trusted(c, p)
    modifies r, if c == null then {} else {c, c.ll} + Nodes(c.ll.ring)
    ensures answer == if r != null && old(r.draining) then Unavailable else Uncached(p, c != null, input)
    ensures Trusted(c, p)
    ensures answer.Unavailable? <==> r != null && old(r.draining)
    ensures answer.Output? ==> p.render(input) == Ok(answer.bytes)
    ensures c != null && !answer.Unavailable? ==> CallLeft(c, p, old(c.view), c.view, input, lookupTime, storeTime)
    ensures c != null && answer.Unavailable? ==> c.view == old(c.view) && c.hits == old(c.hits) && c.misses == old(c.misses)
    ensures r != null ==> r.Valid()
    ensures r != null ==>
      r.View() == if answer.Unavailable? then TurnedAway(old(r.View()), call) else Completed(old(r.View()), call)
  {
    if r != null {
      BracketCloses(r.View(), call);
    }
    var admitted := Begin(r, call);
    if !admitted {
      return Unavailable;
    }
    answer := Admitted(r, c, p, input, lookupTime, storeTime, call);
  }
}
