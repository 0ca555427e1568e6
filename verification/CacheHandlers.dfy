/**
 Concurrent handlers over one cache (fn.go:213-253): lookup, render and store are separate steps that
 interleave freely, so two handlers may miss on the same key and both store.
 */
module CacheHandlers {
  import opened JsonTree
  import opened CacheSpec

  /** `max` is the configured size: at most 0 means no cache. `used` holds the inputs that may occur. */
  datatype Config = Config(digest: Bytes -> Key, render: Bytes -> Bytes, ttl: int, max: int, used: set<Bytes>)

  /** A hit remembers when its value had been stored and when it was read. */
  datatype Source = FromRender | FromCache(stored: int, at: int)
  datatype Pc = Waiting | Missed | Rendered(out: Bytes) | Served(out: Bytes, source: Source) | Failed
  datatype Handler = Handler(input: Bytes, pc: Pc)

  /** `stores` records every entry ever stored. */
  datatype State = State(cache: seq<Entry>, handlers: seq<Handler>, hits: nat, misses: nat, ghost stores: set<Entry>)
  datatype Event = Arrive(input: Bytes) | DoLookup(h: nat, now: int) | DoRender(h: nat) | RenderFails(h: nat) | DoStore(h: nat, now: int)

  const INIT := State([], [], 0, 0, {})

  ghost predicate InjectiveDigest(cfg: Config) {
    forall a, b | a in cfg.used && b in cfg.used && cfg.digest(a) == cfg.digest(b) :: a == b
  }

  ghost function WithPc(s: State, h: nat, pc: Pc): State
    requires h < |s.handlers|
  {
    s.(handlers := s.handlers[h := s.handlers[h].(pc := pc)])
  }

  /** One atomic step; Fail when the event is not possible in this state. */
  ghost function Step(cfg: Config, s: State, ev: Event): Outcome<State> {
    match ev
    case Arrive(input) => if input in cfg.used then Ok(s.(handlers := s.handlers + [Handler(input, Waiting)])) else Fail
    case DoLookup(h, now) =>
      if h >= |s.handlers| || !s.handlers[h].pc.Waiting? then Fail
      else if cfg.max <= 0 then Ok(WithPc(s, h, Missed))
      else
        var k := cfg.digest(s.handlers[h].input);
        var (cache, hit) := Lookup(s.cache, k, now, cfg.ttl);
        (match hit
         case None => Ok(WithPc(s, h, Missed).(cache := cache, misses := s.misses + 1))
         case Some(v) => Ok(WithPc(s, h, Served(v, FromCache(cache[0].stored, now))).(cache := cache, hits := s.hits + 1)))
    case DoRender(h) =>
      if h >= |s.handlers| || !s.handlers[h].pc.Missed? then Fail
      else Ok(WithPc(s, h, Rendered(cfg.render(s.handlers[h].input))))
    case RenderFails(h) =>
      if h >= |s.handlers| || !s.handlers[h].pc.Missed? then Fail else Ok(WithPc(s, h, Failed))
    case DoStore(h, now) =>
      if h >= |s.handlers| || !s.handlers[h].pc.Rendered? then Fail
      else
        var out := s.handlers[h].pc.out;
        var s' := WithPc(s, h, Served(out, FromRender));
        if cfg.max <= 0 then Ok(s')
        else
          var k := cfg.digest(s.handlers[h].input);
          Ok(s'.(cache := Store(s.cache, k, out, now, cfg.max), stores := s.stores + {Entry(k, out, now)}))
  }

  ghost function Run(cfg: Config, events: seq<Event>): Outcome<State> {
    if events == [] then Ok(INIT)
    else
      match Run(cfg, events[..|events| - 1])
      case Fail => Fail
      case Ok(s) => Step(cfg, s, events[|events| - 1])
  }

  // ---------------------------------------------------------------- what always holds

  /** An entry is the render of some input whose digest is its key. */
  ghost predicate Rendering(cfg: Config, e: Entry) {
    exists input :: input in cfg.used && cfg.digest(input) == e.key && cfg.render(input) == e.value
  }

  /** What each handler holds is the render of its own input, and a hit is fresh. */
  ghost predicate HandlerSound(cfg: Config, stores: set<Entry>, h: Handler) {
    && h.input in cfg.used
    && (h.pc.Rendered? ==> h.pc.out == cfg.render(h.input))
    && (h.pc.Served? ==> h.pc.out == cfg.render(h.input))
    && (h.pc.Served? && h.pc.source.FromCache? ==>
          var src := h.pc.source;
          && Entry(cfg.digest(h.input), h.pc.out, src.stored) in stores
          && (cfg.ttl > 0 ==> src.at - src.stored < cfg.ttl))
  }

  /** Handlers past their lookup. */
  function LookedUp(hs: seq<Handler>): nat {
    if hs == [] then 0 else LookedUp(hs[..|hs| - 1]) + if hs[|hs| - 1].pc.Waiting? then 0 else 1
  }

  ghost predicate Inv(cfg: Config, s: State) {
    && (if cfg.max > 0 then Good(s.cache, cfg.max) else s.cache == [])
    && (forall e | e in s.cache :: e in s.stores)
    && (forall e | e in s.stores :: Rendering(cfg, e))
    && (forall i | 0 <= i < |s.handlers| :: HandlerSound(cfg, s.stores, s.handlers[i]))
    && s.hits + s.misses == if cfg.max > 0 then LookedUp(s.handlers) else 0
  }

  lemma {:induction false} LookedUpAfter(hs: seq<Handler>, i: nat, h: Handler)
    requires i < |hs|
    ensures LookedUp(hs[i := h]) == LookedUp(hs) - (if hs[i].pc.Waiting? then 0 else 1) + if h.pc.Waiting? then 0 else 1
    decreases |hs|
  {
    var n := |hs| - 1;
    if i < n {
      LookedUpAfter(hs[..n], i, h);
      assert hs[i := h][..n] == hs[..n][i := h];
    } else {
      assert hs[i := h][..n] == hs[..n];
    }
  }

  lemma LookedUpArrival(hs: seq<Handler>, h: Handler)
    requires h.pc.Waiting?
    ensures LookedUp(hs + [h]) == LookedUp(hs)
  {
    assert (hs + [h])[..|hs|] == hs;
  }

  /** A hit hands out a stored entry of the very key, unexpired. */
  lemma HitIsStored(s: seq<Entry>, k: Key, now: int, ttl: int)
    requires Lookup(s, k, now, ttl).1.Some?
    ensures var (s', hit) := Lookup(s, k, now, ttl);
            s' != [] && s'[0] in s && s'[0].key == k && s'[0].value == hit.value && (ttl > 0 ==> now - s'[0].stored < ttl)
  {
    FindIff(s, k);
  }

  lemma LookupKeepsEntries(s: seq<Entry>, k: Key, now: int, ttl: int)
    ensures forall e | e in Lookup(s, k, now, ttl).0 :: e in s
  {
    FindIff(s, k);
    WithoutFacts(s, k);
  }

  lemma LookupStep(cfg: Config, s: State, h: nat, now: int)
    requires Inv(cfg, s) && InjectiveDigest(cfg) && Step(cfg, s, DoLookup(h, now)).Ok?
    ensures Inv(cfg, Step(cfg, s, DoLookup(h, now)).value)
  {
    var s' := Step(cfg, s, DoLookup(h, now)).value;
    var input := s.handlers[h].input;
    LookedUpAfter(s.handlers, h, s'.handlers[h]);
    if cfg.max > 0 {
      var k := cfg.digest(input);
      OperationsKeepGood(s.cache, k, [], now, cfg.ttl, cfg.max);
      LookupKeepsEntries(s.cache, k, now, cfg.ttl);
      if Lookup(s.cache, k, now, cfg.ttl).1.Some? {
        HitIsStored(s.cache, k, now, cfg.ttl);
        var e := s'.cache[0];
        assert Rendering(cfg, e);
        var i :| i in cfg.used && cfg.digest(i) == e.key && cfg.render(i) == e.value;
        assert i == input;
        assert e == Entry(k, e.value, e.stored);
        assert HandlerSound(cfg, s'.stores, s'.handlers[h]);
      }
    }
  }

  lemma StoreStep(cfg: Config, s: State, h: nat, now: int)
    requires Inv(cfg, s) && Step(cfg, s, DoStore(h, now)).Ok?
    ensures Inv(cfg, Step(cfg, s, DoStore(h, now)).value)
  {
    var s' := Step(cfg, s, DoStore(h, now)).value;
    LookedUpAfter(s.handlers, h, s'.handlers[h]);
    assert HandlerSound(cfg, s.stores, s.handlers[h]);
    if cfg.max > 0 {
      var k := cfg.digest(s.handlers[h].input);
      var e := Entry(k, s.handlers[h].pc.out, now);
      OperationsKeepGood(s.cache, k, e.value, now, cfg.ttl, cfg.max);
      WithoutFacts(s.cache, k);
      assert Rendering(cfg, e);
      forall i | 0 <= i < |s'.handlers| ensures HandlerSound(cfg, s'.stores, s'.handlers[i]) {
        assert HandlerSound(cfg, s.stores, s.handlers[i]);
      }
    }
  }

  lemma OtherStep(cfg: Config, s: State, ev: Event)
    requires Inv(cfg, s) && !ev.DoLookup? && !ev.DoStore? && Step(cfg, s, ev).Ok?
    ensures Inv(cfg, Step(cfg, s, ev).value)
  {
    var s' := Step(cfg, s, ev).value;
    match ev
    case Arrive(input) => LookedUpArrival(s.handlers, Handler(input, Waiting));
    case DoRender(h) => LookedUpAfter(s.handlers, h, s'.handlers[h]);
    case RenderFails(h) => LookedUpAfter(s.handlers, h, s'.handlers[h]);
  }

  /** A handler is served from the cache if and only if the cache holds its key with an entry younger than the TTL; else it has to render. */
  lemma LookupDecides(cfg: Config, s: State, h: nat, now: int)
    requires Inv(cfg, s) && h < |s.handlers| && s.handlers[h].pc.Waiting?
    ensures Step(cfg, s, DoLookup(h, now)).Ok?
    ensures var s', k := Step(cfg, s, DoLookup(h, now)).value, cfg.digest(s.handlers[h].input);
            if cfg.max > 0 && exists e :: e in s.cache && e.key == k && (cfg.ttl <= 0 || now - e.stored < cfg.ttl)
            then s'.cache != [] && s'.cache[0].key == k && s'.handlers[h].pc == Served(s'.cache[0].value, FromCache(s'.cache[0].stored, now))
            else s'.handlers[h].pc == Missed
  {
    if cfg.max > 0 {
      LookupHitsIff(s.cache, cfg.digest(s.handlers[h].input), now, cfg.ttl);
    }
  }

  /** What a handler has rendered and stored stands first in the cache, with the time of the store. */
  lemma StoreIsKept(cfg: Config, s: State, h: nat, now: int)
    requires Inv(cfg, s) && h < |s.handlers| && s.handlers[h].pc.Rendered?
    ensures Step(cfg, s, DoStore(h, now)).Ok?
    ensures var s', e := Step(cfg, s, DoStore(h, now)).value, Entry(cfg.digest(s.handlers[h].input), s.handlers[h].pc.out, now);
            && s'.handlers[h].pc == Served(s.handlers[h].pc.out, FromRender)
            && (if cfg.max > 0 then s'.cache != [] && s'.cache[0] == e && e in s'.stores else s'.cache == s.cache)
  {
  }

  /**
   Soundness over every interleaving: what any handler serves is the render of its own input; a
   value from the cache had been stored under the handler's key less than `ttl` before it was read;
   and with a cache, hits plus misses count the completed lookups.
   */
  lemma {:induction false} EveryInterleavingIsSound(cfg: Config, events: seq<Event>)
    requires InjectiveDigest(cfg) && Run(cfg, events).Ok?
    ensures Inv(cfg, Run(cfg, events).value)
    decreases |events|
  {
    if events != [] {
      var n := |events| - 1;
      EveryInterleavingIsSound(cfg, events[..n]);
      var s := Run(cfg, events[..n]).value;
      match events[n]
      case DoLookup(h, now) => LookupStep(cfg, s, h, now);
      case DoStore(h, now) => StoreStep(cfg, s, h, now);
      case _ => OtherStep(cfg, s, events[n]);
    }
  }
}
