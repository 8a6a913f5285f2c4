/** The router's cache of year stores, used by any number of concurrent callers.
    A step is one section under the router's mutex, or one call of the factory. */
module StoreCache {
  import opened Wrappers
  import opened Intervals

  // ----- Route keys -----

  datatype RouteKey = RouteKey(exchange: string, year: int)

  lemma {:induction false} DecimalChars(n: nat)
    ensures forall c :: c in Decimal(n) ==> '0' <= c <= '9'
  {
    if n >= 10 {
      DecimalChars(n / 10);
    }
  }

  lemma {:induction false} NatDecimalInjective(m: nat, n: nat)
    requires Decimal(m) == Decimal(n)
    ensures m == n
    decreases m + n
  {
    var s, t := Decimal(m), Decimal(n);
    assert s[|s| - 1] == Digit(m % 10) && t[|t| - 1] == Digit(n % 10);
    assert m % 10 == n % 10;
    if m >= 10 && n >= 10 {
      assert Decimal(m / 10) == s[..|s| - 1] && Decimal(n / 10) == t[..|t| - 1];
      NatDecimalInjective(m / 10, n / 10);
    }
  }

  lemma {:induction false} DecimalSign(n: int)
    ensures Decimal(n)[0] == '-' <==> n < 0
  {
    if n >= 0 {
      DecimalChars(n);
      assert Decimal(n)[0] in Decimal(n);
    }
  }

  lemma {:induction false} DecimalInjective(m: int, n: int)
    requires Decimal(m) == Decimal(n)
    ensures m == n
  {
    DecimalSign(m);
    DecimalSign(n);
    if m < 0 {
      assert Decimal(-m) == Decimal(m)[1..] && Decimal(-n) == Decimal(n)[1..];
      NatDecimalInjective(-m, -n);
    } else {
      NatDecimalInjective(m, n);
    }
  }

  lemma NoUnderscore(n: int)
    ensures '_' !in Decimal(n)
  {
    DecimalChars(if n < 0 then -n else n);
  }

  function RouteKeyString(key: RouteKey): string {
    key.exchange + "_" + Decimal(key.year)
  }

  // The last underscore of a key's name is the one before the year.
  lemma {:induction false} LastUnderscore(key: RouteKey)
    ensures var s, i := RouteKeyString(key), |key.exchange|;
            && s[..i] == key.exchange && s[i] == '_' && s[i + 1..] == Decimal(key.year)
            && forall k :: i < k < |s| ==> s[k] != '_'
  {
    var s, i := RouteKeyString(key), |key.exchange|;
    NoUnderscore(key.year);
    hide Decimal;
    forall k | i < k < |s| ensures s[k] != '_' {
      assert s[k] == Decimal(key.year)[k - i - 1];
    }
  }

  // Distinct route keys name distinct cache entries, whatever the exchange is called.
  lemma {:induction false} RouteKeyStringInjective(a: RouteKey, b: RouteKey)
    ensures RouteKeyString(a) == RouteKeyString(b) <==> a == b
  {
    if RouteKeyString(a) == RouteKeyString(b) {
      LastUnderscore(a);
      LastUnderscore(b);
      DecimalInjective(a.year, b.year);
    }
  }

  // ----- The cache -----

  // Stores are numbered as the factory makes them: created[n] is the key store n was
  // made for, and closes lists the stores closed, in order.
  datatype Cache = Cache(stores: map<string, nat>, created: seq<RouteKey>, closes: seq<nat>)

  // The factory: a new store, not yet in the cache.
  function Create(c: Cache, key: RouteKey): Cache {
    c.(created := c.created + [key])
  }

  // The second section of storeFor: a store installed meanwhile wins, and the new
  // one is closed.
  function Install(c: Cache, key: RouteKey, store: nat): Cache {
    var name := RouteKeyString(key);
    if name in c.stores then c.(closes := c.closes + [store]) else c.(stores := c.stores[name := store])
  }

  function Installed(c: Cache, key: RouteKey, store: nat): nat {
    var name := RouteKeyString(key);
    if name in c.stores then c.stores[name] else store
  }

  function StoresAt(c: Cache, order: seq<string>): seq<nat>
    requires forall k :: k in order ==> k in c.stores
  {
    seq(|order|, i requires 0 <= i < |order| => c.stores[order[i]])
  }

  // Close closes every store of the cache and empties it.
  function CloseAll(c: Cache, order: seq<string>): Cache
    requires Visits(order, c.stores.Keys)
  {
    c.(stores := map[], closes := c.closes + StoresAt(c, order))
  }

  // ----- Concurrent callers -----

  // epoch counts the calls of Close so far.
  datatype PC =
    | Check
    | CallFactory
    | InstallStore(store: nat)
    | Returned(store: nat, epoch: nat)
    | Failed

  datatype State = State(pcs: seq<PC>, cache: Cache, epoch: nat)

  datatype Event = Call(w: nat, factoryFails: bool) | Close(order: seq<string>)

  predicate Initial(callers: seq<RouteKey>, s: State) {
    && |s.pcs| == |callers|
    && (forall w :: 0 <= w < |callers| ==> s.pcs[w] == Check)
    && s.cache == Cache(map[], [], [])
  }

  predicate Enabled(s: State, e: Event) {
    match e
    case Call(w, _) => w < |s.pcs| && !s.pcs[w].Returned? && !s.pcs[w].Failed?
    case Close(order) => Visits(order, s.cache.stores.Keys)
  }

  function At(s: State, w: nat, pc: PC, cache: Cache): State
    requires w < |s.pcs|
  {
    s.(pcs := s.pcs[w := pc], cache := cache)
  }

  function Step(callers: seq<RouteKey>, s: State, e: Event): State
    requires |s.pcs| == |callers| && Enabled(s, e)
  {
    match e
    case Close(order) => s.(cache := CloseAll(s.cache, order), epoch := s.epoch + 1)
    case Call(w, factoryFails) =>
      var key, c := callers[w], s.cache;
      match s.pcs[w]
      case Check =>
        if key.exchange == "" then At(s, w, Failed, c)
        else if RouteKeyString(key) in c.stores then At(s, w, Returned(c.stores[RouteKeyString(key)], s.epoch), c)
        else At(s, w, CallFactory, c)
      case CallFactory =>
        if factoryFails then At(s, w, Failed, c) else At(s, w, InstallStore(|c.created|), Create(c, key))
      case InstallStore(store) => At(s, w, Returned(Installed(c, key, store), s.epoch), Install(c, key, store))
  }

  predicate Run(callers: seq<RouteKey>, s: State, events: seq<Event>, t: State)
    requires |s.pcs| == |callers|
    decreases |events|
  {
    if events == [] then s == t
    else Enabled(s, events[0]) && |Step(callers, s, events[0]).pcs| == |callers|
         && Run(callers, Step(callers, s, events[0]), events[1..], t)
  }

  // ----- The invariant -----

  predicate InCache(c: Cache, store: nat)
    requires store < |c.created|
  {
    var name := RouteKeyString(c.created[store]);
    name in c.stores && c.stores[name] == store
  }

  predicate Holds(pc: PC, store: nat) {
    pc == InstallStore(store)
  }

  // Entries are under their own key's name; nothing is closed twice, and nothing in
  // the cache is closed.
  predicate CacheOk(c: Cache) {
    && (forall k :: k in c.stores ==> c.stores[k] < |c.created| && RouteKeyString(c.created[c.stores[k]]) == k)
    && (forall i :: 0 <= i < |c.closes| ==> c.closes[i] < |c.created| && !InCache(c, c.closes[i]))
    && (forall i, j :: 0 <= i < j < |c.closes| ==> c.closes[i] != c.closes[j])
  }

  predicate CallerOk(key: RouteKey, pc: PC, c: Cache, epoch: nat) {
    match pc
    case InstallStore(store) =>
      store < |c.created| && c.created[store] == key && !InCache(c, store) && store !in c.closes
    case Returned(store, e) =>
      && e <= epoch && store < |c.created| && c.created[store] == key
      && (if e == epoch then InCache(c, store) else store in c.closes)
    case _ => true
  }

  // No store is held by two callers, and callers of one key that return in one epoch
  // return one store.
  predicate PairOk(a: RouteKey, p: PC, b: RouteKey, q: PC) {
    && (p.InstallStore? && q.InstallStore? ==> p.store != q.store)
    && (a == b && p.Returned? && q.Returned? && p.epoch == q.epoch ==> p.store == q.store)
  }

  predicate Held(pcs: seq<PC>, store: nat) {
    exists w :: 0 <= w < |pcs| && Holds(pcs[w], store)
  }

  predicate Accounted(s: State) {
    forall store: nat :: store < |s.cache.created| ==>
        store in s.cache.closes || InCache(s.cache, store) || Held(s.pcs, store)
  }

  predicate CallersOk(callers: seq<RouteKey>, s: State) {
    && |s.pcs| == |callers|
    && (forall w :: 0 <= w < |callers| ==> CallerOk(callers[w], s.pcs[w], s.cache, s.epoch))
    && (forall v, w :: 0 <= v < |callers| && 0 <= w < |callers| && v != w ==>
          PairOk(callers[v], s.pcs[v], callers[w], s.pcs[w]))
  }

  predicate Inv(callers: seq<RouteKey>, s: State) {
    CallersOk(callers, s) && CacheOk(s.cache) && Accounted(s)
  }

  // ----- The invariant is kept -----

  lemma {:induction false} CreateKeeps(c: Cache, key: RouteKey)
    requires CacheOk(c)
    ensures CacheOk(Create(c, key))
    ensures |c.created| !in c.closes && !InCache(Create(c, key), |c.created|)
    ensures forall store: nat :: store < |c.created| ==> InCache(c, store) == InCache(Create(c, key), store)
  {
    hide RouteKeyString;
  }

  lemma {:induction false} InstallKeeps(c: Cache, key: RouteKey, store: nat)
    requires CacheOk(c) && store < |c.created| && c.created[store] == key && !InCache(c, store) && store !in c.closes
    ensures var d, got := Install(c, key, store), Installed(c, key, store);
            && CacheOk(d) && d.created == c.created
            && got < |c.created| && c.created[got] == key && InCache(d, got)
            && (forall n: nat :: n < |c.created| ==> InCache(d, n) == (InCache(c, n) || (n == got && n == store)))
            && (forall n :: n in d.closes <==> n in c.closes || (n == store && got != store))
  {
    var name := RouteKeyString(key);
    if name in c.stores {
      RouteKeyStringInjective(c.created[c.stores[name]], key);
    }
    hide RouteKeyString;
  }

  lemma {:induction false} CloseAllKeeps(c: Cache, order: seq<string>)
    requires CacheOk(c) && Visits(order, c.stores.Keys)
    ensures var d := CloseAll(c, order);
            && CacheOk(d) && d.created == c.created
            && (forall n: nat :: n < |c.created| ==> !InCache(d, n))
            && (forall n: nat :: n < |c.created| ==> (n in d.closes <==> n in c.closes || InCache(c, n)))
  {
    hide RouteKeyString;
    var d, closed := CloseAll(c, order), StoresAt(c, order);
    forall n: nat | n < |c.created| ensures n in closed <==> InCache(c, n) {
      if InCache(c, n) {
        var i :| 0 <= i < |order| && order[i] == RouteKeyString(c.created[n]);
        assert closed[i] == n;
      }
      if n in closed {
        var i :| 0 <= i < |closed| && closed[i] == n;
        assert order[i] in c.stores;
      }
    }
    assert forall i :: 0 <= i < |closed| ==> order[i] in c.stores && RouteKeyString(c.created[closed[i]]) == order[i];
    forall i, j | 0 <= i < j < |d.closes| ensures d.closes[i] != d.closes[j] {
      if i >= |c.closes| {
        assert d.closes[i] == closed[i - |c.closes|] && d.closes[j] == closed[j - |c.closes|];
      } else if j >= |c.closes| {
        assert d.closes[j] == closed[j - |c.closes|];
        assert InCache(c, d.closes[j]);
      }
    }
  }

  // One caller moves from pc to next, and no other caller's entry gets any worse.
  lemma {:induction false} CallerMoves(callers: seq<RouteKey>, s: State, w: nat, next: PC, c: Cache)
    requires Inv(callers, s) && w < |callers|
    requires CacheOk(c) && CallerOk(callers[w], next, c, s.epoch)
    requires forall v :: 0 <= v < |callers| && v != w ==>
               CallerOk(callers[v], s.pcs[v], c, s.epoch) && PairOk(callers[v], s.pcs[v], callers[w], next)
               && PairOk(callers[w], next, callers[v], s.pcs[v])
    requires Accounted(At(s, w, next, c))
    ensures Inv(callers, At(s, w, next, c))
  {
    hide CallerOk, PairOk, CacheOk, Accounted;
  }

  lemma {:induction false} StillHeld(pcs: seq<PC>, w: nat, next: PC, store: nat)
    requires w < |pcs| && Held(pcs, store) && (Holds(pcs[w], store) ==> Holds(next, store))
    ensures Held(pcs[w := next], store)
  {
    var v :| 0 <= v < |pcs| && Holds(pcs[v], store);
    assert Holds(pcs[w := next][v], store);
  }

  lemma {:induction false} CheckKeepsInv(callers: seq<RouteKey>, s: State, e: Event)
    requires Inv(callers, s) && Enabled(s, e) && e.Call? && s.pcs[e.w].Check?
    ensures Inv(callers, Step(callers, s, e))
  {
    var w, key, c := e.w, callers[e.w], s.cache;
    var next := Step(callers, s, e).pcs[w];
    if RouteKeyString(key) in c.stores {
      RouteKeyStringInjective(c.created[c.stores[RouteKeyString(key)]], key);
    }
    hide RouteKeyString;
    assert CallerOk(key, next, c, s.epoch);
    forall v | 0 <= v < |callers| && v != w
      ensures PairOk(callers[v], s.pcs[v], key, next) && PairOk(key, next, callers[v], s.pcs[v])
    {
      assert CallerOk(callers[v], s.pcs[v], c, s.epoch);
    }
    forall store: nat | store < |c.created| && Held(s.pcs, store) ensures Held(s.pcs[w := next], store) {
      StillHeld(s.pcs, w, next, store);
    }
    CallerMoves(callers, s, w, next, c);
  }

  lemma {:induction false} FactoryKeepsInv(callers: seq<RouteKey>, s: State, e: Event)
    requires Inv(callers, s) && Enabled(s, e) && e.Call? && s.pcs[e.w].CallFactory?
    ensures Inv(callers, Step(callers, s, e))
  {
    hide RouteKeyString;
    var w, key, c := e.w, callers[e.w], s.cache;
    var next, d := Step(callers, s, e).pcs[w], Step(callers, s, e).cache;
    CreateKeeps(c, key);
    assert CallerOk(key, next, d, s.epoch);
    forall v | 0 <= v < |callers| && v != w
      ensures CallerOk(callers[v], s.pcs[v], d, s.epoch) && PairOk(callers[v], s.pcs[v], key, next)
      ensures PairOk(key, next, callers[v], s.pcs[v])
    {
      assert CallerOk(callers[v], s.pcs[v], c, s.epoch);
    }
    hide InCache;
    forall store: nat | store < |d.created|
      ensures store in d.closes || InCache(d, store) || Held(s.pcs[w := next], store)
    {
      if store == |c.created| {
        assert e.factoryFails || Holds(s.pcs[w := next][w], store);
      } else if Held(s.pcs, store) {
        StillHeld(s.pcs, w, next, store);
      }
    }
    CallerMoves(callers, s, w, next, d);
  }

  lemma {:induction false} OneInCache(c: Cache, m: nat, n: nat)
    requires m < |c.created| && n < |c.created| && c.created[m] == c.created[n]
    ensures InCache(c, m) && InCache(c, n) ==> m == n
  {
  }

  lemma {:induction false} InstallKeepsInv(callers: seq<RouteKey>, s: State, e: Event)
    requires Inv(callers, s) && Enabled(s, e) && e.Call? && s.pcs[e.w].InstallStore?
    ensures Inv(callers, Step(callers, s, e))
  {
    var w, key, c := e.w, callers[e.w], s.cache;
    var store := s.pcs[w].store;
    var next, d, got := Step(callers, s, e).pcs[w], Step(callers, s, e).cache, Installed(c, key, store);
    assert CallerOk(key, s.pcs[w], c, s.epoch);
    InstallKeeps(c, key, store);
    hide RouteKeyString, InCache, Install, Installed;
    forall v | 0 <= v < |callers| && v != w
      ensures CallerOk(callers[v], s.pcs[v], d, s.epoch) && PairOk(callers[v], s.pcs[v], key, next)
      ensures PairOk(key, next, callers[v], s.pcs[v])
    {
      assert CallerOk(callers[v], s.pcs[v], c, s.epoch);
      assert PairOk(callers[v], s.pcs[v], key, s.pcs[w]);
      if callers[v] == key && s.pcs[v].Returned? && s.pcs[v].epoch == s.epoch {
        OneInCache(d, s.pcs[v].store, got);
      }
    }
    forall n: nat | n < |d.created|
      ensures n in d.closes || InCache(d, n) || Held(s.pcs[w := next], n)
    {
      if Held(s.pcs, n) && n != store {
        StillHeld(s.pcs, w, next, n);
      }
    }
    CallerMoves(callers, s, w, next, d);
  }

  lemma {:induction false} CloseKeepsInv(callers: seq<RouteKey>, s: State, e: Event)
    requires Inv(callers, s) && Enabled(s, e) && e.Close?
    ensures Inv(callers, Step(callers, s, e))
  {
    var t := Step(callers, s, e);
    CloseAllKeeps(s.cache, e.order);
    hide RouteKeyString, InCache, CacheOk, CloseAll, Visits;
    forall w | 0 <= w < |callers| ensures CallerOk(callers[w], t.pcs[w], t.cache, t.epoch) {
      assert CallerOk(callers[w], s.pcs[w], s.cache, s.epoch);
    }
  }

  lemma {:induction false} RunKeepsInv(callers: seq<RouteKey>, s: State, events: seq<Event>, t: State)
    requires Inv(callers, s) && Run(callers, s, events, t)
    ensures Inv(callers, t)
    decreases |events|
  {
    if events != [] {
      var e := events[0];
      hide CacheOk, CallerOk, PairOk, Accounted;
      if e.Close? {
        CloseKeepsInv(callers, s, e);
      } else if s.pcs[e.w].Check? {
        CheckKeepsInv(callers, s, e);
      } else if s.pcs[e.w].CallFactory? {
        FactoryKeepsInv(callers, s, e);
      } else {
        InstallKeepsInv(callers, s, e);
      }
      hide Inv, Step, Enabled;
      RunKeepsInv(callers, Step(callers, s, e), events[1..], t);
    }
  }

  lemma InitialInv(callers: seq<RouteKey>, s: State)
    requires Initial(callers, s)
    ensures Inv(callers, s)
  {
  }

  // ----- Main results -----

  // Between two calls of Close, callers get one store exactly when they ask for one
  // route key; the store was made for that key, and it is closed exactly when a
  // Close came after the caller returned.
  lemma {:induction false} OneStorePerKey(callers: seq<RouteKey>, s: State, events: seq<Event>, t: State, v: nat,
                                          w: nat)
    requires Initial(callers, s) && Run(callers, s, events, t)
    requires |t.pcs| == |callers| && v < |callers| && w < |callers| && t.pcs[v].Returned? && t.pcs[w].Returned?
    ensures t.pcs[v].epoch == t.pcs[w].epoch ==> (t.pcs[v].store == t.pcs[w].store <==> callers[v] == callers[w])
    ensures t.pcs[v].store < |t.cache.created| && t.cache.created[t.pcs[v].store] == callers[v]
    ensures t.pcs[v].store in t.cache.closes <==> t.pcs[v].epoch < t.epoch
  {
    InitialInv(callers, s);
    RunKeepsInv(callers, s, events, t);
    hide Run, RouteKeyString;
    assert CallerOk(callers[v], t.pcs[v], t.cache, t.epoch);
    assert CallerOk(callers[w], t.pcs[w], t.cache, t.epoch);
    assert v != w ==> PairOk(callers[v], t.pcs[v], callers[w], t.pcs[w]);
  }

  predicate SomeFactoryFails(events: seq<Event>, w: nat) {
    exists i :: 0 <= i < |events| && events[i] == Call(w, true)
  }

  // A caller that names no exchange is never given a store, nor has one made; any other
  // fails only if the factory failed it.
  lemma {:induction false} OnlyNamedAreServed(callers: seq<RouteKey>, s: State, events: seq<Event>, t: State, w: nat)
    requires |s.pcs| == |callers| && Run(callers, s, events, t) && w < |callers| && s.pcs[w].Check?
    ensures |t.pcs| == |callers|
    ensures callers[w].exchange == "" ==> t.pcs[w].Check? || t.pcs[w].Failed?
    ensures callers[w].exchange != "" && t.pcs[w].Failed? ==> SomeFactoryFails(events, w)
  {
    ServedFrom(callers, s, events, t, w);
  }

  lemma {:induction false} ServedFrom(callers: seq<RouteKey>, s: State, events: seq<Event>, t: State, w: nat)
    requires |s.pcs| == |callers| && Run(callers, s, events, t) && w < |callers|
    requires callers[w].exchange == "" ==> s.pcs[w].Check? || s.pcs[w].Failed?
    requires callers[w].exchange != "" ==> !s.pcs[w].Failed?
    ensures |t.pcs| == |callers|
    ensures callers[w].exchange == "" ==> t.pcs[w].Check? || t.pcs[w].Failed?
    ensures callers[w].exchange != "" && t.pcs[w].Failed? ==> SomeFactoryFails(events, w)
    decreases |events|
  {
    if events != [] {
      if events[0] != Call(w, true) || !Step(callers, s, events[0]).pcs[w].Failed? {
        ServedFrom(callers, Step(callers, s, events[0]), events[1..], t, w);
        hide Step, Enabled, Run;
        if SomeFactoryFails(events[1..], w) {
          var i :| 0 <= i < |events| - 1 && events[1..][i] == Call(w, true);
          assert events[i + 1] == Call(w, true);
        }
      } else {
        RunKeepsLength(callers, s, events, t);
        if callers[w].exchange == "" {
          ServedFrom(callers, Step(callers, s, events[0]), events[1..], t, w);
        }
      }
    }
  }

  lemma {:induction false} RunKeepsLength(callers: seq<RouteKey>, s: State, events: seq<Event>, t: State)
    requires |s.pcs| == |callers| && Run(callers, s, events, t)
    ensures |t.pcs| == |callers|
    decreases |events|
  {
    if events != [] {
      RunKeepsLength(callers, Step(callers, s, events[0]), events[1..], t);
    }
  }

  // The sections a caller may have ahead of it.
  function Left(pc: PC): nat {
    match pc
    case Check => 3
    case CallFactory => 2
    case InstallStore(_) => 1
    case _ => 0
  }

  function CallsOf(events: seq<Event>, w: nat): nat
    decreases |events|
  {
    if events == [] then 0
    else CallsOf(events[1..], w) + if events[0].Call? && events[0].w == w then 1 else 0
  }

  // However callers interleave, each is done after at most three sections.
  lemma {:induction false} CallsAreBounded(callers: seq<RouteKey>, s: State, events: seq<Event>, t: State, w: nat)
    requires |s.pcs| == |callers| && Run(callers, s, events, t) && w < |callers|
    ensures |t.pcs| == |callers| && CallsOf(events, w) + Left(t.pcs[w]) <= Left(s.pcs[w]) <= 3
    decreases |events|
  {
    if events != [] {
      CallsAreBounded(callers, Step(callers, s, events[0]), events[1..], t, w);
    }
  }

  // Every store ever made is exactly one of: closed, once; in the cache, under its
  // own key; or held by exactly one caller, that made it and has yet to install or
  // close it.
  lemma {:induction false} StoresAreAccountedFor(callers: seq<RouteKey>, s: State, events: seq<Event>, t: State,
                                                 store: nat)
    requires Initial(callers, s) && Run(callers, s, events, t)
    requires store < |t.cache.created|
    ensures store in t.cache.closes || InCache(t.cache, store) || Held(t.pcs, store)
    ensures !(store in t.cache.closes && InCache(t.cache, store))
    ensures Held(t.pcs, store) ==> store !in t.cache.closes && !InCache(t.cache, store)
    ensures forall i, j :: 0 <= i < j < |t.cache.closes| ==> t.cache.closes[i] != t.cache.closes[j]
    ensures forall v, w :: 0 <= v < w < |t.pcs| ==> !Holds(t.pcs[v], store) || !Holds(t.pcs[w], store)
  {
    InitialInv(callers, s);
    RunKeepsInv(callers, s, events, t);
    hide Run, RouteKeyString;
    if Held(t.pcs, store) {
      var w :| 0 <= w < |t.pcs| && Holds(t.pcs[w], store);
      assert CallerOk(callers[w], t.pcs[w], t.cache, t.epoch);
    }
    forall v, w | 0 <= v < w < |t.pcs| ensures !Holds(t.pcs[v], store) || !Holds(t.pcs[w], store) {
      assert PairOk(callers[v], t.pcs[v], callers[w], t.pcs[w]);
    }
  }

  // Once every caller is done and the router is closed, no store is left open.
  lemma {:induction false} NoStoreLeaks(callers: seq<RouteKey>, s: State, events: seq<Event>, t: State)
    requires Initial(callers, s) && Run(callers, s, events, t)
    requires forall w :: 0 <= w < |t.pcs| ==> t.pcs[w].Returned? || t.pcs[w].Failed?
    requires t.cache.stores == map[]
    ensures forall store: nat :: store < |t.cache.created| ==> store in t.cache.closes
  {
    hide Run, Initial, RouteKeyString;
    forall store: nat | store < |t.cache.created| ensures store in t.cache.closes {
      StoresAreAccountedFor(callers, s, events, t, store);
    }
  }
}
