/** Routing rows to year stores: grouping by writer domain, a lease before each
    group's write, and the stores of the cache. */
module WriteRouter {
  import opened Wrappers
  import opened Calendar
  import opened Intervals
  import opened Klines
  import opened CoverageSegments
  import opened StoreCache

  datatype OpenInterest = OpenInterest(time: Time, symbol: string, market: string, exchange: string, payload: string)

  datatype Row = KlineRow(kline: Kline) | OpenInterestRow(openInterest: OpenInterest)

  datatype Domain = Domain(exchange: string, market: string, kind: string, symbol: string, interval: string, year: int)

  // The year the wall clock shows.
  type ClockYear = y: int | y >= 1970 witness 1970

  // ----- The domain of a row -----

  function YearFrom(t: Time, now: ClockYear): int {
    if t == ZERO_TIME then now else YearOf(t)
  }

  function NormalizeDomain(d: Domain, now: ClockYear): Domain {
    Domain(ToLower(TrimSpace(d.exchange)), ToLower(TrimSpace(d.market)), ToLower(TrimSpace(d.kind)),
           ToUpper(TrimSpace(d.symbol)), TrimSpace(d.interval), if d.year < 1970 then now else d.year)
  }

  // The instant that dates a row.
  function DateOf(row: Row): Time {
    match row
    case KlineRow(k) => if k.openTime == ZERO_TIME then k.time else k.openTime
    case OpenInterestRow(oi) => oi.time
  }

  function ExchangeOf(row: Row): string {
    match row
    case KlineRow(k) => k.exchange
    case OpenInterestRow(oi) => oi.exchange
  }

  function DomainOf(row: Row, now: ClockYear): Domain {
    var year := YearFrom(DateOf(row), now);
    match row
    case KlineRow(k) => NormalizeDomain(Domain(k.exchange, k.market, "kline", k.symbol, k.interval, year), now)
    case OpenInterestRow(oi) =>
      NormalizeDomain(Domain(oi.exchange, oi.market, "open_interest", oi.symbol, "", year), now)
  }

  function RouteKeyOf(d: Domain): RouteKey {
    RouteKey(ToLower(TrimSpace(d.exchange)), d.year)
  }

  // Normalising again, as acquiring the lease does, changes nothing: the lease is
  // for exactly the domain the rows are grouped by.
  lemma {:induction false} NormalizeIdempotent(d: Domain, now: ClockYear, later: ClockYear)
    ensures NormalizeDomain(NormalizeDomain(d, now), later) == NormalizeDomain(d, now)
  {
    LowerTrimmed(TrimSpace(d.exchange));
    LowerTrimmed(TrimSpace(d.market));
    LowerTrimmed(TrimSpace(d.kind));
    UpperTrimmed(TrimSpace(d.symbol));
    hide ToLower, ToUpper, Trimmed;
  }

  // The year of a date from 1970 on, and the clock's year otherwise.
  function YearAt(t: Time, now: ClockYear): int {
    if t >= 0 then YearOf(t) else now
  }

  // A row dated 1970 or later belongs to the store of its normalised exchange and
  // the UTC year of its date; any other row to that of the clock's year.
  lemma {:induction false} RowRoute(row: Row, now: ClockYear)
    ensures RouteKeyOf(DomainOf(row, now)).exchange == ToLower(TrimSpace(ExchangeOf(row)))
    ensures DateOf(row) >= 0 ==> RouteKeyOf(DomainOf(row, now)).year == YearOf(DateOf(row))
    ensures DateOf(row) < 0 ==> RouteKeyOf(DomainOf(row, now)).year == now
  {
    LowerTrimmed(TrimSpace(ExchangeOf(row)));
    assert ToLower(TrimSpace(ToLower(TrimSpace(ExchangeOf(row))))) == ToLower(TrimSpace(ExchangeOf(row)));
    YearDated(DateOf(row), now);
    hide YearOf, Jan1, ToLower, TrimSpace, YearFrom;
  }

  lemma YearDated(t: Time, now: ClockYear)
    ensures (if YearFrom(t, now) < 1970 then now else YearFrom(t, now)) == YearAt(t, now)
  {
    var y := YearOf(t);
    assert Jan1(1970) == 0;
    if t >= 0 && y < 1970 {
      Jan1Monotone(y + 1, 1970);
    }
    if t < 0 && y >= 1970 {
      Jan1Monotone(1970, y);
    }
    hide YearOf, Jan1;
  }

  // The lease and the group of a row, said of its own fields: a kline is dated by its
  // open time if it has one, else by its time; open interest has no interval.
  lemma {:induction false} RowDomain(row: Row, now: ClockYear)
    ensures match row
            case KlineRow(k) =>
              DomainOf(row, now) ==
              Domain(ToLower(TrimSpace(k.exchange)), ToLower(TrimSpace(k.market)), "kline",
                     ToUpper(TrimSpace(k.symbol)), TrimSpace(k.interval),
                     YearAt(if k.openTime != ZERO_TIME then k.openTime else k.time, now))
            case OpenInterestRow(oi) =>
              DomainOf(row, now) ==
              Domain(ToLower(TrimSpace(oi.exchange)), ToLower(TrimSpace(oi.market)), "open_interest",
                     ToUpper(TrimSpace(oi.symbol)), "", YearAt(oi.time, now))
  {
    YearDated(DateOf(row), now);
    KindsAreNormal();
    hide YearOf, YearFrom, YearAt, ToLower, ToUpper, TrimSpace;
  }

  lemma KindsAreNormal()
    ensures ToLower(TrimSpace("kline")) == "kline" && ToLower(TrimSpace("open_interest")) == "open_interest"
    ensures TrimSpace("") == ""
  {
    assert Trimmed("kline") && Trimmed("open_interest") && Trimmed("");
    hide TrimSpace;
  }

  // ----- Collector ids: what the lease manager tells writers apart by -----

  function CollectorID(d: Domain): string {
    var interval := TrimSpace(d.interval);
    ToLower(TrimSpace(d.exchange)) + ":" + (ToLower(TrimSpace(d.market)) + ":" + (ToLower(TrimSpace(d.kind)) + ":"
      + (ToUpper(TrimSpace(d.symbol)) + ":" + ((if interval == "" then "-" else interval) + ":" + Decimal(d.year)))))
  }

  predicate IsNormalized(d: Domain) {
    NormalizeDomain(d, 1970) == d
  }

  predicate NoColons(d: Domain) {
    ':' !in d.exchange && ':' !in d.market && ':' !in d.kind && ':' !in d.symbol && ':' !in d.interval
  }

  // Without colons in their names, normalised domains share a collector id, and so
  // a lease, exactly when they are equal, an absent interval counting as "-".
  lemma {:induction false} CollectorIDsTellApart(a: Domain, b: Domain)
    requires IsNormalized(a) && IsNormalized(b) && NoColons(a) && NoColons(b)
    ensures CollectorID(a) == CollectorID(b) <==>
            a == b || (a == b.(interval := a.interval) && {a.interval, b.interval} == {"", "-"})
  {
    hide ToLower, ToUpper, TrimSpace, Decimal;
    if CollectorID(a) == CollectorID(b) {
      var ia, ib := if a.interval == "" then "-" else a.interval, if b.interval == "" then "-" else b.interval;
      var a5, b5 := ia + ":" + Decimal(a.year), ib + ":" + Decimal(b.year);
      var a4, b4 := a.symbol + ":" + a5, b.symbol + ":" + b5;
      var a3, b3 := a.kind + ":" + a4, b.kind + ":" + b4;
      var a2, b2 := a.market + ":" + a3, b.market + ":" + b3;
      SplitAt(':', a.exchange, a2, b.exchange, b2);
      SplitAt(':', a.market, a3, b.market, b3);
      SplitAt(':', a.kind, a4, b.kind, b4);
      SplitAt(':', a.symbol, a5, b.symbol, b5);
      SplitAt(':', ia, Decimal(a.year), ib, Decimal(b.year));
      DecimalInjective(a.year, b.year);
    }
  }

  // ----- Grouping -----

  // The clock is read once per row.
  function Domains(rows: seq<Row>, clock: nat -> ClockYear): (domains: seq<Domain>)
    ensures |domains| == |rows|
  {
    seq(|rows|, i requires 0 <= i < |rows| => DomainOf(rows[i], clock(i)))
  }

  function DomainSet(domains: seq<Domain>): set<Domain> {
    set d | d in domains
  }

  // The rows of one domain, in input order.
  function RowsOf(rows: seq<Row>, domains: seq<Domain>, d: Domain): seq<Row>
    requires |rows| == |domains|
  {
    if rows == [] then []
    else RowsOf(Front(rows), Front(domains), d) + if Last(domains) == d then [Last(rows)] else []
  }

  // Where they are in the input.
  function PlacesOf(domains: seq<Domain>, d: Domain): seq<nat> {
    if domains == [] then []
    else PlacesOf(Front(domains), d) + if Last(domains) == d then [|domains| - 1] else []
  }

  lemma {:induction false} PlacesAscend(domains: seq<Domain>, d: Domain)
    ensures forall i, j :: 0 <= i < j < |PlacesOf(domains, d)| ==> PlacesOf(domains, d)[i] < PlacesOf(domains, d)[j]
    ensures forall n: nat :: n in PlacesOf(domains, d) <==> n < |domains| && domains[n] == d
  {
    if domains != [] {
      PlacesAscend(Front(domains), d);
      var before := PlacesOf(Front(domains), d);
      assert forall i :: 0 <= i < |before| ==> before[i] in before;
    }
  }

  lemma {:induction false} RowsAtPlaces(rows: seq<Row>, domains: seq<Domain>, d: Domain)
    requires |rows| == |domains|
    ensures var group, places := RowsOf(rows, domains, d), PlacesOf(domains, d);
            |group| == |places| && forall i :: 0 <= i < |places| ==> places[i] < |rows| && group[i] == rows[places[i]]
  {
    if rows != [] {
      RowsAtPlaces(Front(rows), Front(domains), d);
    }
  }

  // A group is its rows, every one of them once, in the order they came.
  lemma {:induction false} GroupInInputOrder(rows: seq<Row>, domains: seq<Domain>, d: Domain)
    requires |rows| == |domains|
    ensures var group, places := RowsOf(rows, domains, d), PlacesOf(domains, d);
            && |group| == |places|
            && (forall i :: 0 <= i < |places| ==> places[i] < |rows| && group[i] == rows[places[i]])
            && (forall i, j :: 0 <= i < j < |places| ==> places[i] < places[j])
            && (forall n: nat :: n in places <==> n < |rows| && domains[n] == d)
  {
    RowsAtPlaces(rows, domains, d);
    PlacesAscend(domains, d);
    hide RowsOf, PlacesOf;
  }

  method GroupByDomain(rows: seq<Row>, clock: nat -> ClockYear) returns (groups: map<Domain, seq<Row>>)
    ensures groups.Keys == DomainSet(Domains(rows, clock))
    ensures forall d :: d in groups ==> groups[d] == RowsOf(rows, Domains(rows, clock), d)
  {
    hide DomainOf;
    groups := map[];
    ghost var domains := Domains(rows, clock);
    for i := 0 to |rows|
      invariant groups.Keys == DomainSet(domains[..i])
      invariant forall d :: d in groups ==> groups[d] == RowsOf(rows[..i], domains[..i], d)
    {
      var d := DomainOf(rows[i], clock(i));
      assert Front(rows[..i + 1]) == rows[..i] && Front(domains[..i + 1]) == domains[..i];
      assert domains[..i + 1] == domains[..i] + [d];
      if d !in groups {
        NoRowsOf(rows[..i], domains[..i], d);
      }
      groups := groups[d := (if d in groups then groups[d] else []) + [rows[i]]];
    }
    assert rows[..|rows|] == rows && domains[..|rows|] == domains;
  }

  lemma {:induction false} NoRowsOf(rows: seq<Row>, domains: seq<Domain>, d: Domain)
    requires |rows| == |domains| && d !in domains
    ensures RowsOf(rows, domains, d) == []
  {
    if rows != [] {
      assert Last(domains) in domains;
      NoRowsOf(Front(rows), Front(domains), d);
    }
  }

  lemma StillNormalized(d: Domain, now: ClockYear)
    requires IsNormalized(d)
    ensures NormalizeDomain(d, now) == d
  {
    hide ToLower, ToUpper, TrimSpace;
  }

  lemma {:induction false} DomainsAreNormalized(rows: seq<Row>, clock: nat -> ClockYear)
    ensures forall d :: d in Domains(rows, clock) ==> IsNormalized(d)
  {
    forall i | 0 <= i < |rows| ensures IsNormalized(DomainOf(rows[i], clock(i))) {
      var row, now := rows[i], clock(i);
      var year := YearFrom(DateOf(row), now);
      match row
      case KlineRow(k) =>
        NormalizeIdempotent(Domain(k.exchange, k.market, "kline", k.symbol, k.interval, year), now, 1970);
      case OpenInterestRow(oi) =>
        NormalizeIdempotent(Domain(oi.exchange, oi.market, "open_interest", oi.symbol, "", year), now, 1970);
    }
  }

  predicate NameExchanges(rows: seq<Row>) {
    forall row :: row in rows ==> TrimSpace(ExchangeOf(row)) != ""
  }

  lemma {:induction false} DomainsNameExchanges(rows: seq<Row>, clock: nat -> ClockYear)
    ensures NameExchanges(rows) ==> forall d :: d in Domains(rows, clock) ==> d.exchange != ""
  {
    if NameExchanges(rows) {
      forall i | 0 <= i < |rows| ensures DomainOf(rows[i], clock(i)).exchange != "" {
        RowDomain(rows[i], clock(i));
        assert rows[i] in rows;
        hide DomainOf, TrimSpace;
      }
    }
  }

  lemma RouteNamesExchange(d: Domain)
    requires IsNormalized(d) && d.exchange != ""
    ensures RouteKeyOf(d).exchange != ""
  {
  }

  // ----- What the router does, as a log -----

  datatype Entry =
    | Lease(domain: Domain, granted: bool)
    | Write(domain: Domain, store: nat, rows: seq<Row>, stored: bool)

  // A granted lease, when there is a lease manager, and the write of one group.
  function GroupEntries(leased: bool, d: Domain, store: nat, group: seq<Row>): seq<Entry> {
    (if leased then [Lease(d, true)] else []) + [Write(d, store, group, true)]
  }

  // The groups delivered, in order.
  function Delivery(leased: bool, rows: seq<Row>, domains: seq<Domain>, order: seq<Domain>,
                    stores: seq<nat>): seq<Entry>
    requires |rows| == |domains| && |stores| <= |order|
  {
    if stores == [] then []
    else
      var i := |stores| - 1;
      Delivery(leased, rows, domains, order, stores[..i]) +
          GroupEntries(leased, order[i], stores[i], RowsOf(rows, domains, order[i]))
  }

  // What a group that is not delivered leaves behind.
  predicate Refusal(leased: bool, d: Domain, group: seq<Row>, entries: seq<Entry>) {
    var lease := if leased then [Lease(d, true)] else [];
    || (leased && entries == [Lease(d, false)])
    || entries == lease
    || (|entries| == |lease| + 1 && entries[|lease|].Write?
        && entries == lease + [Write(d, entries[|lease|].store, group, false)])
  }

  // Every store a group went to was made for the group's exchange and year.
  predicate RoutedTo(created: seq<RouteKey>, order: seq<Domain>, stores: seq<nat>) {
    && |stores| <= |order|
    && forall i :: 0 <= i < |stores| ==> stores[i] < |created| && created[stores[i]] == RouteKeyOf(order[i])
  }

  // Whether the n-th call to the lease manager, the factory or a store works is given
  // by works.
  class Router {
    var cache: Cache
    var log: seq<Entry>
    var calls: nat
    const works: nat -> bool
    const factoryConfigured: bool
    const leased: bool

    constructor (factoryConfigured: bool, leased: bool, works: nat -> bool)
      ensures cache == Cache(map[], [], []) && log == []
      ensures this.factoryConfigured == factoryConfigured && this.leased == leased && this.works == works
    {
      cache, log, calls := Cache(map[], [], []), [], 0;
      this.factoryConfigured, this.leased, this.works := factoryConfigured, leased, works;
    }

    // Nothing the router calls fails.
    ghost predicate AllWork() {
      factoryConfigured && forall n :: works(n)
    }

    method Call() returns (ok: bool)
      modifies `calls
      ensures ok == works(old(calls)) && calls == old(calls) + 1
    {
      ok := works(calls);
      calls := calls + 1;
    }

    // storeFor, with no other caller in between; other interleavings are those of
    // StoreCache.
    method StoreFor(key: RouteKey) returns (store: Option<nat>)
      requires CacheOk(cache)
      modifies `cache, `calls
      ensures CacheOk(cache) && old(cache.created) <= cache.created
      ensures store.Some? <==> factoryConfigured && key.exchange != "" &&
                               (RouteKeyString(key) in old(cache.stores) || works(old(calls)))
      ensures store.Some? ==>
                store.value < |cache.created| && cache.created[store.value] == key && InCache(cache, store.value)
      ensures store.None? || RouteKeyString(key) in old(cache.stores) ==> cache == old(cache)
      ensures cache == old(cache) || cache == Install(Create(old(cache), key), key, |old(cache).created|)
    {
      hide RouteKeyString;
      if !factoryConfigured || key.exchange == "" {
        return None;
      }
      if RouteKeyString(key) in cache.stores {
        var found := cache.stores[RouteKeyString(key)];
        RouteKeyStringInjective(cache.created[found], key);
        return Some(found);
      }
      var made := Call();
      if !made {
        return None;
      }
      CreateKeeps(cache, key);
      var n := |cache.created|;
      var withStore := Create(cache, key);
      InstallKeeps(withStore, key, n);
      store := Some(Installed(withStore, key, n));
      cache := Install(withStore, key, n);
    }

    // An error closing one store does not keep the others from being closed.
    method Close() returns (ghost order: seq<string>)
      modifies `cache
      ensures Visits(order, old(cache.stores).Keys)
      ensures cache == CloseAll(old(cache), order)
    {
      var keys := cache.stores.Keys;
      ghost var was := cache;
      order := [];
      while keys != {}
        invariant keys == cache.stores.Keys
        invariant cache.created == was.created
        invariant Visits(order, was.stores.Keys - keys)
        invariant forall k :: k in keys ==> k in was.stores && cache.stores[k] == was.stores[k]
        invariant cache.closes == was.closes + StoresAt(was, order)
        decreases |keys|
      {
        var key := PickAny(keys);
        cache := cache.(closes := cache.closes + [cache.stores[key]], stores := cache.stores - {key});
        order := order + [key];
        keys := keys - {key};
      }
      assert cache.stores == map[];
    }

    // The lease, the store and the write of one group. Acquiring the lease normalises
    // the domain once more.
    method WriteGroup(d: Domain, group: seq<Row>, now: ClockYear) returns (store: Option<nat>, ghost tail: seq<Entry>)
      requires CacheOk(cache) && IsNormalized(d)
      modifies `cache, `log, `calls
      ensures CacheOk(cache) && old(cache.created) <= cache.created
      ensures AllWork() && d.exchange != "" ==> store.Some?
      ensures store.Some? ==> store.value < |cache.created| && cache.created[store.value] == RouteKeyOf(d)
      ensures store.Some? ==> log == old(log) + GroupEntries(leased, d, store.value, group)
      ensures store.None? ==> log == old(log) + tail && Refusal(leased, d, group, tail)
    {
      StillNormalized(d, now);
      if d.exchange != "" {
        RouteNamesExchange(d);
      }
      hide CacheOk, RouteKeyString, InCache, Install, Create, RouteKeyOf, NormalizeDomain, IsNormalized, Installed;
      tail := [];
      if leased {
        var domain := NormalizeDomain(d, now);
        var granted := Call();
        log := log + [Lease(domain, granted)];
        tail := [Lease(domain, granted)];
        if !granted {
          return None, tail;
        }
      }
      store := StoreFor(RouteKeyOf(d));
      if store.None? {
        return;
      }
      var stored := Call();
      log := log + [Write(d, store.value, group, stored)];
      tail := tail + [Write(d, store.value, group, stored)];
      if !stored {
        return None, tail;
      }
    }

    // Inserting a batch of klines, or of open interest rows. Groups are visited in
    // any order, and the first one that cannot be written ends the batch.
    method InsertBatch(rows: seq<Row>, clock: nat -> ClockYear)
      returns (ok: bool, ghost order: seq<Domain>, ghost stores: seq<nat>, ghost tail: seq<Entry>)
      requires CacheOk(cache)
      modifies `cache, `log, `calls
      ensures CacheOk(cache)
      ensures AllWork() && NameExchanges(rows) ==> ok
      ensures |stores| <= |order| && RoutedTo(cache.created, order, stores)
      ensures log == old(log) + Delivery(leased, rows, Domains(rows, clock), order, stores) + tail
      ensures forall i, j :: 0 <= i < j < |order| ==> order[i] != order[j]
      ensures ok ==> Visits(order, DomainSet(Domains(rows, clock))) && |stores| == |order| && tail == []
      ensures !ok ==>
        && |stores| < |order| && order[|stores|] in Domains(rows, clock)
        && Refusal(leased, order[|stores|], RowsOf(rows, Domains(rows, clock), order[|stores|]), tail)
    {
      hide CacheOk, Domains, RouteKeyOf, Delivery, RowsOf, GroupEntries, Refusal, IsNormalized, AllWork;
      hide NameExchanges;
      var groups := GroupByDomain(rows, clock);
      DomainsAreNormalized(rows, clock);
      DomainsNameExchanges(rows, clock);
      ghost var domains := Domains(rows, clock);
      order, stores := [], [];
      DeliverNothing(leased, rows, domains);
      var left := groups.Keys;
      while left != {}
        invariant left <= groups.Keys
        invariant Visits(order, groups.Keys - left) && |stores| == |order|
        invariant CacheOk(cache)
        invariant RoutedTo(cache.created, order, stores)
        invariant log == old(log) + Delivery(leased, rows, domains, order, stores)
        decreases |left|
      {
        var d := PickAny(left);
        left := left - {d};
        ghost var visited := order;
        ghost var delivered := log;
        order := order + [d];
        DeliveryPrefix(leased, rows, domains, visited, order, stores);
        var store;
        store, tail := WriteGroup(d, groups[d], clock(|rows| + |left|));
        if store.None? {
          return false, order, stores, tail;
        }
        DeliverOneMore(leased, rows, domains, order, stores, store.value);
        stores := stores + [store.value];
      }
      return true, order, stores, [];
    }
  }

  lemma DeliverNothing(leased: bool, rows: seq<Row>, domains: seq<Domain>)
    requires |rows| == |domains|
    ensures Delivery(leased, rows, domains, [], []) == []
  {
  }

  lemma DeliverOneMore(leased: bool, rows: seq<Row>, domains: seq<Domain>, order: seq<Domain>, stores: seq<nat>,
                       store: nat)
    requires |rows| == |domains| && |stores| < |order|
    ensures Delivery(leased, rows, domains, order, stores + [store])
         == Delivery(leased, rows, domains, order, stores)
            + GroupEntries(leased, order[|stores|], store, RowsOf(rows, domains, order[|stores|]))
  {
    hide GroupEntries, RowsOf;
    assert (stores + [store])[..|stores|] == stores;
  }

  lemma {:induction false} DeliveryPrefix(leased: bool, rows: seq<Row>, domains: seq<Domain>, order: seq<Domain>,
                                          longer: seq<Domain>, stores: seq<nat>)
    requires |rows| == |domains| && |stores| <= |order| && order <= longer
    ensures Delivery(leased, rows, domains, order, stores) == Delivery(leased, rows, domains, longer, stores)
  {
    if stores != [] {
      DeliveryPrefix(leased, rows, domains, order, longer, stores[..|stores| - 1]);
    }
  }

  // ----- Main results -----

  function StoredBy(e: Entry): seq<Row> {
    if e.Write? && e.stored then e.rows else []
  }

  // The rows stored by the writes of a log.
  function StoredRows(entries: seq<Entry>): seq<Row> {
    if entries == [] then [] else StoredRows(Front(entries)) + StoredBy(Last(entries))
  }

  lemma {:induction false} StoredRowsJoin(a: seq<Entry>, b: seq<Entry>)
    ensures StoredRows(a + b) == StoredRows(a) + StoredRows(b)
  {
    hide StoredBy;
    if b == [] {
      assert a + b == a;
    } else {
      StoredRowsJoin(a, Front(b));
      assert Front(a + b) == a + Front(b);
      assert StoredRows(a) + StoredRows(Front(b)) + StoredBy(Last(b)) ==
          StoredRows(a) + (StoredRows(Front(b)) + StoredBy(Last(b)));
    }
  }

  // A batch without one domain's rows.
  function RowsBut(rows: seq<Row>, domains: seq<Domain>, d: Domain): (rest: seq<Row>)
    requires |rows| == |domains|
    ensures |rest| == |DomainsBut(domains, d)|
  {
    if rows == [] then []
    else RowsBut(Front(rows), Front(domains), d) + if Last(domains) == d then [] else [Last(rows)]
  }

  function DomainsBut(domains: seq<Domain>, d: Domain): (rest: seq<Domain>)
    ensures forall e :: e in rest <==> e in domains && e != d
  {
    if domains == [] then []
    else
      assert domains == Front(domains) + [Last(domains)];
      DomainsBut(Front(domains), d) + if Last(domains) == d then [] else [Last(domains)]
  }

  lemma {:induction false} SplitOff(rows: seq<Row>, domains: seq<Domain>, d: Domain)
    requires |rows| == |domains|
    ensures multiset(rows) == multiset(RowsBut(rows, domains, d)) + multiset(RowsOf(rows, domains, d))
  {
    if rows != [] {
      SplitOff(Front(rows), Front(domains), d);
      assert rows == Front(rows) + [Last(rows)];
    }
  }

  lemma {:induction false} OtherGroupsKept(rows: seq<Row>, domains: seq<Domain>, d: Domain, e: Domain)
    requires |rows| == |domains| && e != d
    ensures RowsOf(RowsBut(rows, domains, d), DomainsBut(domains, d), e) == RowsOf(rows, domains, e)
  {
    if rows != [] {
      OtherGroupsKept(Front(rows), Front(domains), d, e);
      var rest, others := RowsBut(Front(rows), Front(domains), d), DomainsBut(Front(domains), d);
      var longer, domainsLonger := rest + [Last(rows)], others + [Last(domains)];
      assert Front(longer) == rest && Front(domainsLonger) == others;
      if Last(domains) != d {
        assert RowsBut(rows, domains, d) == longer && DomainsBut(domains, d) == domainsLonger;
      } else {
        assert RowsBut(rows, domains, d) == rest && DomainsBut(domains, d) == others;
      }
    }
  }

  lemma {:induction false} SameGroupsSameDelivery(leased: bool, rows: seq<Row>, domains: seq<Domain>, rest: seq<Row>,
                                                  others: seq<Domain>, order: seq<Domain>, stores: seq<nat>)
    requires |rows| == |domains| && |rest| == |others| && |stores| <= |order|
    requires forall i :: 0 <= i < |stores| ==> RowsOf(rest, others, order[i]) == RowsOf(rows, domains, order[i])
    ensures Delivery(leased, rest, others, order, stores) == Delivery(leased, rows, domains, order, stores)
  {
    if stores != [] {
      SameGroupsSameDelivery(leased, rows, domains, rest, others, order, stores[..|stores| - 1]);
    }
  }

  lemma {:induction false} RestVisited(order: seq<Domain>, domains: seq<Domain>, others: seq<Domain>)
    requires order != [] && Visits(order, DomainSet(domains))
    requires forall e :: e in others <==> e in domains && e != Last(order)
    ensures Visits(Front(order), DomainSet(others))
    ensures Last(order) !in Front(order)
  {
    forall e | e in DomainSet(others) ensures e in Front(order) {
      assert e in DomainSet(domains);
    }
    forall i | 0 <= i < |order| - 1 ensures order[i] in DomainSet(others) {
      assert order[i] in DomainSet(domains) && order[i] != Last(order);
    }
  }

  lemma EmptyDomainSet(domains: seq<Domain>)
    ensures DomainSet(domains) == {} ==> domains == []
  {
    if domains != [] {
      assert domains[0] in DomainSet(domains);
    }
  }

  // A batch that succeeds stores every row of it exactly once, whatever the order in
  // which its groups are visited.
  lemma {:induction false} RowsConserved(leased: bool, rows: seq<Row>, domains: seq<Domain>, order: seq<Domain>,
                                         stores: seq<nat>)
    requires |rows| == |domains| && |stores| == |order|
    requires Visits(order, DomainSet(domains))
    ensures multiset(StoredRows(Delivery(leased, rows, domains, order, stores))) == multiset(rows)
    decreases |order|
  {
    if order == [] {
      assert DomainSet(domains) == {};
      EmptyDomainSet(domains);
      assert rows == [];
    } else {
      var d, rest, others := Last(order), RowsBut(rows, domains, Last(order)), DomainsBut(domains, Last(order));
      RestVisited(order, domains, others);
      hide Visits, DomainSet;
      RowsConserved(leased, rest, others, Front(order), Front(stores));
      forall i | 0 <= i < |order| - 1 ensures RowsOf(rest, others, order[i]) == RowsOf(rows, domains, order[i]) {
        OtherGroupsKept(rows, domains, d, order[i]);
      }
      SameGroupsSameDelivery(leased, rows, domains, rest, others, Front(order), Front(stores));
      DeliveryPrefix(leased, rows, domains, Front(order), order, Front(stores));
      var before, group := Delivery(leased, rows, domains, order, Front(stores)), RowsOf(rows, domains, d);
      StoredRowsJoin(before, GroupEntries(leased, d, Last(stores), group));
      GroupEntriesStore(leased, d, Last(stores), group);
      SplitOff(rows, domains, d);
    }
  }

  lemma GroupEntriesStore(leased: bool, d: Domain, store: nat, group: seq<Row>)
    ensures StoredRows(GroupEntries(leased, d, store, group)) == group
  {
    assert Front(GroupEntries(leased, d, store, group)) == if leased then [Lease(d, true)] else [];
    assert Front([Lease(d, true)]) == [];
    assert StoredRows([Lease(d, true)]) == [];
  }

  // The writes of a delivery: one for each visited group, of all the group's rows,
  // to the group's store, right after a lease for exactly the group's domain.
  lemma {:induction false} OneWritePerGroup(leased: bool, rows: seq<Row>, domains: seq<Domain>, order: seq<Domain>,
                                            stores: seq<nat>)
    requires |rows| == |domains| && |stores| <= |order|
    ensures var entries := Delivery(leased, rows, domains, order, stores);
            if leased then
              |entries| == 2 * |stores| && forall i :: 0 <= i < |stores| ==>
                entries[2 * i] == Lease(order[i], true)
                && entries[2 * i + 1] == Write(order[i], stores[i], RowsOf(rows, domains, order[i]), true)
            else
              |entries| == |stores| && forall i :: 0 <= i < |stores| ==>
                entries[i] == Write(order[i], stores[i], RowsOf(rows, domains, order[i]), true)
  {
    if stores != [] {
      OneWritePerGroup(leased, rows, domains, order, stores[..|stores| - 1]);
      hide RowsOf;
      if leased {
        assert |Delivery(leased, rows, domains, order, stores)| == 2 * |stores|;
      } else {
        assert |Delivery(leased, rows, domains, order, stores)| == |stores|;
      }
    }
  }

  // Every row of a delivered batch is in the one write of its domain, and that write
  // goes to a store made for the row's normalised exchange and its UTC year.
  lemma {:induction false} RowReachesItsStore(rows: seq<Row>, clock: nat -> ClockYear, order: seq<Domain>,
                                              stores: seq<nat>, created: seq<RouteKey>, i: nat) returns (g: nat)
    requires i < |rows| && |stores| == |order|
    requires Visits(order, DomainSet(Domains(rows, clock))) && RoutedTo(created, order, stores)
    ensures g < |order| && rows[i] in RowsOf(rows, Domains(rows, clock), order[g])
    ensures forall h :: 0 <= h < |order| ==> (order[h] == Domains(rows, clock)[i] <==> h == g)
    ensures stores[g] < |created|
    ensures created[stores[g]].exchange == ToLower(TrimSpace(ExchangeOf(rows[i])))
    ensures created[stores[g]].year == if DateOf(rows[i]) >= 0 then YearOf(DateOf(rows[i])) else clock(i)
  {
    var domains := Domains(rows, clock);
    assert domains[i] == DomainOf(rows[i], clock(i));
    RowRoute(rows[i], clock(i));
    hide DomainOf, RouteKeyOf, YearOf, TrimSpace, ToLower;
    assert domains[i] in DomainSet(domains);
    g :| 0 <= g < |order| && order[g] == domains[i];
    GroupInInputOrder(rows, domains, order[g]);
    var group, places := RowsOf(rows, domains, order[g]), PlacesOf(domains, order[g]);
    var at :| 0 <= at < |places| && places[at] == i;
    assert group[at] == rows[i];
  }

  predicate LeaseFirst(entries: seq<Entry>) {
    forall p :: 0 <= p < |entries| && entries[p].Write? ==> p > 0 && entries[p - 1] == Lease(entries[p].domain, true)
  }

  // Every entry is about a domain visited, and every lease in it is granted.
  predicate GrantedFor(entries: seq<Entry>, visited: seq<Domain>) {
    forall p :: 0 <= p < |entries| ==> entries[p].domain in visited && (entries[p].Lease? ==> entries[p].granted)
  }

  lemma {:induction false} DeliveryLeasesFirst(rows: seq<Row>, domains: seq<Domain>, order: seq<Domain>,
                                               stores: seq<nat>)
    requires |rows| == |domains| && |stores| <= |order|
    ensures LeaseFirst(Delivery(true, rows, domains, order, stores))
    ensures GrantedFor(Delivery(true, rows, domains, order, stores), order[..|stores|])
  {
    if stores != [] {
      var i := |stores| - 1;
      DeliveryLeasesFirst(rows, domains, order, stores[..i]);
      hide RowsOf;
      var before := Delivery(true, rows, domains, order, stores[..i]);
      var d, store, group := order[i], stores[i], RowsOf(rows, domains, order[i]);
      assert order[..i + 1] == order[..i] + [d];
      assert Delivery(true, rows, domains, order, stores) == before + [Lease(d, true), Write(d, store, group, true)];
    }
  }

  // With a lease manager every write of a batch, delivered or not, even one that
  // fails, directly follows a granted lease for its domain; and a domain whose lease
  // is denied is not written at all.
  lemma {:induction false} LeaseBeforeWrite(rows: seq<Row>, domains: seq<Domain>, order: seq<Domain>,
                                            stores: seq<nat>, tail: seq<Entry>)
    requires |rows| == |domains| && |stores| <= |order|
    requires forall i, j :: 0 <= i < j < |order| ==> order[i] != order[j]
    requires if |stores| == |order| then tail == []
             else Refusal(true, order[|stores|], RowsOf(rows, domains, order[|stores|]), tail)
    ensures var entries := Delivery(true, rows, domains, order, stores) + tail;
            && LeaseFirst(entries)
            && forall p, q :: 0 <= p < |entries| && 0 <= q < |entries| && entries[p].Lease? && !entries[p].granted ==>
                 !entries[q].Write? || entries[q].domain != entries[p].domain
  {
    DeliveryLeasesFirst(rows, domains, order, stores);
    hide RowsOf, Delivery;
    var before := Delivery(true, rows, domains, order, stores);
    if |stores| == |order| {
      assert before + tail == before;
    } else {
      var d := order[|stores|];
      assert d !in order[..|stores|];
      assert forall p :: 0 <= p < |tail| ==>
        tail[p].domain == d && (tail[p].Write? ==> p == 1 && tail[0] == Lease(d, true));
      assert forall p :: 0 <= p < |tail| && tail[p].Lease? && !tail[p].granted ==> |tail| == 1;
    }
  }
}
