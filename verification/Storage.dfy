/** Year databases: table names, insert-or-ignore rows, and lazy table creation
    as one worker sees it. */
module Storage {
  import opened Calendar
  import opened Intervals
  import opened Klines
  import opened CoverageSegments
  import LazyCreate

  // ----- Table names -----

  function NormalizeMarket(market: string): string {
    if ToLower(TrimSpace(market)) != "futures" then "spot" else "futures"
  }

  function KeepAlnum(s: string): string {
    if s == "" then "" else KeepAlnum(Front(s)) + if IsAlnum(Last(s)) then [Last(s)] else ""
  }

  function NormalizeSymbolForTable(symbol: string): string {
    var kept := KeepAlnum(ToLower(TrimSpace(symbol)));
    if kept == "" then "unknown" else kept
  }

  function NormalizeSymbolForWrite(symbol: string): string {
    ToUpper(TrimSpace(symbol))
  }

  // The writer's kline table name; the interval is never empty here.
  function BuildTableName(market: string, symbol: string, interval: string): string {
    NormalizeMarket(market) + "_klines_" + NormalizeSymbolForTable(symbol) + "_" + ToLower(interval)
  }

  // ----- Rows -----

  datatype RowKey = RowKey(table: string, time: Time, symbol: string)

  // The primary key of a table is (time, symbol).
  datatype Database = Database(tables: set<string>, rows: map<RowKey, Kline>)

  function RowInterval(k: Kline): string {
    if k.interval == "" then "1m" else k.interval
  }

  function TableOf(k: Kline): string {
    BuildTableName(k.market, NormalizeSymbolForWrite(k.symbol), RowInterval(k))
  }

  function KeyOf(k: Kline): RowKey {
    RowKey(TableOf(k), k.time, NormalizeSymbolForWrite(k.symbol))
  }

  lemma {:induction false} KeepAlnumMembers(s: string)
    ensures forall c :: c in KeepAlnum(s) <==> c in s && IsAlnum(c)
  {
    if s != "" {
      KeepAlnumMembers(Front(s));
      assert s == Front(s) + [Last(s)];
    }
  }

  // The symbol part of a table name has no underscore, and a symbol without letters and
  // digits is called unknown.
  lemma {:induction false} TableSymbol(symbol: string)
    ensures var part := NormalizeSymbolForTable(symbol);
            && part != "" && (forall c :: c in part ==> IsAlnum(c))
            && ((forall c :: c in symbol ==> !IsAlnum(c)) ==> part == "unknown")
  {
    var s := TrimSpace(symbol);
    KeepAlnumMembers(ToLower(s));
    TrimmedMembers(symbol);
    hide KeepAlnum, TrimSpace;
    var kept := KeepAlnum(ToLower(s));
    if kept != "" {
      assert kept[0] in kept;
      var i :| 0 <= i < |s| && ToLower(s)[i] == kept[0];
      assert s[i] in s && IsAlnum(s[i]);
    }
  }

  lemma {:induction false} TrimmedMembers(s: string)
    ensures forall c :: c in TrimSpace(s) ==> c in s
    decreases |s|
  {
    if s != "" && IsSpace(s[0]) {
      TrimmedMembers(s[1..]);
    } else if s != "" && IsSpace(s[|s| - 1]) {
      TrimmedMembers(s[..|s| - 1]);
    }
  }

  // Table names are equal exactly when their three parts are.
  lemma {:induction false} TableNamesTellApart(m: string, s: string, i: string, n: string, t: string, j: string)
    ensures BuildTableName(m, s, i) == BuildTableName(n, t, j) <==>
            && (ToLower(TrimSpace(m)) == "futures" <==> ToLower(TrimSpace(n)) == "futures")
            && NormalizeSymbolForTable(s) == NormalizeSymbolForTable(t) && ToLower(i) == ToLower(j)
  {
    TableSymbol(s);
    TableSymbol(t);
    hide NormalizeSymbolForTable, ToLower, TrimSpace;
    var a, b := NormalizeSymbolForTable(s) + "_" + ToLower(i), NormalizeSymbolForTable(t) + "_" + ToLower(j);
    assert BuildTableName(m, s, i) == NormalizeMarket(m) + "_klines_" + a;
    assert BuildTableName(n, t, j) == NormalizeMarket(n) + "_klines_" + b;
    hide BuildTableName;
    if BuildTableName(m, s, i) == BuildTableName(n, t, j) {
      MarketsApart(m, n, a, b);
      SplitAt('_', NormalizeSymbolForTable(s), ToLower(i), NormalizeSymbolForTable(t), ToLower(j));
    }
  }

  lemma MarketsApart(m: string, n: string, a: string, b: string)
    requires NormalizeMarket(m) + "_klines_" + a == NormalizeMarket(n) + "_klines_" + b
    ensures NormalizeMarket(m) == NormalizeMarket(n) && a == b
  {
    hide ToLower, TrimSpace;
    var x, y := NormalizeMarket(m) + "_klines_", NormalizeMarket(n) + "_klines_";
    assert (x + a)[0] == NormalizeMarket(m)[0] && (y + b)[0] == NormalizeMarket(n)[0];
    assert a == (x + a)[|x|..] && b == (y + b)[|y|..];
  }

  // Two rows have one key exactly when they are of one time and symbol, both futures or
  // neither, and of one interval, an absent one counting as a minute.
  lemma RowsShareAKey(a: Kline, b: Kline)
    ensures KeyOf(a) == KeyOf(b) <==>
            && a.time == b.time && ToUpper(TrimSpace(a.symbol)) == ToUpper(TrimSpace(b.symbol))
            && (ToLower(TrimSpace(a.market)) == "futures" <==> ToLower(TrimSpace(b.market)) == "futures")
            && ToLower(if a.interval == "" then "1m" else a.interval)
               == ToLower(if b.interval == "" then "1m" else b.interval)
  {
    TableNamesTellApart(a.market, NormalizeSymbolForWrite(a.symbol), RowInterval(a),
                        b.market, NormalizeSymbolForWrite(b.symbol), RowInterval(b));
    hide BuildTableName, ToLower, ToUpper, TrimSpace, NormalizeSymbolForTable;
  }

  // ON CONFLICT (time, symbol) DO NOTHING: the first row wins.
  function InsertRow(db: Database, k: Kline): Database {
    Database(db.tables + {TableOf(k)}, if KeyOf(k) in db.rows then db.rows else db.rows[KeyOf(k) := k])
  }

  function WithTable(db: Database, table: string): Database {
    db.(tables := db.tables + {table})
  }

  function InsertRows(db: Database, klines: seq<Kline>): Database {
    if klines == [] then db else InsertRow(InsertRows(db, Front(klines)), Last(klines))
  }

  // b holds every table and row of a, unchanged.
  predicate Extends(a: Database, b: Database) {
    && a.tables <= b.tables
    && forall key :: key in a.rows ==> key in b.rows && b.rows[key] == a.rows[key]
  }

  lemma {:induction false} InsertRowsExtends(db: Database, klines: seq<Kline>)
    ensures Extends(db, InsertRows(db, klines))
    ensures forall k :: k in klines ==>
              KeyOf(k) in InsertRows(db, klines).rows && TableOf(k) in InsertRows(db, klines).tables
    ensures forall key :: key in InsertRows(db, klines).rows && key !in db.rows ==>
              InsertRows(db, klines).rows[key] in klines && KeyOf(InsertRows(db, klines).rows[key]) == key
  {
    hide TableOf, KeyOf;
    if klines != [] {
      InsertRowsExtends(db, Front(klines));
      assert klines == Front(klines) + [Last(klines)];
    }
  }

  lemma {:induction false} InsertRowsJoin(db: Database, a: seq<Kline>, b: seq<Kline>)
    ensures InsertRows(InsertRows(db, a), b) == InsertRows(db, a + b)
  {
    hide InsertRow;
    if b == [] {
      assert a + b == a;
    } else {
      InsertRowsJoin(db, a, Front(b));
      assert Front(a + b) == a + Front(b);
    }
  }

  // ----- One worker's inserts -----

  type Outcome = LazyCreate.Outcome

  datatype Statement = Insert(key: RowKey) | CreateTable(table: string)

  // The year databases of one server, by year, and the statements run on them. What
  // the server makes of the n-th foreign call, beyond the absence of a table, is given
  // by outcome.
  class Cluster {
    var databases: map<int, Database>
    var statements: seq<Statement>
    var calls: nat
    const outcome: nat -> Outcome

    constructor (outcome: nat -> Outcome)
      ensures databases == map[] && statements == [] && this.outcome == outcome
    {
      databases, statements, calls := map[], [], 0;
      this.outcome := outcome;
    }

    // No call fails but for the absence of a table.
    ghost predicate AllWork() {
      forall n :: outcome(n).Works?
    }

    // A call with no effect here: opening and closing a database, or looking at the
    // context.
    method Call() returns (ok: bool)
      modifies `calls
      ensures ok <==> outcome(old(calls)).Works?
      ensures calls == old(calls) + 1
    {
      ok := outcome(calls).Works?;
      calls := calls + 1;
    }

    // CREATE DATABASE, when absent; it may fail.
    method EnsureDatabaseExists(year: int) returns (ok: bool)
      modifies `databases, `calls
      ensures ok ==> year in databases
      ensures databases == old(databases) ||
              (year !in old(databases) && databases == old(databases)[year := Database({}, map[])])
      ensures year in old(databases) || outcome(old(calls)).Works? ==> ok
    {
      if year in databases {
        return true;
      }
      ok := Call();
      if ok {
        databases := databases[year := Database({}, map[])];
      }
    }

    // An INSERT: it fails when the table is absent, and may fail for other reasons,
    // with the row written or not.
    method ExecInsert(year: int, k: Kline) returns (ok: bool)
      requires year in databases
      modifies this
      ensures statements == old(statements) + [Insert(KeyOf(k))] && calls == old(calls) + 1
      ensures ok <==> TableOf(k) in old(databases)[year].tables && outcome(old(calls)).Works?
      ensures TableOf(k) in old(databases)[year].tables && LazyCreate.TakesEffect(outcome(old(calls))) ==>
                databases == old(databases)[year := InsertRow(old(databases)[year], k)]
      ensures !(TableOf(k) in old(databases)[year].tables && LazyCreate.TakesEffect(outcome(old(calls)))) ==>
                databases == old(databases)
    {
      var result := outcome(calls);
      calls := calls + 1;
      statements := statements + [Insert(KeyOf(k))];
      if TableOf(k) !in databases[year].tables {
        return false;
      }
      if LazyCreate.TakesEffect(result) {
        databases := databases[year := InsertRow(databases[year], k)];
      }
      ok := result.Works?;
    }

    // CREATE TABLE IF NOT EXISTS.
    method ExecCreate(year: int, table: string) returns (ok: bool)
      requires year in databases
      modifies this
      ensures statements == old(statements) + [CreateTable(table)] && calls == old(calls) + 1
      ensures ok <==> outcome(old(calls)).Works?
      ensures LazyCreate.TakesEffect(outcome(old(calls))) ==>
                databases == old(databases)[year := WithTable(old(databases)[year], table)]
      ensures !LazyCreate.TakesEffect(outcome(old(calls))) ==> databases == old(databases)
    {
      var result := outcome(calls);
      calls := calls + 1;
      statements := statements + [CreateTable(table)];
      if LazyCreate.TakesEffect(result) {
        databases := databases[year := WithTable(databases[year], table)];
      }
      ok := result.Works?;
    }

    // Insert; on failure insert again under the table's lock; on failure create the
    // table and insert a last time. Which statements run, and whether the call
    // succeeds, is decided by their outcomes and by whether the table is there; when
    // only its absence makes a statement fail, the call succeeds.
    method OptimisticInsertWithLazyCreate(year: int, k: Kline) returns (ok: bool)
      requires year in databases
      modifies this
      ensures year in databases
      ensures databases == old(databases)[year := databases[year]]
      ensures ok ==> databases[year] == InsertRow(old(databases)[year], k)
      ensures Extends(old(databases)[year], databases[year])
      ensures Extends(databases[year], InsertRow(old(databases)[year], k))
      ensures var n, there := old(calls), TableOf(k) in old(databases)[year].tables;
              var insert, create := Insert(KeyOf(k)), CreateTable(TableOf(k));
              if there && outcome(n).Works? then
                ok && statements == old(statements) + [insert]
              else if there && outcome(n + 1).Works? then
                ok && statements == old(statements) + [insert, insert]
              else if outcome(n + 2).Works? then
                (ok <==> outcome(n + 3).Works?) && statements == old(statements) + [insert, insert, create, insert]
              else
                !ok && statements == old(statements) + [insert, insert, create]
      ensures AllWork() ==> ok
    {
      hide TableOf, KeyOf;
      ok := ExecInsert(year, k);
      if ok {
        return;
      }
      ok := ExecInsert(year, k);
      if ok {
        return;
      }
      ok := ExecCreate(year, TableOf(k));
      if !ok {
        return;
      }
      ok := ExecInsert(year, k);
    }

    // Stops at the first row that cannot be stored.
    method InsertKline(year: int, klines: seq<Kline>) returns (ok: bool)
      requires year in databases
      modifies this
      ensures year in databases
      ensures databases == old(databases)[year := databases[year]]
      ensures ok ==> databases[year] == InsertRows(old(databases)[year], klines)
      ensures Extends(old(databases)[year], databases[year])
      ensures Extends(databases[year], InsertRows(old(databases)[year], klines))
      ensures AllWork() ==> ok
    {
      hide InsertRow, TableOf, KeyOf;
      ghost var db := databases[year];
      for i := 0 to |klines|
        invariant year in databases
        invariant databases == old(databases)[year := databases[year]]
        invariant databases[year] == InsertRows(db, klines[..i])
      {
        assert Front(klines[..i + 1]) == klines[..i];
        ok := OptimisticInsertWithLazyCreate(year, klines[i]);
        if !ok {
          InsertRowsExtends(db, klines[..i]);
          assert klines[..i + 1] + klines[i + 1..] == klines;
          InsertRowsJoin(db, klines[..i + 1], klines[i + 1..]);
          InsertRowsExtends(InsertRows(db, klines[..i + 1]), klines[i + 1..]);
          return;
        }
      }
      assert klines[..|klines|] == klines;
      InsertRowsExtends(db, klines);
      ok := true;
    }
  }
}
