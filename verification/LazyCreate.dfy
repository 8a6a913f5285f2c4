/** Lazy table creation by any number of concurrent workers. Each worker makes one
    insert; a step is one SQL statement, one access to the lock table, or taking or
    releasing a lock. An insert fails when the table is absent, and any statement may
    fail for other reasons, with its effect or without. */
module LazyCreate {

  datatype Job = Job(table: string, row: int)

  // Where a worker is. A lock is named by the worker that allocated it.
  datatype PC =
    | FirstInsert
    | LoadLock
    | LoadOrStoreLock
    | Acquire(lock: nat)
    | SecondInsert(lock: nat)
    | CreateTable(lock: nat)
    | FinalInsert(lock: nat)
    | Release(lock: nat, ok: bool)
    | Done(ok: bool)

  // Of the tables, made lists those that came into being, in order, and creates the
  // CREATE statements that took effect.
  datatype State = State(
    pcs: seq<PC>,
    tables: set<string>,
    rows: set<Job>,
    locks: map<string, nat>,
    holder: map<nat, nat>,
    made: seq<string>,
    creates: seq<string>)

  // What the database makes of a statement, beyond the absence of a table.
  datatype Outcome = Works | Fails(effect: bool)

  datatype Event = Event(w: nat, outcome: Outcome)

  predicate Initial(jobs: seq<Job>, s: State) {
    && |s.pcs| == |jobs|
    && (forall w :: 0 <= w < |jobs| ==> s.pcs[w] == FirstInsert)
    && s.locks == map[] && s.holder == map[] && s.made == [] && s.creates == []
  }

  predicate Enabled(s: State, w: nat) {
    w < |s.pcs| && !s.pcs[w].Done? && (s.pcs[w].Acquire? ==> s.pcs[w].lock !in s.holder)
  }

  function At(s: State, w: nat, pc: PC): State
    requires w < |s.pcs|
  {
    s.(pcs := s.pcs[w := pc])
  }

  predicate TakesEffect(outcome: Outcome) {
    outcome.Works? || outcome.effect
  }

  function Insert(s: State, job: Job, outcome: Outcome): State {
    if job.table in s.tables && TakesEffect(outcome) then s.(rows := s.rows + {job}) else s
  }

  predicate InsertWorks(s: State, job: Job, outcome: Outcome) {
    job.table in s.tables && outcome.Works?
  }

  // CREATE TABLE IF NOT EXISTS.
  function Create(s: State, table: string, outcome: Outcome): State {
    if !TakesEffect(outcome) then s
    else s.(tables := s.tables + {table}, creates := s.creates + [table],
            made := if table in s.tables then s.made else s.made + [table])
  }

  function Step(jobs: seq<Job>, s: State, e: Event): State
    requires |s.pcs| == |jobs| && Enabled(s, e.w)
  {
    var w, outcome, job := e.w, e.outcome, jobs[e.w];
    match s.pcs[w]
    case FirstInsert => At(Insert(s, job, outcome), w, if InsertWorks(s, job, outcome) then Done(true) else LoadLock)
    case LoadLock => At(s, w, if job.table in s.locks then Acquire(s.locks[job.table]) else LoadOrStoreLock)
    case LoadOrStoreLock =>
      if job.table in s.locks then At(s, w, Acquire(s.locks[job.table]))
      else At(s, w, Acquire(w)).(locks := s.locks[job.table := w])
    case Acquire(lock) => At(s, w, SecondInsert(lock)).(holder := s.holder[lock := w])
    case SecondInsert(lock) =>
      At(Insert(s, job, outcome), w, if InsertWorks(s, job, outcome) then Release(lock, true) else CreateTable(lock))
    case CreateTable(lock) =>
      At(Create(s, job.table, outcome), w, if outcome.Works? then FinalInsert(lock) else Release(lock, false))
    case FinalInsert(lock) => At(Insert(s, job, outcome), w, Release(lock, InsertWorks(s, job, outcome)))
    case Release(lock, ok) => At(s, w, Done(ok)).(holder := s.holder - {lock})
  }

  // The state after a schedule, if every step of it was possible.
  predicate Run(jobs: seq<Job>, s: State, schedule: seq<Event>, t: State)
    requires |s.pcs| == |jobs|
    decreases |schedule|
  {
    if schedule == [] then s == t
    else Enabled(s, schedule[0].w) && |Step(jobs, s, schedule[0]).pcs| == |jobs|
         && Run(jobs, Step(jobs, s, schedule[0]), schedule[1..], t)
  }

  predicate Critical(pc: PC) {
    pc.SecondInsert? || pc.CreateTable? || pc.FinalInsert? || pc.Release?
  }

  // ----- The invariant, whatever fails -----

  predicate WorkerOk(jobs: seq<Job>, s: State, w: nat)
    requires |s.pcs| == |jobs| && w < |jobs|
  {
    var pc, table := s.pcs[w], jobs[w].table;
    && (pc.Acquire? || Critical(pc) ==> table in s.locks && s.locks[table] == pc.lock)
    && (Critical(pc) ==> pc.lock in s.holder && s.holder[pc.lock] == w)
    && (pc.FinalInsert? ==> table in s.tables)
    && ((pc.Release? || pc.Done?) && pc.ok ==> jobs[w] in s.rows)
  }

  predicate LocksOk(jobs: seq<Job>, s: State)
    requires |s.pcs| == |jobs|
  {
    && (forall t :: t in s.locks ==> s.locks[t] < |jobs| && jobs[s.locks[t]].table == t)
    && (forall l :: l in s.holder ==>
          s.holder[l] < |jobs| && Critical(s.pcs[s.holder[l]]) && s.pcs[s.holder[l]].lock == l)
  }

  // The tables are those there at first and those that came into being since, each of
  // them once.
  predicate TablesOk(first: set<string>, s: State) {
    && first <= s.tables
    && (forall t :: t in s.tables ==> t in first || t in s.made)
    && (forall i :: 0 <= i < |s.made| ==> s.made[i] in s.tables && s.made[i] !in first)
    && (forall i, j :: 0 <= i < j < |s.made| ==> s.made[i] != s.made[j])
  }

  predicate Inv(jobs: seq<Job>, first: set<string>, s: State) {
    && |s.pcs| == |jobs|
    && (forall w :: 0 <= w < |jobs| ==> WorkerOk(jobs, s, w))
    && LocksOk(jobs, s)
    && TablesOk(first, s)
  }

  lemma InitialInv(jobs: seq<Job>, s: State)
    requires Initial(jobs, s)
    ensures Inv(jobs, s.tables, s)
  {
  }

  // Two workers in their critical sections work on different tables.
  lemma {:induction false} Exclusion(jobs: seq<Job>, s: State, v: nat, w: nat)
    requires |s.pcs| == |jobs| && v < |jobs| && w < |jobs| && WorkerOk(jobs, s, v) && WorkerOk(jobs, s, w)
    requires Critical(s.pcs[v]) && Critical(s.pcs[w])
    ensures v == w <==> jobs[v].table == jobs[w].table
    ensures LocksOk(jobs, s) ==> (v == w <==> s.pcs[v].lock == s.pcs[w].lock)
  {
  }

  lemma {:induction false} SelfOk(jobs: seq<Job>, s: State, e: Event)
    requires |s.pcs| == |jobs| && Enabled(s, e.w) && WorkerOk(jobs, s, e.w) && LocksOk(jobs, s)
    ensures WorkerOk(jobs, Step(jobs, s, e), e.w)
  {
  }

  lemma {:induction false} OtherOk(jobs: seq<Job>, s: State, e: Event, v: nat)
    requires |s.pcs| == |jobs| && Enabled(s, e.w) && WorkerOk(jobs, s, e.w) && LocksOk(jobs, s)
    requires v < |jobs| && v != e.w && WorkerOk(jobs, s, v)
    ensures WorkerOk(jobs, Step(jobs, s, e), v)
  {
    if Critical(s.pcs[v]) && Critical(s.pcs[e.w]) {
      Exclusion(jobs, s, v, e.w);
    }
  }

  lemma {:induction false} LocksStillOk(jobs: seq<Job>, s: State, e: Event)
    requires |s.pcs| == |jobs| && Enabled(s, e.w) && WorkerOk(jobs, s, e.w) && LocksOk(jobs, s)
    ensures LocksOk(jobs, Step(jobs, s, e))
  {
    hide Insert, Create;
    var t := Step(jobs, s, e);
    InsertKeepsLocks(s, jobs[e.w], e.outcome);
    assert forall v :: 0 <= v < |jobs| && v != e.w ==> t.pcs[v] == s.pcs[v];
  }

  lemma InsertKeepsLocks(s: State, job: Job, outcome: Outcome)
    ensures var t := Insert(s, job, outcome); t.pcs == s.pcs && t.locks == s.locks && t.holder == s.holder
    ensures var t := Create(s, job.table, outcome); t.pcs == s.pcs && t.locks == s.locks && t.holder == s.holder
  {
  }

  lemma {:induction false} TablesStillOk(jobs: seq<Job>, first: set<string>, s: State, e: Event)
    requires |s.pcs| == |jobs| && Enabled(s, e.w) && TablesOk(first, s)
    ensures TablesOk(first, Step(jobs, s, e))
  {
    var t := Step(jobs, s, e);
    assert s.made <= t.made;
  }

  lemma {:induction false} StepKeepsInv(jobs: seq<Job>, first: set<string>, s: State, e: Event)
    requires Inv(jobs, first, s) && Enabled(s, e.w)
    ensures Inv(jobs, first, Step(jobs, s, e))
  {
    var t := Step(jobs, s, e);
    assert |t.pcs| == |jobs|;
    hide WorkerOk, LocksOk, TablesOk, Step;
    assert WorkerOk(jobs, s, e.w);
    forall v | 0 <= v < |jobs| ensures WorkerOk(jobs, t, v) {
      if v == e.w {
        SelfOk(jobs, s, e);
      } else {
        OtherOk(jobs, s, e, v);
      }
    }
    LocksStillOk(jobs, s, e);
    TablesStillOk(jobs, first, s, e);
  }

  lemma {:induction false} RunKeepsInv(jobs: seq<Job>, first: set<string>, s: State, schedule: seq<Event>, t: State)
    requires Inv(jobs, first, s) && Run(jobs, s, schedule, t)
    ensures Inv(jobs, first, t)
    decreases |schedule|
  {
    if schedule != [] {
      StepKeepsInv(jobs, first, s, schedule[0]);
      hide Inv, Step, Enabled;
      RunKeepsInv(jobs, first, Step(jobs, s, schedule[0]), schedule[1..], t);
    }
  }

  // ----- When only the absence of a table makes a statement fail -----

  predicate AllWork(schedule: seq<Event>) {
    forall k :: 0 <= k < |schedule| ==> schedule[k].outcome == Works
  }

  predicate WorkerWorks(jobs: seq<Job>, s: State, w: nat)
    requires |s.pcs| == |jobs| && w < |jobs|
  {
    var pc := s.pcs[w];
    (pc.CreateTable? ==> jobs[w].table !in s.tables) && (pc.Release? || pc.Done? ==> pc.ok)
  }

  predicate Working(jobs: seq<Job>, s: State) {
    && |s.pcs| == |jobs|
    && (forall w :: 0 <= w < |jobs| ==> WorkerWorks(jobs, s, w))
    && s.creates == s.made
  }

  lemma {:induction false} StepKeepsWorking(jobs: seq<Job>, first: set<string>, s: State, e: Event)
    requires Inv(jobs, first, s) && Working(jobs, s) && Enabled(s, e.w) && e.outcome == Works
    ensures Working(jobs, Step(jobs, s, e))
  {
    var t := Step(jobs, s, e);
    assert WorkerOk(jobs, s, e.w) && WorkerWorks(jobs, s, e.w);
    forall v | 0 <= v < |jobs| ensures WorkerWorks(jobs, t, v) {
      assert WorkerOk(jobs, s, v) && WorkerWorks(jobs, s, v);
      if v != e.w && Critical(s.pcs[v]) && Critical(s.pcs[e.w]) {
        Exclusion(jobs, s, v, e.w);
      }
      hide WorkerOk, LocksOk, TablesOk;
    }
  }

  lemma {:induction false} RunKeepsWorking(jobs: seq<Job>, first: set<string>, s: State, schedule: seq<Event>, t: State)
    requires Inv(jobs, first, s) && Working(jobs, s) && Run(jobs, s, schedule, t) && AllWork(schedule)
    ensures Working(jobs, t)
    decreases |schedule|
  {
    if schedule != [] {
      StepKeepsInv(jobs, first, s, schedule[0]);
      StepKeepsWorking(jobs, first, s, schedule[0]);
      hide Inv, Working, Step, Enabled;
      RunKeepsWorking(jobs, first, Step(jobs, s, schedule[0]), schedule[1..], t);
    }
  }

  // ----- Main results -----

  // Under every schedule, and whatever statements fail: the tables are those there at
  // first and those that came into being, each at most once; at most one worker per
  // table is between taking and releasing a lock; and a worker that reports success
  // has its row stored.
  lemma {:induction false} SafeWhateverFails(jobs: seq<Job>, s: State, schedule: seq<Event>, t: State)
    requires Initial(jobs, s) && Run(jobs, s, schedule, t)
    ensures |t.pcs| == |jobs|
    ensures forall i, j :: 0 <= i < j < |t.made| ==> t.made[i] != t.made[j]
    ensures forall table :: table in t.tables <==> table in s.tables || table in t.made
    ensures forall i :: 0 <= i < |t.made| ==> t.made[i] !in s.tables
    ensures forall v, w :: 0 <= v < w < |jobs| && Critical(t.pcs[v]) && Critical(t.pcs[w]) ==>
              jobs[v].table != jobs[w].table
    ensures forall w :: 0 <= w < |jobs| && t.pcs[w] == Done(true) ==> jobs[w] in t.rows
  {
    InitialInv(jobs, s);
    RunKeepsInv(jobs, s.tables, s, schedule, t);
    hide Initial, Run;
    forall v, w | 0 <= v < w < |jobs| && Critical(t.pcs[v]) && Critical(t.pcs[w])
      ensures jobs[v].table != jobs[w].table
    {
      assert WorkerOk(jobs, t, v) && WorkerOk(jobs, t, w);
      Exclusion(jobs, t, v, w);
    }
    forall w | 0 <= w < |jobs| && t.pcs[w] == Done(true) ensures jobs[w] in t.rows {
      assert WorkerOk(jobs, t, w);
    }
  }

  // Every row added is a worker's, in a table that is there.
  lemma {:induction false} RowsInTables(jobs: seq<Job>, s: State, schedule: seq<Event>, t: State)
    requires |s.pcs| == |jobs| && Run(jobs, s, schedule, t)
    requires forall row :: row in s.rows ==> row.table in s.tables
    ensures forall row :: row in t.rows ==> row.table in t.tables && (row in s.rows || row in jobs)
    ensures s.rows <= t.rows && s.tables <= t.tables
    decreases |schedule|
  {
    if schedule != [] {
      RowsInTables(jobs, Step(jobs, s, schedule[0]), schedule[1..], t);
    }
  }

  // When nothing else makes a statement fail, CREATE TABLE runs at most once per
  // table, and not at all for a table that was there, and a worker that is done
  // succeeded, with its row stored.
  lemma {:induction false} SingleFlight(jobs: seq<Job>, s: State, schedule: seq<Event>, t: State)
    requires Initial(jobs, s) && Run(jobs, s, schedule, t) && AllWork(schedule)
    ensures |t.pcs| == |jobs|
    ensures forall i, j :: 0 <= i < j < |t.creates| ==> t.creates[i] != t.creates[j]
    ensures forall i :: 0 <= i < |t.creates| ==> t.creates[i] !in s.tables
    ensures forall w :: 0 <= w < |jobs| && t.pcs[w].Done? ==> t.pcs[w].ok && jobs[w] in t.rows
  {
    InitialInv(jobs, s);
    RunKeepsWorking(jobs, s.tables, s, schedule, t);
    SafeWhateverFails(jobs, s, schedule, t);
    hide Initial, Run, AllWork;
    forall w | 0 <= w < |jobs| && t.pcs[w].Done? ensures t.pcs[w] == Done(true) {
      assert WorkerWorks(jobs, t, w);
    }
  }

  // Steps a worker has left at most.
  function Rank(pc: PC): nat {
    match pc
    case FirstInsert => 8
    case LoadLock => 7
    case LoadOrStoreLock => 6
    case Acquire(_) => 5
    case SecondInsert(_) => 4
    case CreateTable(_) => 3
    case FinalInsert(_) => 2
    case Release(_, _) => 1
    case Done(_) => 0
  }

  function Work(pcs: seq<PC>): nat {
    if pcs == [] then 0 else Rank(pcs[0]) + Work(pcs[1..])
  }

  lemma {:induction false} WorkUpdate(pcs: seq<PC>, w: nat, pc: PC)
    requires w < |pcs|
    ensures Work(pcs[w := pc]) == Work(pcs) - Rank(pcs[w]) + Rank(pc)
  {
    if w > 0 {
      WorkUpdate(pcs[1..], w - 1, pc);
      assert pcs[w := pc][1..] == pcs[1..][w - 1 := pc];
    } else {
      assert pcs[w := pc][1..] == pcs[1..];
    }
  }

  lemma {:induction false} StepMoves(jobs: seq<Job>, s: State, e: Event) returns (next: PC)
    requires |s.pcs| == |jobs| && Enabled(s, e.w)
    ensures Step(jobs, s, e).pcs == s.pcs[e.w := next] && Rank(next) < Rank(s.pcs[e.w])
  {
    hide Insert, Create;
    InsertKeepsLocks(s, jobs[e.w], e.outcome);
    next := Step(jobs, s, e).pcs[e.w];
  }

  lemma {:induction false} StepWorks(jobs: seq<Job>, s: State, e: Event)
    requires |s.pcs| == |jobs| && Enabled(s, e.w)
    ensures Work(Step(jobs, s, e).pcs) < Work(s.pcs)
  {
    var next := StepMoves(jobs, s, e);
    hide Step;
    WorkUpdate(s.pcs, e.w, next);
  }

  // No schedule takes more steps than the work there is to do.
  lemma {:induction false} SchedulesAreBounded(jobs: seq<Job>, s: State, schedule: seq<Event>, t: State)
    requires |s.pcs| == |jobs| && Run(jobs, s, schedule, t)
    ensures |schedule| + Work(t.pcs) <= Work(s.pcs)
    decreases |schedule|
  {
    if schedule != [] {
      StepWorks(jobs, s, schedule[0]);
      hide Step, Enabled;
      SchedulesAreBounded(jobs, Step(jobs, s, schedule[0]), schedule[1..], t);
    }
  }

  // Workers are never stuck, whatever fails: while one is not done, some worker can
  // take a step.
  lemma {:induction false} SomeoneCanStep(jobs: seq<Job>, s: State, schedule: seq<Event>, t: State, w: nat)
    returns (next: nat)
    requires Initial(jobs, s) && Run(jobs, s, schedule, t)
    requires w < |t.pcs| && !t.pcs[w].Done?
    ensures Enabled(t, next)
  {
    InitialInv(jobs, s);
    RunKeepsInv(jobs, s.tables, s, schedule, t);
    next := if t.pcs[w].Acquire? && t.pcs[w].lock in t.holder then t.holder[t.pcs[w].lock] else w;
  }

  // When no worker can take another step, every worker is done, and the rows of those
  // that report success are stored; when nothing but absent tables made statements
  // fail, that is every worker.
  lemma {:induction false} FinishedSchedulesStoreEverything(jobs: seq<Job>, s: State, schedule: seq<Event>, t: State)
    requires Initial(jobs, s) && Run(jobs, s, schedule, t)
    requires forall w: nat :: !Enabled(t, w)
    ensures |t.pcs| == |jobs|
    ensures forall w :: 0 <= w < |jobs| ==> t.pcs[w].Done? && (t.pcs[w].ok ==> jobs[w] in t.rows)
    ensures AllWork(schedule) ==> forall w :: 0 <= w < |jobs| ==> t.pcs[w] == Done(true) && jobs[w] in t.rows
  {
    SafeWhateverFails(jobs, s, schedule, t);
    if AllWork(schedule) {
      SingleFlight(jobs, s, schedule, t);
    }
    forall w | 0 <= w < |jobs| ensures t.pcs[w].Done? {
      if !t.pcs[w].Done? {
        hide Enabled, Run, Initial;
        var next := SomeoneCanStep(jobs, s, schedule, t, w);
      }
    }
  }
}
