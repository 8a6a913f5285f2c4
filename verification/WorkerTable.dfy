/** The table of historical workers in flight, as a state machine. Each event is one
    critical section of the runtime's mutex. */
module WorkerTable {

  // A worker is cancelled when the runtime called its cancel function, and finished
  // when it has left the table by itself.
  datatype Worker = Worker(id: int, cancelled: bool, finished: bool)

  // Workers are numbered in the order they start; inFlight maps a request id to the
  // worker whose cancel function is kept for it.
  datatype Table = Table(inFlight: map<int, nat>, workers: seq<Worker>)

  // Only the reconciler starts workers, so its in-flight test and the tracking of
  // the new worker are one event.
  datatype Event =
    | Consider(id: int)
    | Finish(w: nat)
    | CancelMissing(seen: set<int>)

  const EMPTY := Table(map[], [])

  predicate Enabled(t: Table, e: Event) {
    match e
    case Finish(w) => w < |t.workers| && !t.workers[w].finished
    case _ => true
  }

  function Track(t: Table, id: int): Table {
    Table(t.inFlight[id := |t.workers|], t.workers + [Worker(id, false, false)])
  }

  // By id only, whichever worker's entry that is.
  function Untrack(t: Table, w: nat): Table
    requires w < |t.workers|
  {
    Table(t.inFlight - {t.workers[w].id}, t.workers[w := t.workers[w].(finished := true)])
  }

  // The workers with an entry under one of some ids.
  function EntriesOf(inFlight: map<int, nat>, ids: set<int>): set<nat> {
    set id | id in ids && id in inFlight :: inFlight[id]
  }

  function Unlisted(t: Table, seen: set<int>): set<nat> {
    EntriesOf(t.inFlight, t.inFlight.Keys - seen)
  }

  function Cancel(workers: seq<Worker>, who: set<nat>): seq<Worker> {
    seq(|workers|, w requires 0 <= w < |workers| => if w in who then workers[w].(cancelled := true) else workers[w])
  }

  function Drop(t: Table, seen: set<int>): Table {
    Table(t.inFlight - (t.inFlight.Keys - seen), Cancel(t.workers, Unlisted(t, seen)))
  }

  function Step(t: Table, e: Event): Table
    requires Enabled(t, e)
  {
    match e
    case Consider(id) => if id in t.inFlight then t else Track(t, id)
    case Finish(w) => Untrack(t, w)
    case CancelMissing(seen) => Drop(t, seen)
  }

  predicate CanRun(t: Table, events: seq<Event>)
    decreases |events|
  {
    events == [] || (Enabled(t, events[0]) && CanRun(Step(t, events[0]), events[1..]))
  }

  function Run(t: Table, events: seq<Event>): Table
    requires CanRun(t, events)
    decreases |events|
  {
    if events == [] then t else Run(Step(t, events[0]), events[1..])
  }

  // ----- What the table says about the workers -----

  predicate Active(t: Table, w: nat) {
    w < |t.workers| && !t.workers[w].cancelled && !t.workers[w].finished
  }

  // An entry is that of an active worker for its id.
  predicate EntriesActive(t: Table) {
    forall id :: id in t.inFlight ==> Active(t, t.inFlight[id]) && t.workers[t.inFlight[id]].id == id
  }

  // An active worker has an entry.
  predicate Tracked(t: Table) {
    forall w :: 0 <= w < |t.workers| && Active(t, w) ==>
        t.workers[w].id in t.inFlight && t.inFlight[t.workers[w].id] == w
  }

  // No two unfinished workers, cancelled or not, have one id.
  predicate OneEach(t: Table) {
    forall v, w :: 0 <= v < w < |t.workers| && !t.workers[v].finished && !t.workers[w].finished ==>
        t.workers[v].id != t.workers[w].id
  }

  lemma {:induction false} StepKeepsEntries(t: Table, e: Event)
    requires EntriesActive(t) && Enabled(t, e)
    ensures EntriesActive(Step(t, e))
  {
    if e.CancelMissing? {
      var u := Drop(t, e.seen);
      forall id | id in u.inFlight ensures Active(u, u.inFlight[id]) && u.workers[u.inFlight[id]].id == id {
        assert u.inFlight[id] !in Unlisted(t, e.seen);
      }
    }
  }

  // A worker leaves the table when another worker's entry is under its id.
  predicate StaleFinish(t: Table, e: Event) {
    e.Finish? && e.w < |t.workers| && t.workers[e.w].id in t.inFlight && t.inFlight[t.workers[e.w].id] != e.w
  }

  // The one step that loses track of an active worker is a stale finish.
  lemma {:induction false} LosesTrackExactly(t: Table, e: Event)
    requires EntriesActive(t) && Tracked(t) && Enabled(t, e)
    ensures Tracked(Step(t, e)) <==> !StaleFinish(t, e)
  {
    var u := Step(t, e);
    match e
    case Consider(id) =>
      assert forall w: nat :: w < |t.workers| ==> Active(u, w) == Active(t, w);
    case Finish(w) =>
      assert forall v: nat :: v != w ==> Active(u, v) == Active(t, v);
      if StaleFinish(t, e) {
        assert Active(u, t.inFlight[t.workers[w].id]);
      }
    case CancelMissing(seen) =>
      forall w: nat | Active(u, w) ensures u.workers[w].id in u.inFlight && u.inFlight[u.workers[w].id] == w {
        assert Active(t, w);
      }
  }

  predicate AlwaysTracked(t: Table, events: seq<Event>)
    requires CanRun(t, events)
    decreases |events|
  {
    Tracked(t) && (events == [] || AlwaysTracked(Step(t, events[0]), events[1..]))
  }

  predicate NeverStale(t: Table, events: seq<Event>)
    requires CanRun(t, events)
    decreases |events|
  {
    events == [] || (!StaleFinish(t, events[0]) && NeverStale(Step(t, events[0]), events[1..]))
  }

  // Every state of a run tracks every active worker if and only if no worker
  // finishes over another worker's entry.
  lemma {:induction false} TrackedThroughout(t: Table, events: seq<Event>)
    requires EntriesActive(t) && Tracked(t) && CanRun(t, events)
    ensures AlwaysTracked(t, events) <==> NeverStale(t, events)
    decreases |events|
  {
    if events != [] {
      StepKeepsEntries(t, events[0]);
      LosesTrackExactly(t, events[0]);
      hide EntriesActive, Tracked, StaleFinish, Step, Enabled;
      var u := Step(t, events[0]);
      if Tracked(u) {
        TrackedThroughout(u, events[1..]);
      } else {
        assert !AlwaysTracked(u, events[1..]);
      }
    }
  }

  // ----- Without relisting -----

  predicate HasUnfinished(t: Table, id: int) {
    exists w :: 0 <= w < |t.workers| && !t.workers[w].finished && t.workers[w].id == id
  }

  // An id is listed again while a cancelled worker of it still runs.
  predicate Relists(t: Table, e: Event) {
    e.Consider? && e.id !in t.inFlight && HasUnfinished(t, e.id)
  }

  lemma {:induction false} OneEachExactly(t: Table, e: Event)
    requires OneEach(t) && Enabled(t, e)
    ensures OneEach(Step(t, e)) <==> !Relists(t, e)
  {
    var u := Step(t, e);
    if e.Consider? && e.id !in t.inFlight {
      var n := |t.workers|;
      assert forall w :: 0 <= w < n ==> u.workers[w] == t.workers[w];
      if HasUnfinished(t, e.id) {
        var w :| 0 <= w < n && !t.workers[w].finished && t.workers[w].id == e.id;
        assert !u.workers[w].finished && !u.workers[n].finished && u.workers[w].id == u.workers[n].id;
      }
    } else {
      assert forall w :: 0 <= w < |u.workers| ==>
        u.workers[w].id == t.workers[w].id && (t.workers[w].finished ==> u.workers[w].finished);
    }
  }

  lemma NotStale(t: Table, e: Event)
    requires EntriesActive(t) && OneEach(t) && Enabled(t, e)
    ensures !StaleFinish(t, e)
  {
  }

  predicate NeverRelists(t: Table, events: seq<Event>)
    requires CanRun(t, events)
    decreases |events|
  {
    events == [] || (!Relists(t, events[0]) && NeverRelists(Step(t, events[0]), events[1..]))
  }

  predicate AlwaysOneEach(t: Table, events: seq<Event>)
    requires CanRun(t, events)
    decreases |events|
  {
    OneEach(t) && (events == [] || AlwaysOneEach(Step(t, events[0]), events[1..]))
  }

  // No id ever has two unfinished workers if and only if no id is listed again while
  // a worker of it is unfinished.
  lemma {:induction false} OneEachThroughout(t: Table, events: seq<Event>)
    requires OneEach(t) && CanRun(t, events)
    ensures AlwaysOneEach(t, events) <==> NeverRelists(t, events)
    decreases |events|
  {
    if events != [] {
      OneEachExactly(t, events[0]);
      hide OneEach, Relists, Step, Enabled;
      var u := Step(t, events[0]);
      if OneEach(u) {
        OneEachThroughout(u, events[1..]);
      } else {
        assert !AlwaysOneEach(u, events[1..]);
      }
    }
  }

  lemma {:induction false} RunKeepsAll(t: Table, events: seq<Event>)
    requires EntriesActive(t) && Tracked(t) && OneEach(t) && CanRun(t, events) && NeverRelists(t, events)
    ensures EntriesActive(Run(t, events)) && Tracked(Run(t, events)) && OneEach(Run(t, events))
    decreases |events|
  {
    if events != [] {
      NotStale(t, events[0]);
      StepKeepsEntries(t, events[0]);
      LosesTrackExactly(t, events[0]);
      OneEachExactly(t, events[0]);
      hide EntriesActive, Tracked, OneEach, Step, Enabled, Relists, StaleFinish;
      RunKeepsAll(Step(t, events[0]), events[1..]);
    }
  }

  function ActiveIds(t: Table): set<int> {
    set w | 0 <= w < |t.workers| && Active(t, w) :: t.workers[w].id
  }

  // Without relisting the ids in flight are exactly those with an unfinished worker
  // that was not cancelled, and no id has two unfinished workers.
  lemma {:induction false} InFlightExactly(events: seq<Event>)
    requires CanRun(EMPTY, events) && NeverRelists(EMPTY, events)
    ensures Run(EMPTY, events).inFlight.Keys == ActiveIds(Run(EMPTY, events))
    ensures OneEach(Run(EMPTY, events))
  {
    RunKeepsAll(EMPTY, events);
    var t := Run(EMPTY, events);
    hide Run, NeverRelists, OneEach, CanRun;
    assert forall id :: id in t.inFlight ==> t.workers[t.inFlight[id]].id == id;
  }

  lemma FiveSteps(e1: Event, e2: Event, e3: Event, e4: Event, e5: Event, t1: Table, t2: Table, t3: Table, t4: Table,
                  t5: Table)
    requires Enabled(EMPTY, e1) && Step(EMPTY, e1) == t1
    requires Enabled(t1, e2) && Step(t1, e2) == t2
    requires Enabled(t2, e3) && Step(t2, e3) == t3
    requires Enabled(t3, e4) && Step(t3, e4) == t4
    requires Enabled(t4, e5) && Step(t4, e5) == t5
    ensures CanRun(EMPTY, [e1, e2, e3, e4, e5]) && Run(EMPTY, [e1, e2, e3, e4, e5]) == t5
  {
    hide Step, Enabled;
    assert CanRun(t5, []) && Run(t5, []) == t5;
    OneMoreStep(t4, e5, [], t5);
    OneMoreStep(t3, e4, [e5], t4);
    OneMoreStep(t2, e3, [e4, e5], t3);
    OneMoreStep(t1, e2, [e3, e4, e5], t2);
    OneMoreStep(EMPTY, e1, [e2, e3, e4, e5], t1);
  }

  lemma OneMoreStep(t: Table, e: Event, rest: seq<Event>, u: Table)
    requires Enabled(t, e) && Step(t, e) == u && CanRun(u, rest)
    ensures CanRun(t, [e] + rest) && Run(t, [e] + rest) == Run(u, rest)
  {
    assert ([e] + rest)[1..] == rest;
  }

  lemma CancelOnly(id: int)
    ensures Drop(Table(map[id := 0], [Worker(id, false, false)]), {}) == Table(map[], [Worker(id, true, false)])
  {
    var t := Table(map[id := 0], [Worker(id, false, false)]);
    assert id in t.inFlight && t.inFlight[id] in Unlisted(t, {});
  }

  // Relisting id 7 while its cancelled worker runs: when that worker finishes it
  // takes the second one's entry, and the next listing starts a third beside it.
  lemma {:induction false} RelistingRunsTwo() returns (events: seq<Event>, t: Table)
    ensures CanRun(EMPTY, events) && t == Run(EMPTY, events)
    ensures |t.workers| == 3 && Active(t, 1) && Active(t, 2) && t.workers[1].id == 7 == t.workers[2].id
    ensures !Tracked(t)
  {
    hide Drop, Run, CanRun;
    var cancelled := Worker(7, true, false);
    var second := Worker(7, false, false);
    var t1 := Table(map[7 := 0], [Worker(7, false, false)]);
    var t2 := Table(map[], [cancelled]);
    var t3 := Table(map[7 := 1], [cancelled, second]);
    var t4 := Table(map[], [cancelled.(finished := true), second]);
    t := Table(map[7 := 2], [cancelled.(finished := true), second, second]);
    CancelOnly(7);
    assert Step(t3, Finish(0)) == t4;
    FiveSteps(Consider(7), CancelMissing({}), Consider(7), Finish(0), Consider(7), t1, t2, t3, t4, t);
    events := [Consider(7), CancelMissing({}), Consider(7), Finish(0), Consider(7)];
    assert Active(t, 1);
  }
}
