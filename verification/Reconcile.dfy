/** What every run of the reconcile runtime keeps. */
module Reconcile {
  import opened Wrappers
  import opened Calendar
  import opened ReconcileModel

  // ----- The invariant holds in every reachable state -----

  lemma InitialInv(cfg: Config)
    ensures Inv(cfg, INITIAL)
  {
  }

  predicate Sound(cfg: Config, ledger: seq<Start>, id: int, h: Handle) {
    HandleOk(cfg, ledger, id, h) && VersionsOk(ledger, id, h)
  }

  lemma {:induction false} PutKeepsInv(cfg: Config, s: System, h: Handle)
    requires Inv(cfg, s)
    requires Sound(cfg, s.ledger, h.stream.id, h)
    requires h.stream.id in s.managed ==>
              h.collector == s.managed[h.stream.id].collector && h.version == s.managed[h.stream.id].version
    requires h.stream.id !in s.managed ==> h.collector == None && s.stopping == {}
    ensures Inv(cfg, Put(s, h))
  {
    hide HandleOk, VersionsOk;
  }

  lemma {:induction false} ObservedOk(cfg: Config, s: System, stream: Stream)
    requires Inv(cfg, s)
    ensures var h := Observed(cfg, s, stream);
            && Sound(cfg, s.ledger, stream.id, h)
            && h.stream == stream
            && (stream.id in s.managed ==>
                  h.collector == s.managed[stream.id].collector && h.version == s.managed[stream.id].version
                                           && h.born == s.managed[stream.id].born)
            && (stream.id !in s.managed ==> h.collector == None && h.born == |s.ledger|)
  {
  }

  // Starts and settlements of other streams' collectors do not concern a handle.
  lemma {:induction false} OtherStart(cfg: Config, ledger: seq<Start>, start: Start, id: int, h: Handle)
    requires Sound(cfg, ledger, id, h) && start.stream != id
    ensures Sound(cfg, ledger + [start], id, h)
  {
  }

  lemma {:induction false} OtherSettled(cfg: Config, ledger: seq<Start>, who: set<nat>, fate: Fate, id: int, h: Handle)
    requires Sound(cfg, ledger, id, h)
    requires forall c :: c in who && c < |ledger| ==> ledger[c].stream != id
    ensures Sound(cfg, Settle(ledger, who, fate), id, h)
  {
    var after := Settle(ledger, who, fate);
    assert forall c :: 0 <= c < |ledger| ==>
        after[c].stream == ledger[c].stream && after[c].version == ledger[c].version;
    assert forall c :: 0 <= c < |ledger| && ledger[c].stream == id ==> after[c] == ledger[c];
  }

  lemma {:induction false} StartedSound(cfg: Config, s: System, h: Handle)
    requires Sound(cfg, s.ledger, h.stream.id, h) && h.collector == None
    ensures var t := StartCollector(cfg, s, h); Sound(cfg, t.ledger, h.stream.id, t.managed[h.stream.id])
  {
    var t := StartCollector(cfg, s, h);
    assert forall c :: 0 <= c < |s.ledger| ==> t.ledger[c] == s.ledger[c];
  }

  lemma {:induction false} StartKeepsInv(cfg: Config, s: System, h: Handle)
    requires Inv(cfg, s) && s.stopping == {}
    requires Sound(cfg, s.ledger, h.stream.id, h) && h.collector == None
    requires h.stream.id in s.managed ==> s.managed[h.stream.id].collector == None
    ensures Inv(cfg, StartCollector(cfg, s, h))
  {
    hide HandleOk, VersionsOk;
    var t := StartCollector(cfg, s, h);
    StartedSound(cfg, s, h);
    forall id | id in t.managed ensures Sound(cfg, t.ledger, id, t.managed[id]) {
      if id != h.stream.id {
        OtherStart(cfg, s.ledger, t.ledger[|s.ledger|], id, s.managed[id]);
      }
    }
    assert forall c :: 0 <= c < |s.ledger| ==> t.ledger[c] == s.ledger[c];
    assert LedgerOk(t);
    assert StopsOk(t);
  }

  lemma {:induction false} DrainedSound(cfg: Config, ledger: seq<Start>, h: Handle)
    requires Sound(cfg, ledger, h.stream.id, h) && h.collector.Some?
    ensures Sound(cfg, Settle(ledger, {h.collector.value}, Retired), h.stream.id, Drained(h))
  {
    var after := Settle(ledger, {h.collector.value}, Retired);
    assert forall c :: 0 <= c < |ledger| ==>
        after[c].stream == ledger[c].stream && after[c].version == ledger[c].version;
  }

  function Drain(s: System, h: Handle, c: nat): System {
    Put(s, Drained(h)).(ledger := Settle(s.ledger, {c}, Retired), stopping := s.stopping + {c})
  }

  lemma {:induction false} DrainKeepsLedger(cfg: Config, s: System, h: Handle, c: nat)
    requires LedgerOk(s) && StopsOk(s) && s.stopping == {}
    requires h.stream.id in s.managed && s.managed[h.stream.id].collector == Some(c)
    requires c < |s.ledger| && s.ledger[c] == Start(h.stream.id, h.version, Current)
    ensures LedgerOk(Drain(s, h, c)) && StopsOk(Drain(s, h, c))
  {
    hide HandleOk, VersionsOk;
    var t := Drain(s, h, c);
    assert forall d :: 0 <= d < |s.ledger| ==>
        t.ledger[d] == if d == c then s.ledger[d].(fate := Retired) else s.ledger[d];
  }

  lemma {:induction false} DrainKeepsInv(cfg: Config, s: System, h: Handle)
    requires Inv(cfg, s) && s.stopping == {}
    requires Sound(cfg, s.ledger, h.stream.id, h) && h.collector.Some?
    requires h.stream.id in s.managed && s.managed[h.stream.id].collector == h.collector
    ensures Inv(cfg, Drain(s, h, h.collector.value))
  {
    var c := h.collector.value;
    assert s.ledger[c] == Start(h.stream.id, h.version, Current);
    DrainedSound(cfg, s.ledger, h);
    DrainKeepsLedger(cfg, s, h, c);
    hide HandleOk, VersionsOk, LedgerOk, StopsOk, Settle;
    var t := Drain(s, h, c);
    forall id | id in t.managed ensures Sound(cfg, t.ledger, id, t.managed[id]) {
      if id != h.stream.id {
        OtherSettled(cfg, s.ledger, {c}, Retired, id, s.managed[id]);
      }
    }
  }

  lemma {:induction false} ReconcileKeepsInv(cfg: Config, s: System, now: Time, stream: Stream,
                                             factoryError: Option<string>)
    requires Inv(cfg, s) && s.stopping == {}
    ensures Inv(cfg, ReconcileStream(cfg, s, now, stream, factoryError))
  {
    hide Inv, Sound, Observed, Put, KeepRunning, StartCollector, Drained, Settle, ShouldRun;
    ObservedOk(cfg, s, stream);
    var h := Observed(cfg, s, stream);
    if ShouldRun(stream) {
      var h := h.(drainDeadline := None);
      Touched(cfg, s.ledger, Observed(cfg, s, stream), h);
      if h.collector.Some? {
        KeptRunningSound(cfg, s.ledger, h);
        PutKeepsInv(cfg, s, KeepRunning(h));
      } else if factoryError.Some? {
        var failed := h.(gate := None, cancel := None, state := Errored, lastError := factoryError.value);
        Touched(cfg, s.ledger, h, failed);
        PutKeepsInv(cfg, s, failed);
      } else {
        StartKeepsInv(cfg, s, h);
      }
    } else if h.collector.None? {
      var stopped := h.(state := Stopped, lastError := "", drainDeadline := None);
      Touched(cfg, s.ledger, h, stopped);
      PutKeepsInv(cfg, s, stopped);
    } else {
      var deadline := if h.drainDeadline.Some? then h.drainDeadline.value else now + cfg.grace;
      if now < deadline {
        var draining := h.(drainDeadline := Some(deadline), state := Draining, lastError := "");
        Touched(cfg, s.ledger, h, draining);
        PutKeepsInv(cfg, s, draining);
      } else {
        PresentInHandle(cfg, s, stream);
        DrainKeepsInv(cfg, s, h);
      }
    }
  }

  lemma Touched(cfg: Config, ledger: seq<Start>, h: Handle, after: Handle)
    requires Sound(cfg, ledger, h.stream.id, h)
    requires after == h.(gate := after.gate, cancel := after.cancel, state := after.state, lastError := after.lastError,
                         drainDeadline := after.drainDeadline)
    requires h.collector.Some? ==> after.gate == h.gate && after.cancel == h.cancel
    requires h.collector.Some? ==> after.state in {h.state, Draining}
    requires h.collector.None? ==> after.gate in {h.gate, None} && after.cancel in {h.cancel, None}
    requires h.collector.None? ==> after.state in {h.state, Stopped, Errored}
    ensures Sound(cfg, ledger, h.stream.id, after)
  {
    hide VersionsOk;
    assert VersionsOk(ledger, h.stream.id, after) by {
      SameVersions(ledger, h, after);
    }
  }

  lemma SameVersions(ledger: seq<Start>, h: Handle, after: Handle)
    requires VersionsOk(ledger, h.stream.id, h) && after.version == h.version && after.born == h.born
    ensures VersionsOk(ledger, h.stream.id, after)
  {
  }

  // A present collector is never in a state the keep branch would repair.
  lemma KeptRunningSound(cfg: Config, ledger: seq<Start>, h: Handle)
    requires Sound(cfg, ledger, h.stream.id, h) && h.collector.Some?
    ensures KeepRunning(h) == h
  {
    hide VersionsOk;
  }

  lemma PresentInHandle(cfg: Config, s: System, stream: Stream)
    requires Inv(cfg, s) && Observed(cfg, s, stream).collector.Some?
    ensures stream.id in s.managed && s.managed[stream.id].collector == Observed(cfg, s, stream).collector
  {
    hide Inv;
  }

  // ----- Dropping handles -----

  lemma DroppedAreCurrent(cfg: Config, s: System, seen: set<int>, c: nat)
    requires Inv(cfg, s)
    ensures c in Dropped(s, seen) <==> c < |s.ledger| && s.ledger[c].fate == Current && s.ledger[c].stream !in seen
    ensures c in Dropped(s, seen) ==>
              s.ledger[c].stream in s.managed && s.managed[s.ledger[c].stream].collector == Some(c)
  {
    hide VersionsOk, StopsOk;
    if c in Dropped(s, seen) {
      var id :| id in s.managed && id !in seen && s.managed[id].collector == Some(c);
      assert HandleOk(cfg, s.ledger, id, s.managed[id]);
    }
  }

  lemma {:induction false} StopMissingKeepsLedger(s: System, seen: set<int>)
    requires LedgerOk(s) && StopsOk(s) && s.stopping == {}
    requires forall c: nat :: c in Dropped(s, seen) <==>
              c < |s.ledger| && s.ledger[c].fate == Current && s.ledger[c].stream !in seen
    ensures LedgerOk(StopMissingStreams(s, seen)) && StopsOk(StopMissingStreams(s, seen))
  {
    hide Dropped;
    var t := StopMissingStreams(s, seen);
    assert forall d :: 0 <= d < |s.ledger| ==>
        t.ledger[d] == if d in Dropped(s, seen) then s.ledger[d].(fate := Retired) else s.ledger[d];
  }

  lemma {:induction false} StopMissingKeepsInv(cfg: Config, s: System, seen: set<int>)
    requires Inv(cfg, s) && s.stopping == {}
    ensures Inv(cfg, StopMissingStreams(s, seen))
  {
    var t := StopMissingStreams(s, seen);
    forall c: nat
      ensures c in Dropped(s, seen) <==> c < |s.ledger| && s.ledger[c].fate == Current && s.ledger[c].stream !in seen
    {
      DroppedAreCurrent(cfg, s, seen, c);
    }
    StopMissingKeepsLedger(s, seen);
    hide HandleOk, VersionsOk, Dropped, Settle, LedgerOk, StopsOk;
    forall id | id in t.managed ensures Sound(cfg, t.ledger, id, t.managed[id]) {
      OtherSettled(cfg, s.ledger, Dropped(s, seen), Retired, id, s.managed[id]);
    }
  }

  lemma {:induction false} ShutdownKeepsLedger(s: System)
    requires LedgerOk(s) && StopsOk(s)
    requires forall c: nat :: c in Dropped(s, {}) <==> c < |s.ledger| && s.ledger[c].fate == Current
    ensures LedgerOk(ShutdownAll(s)) && StopsOk(ShutdownAll(s))
  {
    hide Dropped;
    var t := ShutdownAll(s);
    assert forall d :: 0 <= d < |s.ledger| ==>
        t.ledger[d] == if d in Dropped(s, {}) then s.ledger[d].(fate := Retired) else s.ledger[d];
  }

  lemma {:induction false} ShutdownKeepsInv(cfg: Config, s: System)
    requires Inv(cfg, s)
    ensures Inv(cfg, ShutdownAll(s))
  {
    forall c: nat ensures c in Dropped(s, {}) <==> c < |s.ledger| && s.ledger[c].fate == Current {
      DroppedAreCurrent(cfg, s, {}, c);
    }
    hide HandleOk, VersionsOk, Dropped, LedgerOk, StopsOk;
    ShutdownKeepsLedger(s);
  }

  // ----- Callbacks and exits -----

  lemma {:induction false} StoredKeepsInv(cfg: Config, s: System, c: nat, at: Time)
    requires Inv(cfg, s) && c < |s.ledger|
    ensures Inv(cfg, RecordStored(cfg, s, c, at))
  {
    if Answers(s, c) {
      var id := s.ledger[c].stream;
      var warning := Warning(cfg, s.managed[id].stream);
      var h := s.managed[id].(lastDataAt := Some(at), state := Running, lastError := warning);
      PutKeepsInv(cfg, s, h);
    }
  }

  lemma {:induction false} ReturnKeepsInv(cfg: Config, s: System, c: nat)
    requires Inv(cfg, s) && c < |s.ledger|
    ensures Inv(cfg, RunReturned(s, c))
  {
    hide HandleOk, VersionsOk;
  }

  // An exit that finds its version and a collector in the handle finds itself, unless
  // the handle was created after it.
  lemma {:induction false} ExitFindsItself(cfg: Config, s: System, c: nat)
    requires Inv(cfg, s) && c < |s.ledger| && Answers(s, c) && s.managed[s.ledger[c].stream].collector.Some?
    ensures s.managed[s.ledger[c].stream].collector == Some(c) <==> s.managed[s.ledger[c].stream].born <= c
  {
    var id := s.ledger[c].stream;
    assert HandleOk(cfg, s.ledger, id, s.managed[id]) && VersionsOk(s.ledger, id, s.managed[id]);
  }

  lemma {:induction false} ExitedSound(cfg: Config, ledger: seq<Start>, h: Handle, d: nat, fate: Fate)
    requires Sound(cfg, ledger, h.stream.id, h) && h.collector == Some(d) && fate != Retired
    ensures Sound(cfg, Settle(ledger, {d}, fate), h.stream.id,
                  h.(collector := None, cancel := None, gate := None, state := Errored,
                      lastError := EXITED_UNEXPECTEDLY))
  {
    var after := Settle(ledger, {d}, fate);
    assert forall c :: 0 <= c < |ledger| ==>
        after[c].stream == ledger[c].stream && after[c].version == ledger[c].version;
  }

  lemma {:induction false} ExitKeepsLedger(s: System, c: nat, d: nat)
    requires LedgerOk(s) && StopsOk(s)
    requires c < |s.ledger| && c in s.leaving && Answers(s, c)
    requires s.managed[s.ledger[c].stream].collector == Some(d)
    requires d < |s.ledger| && s.ledger[d].fate == Current && s.ledger[d].stream == s.ledger[c].stream
    ensures LedgerOk(CollectorExited(s, c)) && StopsOk(CollectorExited(s, c))
  {
    var t := CollectorExited(s, c);
    assert forall x :: 0 <= x < |s.ledger| ==>
      t.ledger[x] == if x == d then s.ledger[x].(fate := if d == c then Exited else Lost) else s.ledger[x];
  }

  lemma {:induction false} ExitKeepsInv(cfg: Config, s: System, c: nat)
    requires Inv(cfg, s) && c < |s.ledger| && c in s.leaving
    ensures Inv(cfg, CollectorExited(s, c))
  {
    var t := CollectorExited(s, c);
    if !Answers(s, c) || s.managed[s.ledger[c].stream].collector.None? {
      hide HandleOk, VersionsOk;
    } else {
      var id := s.ledger[c].stream;
      var h := s.managed[id];
      var d := h.collector.value;
      var fate := if d == c then Exited else Lost;
      assert HandleOk(cfg, s.ledger, id, h);
      ExitedSound(cfg, s.ledger, h, d, fate);
      ExitKeepsLedger(s, c, d);
      hide HandleOk, VersionsOk, LedgerOk, StopsOk, Settle;
      forall other | other in t.managed ensures Sound(cfg, t.ledger, other, t.managed[other]) {
        if other != id {
          OtherSettled(cfg, s.ledger, {d}, fate, other, s.managed[other]);
        }
      }
    }
  }

  lemma {:induction false} FinishStopsKeepsInv(cfg: Config, s: System)
    requires Inv(cfg, s)
    ensures Inv(cfg, FinishStopping(s))
  {
    hide HandleOk, VersionsOk;
  }

  lemma {:induction false} FinishShutdownKeepsInv(cfg: Config, s: System, who: set<nat>)
    requires Inv(cfg, s) && who <= s.closing
    ensures Inv(cfg, FinishClosing(s, who))
  {
    hide HandleOk, VersionsOk;
  }

  lemma {:induction false} CancelRunKeepsInv(cfg: Config, s: System)
    requires Inv(cfg, s)
    ensures Inv(cfg, s.(runDone := true))
  {
    hide HandleOk, VersionsOk;
  }

  lemma {:induction false} StepKeepsInv(cfg: Config, s: System, e: Event)
    requires Inv(cfg, s) && Enabled(s, e)
    ensures Inv(cfg, Step(cfg, s, e))
  {
    hide Inv;
    match e
    case Reconcile(now, stream, factoryError) => ReconcileKeepsInv(cfg, s, now, stream, factoryError);
    case StopMissing(seen) => StopMissingKeepsInv(cfg, s, seen);
    case Store(c, at) => StoredKeepsInv(cfg, s, c, at);
    case Return(c) => ReturnKeepsInv(cfg, s, c);
    case Exit(c) => ExitKeepsInv(cfg, s, c);
    case Shutdown => ShutdownKeepsInv(cfg, s);
    case FinishStops => FinishStopsKeepsInv(cfg, s);
    case CancelRun => CancelRunKeepsInv(cfg, s);
    case FinishShutdown(who) => FinishShutdownKeepsInv(cfg, s, who);
  }

  lemma {:induction false} RunKeepsInv(cfg: Config, s: System, events: seq<Event>)
    requires Inv(cfg, s) && After(cfg, s, events).Some?
    ensures Inv(cfg, After(cfg, s, events).value)
  {
    if events != [] {
      hide Inv, Step, Enabled;
      var n := |events| - 1;
      RunKeepsInv(cfg, s, events[..n]);
      StepKeepsInv(cfg, After(cfg, s, events[..n]).value, events[n]);
    }
  }
}
