/** The main results about the reconcile runtime, over whole runs. */
module ReconcileTheorems {
  import opened Wrappers
  import opened Calendar
  import opened ReconcileModel
  import opened Reconcile

  lemma {:induction false} ReachableInv(cfg: Config, events: seq<Event>)
    requires After(cfg, INITIAL, events).Some?
    ensures Inv(cfg, After(cfg, INITIAL, events).value)
  {
    hide Inv;
    InitialInv(cfg);
    RunKeepsInv(cfg, INITIAL, events);
  }

  lemma AfterSnoc(cfg: Config, s: System, events: seq<Event>, e: Event)
    requires After(cfg, s, events).Some? && Enabled(After(cfg, s, events).value, e)
    ensures After(cfg, s, events + [e]) == Some(Step(cfg, After(cfg, s, events).value, e))
  {
    hide Enabled, Step;
    assert (events + [e])[..|events|] == events;
  }

  // ----- One collector per stream -----

  // A collector that runs with a context nobody has cancelled.
  predicate Live(s: System, c: nat) {
    c < |s.ledger| && !ContextDone(s, c) && c !in s.returned
  }

  predicate NoneLost(s: System) {
    forall c :: 0 <= c < |s.ledger| ==> s.ledger[c].fate != Lost
  }

  ghost predicate OneLive(s: System) {
    forall c: nat, d: nat :: Live(s, c) && Live(s, d) && s.ledger[c].stream == s.ledger[d].stream ==> c == d
  }

  // An exit whose context was not done takes the mutex and finds, under its stream, a
  // handle created after it that has reached its version and holds a collector.
  predicate Steals(s: System, e: Event) {
    && e.Exit? && e.collector < |s.ledger| && Answers(s, e.collector)
    && var h := s.managed[s.ledger[e.collector].stream];
       h.collector.Some? && e.collector < h.born
  }

  predicate NeverSteals(cfg: Config, s: System, events: seq<Event>)
    requires After(cfg, s, events).Some?
    decreases |events|
  {
    events == [] ||
    var n := |events| - 1;
    NeverSteals(cfg, s, events[..n]) && !Steals(After(cfg, s, events[..n]).value, events[n])
  }

  // In every state of a run no collector is lost and no stream has two live ones.
  ghost predicate AlwaysOneLive(cfg: Config, s: System, events: seq<Event>)
    requires After(cfg, s, events).Some?
    decreases |events|
  {
    && NoneLost(After(cfg, s, events).value) && OneLive(After(cfg, s, events).value)
    && (events == [] || AlwaysOneLive(cfg, s, events[..|events| - 1]))
  }

  // Only what a handle holds is settled, and a collector is lost only by a steal.
  lemma {:induction false} LostByStealing(cfg: Config, s: System, e: Event)
    requires Inv(cfg, s) && Enabled(s, e)
    ensures NoneLost(Step(cfg, s, e)) <==> NoneLost(s) && !Steals(s, e)
  {
    hide Inv, NoneLost;
    match e
    case Reconcile(now, stream, factoryError) => ObserveKeepsLost(cfg, s, e);
    case StopMissing(seen) => DropKeepsLost(cfg, s, seen);
    case Exit(c) => ExitLoses(cfg, s, c);
    case Shutdown => DropKeepsLost(cfg, s, {});
    case _ => SameLedgerSameLost(s, Step(cfg, s, e));
  }

  lemma SameLedgerSameLost(s: System, t: System)
    requires t.ledger == s.ledger
    ensures NoneLost(t) <==> NoneLost(s)
  {
  }

  lemma {:induction false} SettledLost(ledger: seq<Start>, who: set<nat>, fate: Fate)
    requires forall c :: c in who && c < |ledger| ==> ledger[c].fate == Current
    requires fate != Lost
    ensures (forall c :: 0 <= c < |ledger| ==> Settle(ledger, who, fate)[c].fate != Lost)
       <==> (forall c :: 0 <= c < |ledger| ==> ledger[c].fate != Lost)
  {
    var after := Settle(ledger, who, fate);
    assert forall c :: 0 <= c < |ledger| ==> (after[c].fate == Lost <==> ledger[c].fate == Lost);
  }

  lemma {:induction false} ObserveKeepsLost(cfg: Config, s: System, e: Event)
    requires Inv(cfg, s) && Enabled(s, e) && e.Reconcile?
    ensures NoneLost(Step(cfg, s, e)) <==> NoneLost(s)
  {
    ObserveOnHandle(cfg, s, e);
    var id, t := e.stream.id, Step(cfg, s, e);
    if ShouldRun(e.stream) {
      ObserveStarts(cfg, s, e);
    } else if id in s.managed && s.managed[id].collector.Some? {
      assert HandleOk(cfg, s.ledger, id, s.managed[id]);
      SettledLost(s.ledger, {s.managed[id].collector.value}, Retired);
    }
    hide Inv, Step, Enabled, Settle;
  }

  lemma {:induction false} DropKeepsLost(cfg: Config, s: System, seen: set<int>)
    requires Inv(cfg, s)
    ensures NoneLost(StopMissingStreams(s, seen)) <==> NoneLost(s)
    ensures seen == {} ==> (NoneLost(ShutdownAll(s)) <==> NoneLost(s))
  {
    hide Inv;
    forall c | c in Dropped(s, seen) ensures c < |s.ledger| && s.ledger[c].fate == Current {
      DroppedAreCurrent(cfg, s, seen, c);
    }
    hide Dropped;
    SettledLost(s.ledger, Dropped(s, seen), Retired);
  }

  lemma {:induction false} ExitLoses(cfg: Config, s: System, c: nat)
    requires Inv(cfg, s) && c < |s.ledger| && c in s.leaving
    ensures NoneLost(CollectorExited(s, c)) <==> NoneLost(s) && !Steals(s, Exit(c))
  {
    if Answers(s, c) && s.managed[s.ledger[c].stream].collector.Some? {
      var id := s.ledger[c].stream;
      var d := s.managed[id].collector.value;
      ExitFindsItself(cfg, s, c);
      assert HandleOk(cfg, s.ledger, id, s.managed[id]);
      hide Inv;
      var t := CollectorExited(s, c);
      assert forall x :: 0 <= x < |s.ledger| && x != d ==> t.ledger[x] == s.ledger[x];
      assert t.ledger[d].fate == if d == c then Exited else Lost;
    }
  }

  // No collector is lost if and only if no exit of the run stole one.
  lemma {:induction false} LostExactly(cfg: Config, events: seq<Event>)
    requires After(cfg, INITIAL, events).Some?
    ensures NoneLost(After(cfg, INITIAL, events).value) <==> NeverSteals(cfg, INITIAL, events)
    decreases |events|
  {
    if events != [] {
      hide Inv, Step, Enabled, NoneLost, Steals;
      var n := |events| - 1;
      LostExactly(cfg, events[..n]);
      ReachableInv(cfg, events[..n]);
      LostByStealing(cfg, After(cfg, INITIAL, events[..n]).value, events[n]);
    }
  }

  // A listing is about to start a collector for its stream.
  predicate StartsOne(s: System, e: Event) {
    && e.Reconcile? && (e.stream.desiredState == "running" || e.stream.activeLeaseCount > 0) && e.factoryError.None?
    && (e.stream.id in s.managed ==> s.managed[e.stream.id].collector.None?)
  }

  // It does so while one that a shutdown took out is still live.
  predicate Overlaps(s: System, e: Event) {
    StartsOne(s, e) && exists c :: c in s.closing && Live(s, c) && s.ledger[c].stream == e.stream.id
  }

  predicate NeverOverlaps(cfg: Config, s: System, events: seq<Event>)
    requires After(cfg, s, events).Some?
    decreases |events|
  {
    events == [] ||
    var n := |events| - 1;
    NeverOverlaps(cfg, s, events[..n]) && !Overlaps(After(cfg, s, events[..n]).value, events[n])
  }

  // Only a start makes a collector live.
  lemma {:induction false} StepOnLiveness(cfg: Config, s: System, e: Event)
    requires Inv(cfg, s) && Enabled(s, e)
    ensures var t := Step(cfg, s, e);
            && s.cancelled <= t.cancelled && s.returned <= t.returned && (s.runDone ==> t.runDone)
            && (!StartsOne(s, e) ==> |t.ledger| == |s.ledger|)
            && (StartsOne(s, e) ==>
                  && |t.ledger| == |s.ledger| + 1 && t.ledger[|s.ledger|].stream == e.stream.id
                  && t.cancelled == s.cancelled && t.returned == s.returned && t.runDone == s.runDone)
  {
    hide Inv;
    if e.Reconcile? {
      ObserveOnLiveness(cfg, s, e);
    } else {
      hide ReconcileStream;
    }
  }

  lemma {:induction false} ObserveOnLiveness(cfg: Config, s: System, e: Event)
    requires Enabled(s, e) && e.Reconcile?
    ensures var t := Step(cfg, s, e);
            && t.cancelled == s.cancelled && t.returned == s.returned && t.runDone == s.runDone
            && |t.ledger| == |s.ledger| + (if StartsOne(s, e) then 1 else 0)
            && (StartsOne(s, e) ==> t.ledger[|s.ledger|].stream == e.stream.id)
  {
  }

  lemma {:induction false} NoStartKeepsOneLive(cfg: Config, s: System, e: Event)
    requires Inv(cfg, s) && Enabled(s, e) && OneLive(s) && !StartsOne(s, e)
    ensures OneLive(Step(cfg, s, e))
  {
    StepOnLiveness(cfg, s, e);
    StepOnHandle(cfg, s, e, 0);
    hide Inv, Step, Enabled, StartsOne, HandleKept;
    forall c: nat | Live(Step(cfg, s, e), c) ensures Live(s, c) {
    }
  }

  // With none lost, a start overlaps exactly the live collectors of its stream that a
  // shutdown took out: the stream has no other.
  lemma {:induction false} LiveBeforeStart(cfg: Config, s: System, e: Event, c: nat)
    requires Inv(cfg, s) && Enabled(s, e) && NoneLost(s) && StartsOne(s, e)
    requires Live(s, c) && s.ledger[c].stream == e.stream.id
    ensures c in s.closing
  {
    hide HandleOk, VersionsOk, ShouldRun;
  }

  lemma {:induction false} NewIsLive(cfg: Config, s: System, e: Event)
    requires Inv(cfg, s) && Enabled(s, e) && StartsOne(s, e) && !s.runDone
    ensures Live(Step(cfg, s, e), |s.ledger|)
  {
    StepOnLiveness(cfg, s, e);
    assert |s.ledger| !in s.cancelled && |s.ledger| !in s.returned by {
      hide HandleOk, VersionsOk, LedgerOk;
    }
    hide Inv, Step, StartsOne;
  }

  lemma {:induction false} StartKeepsOneLive(cfg: Config, s: System, e: Event)
    requires Inv(cfg, s) && Enabled(s, e) && NoneLost(s) && OneLive(s) && StartsOne(s, e)
    ensures OneLive(Step(cfg, s, e)) <==> !Overlaps(s, e)
  {
    var t, d := Step(cfg, s, e), |s.ledger|;
    StepOnLiveness(cfg, s, e);
    StepOnHandle(cfg, s, e, 0);
    if Overlaps(s, e) {
      var c :| c in s.closing && Live(s, c) && s.ledger[c].stream == e.stream.id;
      NewIsLive(cfg, s, e);
      hide Inv, Step, Enabled, StartsOne;
      assert Live(t, c) && Live(t, d);
    } else {
      forall c: nat | Live(s, c) ensures s.ledger[c].stream != e.stream.id {
        if s.ledger[c].stream == e.stream.id {
          LiveBeforeStart(cfg, s, e, c);
        }
      }
      hide Inv, Step, Enabled, StartsOne, HandleKept;
      forall c: nat | Live(t, c) ensures c == d || Live(s, c) {
      }
    }
  }

  lemma {:induction false} OneLiveStep(cfg: Config, s: System, e: Event)
    requires Inv(cfg, s) && Enabled(s, e) && NoneLost(s) && OneLive(s)
    ensures NoneLost(Step(cfg, s, e)) && OneLive(Step(cfg, s, e)) <==> !Steals(s, e) && !Overlaps(s, e)
  {
    LostByStealing(cfg, s, e);
    hide Inv, Step, Enabled, NoneLost, OneLive, ShouldRun;
    if StartsOne(s, e) {
      StartKeepsOneLive(cfg, s, e);
    } else {
      NoStartKeepsOneLive(cfg, s, e);
    }
  }

  // Over every interleaving, with context checks and the stops of a shutdown apart
  // from the critical sections: no collector is ever lost and no stream ever has two
  // live ones if and only if no exit steals a collector, and no listing starts one
  // while another of its stream that a shutdown took out is still live.
  lemma {:induction false} OneLiveExactly(cfg: Config, events: seq<Event>)
    requires After(cfg, INITIAL, events).Some?
    ensures AlwaysOneLive(cfg, INITIAL, events) <==>
            NeverSteals(cfg, INITIAL, events) && NeverOverlaps(cfg, INITIAL, events)
    decreases |events|
  {
    hide Inv, Step, Enabled, Steals, Overlaps;
    if events != [] {
      hide NoneLost, OneLive;
      var n := |events| - 1;
      OneLiveExactly(cfg, events[..n]);
      ReachableInv(cfg, events[..n]);
      if AlwaysOneLive(cfg, INITIAL, events[..n]) {
        OneLiveStep(cfg, After(cfg, INITIAL, events[..n]).value, events[n]);
      }
    }
  }

  // Of the first n starts, those of a stream with a fate.
  function Count(ledger: seq<Start>, n: nat, id: int, fate: Fate): nat
    requires n <= |ledger|
  {
    if n == 0 then 0
    else Count(ledger, n - 1, id, fate) + if ledger[n - 1].stream == id && ledger[n - 1].fate == fate then 1 else 0
  }

  function Starts(ledger: seq<Start>, n: nat, id: int): nat
    requires n <= |ledger|
  {
    if n == 0 then 0 else Starts(ledger, n - 1, id) + if ledger[n - 1].stream == id then 1 else 0
  }

  lemma {:induction false} EveryStartHasAFate(ledger: seq<Start>, n: nat, id: int)
    requires n <= |ledger|
    ensures Starts(ledger, n, id) ==
            Count(ledger, n, id, Current) + Count(ledger, n, id, Exited) + Count(ledger, n, id, Retired) +
                Count(ledger, n, id, Lost)
  {
    if n > 0 {
      EveryStartHasAFate(ledger, n - 1, id);
    }
  }

  lemma {:induction false} CountNone(ledger: seq<Start>, n: nat, id: int, fate: Fate)
    requires n <= |ledger|
    requires forall c :: 0 <= c < n && ledger[c].stream == id ==> ledger[c].fate != fate
    ensures Count(ledger, n, id, fate) == 0
  {
    if n > 0 {
      CountNone(ledger, n - 1, id, fate);
    }
  }

  lemma {:induction false} CountOne(ledger: seq<Start>, n: nat, id: int, fate: Fate, only: nat)
    requires only < n <= |ledger|
    requires forall c :: 0 <= c < n && ledger[c].stream == id ==> (ledger[c].fate == fate <==> c == only)
    requires ledger[only].stream == id && ledger[only].fate == fate
    ensures Count(ledger, n, id, fate) == 1
  {
    if only == n - 1 {
      CountNone(ledger, n - 1, id, fate);
    } else {
      CountOne(ledger, n - 1, id, fate, only);
    }
  }

  // Every collector ever started for a stream exited by itself, was handed over for
  // cancel and Stop, was taken out by another one's exit, or is the one in the
  // stream's handle; and none was taken out so if no exit stole.
  lemma {:induction false} StartsAccountedFor(cfg: Config, events: seq<Event>, id: int)
    requires After(cfg, INITIAL, events).Some?
    ensures var s := After(cfg, INITIAL, events).value;
            var n := |s.ledger|;
            && Starts(s.ledger, n, id) ==
                Count(s.ledger, n, id, Exited) + Count(s.ledger, n, id, Retired) + Count(s.ledger, n, id, Lost)
                                          + (if id in s.managed && s.managed[id].collector.Some? then 1 else 0)
            && (NeverSteals(cfg, INITIAL, events) ==> Count(s.ledger, n, id, Lost) == 0)
  {
    ReachableInv(cfg, events);
    LostExactly(cfg, events);
    var s := After(cfg, INITIAL, events).value;
    var n := |s.ledger|;
    hide After, NeverSteals;
    EveryStartHasAFate(s.ledger, n, id);
    if NoneLost(s) {
      CountNone(s.ledger, n, id, Lost);
    }
    if id in s.managed && s.managed[id].collector.Some? {
      assert HandleOk(cfg, s.ledger, id, s.managed[id]);
      CountOne(s.ledger, n, id, Current, s.managed[id].collector.value);
    } else {
      CountNone(s.ledger, n, id, Current);
    }
  }

  // ----- What an observation leads to -----

  const NO_PUBLISHER := "effective_live_delivery requested but market-data kafka publisher is unavailable"

  // A stream listed as running or leased has a collector and no deadline after the
  // observation, unless the factory failed: the one it had, or a new one that is
  // starting, publishes if it is to deliver live and a publisher exists, and carries a
  // warning if one is missing.
  lemma {:induction false} WantedOutcome(cfg: Config, events: seq<Event>, e: Event)
    requires After(cfg, INITIAL, events).Some? && e.Reconcile? && Enabled(After(cfg, INITIAL, events).value, e)
    requires e.stream.desiredState == "running" || e.stream.activeLeaseCount > 0
    ensures var s := After(cfg, INITIAL, events).value;
            var id, t, live := e.stream.id, Step(cfg, s, e), e.stream.effectiveLiveDelivery;
            && id in t.managed && t.managed == s.managed[id := t.managed[id]] && t.stopping == {}
            && var h := t.managed[id];
               && h.stream == e.stream && h.drainDeadline == None
               && if id in s.managed && s.managed[id].collector.Some? then
                 && t.ledger == s.ledger
                 && h == s.managed[id].(stream := e.stream, gate := Some(live && cfg.hasPublisher),
                      drainDeadline := None)
               else
                 && h.version == (if id in s.managed then s.managed[id].version else 0)
                                 + (if e.factoryError.None? then 1 else 0)
                 && h.lastDataAt == (if id in s.managed then s.managed[id].lastDataAt else None)
                 && if e.factoryError.Some? then
                   && h.collector == None && h.gate == None && h.state == Errored
                   && h.lastError == e.factoryError.value && t.ledger == s.ledger
                 else
                   && h.collector == Some(|s.ledger|) && h.gate == Some(live && cfg.hasPublisher)
                   && h.state == Starting && h.lastError == (if live && !cfg.hasPublisher then NO_PUBLISHER else "")
                   && t.ledger == s.ledger + [Start(id, h.version, Current)]
  {
    ReachableInv(cfg, events);
    hide After;
    var s := After(cfg, INITIAL, events).value;
    if e.stream.id in s.managed {
      assert HandleOk(cfg, s.ledger, e.stream.id, s.managed[e.stream.id]);
    }
    hide Inv, HandleOk;
  }

  // A stream neither listed as running nor leased never starts a collector. With one
  // it drains until a deadline, kept or set to grace from now; at the deadline the
  // collector is handed over to be stopped.
  lemma {:induction false} DrainingOutcome(cfg: Config, events: seq<Event>, e: Event)
    requires After(cfg, INITIAL, events).Some? && e.Reconcile? && Enabled(After(cfg, INITIAL, events).value, e)
    requires e.stream.desiredState != "running" && e.stream.activeLeaseCount <= 0
    requires var s := After(cfg, INITIAL, events).value;
             e.stream.id in s.managed && s.managed[e.stream.id].collector.Some?
    ensures var s := After(cfg, INITIAL, events).value;
            var id, t, was := e.stream.id, Step(cfg, s, e), s.managed[e.stream.id];
            var c := was.collector.value;
            var deadline := if was.drainDeadline.Some? then was.drainDeadline.value else e.now + cfg.grace;
            && c < |s.ledger|
            && if e.now < deadline then
              && t.ledger == s.ledger && t.stopping == {}
              && t.managed == s.managed[id := was.(stream := e.stream, state := Draining, lastError := "",
                   drainDeadline := Some(deadline), gate := Some(e.stream.effectiveLiveDelivery && cfg.hasPublisher))]
            else
              && t.ledger == s.ledger[c := Start(id, was.version, Retired)] && t.stopping == {c}
              && t.managed == s.managed[id := was.(stream := e.stream, state := Stopped, lastError := "",
                   drainDeadline := None, gate := None, collector := None, cancel := None, version := was.version + 1)]
  {
    hide Inv, After, Settle, ReconcileStream;
    ReachableInv(cfg, events);
    var s := After(cfg, INITIAL, events).value;
    HeldFacts(cfg, s, e.stream.id);
    var was := s.managed[e.stream.id];
    if e.now < (if was.drainDeadline.Some? then was.drainDeadline.value else e.now + cfg.grace) {
      GoesOnDraining(cfg, s, e.now, e.stream, e.factoryError);
    } else {
      IsDrained(cfg, s, e.now, e.stream, e.factoryError);
      SettledOne(s.ledger, was.collector.value, Retired);
      assert {} + {was.collector.value} == {was.collector.value};
    }
  }

  lemma HeldFacts(cfg: Config, s: System, id: int)
    requires Inv(cfg, s) && id in s.managed && s.managed[id].collector.Some?
    ensures var c := s.managed[id].collector.value;
            c < |s.ledger| && s.ledger[c] == Start(id, s.managed[id].version, Current) && s.managed[id].gate.Some?
  {
    assert HandleOk(cfg, s.ledger, id, s.managed[id]);
  }

  lemma GoesOnDraining(cfg: Config, s: System, now: Time, stream: Stream, factoryError: Option<string>)
    requires stream.desiredState != "running" && stream.activeLeaseCount <= 0
    requires stream.id in s.managed && s.managed[stream.id].collector.Some? && s.managed[stream.id].gate.Some?
    requires var was := s.managed[stream.id].drainDeadline; now < if was.Some? then was.value else now + cfg.grace
    ensures var was := s.managed[stream.id];
            ReconcileStream(cfg, s, now, stream, factoryError)
            == s.(managed := s.managed[stream.id := was.(stream := stream, state := Draining, lastError := "",
                    drainDeadline := Some(if was.drainDeadline.Some? then was.drainDeadline.value else now + cfg.grace),
                    gate := Some(stream.effectiveLiveDelivery && cfg.hasPublisher))])
  {
  }

  lemma IsDrained(cfg: Config, s: System, now: Time, stream: Stream, factoryError: Option<string>)
    requires stream.desiredState != "running" && stream.activeLeaseCount <= 0
    requires stream.id in s.managed && s.managed[stream.id].collector.Some?
    requires var was := s.managed[stream.id].drainDeadline; now >= if was.Some? then was.value else now + cfg.grace
    ensures var was := s.managed[stream.id];
            ReconcileStream(cfg, s, now, stream, factoryError)
            == s.(managed := s.managed[stream.id := was.(stream := stream, state := Stopped, lastError := "",
                    drainDeadline := None, gate := None, collector := None, cancel := None,
                    version := was.version + 1)],
                  ledger := Settle(s.ledger, {was.collector.value}, Retired),
                  stopping := s.stopping + {was.collector.value})
  {
    hide Settle;
  }

  lemma SettledOne(ledger: seq<Start>, c: nat, fate: Fate)
    requires c < |ledger|
    ensures Settle(ledger, {c}, fate) == ledger[c := ledger[c].(fate := fate)]
  {
  }

  // With none it is stopped.
  lemma {:induction false} RestingOutcome(cfg: Config, events: seq<Event>, e: Event)
    requires After(cfg, INITIAL, events).Some? && e.Reconcile? && Enabled(After(cfg, INITIAL, events).value, e)
    requires e.stream.desiredState != "running" && e.stream.activeLeaseCount <= 0
    requires var s := After(cfg, INITIAL, events).value;
             e.stream.id in s.managed ==> s.managed[e.stream.id].collector.None?
    ensures var s := After(cfg, INITIAL, events).value;
            var id, t := e.stream.id, Step(cfg, s, e);
            && id in t.managed && t == s.(managed := s.managed[id := t.managed[id]])
            && var h := t.managed[id];
               && h.stream == e.stream && h.collector == None && h.gate == None
               && h.state == Stopped && h.lastError == "" && h.drainDeadline == None
               && h.version == (if id in s.managed then s.managed[id].version else 0)
               && h.lastDataAt == (if id in s.managed then s.managed[id].lastDataAt else None)
  {
    ReachableInv(cfg, events);
    hide After;
    var s := After(cfg, INITIAL, events).value;
    if e.stream.id in s.managed {
      assert HandleOk(cfg, s.ledger, e.stream.id, s.managed[e.stream.id]);
    }
    hide Inv, HandleOk;
  }

  // A stored bar of a collector whose version is its handle's makes the stream run
  // with that bar's time as its last, however often; any other changes nothing.
  lemma {:induction false} StoredOutcome(cfg: Config, events: seq<Event>, c: nat, at: Time)
    requires After(cfg, INITIAL, events).Some? && Enabled(After(cfg, INITIAL, events).value, Store(c, at))
    ensures var s := After(cfg, INITIAL, events).value;
            var id, t := s.ledger[c].stream, Step(cfg, s, Store(c, at));
            if id in s.managed && s.managed[id].version == s.ledger[c].version then
              var live := s.managed[id].stream.effectiveLiveDelivery;
              t == s.(managed := s.managed[id := s.managed[id].(lastDataAt := Some(at), state := Running,
                lastError := if live && !cfg.hasPublisher then NO_PUBLISHER else "")])
            else t == s
  {
    ReachableInv(cfg, events);
    hide After;
    hide Inv;
  }

  // A collector that exits while its handle holds it, with no context done, leaves the
  // stream errored and without a collector or gate, and counts as exited.
  lemma {:induction false} ExitOutcome(cfg: Config, events: seq<Event>, c: nat, id: int)
    requires After(cfg, INITIAL, events).Some? && Enabled(After(cfg, INITIAL, events).value, Exit(c))
    requires var s := After(cfg, INITIAL, events).value;
             id in s.managed && s.managed[id].collector == Some(c)
    ensures var s := After(cfg, INITIAL, events).value;
            var t := Step(cfg, s, Exit(c));
            && t.managed == s.managed[id := s.managed[id].(collector := None, cancel := None, gate := None,
                state := Errored, lastError := "collector exited unexpectedly")]
            && t.ledger == s.ledger[c := Start(id, s.managed[id].version, Exited)]
  {
    ReachableInv(cfg, events);
    hide After;
    var s := After(cfg, INITIAL, events).value;
    assert HandleOk(cfg, s.ledger, id, s.managed[id]);
    hide Inv;
  }

  // ----- Draining -----

  predicate Observes(e: Event, id: int) {
    e.Reconcile? && e.stream.id == id
  }

  // Listed as running, or leased.
  predicate ObservesWanted(e: Event, id: int) {
    Observes(e, id) && (e.stream.desiredState == "running" || e.stream.activeLeaseCount > 0)
  }

  // Listed with another desired state and without a lease.
  predicate ObservesIdle(e: Event, id: int) {
    Observes(e, id) && e.stream.desiredState != "running" && e.stream.activeLeaseCount <= 0
  }

  predicate Removes(e: Event, id: int) {
    (e.StopMissing? && id !in e.seen) || e.Shutdown?
  }

  // The stream stays listed and is not seen wanted.
  predicate Unwanted(events: seq<Event>, id: int) {
    forall k :: 0 <= k < |events| ==> !ObservesWanted(events[k], id) && !Removes(events[k], id)
  }

  // From event m on, an unbroken series of idle observations, the first at m and
  // grace before the deadline.
  ghost predicate IdleSince(cfg: Config, events: seq<Event>, id: int, m: nat, deadline: Time) {
    && m < |events|
    && ObservesIdle(events[m], id) && events[m].now + cfg.grace == deadline
    && Unwanted(events[m..], id)
  }

  lemma IdleSinceExtends(cfg: Config, events: seq<Event>, id: int, m: nat, deadline: Time, e: Event)
    requires IdleSince(cfg, events, id, m, deadline)
    requires !ObservesWanted(e, id) && !Removes(e, id)
    ensures IdleSince(cfg, events + [e], id, m, deadline)
  {
    hide ObservesWanted, Removes, ObservesIdle;
    assert (events + [e])[m..] == events[m..] + [e];
  }

  // What one event can do to a stream's handle: removal, no change of identity, and
  // no change of deadline or version but by an observation.
  predicate HandleKept(s: System, t: System, e: Event, id: int) {
    && (Removes(e, id) ==> id !in t.managed)
    && (!Removes(e, id) && id in s.managed ==> id in t.managed && t.managed[id].born == s.managed[id].born
                                               && s.managed[id].version <= t.managed[id].version)
    && (id !in s.managed && id in t.managed ==> Observes(e, id))
    && (!Observes(e, id) && id in s.managed && id in t.managed ==>
          && t.managed[id].drainDeadline == s.managed[id].drainDeadline
          && t.managed[id].version == s.managed[id].version
          && t.managed[id].collector in {s.managed[id].collector, None})
  }

  predicate LedgerGrows(s: System, t: System) {
    && |s.ledger| <= |t.ledger|
    && forall c :: 0 <= c < |s.ledger| ==>
        t.ledger[c].stream == s.ledger[c].stream && t.ledger[c].version == s.ledger[c].version
  }

  lemma {:induction false} ReconcileOnHandle(cfg: Config, s: System, e: Event, id: int)
    requires Inv(cfg, s) && Enabled(s, e) && e.Reconcile?
    ensures HandleKept(s, Step(cfg, s, e), e, id) && LedgerGrows(s, Step(cfg, s, e))
  {
    hide Inv;
  }

  lemma {:induction false} StepOnHandle(cfg: Config, s: System, e: Event, id: int)
    requires Inv(cfg, s) && Enabled(s, e)
    ensures HandleKept(s, Step(cfg, s, e), e, id) && LedgerGrows(s, Step(cfg, s, e))
  {
    hide Inv;
    if e.Reconcile? {
      ReconcileOnHandle(cfg, s, e, id);
    } else {
      hide ReconcileStream;
    }
  }

  // What one observation does to its stream's handle.
  lemma {:induction false} ObserveOnHandle(cfg: Config, s: System, e: Event)
    requires Inv(cfg, s) && Enabled(s, e) && e.Reconcile?
    ensures var id, t := e.stream.id, Step(cfg, s, e);
            var was := if id in s.managed then s.managed[id] else NewHandle(e.stream, |s.ledger|);
            && id in t.managed
            && t.managed[id].stream == e.stream
            && (ShouldRun(e.stream) ==> t.managed[id].drainDeadline == None)
            && (!ShouldRun(e.stream) && was.collector == None ==>
                  t.managed[id].collector == None && t.managed[id].state == Stopped
                  && t.managed[id].drainDeadline == None
                  && t.managed[id].version == was.version && t.ledger == s.ledger)
            && (!ShouldRun(e.stream) && was.collector.Some? ==>
                  var deadline := if was.drainDeadline.Some? then was.drainDeadline.value else e.now + cfg.grace;
                  if e.now < deadline then
                    && t.managed[id].drainDeadline == Some(deadline) && t.managed[id].collector == was.collector
                    && t.managed[id].version == was.version && t.ledger == s.ledger
                  else
                    && t.managed[id].drainDeadline == None && t.managed[id].collector == None
                    && t.managed[id].state == Stopped
                    && t.managed[id].version == was.version + 1
                    && t.ledger == Settle(s.ledger, {was.collector.value}, Retired))
            && (ShouldRun(e.stream) ==>
                  forall c :: 0 <= c < |s.ledger| ==> t.ledger[c] == s.ledger[c])
  {
    hide Inv;
  }

  // A wanted observation starts a collector of the next version or none.
  lemma {:induction false} ObserveStarts(cfg: Config, s: System, e: Event)
    requires Enabled(s, e) && e.Reconcile? && ShouldRun(e.stream)
    ensures var id, t := e.stream.id, Step(cfg, s, e);
            var was := if id in s.managed then s.managed[id] else NewHandle(e.stream, |s.ledger|);
            && id in t.managed
            && ((t.ledger == s.ledger && t.managed[id].version == was.version && t.managed[id].born == was.born)
                || (t.ledger == s.ledger + [Start(id, was.version + 1, Current)]
                    && t.managed[id].version == was.version + 1
                    && t.managed[id].born == was.born))
  {
  }

  // A set deadline is grace after the first of an unbroken series of idle
  // observations that is still going on.
  lemma {:induction false} DeadlineHasSeries(cfg: Config, events: seq<Event>, id: int) returns (m: nat)
    requires After(cfg, INITIAL, events).Some?
    requires var s := After(cfg, INITIAL, events).value; id in s.managed && s.managed[id].drainDeadline.Some?
    ensures var s := After(cfg, INITIAL, events).value;
            IdleSince(cfg, events, id, m, s.managed[id].drainDeadline.value)
    decreases |events|
  {
    hide Inv, Step, Enabled, Observes, Removes, ObservesWanted, ObservesIdle;
    var n := |events| - 1;
    var before, e := events[..n], events[n];
    var s := After(cfg, INITIAL, before).value;
    ReachableInv(cfg, before);
    StepOnHandle(cfg, s, e, id);
    assert events == before + [e];
    EventKinds(e, id);
    if Observes(e, id) {
      ObserveOnHandle(cfg, s, e);
      if id in s.managed && s.managed[id].drainDeadline.Some? {
        m := DeadlineHasSeries(cfg, before, id);
        IdleSinceExtends(cfg, before, id, m, s.managed[id].drainDeadline.value, e);
      } else {
        m := n;
        assert events[n..] == [e];
      }
    } else {
      m := DeadlineHasSeries(cfg, before, id);
      IdleSinceExtends(cfg, before, id, m, s.managed[id].drainDeadline.value, e);
    }
  }

  lemma EventKinds(e: Event, id: int)
    ensures Observes(e, id) ==> e.Reconcile? && e.stream.id == id && !Removes(e, id)
    ensures ObservesWanted(e, id) <==> Observes(e, id) && ShouldRun(e.stream)
    ensures ObservesIdle(e, id) <==> Observes(e, id) && !ShouldRun(e.stream)
  {
  }

  // A listed stream's collector is taken out by an observation only at the end of
  // an unbroken series of idle observations, the first at least the grace period
  // before the last.
  lemma {:induction false} StoppedOnlyAfterGrace(cfg: Config, events: seq<Event>, e: Event, c: nat) returns (m: nat)
    requires After(cfg, INITIAL, events).Some? && e.Reconcile? && Enabled(After(cfg, INITIAL, events).value, e)
    requires var s := After(cfg, INITIAL, events).value;
             c < |s.ledger| && s.ledger[c].fate == Current
             && c < |Step(cfg, s, e).ledger| && Step(cfg, s, e).ledger[c].fate != Current
    ensures var s := After(cfg, INITIAL, events).value;
            && s.ledger[c].stream == e.stream.id && ObservesIdle(e, e.stream.id)
            && m <= |events|
            && ObservesIdle((events + [e])[m], e.stream.id)
            && Unwanted((events + [e])[m..], e.stream.id)
            && (events + [e])[m].now + cfg.grace <= e.now
  {
    hide Inv, Step, Enabled, After, Observes, Removes;
    var s, id := After(cfg, INITIAL, events).value, e.stream.id;
    ReachableInv(cfg, events);
    ObserveTakesOut(cfg, s, e, c);
    EventKinds(e, id);
    if s.managed[id].drainDeadline.Some? {
      m := DeadlineHasSeries(cfg, events, id);
      IdleSinceExtends(cfg, events, id, m, s.managed[id].drainDeadline.value, e);
    } else {
      m := |events|;
      assert (events + [e])[m..] == [e];
    }
  }

  lemma {:induction false} ObserveTakesOut(cfg: Config, s: System, e: Event, c: nat)
    requires Inv(cfg, s) && e.Reconcile? && Enabled(s, e)
    requires c < |s.ledger| && s.ledger[c].fate == Current && c < |Step(cfg, s, e).ledger|
    requires Step(cfg, s, e).ledger[c].fate != Current
    ensures s.ledger[c].stream == e.stream.id && ObservesIdle(e, e.stream.id) && e.stream.id in s.managed
    ensures var h := s.managed[e.stream.id];
            e.now >= if h.drainDeadline.Some? then h.drainDeadline.value else e.now + cfg.grace
  {
    ObserveOnHandle(cfg, s, e);
    CurrentIsHeld(cfg, s, c);
    hide Inv, Step, Enabled;
    HeldByItsStream(cfg, s, e.stream.id);
  }

  lemma CurrentIsHeld(cfg: Config, s: System, c: nat)
    requires Inv(cfg, s) && c < |s.ledger| && s.ledger[c].fate == Current
    ensures s.ledger[c].stream in s.managed && s.managed[s.ledger[c].stream].collector == Some(c)
  {
    hide HandleOk, VersionsOk;
  }

  lemma HeldByItsStream(cfg: Config, s: System, id: int)
    requires Inv(cfg, s) && id in s.managed && s.managed[id].collector.Some?
    ensures var c := s.managed[id].collector.value; c < |s.ledger| && s.ledger[c].stream == id
  {
    assert HandleOk(cfg, s.ledger, id, s.managed[id]);
  }

  lemma UnwantedParts(events: seq<Event>, id: int)
    requires Unwanted(events, id) && events != []
    ensures Unwanted(events[..|events| - 1], id)
    ensures !ObservesWanted(events[|events| - 1], id) && !Removes(events[|events| - 1], id)
  {
    hide ObservesWanted, Removes;
  }

  // While a stream stays listed and unwanted, a collector that still runs keeps the
  // deadline it was given.
  lemma {:induction false} DeadlineKept(cfg: Config, s: System, events: seq<Event>, id: int, deadline: Time)
    requires Inv(cfg, s) && After(cfg, s, events).Some? && Unwanted(events, id)
    requires id in s.managed && (s.managed[id].collector.Some? ==> s.managed[id].drainDeadline == Some(deadline))
    ensures var t := After(cfg, s, events).value;
            id in t.managed && (t.managed[id].collector.Some? ==> t.managed[id].drainDeadline == Some(deadline))
  {
    if events != [] {
      var n := |events| - 1;
      hide Inv, Step, Enabled, Observes, Removes, ObservesWanted, ObservesIdle, Unwanted;
      UnwantedParts(events, id);
      DeadlineKept(cfg, s, events[..n], id, deadline);
      var before := After(cfg, s, events[..n]).value;
      RunKeepsInv(cfg, s, events[..n]);
      StepOnHandle(cfg, before, events[n], id);
      EventKinds(events[n], id);
      if Observes(events[n], id) {
        ObserveOnHandle(cfg, before, events[n]);
      }
    }
  }

  // If a stream with a deadline stays listed and unwanted, the first observation at
  // or past the deadline leaves it stopped, whatever else happens in between.
  lemma {:induction false} StoppedAtDeadline(cfg: Config, s: System, events: seq<Event>, e: Event, id: int,
                                             deadline: Time)
    requires Inv(cfg, s) && After(cfg, s, events).Some? && Unwanted(events, id)
    requires id in s.managed && s.managed[id].drainDeadline == Some(deadline)
    requires ObservesIdle(e, id) && e.now >= deadline && Enabled(After(cfg, s, events).value, e)
    ensures var t := Step(cfg, After(cfg, s, events).value, e);
            && id in t.managed && t.managed[id].collector == None
            && t.managed[id].state == Stopped && t.managed[id].drainDeadline == None
  {
    hide Inv, Step, Enabled, After;
    DeadlineKept(cfg, s, events, id, deadline);
    RunKeepsInv(cfg, s, events);
    ObserveOnHandle(cfg, After(cfg, s, events).value, e);
  }

  // ----- Stale callbacks -----

  // A collector of the stream's present handle whose version has passed.
  predicate Outdated(s: System, c: nat) {
    && c < |s.ledger| && s.ledger[c].stream in s.managed
    && s.managed[s.ledger[c].stream].born <= c
    && s.ledger[c].version < s.managed[s.ledger[c].stream].version
  }

  lemma {:induction false} DrainedIsOutdated(cfg: Config, s: System, e: Event, c: nat)
    requires Inv(cfg, s) && e.Reconcile? && Enabled(s, e)
    requires c < |s.ledger| && s.ledger[c].fate == Current && Step(cfg, s, e).ledger[c].fate != Current
    ensures Outdated(Step(cfg, s, e), c)
  {
    ObserveOnHandle(cfg, s, e);
    StepOnHandle(cfg, s, e, e.stream.id);
    CurrentIsHeld(cfg, s, c);
    HeldByItsStream(cfg, s, e.stream.id);
    assert HandleOk(cfg, s.ledger, s.ledger[c].stream, s.managed[s.ledger[c].stream]);
    hide Inv, Step, Enabled;
  }

  // While its handle persists, an outdated collector stays outdated, and whatever it
  // reports, or its exit, changes no handle.
  lemma {:induction false} OutdatedIsHarmless(cfg: Config, s: System, events: seq<Event>, c: nat)
    requires Inv(cfg, s) && After(cfg, s, events).Some? && Outdated(s, c)
    requires forall k :: 0 <= k < |events| ==> !Removes(events[k], s.ledger[c].stream)
    ensures var t := After(cfg, s, events).value;
            && Outdated(t, c) && t.ledger[c].stream == s.ledger[c].stream
            && (forall at :: RecordStored(cfg, t, c, at) == t)
            && CollectorExited(t, c).managed == t.managed
  {
    if events != [] {
      hide Inv, Step, Enabled, Observes, Removes;
      var n := |events| - 1;
      OutdatedIsHarmless(cfg, s, events[..n], c);
      RunKeepsInv(cfg, s, events[..n]);
      StepOnHandle(cfg, After(cfg, s, events[..n]).value, events[n], s.ledger[c].stream);
    }
  }

  // The versions one handle hands out never repeat.
  lemma {:induction false} VersionsAreFresh(cfg: Config, events: seq<Event>, c: nat, d: nat)
    requires After(cfg, INITIAL, events).Some?
    requires var s := After(cfg, INITIAL, events).value;
             && c < d < |s.ledger| && s.ledger[c].stream == s.ledger[d].stream && s.ledger[c].stream in s.managed
             && s.managed[s.ledger[c].stream].born <= c
    ensures var s := After(cfg, INITIAL, events).value;
            s.ledger[c].version < s.ledger[d].version <= s.managed[s.ledger[d].stream].version
  {
    ReachableInv(cfg, events);
    var s := After(cfg, INITIAL, events).value;
    assert VersionsOk(s.ledger, s.ledger[c].stream, s.managed[s.ledger[c].stream]);
  }
}
