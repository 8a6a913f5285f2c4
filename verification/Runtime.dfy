/** The runtime object itself: its critical sections, proved to make the steps of
    the state machine. */
module Runtime {
  import opened Wrappers
  import opened Calendar
  import opened Intervals
  import opened ReconcileModel

  // A per-stream view of the base publisher; the collector holds the same object.
  class GatedPublisher {
    const hasBase: bool
    var enabled: bool

    constructor (hasBase: bool, enabled: bool)
      ensures this.hasBase == hasBase && this.enabled == enabled
    {
      this.hasBase := hasBase;
      this.enabled := enabled;
    }

    method SetEnabled(enabled: bool)
      modifies this
      ensures this.enabled == enabled
    {
      this.enabled := enabled;
    }

    predicate Open()
      reads this
    {
      hasBase && enabled
    }

    // Whether klines given to the gate reach the base publisher.
    method PublishKlines() returns (forwarded: bool)
      ensures forwarded <==> Open()
    {
      if !hasBase || !enabled {
        return false;
      }
      return true;
    }
  }

  datatype Report = Report(streamID: int, actualState: ActualState, lastDataAt: Option<Time>, lastError: string)

  class ManagedStream {
    var stream: Stream
    var collector: Option<nat>
    var cancel: Option<nat>
    var publisher: GatedPublisher?
    var state: ActualState
    var lastDataAt: Option<Time>
    var lastError: string
    var drainDeadline: Option<Time>
    var version: int
    ghost var born: nat

    constructor (stream: Stream, ghost born: nat)
      ensures View() == NewHandle(stream, born)
      ensures publisher == null
    {
      this.stream := stream;
      collector, cancel, publisher := None, None, null;
      state, lastDataAt, lastError, drainDeadline, version := Unset, None, "", None, 0;
      this.born := born;
    }

    ghost function View(): Handle
      reads this, publisher
    {
      Handle(stream, collector, cancel, if publisher == null then None else Some(publisher.enabled), state, lastDataAt,
             lastError, drainDeadline, version, born)
    }

    // Records the listed stream and sets the gate the collector publishes through.
    method See(stream: Stream, liveEnabled: bool)
      modifies this, publisher
      ensures View() == old(View()).(stream := stream,
                gate := if old(publisher) != null then Some(liveEnabled) else None)
      ensures publisher == old(publisher)
    {
      this.stream := stream;
      if publisher != null {
        publisher.SetEnabled(liveEnabled);
      }
    }

    // The collector is kept; a state it cannot have is repaired.
    method Keep()
      modifies this
      ensures View() == KeepRunning(old(View()).(drainDeadline := None))
      ensures publisher == old(publisher) && stream == old(stream)
    {
      drainDeadline := None;
      if state == Unset || state == Stopped || state == Errored {
        if lastDataAt.Some? {
          state := Running;
        } else {
          state := Starting;
        }
      }
    }

    // The factory failed.
    method Fail(error: string)
      requires collector == None
      modifies this
      ensures View() == old(View()).(drainDeadline := None, gate := None, cancel := None, state := Errored,
                lastError := error)
      ensures publisher == null
    {
      drainDeadline := None;
      publisher := null;
      collector := None;
      cancel := None;
      state := Errored;
      lastError := error;
    }

    method Begin(c: nat, gate: GatedPublisher, warning: string)
      modifies this
      ensures View() == Begun(old(View()).(drainDeadline := None), c, gate.enabled, warning)
      ensures publisher == gate && stream == old(stream)
    {
      drainDeadline := None;
      version := version + 1;
      collector := Some(c);
      cancel := Some(c);
      publisher := gate;
      state := Starting;
      lastError := warning;
    }

    method Rest()
      modifies this
      ensures View() == old(View()).(state := Stopped, lastError := "", drainDeadline := None)
      ensures publisher == old(publisher)
    {
      state := Stopped;
      lastError := "";
      drainDeadline := None;
    }

    method Drain(deadline: Time)
      modifies this
      ensures View() == old(View()).(drainDeadline := Some(deadline), state := Draining, lastError := "")
      ensures publisher == old(publisher)
    {
      drainDeadline := Some(deadline);
      state := Draining;
      lastError := "";
    }

    method TakeOut()
      modifies this
      ensures View() == Drained(old(View()))
      ensures publisher == null && stream == old(stream)
    {
      version := version + 1;
      collector := None;
      cancel := None;
      publisher := null;
      state := Stopped;
      lastError := "";
      drainDeadline := None;
    }

    method Stored(at: Time, warning: string)
      modifies this
      ensures View() == old(View()).(lastDataAt := Some(at), state := Running, lastError := warning)
      ensures publisher == old(publisher)
    {
      lastDataAt := Some(at);
      state := Running;
      lastError := warning;
    }

    method Crash()
      modifies this
      ensures View() == old(View()).(collector := None, cancel := None, gate := None, state := Errored,
                lastError := EXITED_UNEXPECTEDLY)
      ensures publisher == null
    {
      collector := None;
      cancel := None;
      publisher := null;
      state := Errored;
      lastError := EXITED_UNEXPECTEDLY;
    }

    method SnapshotReport(lastErr: string) returns (r: Report)
      ensures r == Report(stream.id, state, lastDataAt, TrimSpace(lastErr))
    {
      r := Report(stream.id, state, lastDataAt, TrimSpace(lastErr));
    }
  }

  class Runtime {
    const cfg: Config
    var managed: map<int, ManagedStream>
    var collectors: nat
    ghost var ledger: seq<Start>
    ghost var stopping: set<nat>
    ghost var closing: set<nat>
    ghost var cancelled: set<nat>
    ghost var returned: set<nat>
    ghost var leaving: set<nat>
    ghost var runDone: bool

    // Handles and gates are not shared between streams.
    ghost predicate Valid()
      reads this, Objects()
    {
      && collectors == |ledger|
      && (forall a, b :: a in managed && b in managed && a != b ==> managed[a] != managed[b])
      && (forall a, b :: a in managed && b in managed && a != b && managed[a].publisher != null ==>
            managed[a].publisher != managed[b].publisher)
      && (forall a :: a in managed && managed[a].publisher != null ==> managed[a].publisher.hasBase == cfg.hasPublisher)
    }

    constructor (cfg: Config)
      ensures Valid() && State() == INITIAL && this.cfg == cfg
    {
      this.cfg := cfg;
      managed, collectors, ledger := map[], 0, [];
      stopping, closing, cancelled, returned, leaving, runDone := {}, {}, {}, {}, {}, false;
    }

    ghost function Handles(): set<ManagedStream>
      reads this
    {
      set a | a in managed :: managed[a]
    }

    ghost function Objects(): set<object>
      reads this, Handles()
    {
      Handles() + set h | h in Handles() && h.publisher != null :: h.publisher
    }

    ghost function State(): System
      reads this, Objects()
    {
      System(map a | a in managed :: managed[a].View(), ledger, stopping, closing, cancelled, returned, leaving,
          runDone)
    }

    lemma HandlesApart(id: int)
      requires Valid() && id in managed
      ensures collectors == |ledger|
      ensures State() == System(State().managed, ledger, stopping, closing, cancelled, returned, leaving, runDone)
      ensures forall a :: a in managed && a != id ==> managed[a] != managed[id]
      ensures forall a :: a in managed && a != id && managed[a].publisher != null ==>
                managed[a].publisher != managed[id].publisher
      ensures managed[id].publisher != null ==> managed[id].publisher.hasBase == cfg.hasPublisher
      ensures managed[id] in Objects() && (managed[id].publisher != null ==> managed[id].publisher in Objects())
    {
    }

    // Only one handle was touched, and its gate is the old one, none or a new one.
    twostate lemma OneHandleChanged(id: int)
      requires old(Valid()) && collectors == |ledger|
      requires id in managed && id in old(managed) && managed == old(managed)
      requires forall a :: a in managed && a != id ==> unchanged(managed[a])
      requires forall a :: a in managed && a != id && managed[a].publisher != null ==> unchanged(managed[a].publisher)
      requires var gate := managed[id].publisher;
               gate == null || gate == old(managed[id].publisher)
               || (!old(allocated(gate)) && gate.hasBase == cfg.hasPublisher)
      ensures Valid() && fresh(Objects() - old(Objects()))
      ensures State() == System(old(State()).managed[id := managed[id].View()], ledger, stopping, closing, cancelled,
                returned, leaving, runDone)
    {
      forall a | a in managed && a != id ensures managed[a].View() == old(managed[a].View()) {
      }
      assert State().managed.Keys == old(State()).managed.Keys;
    }

    twostate lemma GatesKept()
      requires managed == old(managed) && forall a :: a in managed ==> managed[a].publisher == old(managed[a].publisher)
      ensures Objects() == old(Objects())
    {
    }

    // No handle was touched.
    twostate lemma NoHandleChanged()
      requires old(Valid()) && collectors == |ledger| && managed == old(managed)
      requires forall a :: a in managed ==> unchanged(managed[a])
      requires forall a :: a in managed && managed[a].publisher != null ==> unchanged(managed[a].publisher)
      ensures Valid() && Objects() == old(Objects())
      ensures State() == System(old(State()).managed, ledger, stopping, closing, cancelled, returned, leaving, runDone)
    {
      forall a | a in managed ensures managed[a].View() == old(managed[a].View()) {
      }
      assert State().managed == old(State()).managed;
    }

    lemma Fields()
      requires Valid()
      ensures collectors == |ledger|
      ensures State() == System(State().managed, ledger, stopping, closing, cancelled, returned, leaving, runDone)
      ensures forall a :: a in managed <==> a in State().managed
      ensures forall a :: a in managed ==> State().managed[a] == managed[a].View()
      ensures forall h :: h in Handles() ==> h in Objects()
    {
    }

    // In every state the runtime can be in, a managed collector's klines reach the base
    // publisher exactly when there is one and the last listing of its stream asked for
    // live delivery; and a stream has a gate exactly while it has a collector.
    lemma GateFollowsListing(id: int)
      requires Valid() && Inv(cfg, State()) && id in managed
      ensures managed[id].publisher != null <==> managed[id].collector.Some?
      ensures managed[id].publisher != null ==>
                (managed[id].publisher.Open() <==> cfg.hasPublisher && managed[id].stream.effectiveLiveDelivery)
    {
      assert HandleOk(cfg, State().ledger, id, State().managed[id]);
      hide Inv, HandleOk;
    }

    // The stream's handle, made if need be, with the listed stream and gate recorded.
    method Observe(stream: Stream, liveEnabled: bool) returns (handle: ManagedStream)
      requires Valid() && liveEnabled == LiveEnabled(cfg, stream)
      modifies this, Objects()
      ensures Valid() && fresh(Objects() - old(Objects()))
      ensures stream.id in managed && managed[stream.id] == handle
      ensures stopping == old(stopping)
      ensures handle.View() == Observed(cfg, old(State()), stream)
      ensures State() == Put(old(State()), handle.View())
    {
      if stream.id !in managed {
        handle := AddHandle(stream);
      } else {
        hide Valid, Objects, State;
        HandlesApart(stream.id);
        Fields();
        handle := managed[stream.id];
        handle.See(stream, liveEnabled);
        OneHandleChanged(stream.id);
      }
    }

    method AddHandle(stream: Stream) returns (handle: ManagedStream)
      requires Valid() && stream.id !in managed
      modifies this`managed
      ensures Valid() && fresh(Objects() - old(Objects()))
      ensures stream.id in managed && managed[stream.id] == handle
      ensures handle.View() == NewHandle(stream, |ledger|)
      ensures State() == Put(old(State()), handle.View())
    {
      hide Valid, Objects, State;
      Fields();
      handle := new ManagedStream(stream, |ledger|);
      managed := managed[stream.id := handle];
      HandleAdded(stream.id, handle);
    }

    twostate lemma HandleAdded(id: int, new h: ManagedStream)
      requires old(Valid()) && collectors == |ledger|
      requires id in managed && id !in old(managed) && managed == old(managed)[id := managed[id]]
      requires managed[id] == h && !old(allocated(h)) && h.publisher == null
      requires forall a :: a in old(managed) ==> unchanged(managed[a])
      requires forall a :: a in old(managed) && managed[a].publisher != null ==> unchanged(managed[a].publisher)
      ensures Valid() && fresh(Objects() - old(Objects()))
      ensures State() == System(old(State()).managed[id := managed[id].View()], ledger, stopping, closing, cancelled,
                returned, leaving, runDone)
    {
      hide State;
      assert Handles() == old(Handles()) + {h};
      assert Objects() == old(Objects()) + {h};
      StateAdded(id, h);
    }

    twostate lemma StateAdded(id: int, new h: ManagedStream)
      requires id in managed && id !in old(managed) && managed == old(managed)[id := managed[id]] && managed[id] == h
      requires forall a :: a in old(managed) ==> unchanged(managed[a])
      requires forall a :: a in old(managed) && managed[a].publisher != null ==> unchanged(managed[a].publisher)
      ensures State() == System(old(State()).managed[id := managed[id].View()], ledger, stopping, closing, cancelled,
                returned, leaving, runDone)
    {
      hide Valid, Objects;
      forall a | a in managed && a != id ensures managed[a].View() == old(managed[a].View()) {
      }
      assert State().managed == old(State()).managed[id := managed[id].View()];
    }

    // A wanted stream: keep its collector, or start one, or record why it cannot.
    method RunWanted(handle: ManagedStream, liveEnabled: bool, warning: string, factoryError: Option<string>)
      returns (report: Report)
      requires Valid() && handle.stream.id in managed && managed[handle.stream.id] == handle
      requires liveEnabled == LiveEnabled(cfg, handle.stream) && warning == Warning(cfg, handle.stream)
      requires ShouldRun(handle.stream)
      modifies this, handle
      ensures Valid() && fresh(Objects() - old(Objects()))
      ensures unchanged(this`stopping) && managed == old(managed) && handle.stream == old(handle.stream)
      ensures State() == Wanted(cfg, old(State()), old(handle.View()), factoryError)
      ensures report == Report(handle.stream.id, handle.state, handle.lastDataAt, TrimSpace(
                if old(handle.collector).None? && factoryError.Some? then factoryError.value else warning))
    {
      hide KeepRunning, Valid, State, Objects, TrimSpace, LiveEnabled, Warning, Observed;
      HandlesApart(handle.stream.id);
      ghost var id := handle.stream.id;
      if handle.collector.Some? {
        handle.Keep();
        report := handle.SnapshotReport(warning);
        OneHandleChanged(id);
      } else if factoryError.Some? {
        handle.Fail(factoryError.value);
        report := handle.SnapshotReport(factoryError.value);
        OneHandleChanged(id);
      } else {
        var publisher := new GatedPublisher(cfg.hasPublisher, liveEnabled);
        handle.Begin(collectors, publisher, warning);
        collectors := collectors + 1;
        ledger := ledger + [Start(id, handle.version, Current)];
        report := handle.SnapshotReport(warning);
        OneHandleChanged(id);
      }
    }

    // An unwanted stream: stopped already, draining, or at its deadline.
    method RunIdle(handle: ManagedStream, now: Time) returns (report: Report, stop: Option<nat>)
      requires Valid() && handle.stream.id in managed && managed[handle.stream.id] == handle
      modifies this, handle
      ensures Valid() && fresh(Objects() - old(Objects()))
      ensures managed == old(managed) && handle.stream == old(handle.stream)
      ensures State() == Idle(cfg, old(State()), old(handle.View()), now)
      ensures stopping == if stop.Some? then old(stopping) + {stop.value} else old(stopping)
      ensures report == Report(handle.stream.id, handle.state, handle.lastDataAt, "")
    {
      hide Drained, Valid, State, Objects, TrimSpace, Observed;
      ErrorsAreTrimmed();
      HandlesApart(handle.stream.id);
      ghost var id := handle.stream.id;
      stop := None;
      if handle.collector.None? {
        handle.Rest();
      } else {
        var deadline := if handle.drainDeadline.None? then now + cfg.grace else handle.drainDeadline.value;
        if now < deadline {
          handle.Drain(deadline);
        } else {
          stop := handle.collector;
          handle.TakeOut();
          ledger := Settle(ledger, {stop.value}, Retired);
          stopping := stopping + {stop.value};
        }
      }
      report := handle.SnapshotReport("");
      OneHandleChanged(id);
    }

    // The critical section of reconcileStream. It returns the collector the caller
    // must cancel and stop, if any.
    method ReconcileStream(now: Time, stream: Stream, factoryError: Option<string>)
      returns (report: Report, stop: Option<nat>)
      requires Valid()
      modifies this, Objects()
      ensures Valid() && fresh(Objects() - old(Objects()))
      ensures State() == ReconcileModel.ReconcileStream(cfg, old(State()), now, stream, factoryError)
      ensures stopping == if stop.Some? then old(stopping) + {stop.value} else old(stopping)
      ensures stream.id in managed && var h := managed[stream.id];
              report == Report(stream.id, h.state, h.lastDataAt,
                if stream.desiredState != "running" && stream.activeLeaseCount <= 0 then
                  ""
                else if factoryError.Some? && !old(stream.id in managed && managed[stream.id].collector.Some?) then
                  TrimSpace(factoryError.value)
                else if stream.effectiveLiveDelivery && !cfg.hasPublisher then
                  TrimSpace("effective_live_delivery requested but market-data kafka publisher is unavailable")
                else
                  "")
    {
      hide Valid, Wanted, Idle, Objects, TrimSpace;
      ErrorsAreTrimmed();
      ghost var before := State();
      var liveEnabled := stream.effectiveLiveDelivery && cfg.hasPublisher;
      var handle := Observe(stream, liveEnabled);
      HandlesApart(stream.id);
      ghost var objects := Objects();
      ghost var h := Observed(cfg, before, stream);
      var warning := if stream.effectiveLiveDelivery && !cfg.hasPublisher then LIVE_UNAVAILABLE else "";
      if ShouldRun(stream) {
        report := RunWanted(handle, liveEnabled, warning, factoryError);
        stop := None;
        ReObserved(cfg, before, h, now, factoryError);
      } else {
        report, stop := RunIdle(handle, now);
        ReObserved(cfg, before, h, now, factoryError);
      }
      forall o | o in Objects() && o !in old(Objects()) ensures !old(allocated(o)) {
        assert o in objects - old(Objects()) || o in Objects() - objects;
      }
    }

    // The critical section of recordStored, for the version a collector was started with.
    method RecordStored(ghost c: nat, streamID: int, version: int, at: Time) returns (report: Option<Report>)
      requires Valid() && c < |ledger| && ledger[c].stream == streamID && ledger[c].version == version
      modifies this, Objects()
      ensures Valid() && Objects() == old(Objects())
      ensures State() == ReconcileModel.RecordStored(cfg, old(State()), c, at)
      ensures report.Some? <==> Answers(old(State()), c)
      ensures report.Some? ==> streamID in managed
      ensures report.Some? ==>
                var stream := managed[streamID].stream;
                report.value == Report(stream.id, Running, Some(at),
                  if stream.effectiveLiveDelivery && !cfg.hasPublisher then
                    TrimSpace("effective_live_delivery requested but market-data kafka publisher is unavailable")
                  else
                    "")
    {
      hide Valid, Objects, State, TrimSpace;
      ErrorsAreTrimmed();
      Fields();
      if streamID !in managed || managed[streamID].version != version {
        return None;
      }
      HandlesApart(streamID);
      var handle := managed[streamID];
      handle.Stored(at, if handle.stream.effectiveLiveDelivery && !cfg.hasPublisher then LIVE_UNAVAILABLE else "");
      var r := handle.SnapshotReport(handle.lastError);
      report := Some(r);
      OneHandleChanged(streamID);
      GatesKept();
    }

    // runCollector after the collector's Run returned: whether it goes on to take the
    // mutex.
    method RunReturned(ghost c: nat, contextDone: bool) returns (goesOn: bool)
      requires Valid() && c < |ledger|
      requires contextDone <==> ContextDone(State(), c)
      modifies this
      ensures Valid() && Objects() == old(Objects())
      ensures State() == ReconcileModel.RunReturned(old(State()), c)
      ensures goesOn <==> !contextDone
      ensures goesOn ==> c in leaving
    {
      hide Valid, Objects, State;
      Fields();
      returned := returned + {c};
      if !contextDone {
        leaving := leaving + {c};
      }
      NoHandleChanged();
      goesOn := !contextDone;
    }

    // Its critical section.
    method CollectorExited(ghost c: nat, streamID: int, version: int) returns (report: Option<Report>)
      requires Valid() && c < |ledger| && ledger[c].stream == streamID && ledger[c].version == version
      modifies this, Objects()
      ensures Valid()
      ensures State() == ReconcileModel.CollectorExited(old(State()), c)
      ensures report.Some? <==> Answers(old(State()), c) && old(managed[streamID].collector).Some?
      ensures report.Some? ==> streamID in managed
      ensures report.Some? ==>
                var h := managed[streamID];
                report.value == Report(h.stream.id, Errored, h.lastDataAt, "collector exited unexpectedly")
    {
      hide Valid, Objects, State, Settle, TrimSpace;
      ErrorsAreTrimmed();
      Fields();
      leaving := leaving - {c};
      NoHandleChanged();
      if streamID !in managed || managed[streamID].version != version || managed[streamID].collector.None? {
        return None;
      }
      HandlesApart(streamID);
      label found:
      var handle := managed[streamID];
      ghost var held := handle.collector.value;
      handle.Crash();
      ledger := Settle(ledger, {held}, if held == c then Exited else Lost);
      assert |ledger| == |old(ledger)| by {
        SettleLength(old(ledger), {held}, if held == c then Exited else Lost);
      }
      var r := handle.SnapshotReport(EXITED_UNEXPECTEDLY);
      report := Some(r);
      OneHandleChanged@found(streamID);
    }

    ghost function Held(seen: set<int>): set<nat>
      reads this, Handles()
    {
      set a | a in managed && a !in seen && managed[a].collector.Some? :: managed[a].collector.value
    }

    lemma HeldIsDropped(seen: set<int>)
      ensures Held(seen) == Dropped(State(), seen)
    {
      var d := Dropped(State(), seen);
      forall c ensures c in Held(seen) <==> c in d {
        if c in Held(seen) {
          var a :| a in managed && a !in seen && managed[a].collector.Some? && managed[a].collector.value == c;
          assert State().managed[a].collector == Some(c);
        }
      }
    }

    method DropOne(id: int, handle: ManagedStream) returns (c: Option<nat>)
      requires id in managed && managed[id] == handle && forall a :: a in managed && a != id ==> managed[a] != handle
      modifies this`managed, handle`version
      ensures managed == old(managed) - {id}
      ensures forall a :: a in managed ==> unchanged(managed[a])
      ensures c == old(handle.collector)
    {
      c := handle.collector;
      if handle.cancel.Some? || handle.collector.Some? {
        handle.version := handle.version + 1;
      }
      managed := managed - {id};
    }

    // Deletes the handles of the given streams, in any order, and collects what they
    // hold.
    method DropHandles(seen: set<int>) returns (stops: seq<nat>, ghost who: set<nat>)
      requires Valid()
      modifies this`managed, Handles()
      ensures managed == map a | a in old(managed) && a in seen :: old(managed)[a]
      ensures forall a :: a in managed ==> unchanged(managed[a])
      ensures who == old(Held(seen))
      ensures forall c :: c in stops <==> c in who
    {
      stops := [];
      who := {};
      ghost var was := managed;
      ghost var held := map a | a in managed :: managed[a].collector;
      var left: set<int> := set a | a in managed && a !in seen;
      while left != {}
        invariant left == set a | a in managed && a !in seen
        invariant managed.Keys <= was.Keys && forall a :: a in managed ==> managed[a] == was[a]
        invariant forall a, b :: a in managed && b in managed && a != b ==> managed[a] != managed[b]
        invariant forall a :: a in was && a in seen ==> a in managed
        invariant forall a :: a in managed ==> unchanged(managed[a])
        invariant who == set a | a in was && a !in managed && held[a].Some? :: held[a].value
        invariant forall c :: c in stops <==> c in who
        decreases left
      {
        var id := PickAny(left);
        var c := DropOne(id, managed[id]);
        if c.Some? {
          stops := stops + [c.value];
          who := who + {c.value};
        }
        left := left - {id};
      }
      assert forall a :: a in managed && a !in seen ==> a in left;
      Restricted(managed, was, seen);
    }

    twostate lemma HandlesDropped(seen: set<int>)
      requires old(Valid()) && collectors == |ledger|
      requires managed == map a | a in old(managed) && a in seen :: old(managed)[a]
      requires forall a :: a in managed ==> unchanged(managed[a])
      requires forall a :: a in managed && managed[a].publisher != null ==> unchanged(managed[a].publisher)
      ensures Valid() && Objects() <= old(Objects())
      ensures State() == System(map a | a in old(State()).managed && a in seen :: old(State()).managed[a],
                                ledger, stopping, closing, cancelled, returned, leaving, runDone)
    {
      forall a | a in managed ensures managed[a].View() == old(managed[a].View()) {
      }
      assert State().managed == map a | a in old(State()).managed && a in seen :: old(State()).managed[a];
    }

    // stopMissingStreams: its critical section, then cancelling and stopping what it
    // took out.
    method StopMissingStreams(seen: set<int>)
      requires Valid() && stopping == {}
      modifies this, Handles()
      ensures Valid() && Objects() <= old(Objects()) && stopping == {}
      ensures State() == FinishStopping(ReconcileModel.StopMissingStreams(old(State()), seen))
    {
      hide Valid, State, Objects, Settle, Dropped, Held;
      Fields();
      HeldIsDropped(seen);
      SettleLength(ledger, Dropped(State(), seen), Retired);
      var stops, who := DropHandles(seen);
      ledger := Settle(ledger, who, Retired);
      cancelled := cancelled + who;
      HandlesDropped(seen);
      assert stopping + who == who;
    }

    // shutdown: everything is taken out, then cancelled and stopped.
    method Shutdown()
      requires Valid()
      modifies this, Handles()
      ensures Valid()
      ensures State() == FinishClosing(ShutdownAll(old(State())), ShutdownAll(old(State())).closing)
    {
      hide Valid, State, Objects, Settle, Dropped, Held;
      Fields();
      HeldIsDropped({});
      SettleLength(ledger, Dropped(State(), {}), Retired);
      var stops, who := DropHandles({});
      ledger := Settle(ledger, who, Retired);
      cancelled := cancelled + (closing + who);
      closing := {};
      HandlesDropped({});
      assert State().managed == map[];
    }

    // reconcileStream: its critical section, then cancelling and stopping what it
    // took out.
    method ReconcileAndStop(now: Time, stream: Stream, factoryError: Option<string>) returns (report: Report)
      requires Valid() && stopping == {}
      modifies this, Objects()
      ensures Valid() && stopping == {} && fresh(Objects() - old(Objects()))
      ensures State() == FinishStopping(ReconcileModel.ReconcileStream(cfg, old(State()), now, stream, factoryError))
    {
      hide Valid, State, Objects, ReconcileModel.ReconcileStream;
      var stop: Option<nat>;
      report, stop := ReconcileStream(now, stream, factoryError);
      Fields();
      label stopped:
      cancelled := cancelled + stopping;
      stopping := {};
      NoHandleChanged@stopped();
    }

    // One pass over the listed streams, uninterrupted: the run of the state machine
    // that observes each eligible stream in turn and then drops the unlisted ones.
    // The factories' outcomes are foreign; they are named by position.
    method ReconcileOnce(exchanges: set<string>, listing: Option<seq<Stream>>, now: Time, outcomes: seq<Option<string>>)
      returns (ok: bool, ghost events: seq<Event>)
      requires Valid() && stopping == {}
      requires listing.Some? ==> |outcomes| == |listing.value|
      modifies this, Objects()
      ensures Valid() && stopping == {}
      ensures ok <==> listing.Some?
      ensures !ok ==> State() == old(State())
      ensures ok ==>
        events == Pass(exchanges, listing.value, now, outcomes)
                  + [StopMissing(Eligible(exchanges, listing.value)), FinishStops]
      ensures ok ==> After(cfg, old(State()), events) == Some(State())
    {
      hide Valid, State, Objects, After, Step, Enabled, FinishStopping, IsEligible;
      hide ReconcileModel.ReconcileStream, ReconcileModel.StopMissingStreams;
      events := [];
      NoEvents(cfg, State());
      if listing.None? {
        return false, events;
      }
      ghost var before := State();
      ghost var objects := Objects();
      var streams := listing.value;
      var seen: set<int> := {};
      for i := 0 to |streams|
        invariant Valid() && stopping == {}
        invariant fresh(Objects() - old(Objects()))
        invariant seen == Eligible(exchanges, streams[..i])
        invariant events == Pass(exchanges, streams[..i], now, outcomes[..i])
        invariant After(cfg, before, events) == Some(State())
      {
        assert streams[..i + 1][..i] == streams[..i] && outcomes[..i + 1][..i] == outcomes[..i];
        var stream := NormalizeStream(streams[i]);
        assert IsEligible(exchanges, streams[i]) <==>
            stream.id > 0 && stream.kind == "kline" && stream.exchange in exchanges by {
          EligibleMeans(exchanges, streams[i]);
        }
        if stream.id <= 0 || stream.kind != "kline" {
          continue;
        }
        if stream.exchange !in exchanges {
          continue;
        }
        seen := seen + {stream.id};
        ghost var s0, was := State(), Objects();
        Fields();
        var report := ReconcileAndStop(now, stream, outcomes[i]);
        ObserveAndStop(cfg, before, events, s0, now, stream, outcomes[i]);
        events := events + [Reconcile(now, stream, outcomes[i]), FinishStops];
        forall o | o in Objects() && o !in old(Objects()) ensures !old(allocated(o)) {
          assert o in was - old(Objects()) || o in Objects() - was;
        }
      }
      assert streams[..|streams|] == streams && outcomes[..|outcomes|] == outcomes;
      ghost var s0 := State();
      Fields();
      StopMissingStreams(seen);
      Fields();
      DropAndStop(cfg, before, events, s0, seen);
      events := events + [StopMissing(seen), FinishStops];
      ok := true;
    }
  }

  lemma ErrorsAreTrimmed()
    ensures TrimSpace("") == ""
    ensures TrimSpace(EXITED_UNEXPECTEDLY) == EXITED_UNEXPECTEDLY
  {
    assert Trimmed(EXITED_UNEXPECTEDLY) && Trimmed("");
  }

  function NormalizeStream(raw: Stream): Stream {
    raw.(exchange := ToLower(TrimSpace(raw.exchange)), kind := ToLower(TrimSpace(raw.kind)),
         desiredState := ToLower(TrimSpace(raw.desiredState)))
  }

  // Only white space and case of three texts are touched, once: normal ones come
  // through unchanged.
  lemma NormalStreamKept(raw: Stream)
    ensures NormalizeStream(NormalizeStream(raw)) == NormalizeStream(raw)
    ensures (forall s :: s in {raw.exchange, raw.kind, raw.desiredState} ==> Trimmed(s) && ToLower(s) == s) ==>
              NormalizeStream(raw) == raw
    ensures NormalizeStream(raw).(exchange := "", kind := "", desiredState := "") ==
              raw.(exchange := "", kind := "", desiredState := "")
  {
    LowerTrimmed(TrimSpace(raw.exchange));
    LowerTrimmed(TrimSpace(raw.kind));
    LowerTrimmed(TrimSpace(raw.desiredState));
    hide ToLower, Trimmed;
  }

  predicate IsEligible(exchanges: set<string>, raw: Stream) {
    var stream := NormalizeStream(raw);
    stream.id > 0 && stream.kind == "kline" && stream.exchange in exchanges
  }

  function Eligible(exchanges: set<string>, streams: seq<Stream>): set<int> {
    if streams == [] then {}
    else
      var n := |streams| - 1;
      Eligible(exchanges, streams[..n]) + if IsEligible(exchanges, streams[n]) then {streams[n].id} else {}
  }

  // The eligible ids are the positive ones listed with kind kline and an exchange that
  // has a factory, whatever the case of the texts and the white space around them.
  lemma {:induction false} EligibleMembers(exchanges: set<string>, streams: seq<Stream>, id: int)
    ensures id in Eligible(exchanges, streams) <==>
            exists i :: 0 <= i < |streams| && streams[i].id == id && id > 0
                        && ToLower(TrimSpace(streams[i].kind)) == "kline"
                        && ToLower(TrimSpace(streams[i].exchange)) in exchanges
  {
    hide ToLower, TrimSpace;
    if streams != [] {
      var n := |streams| - 1;
      EligibleMembers(exchanges, streams[..n], id);
      assert streams == streams[..n] + [streams[n]];
    }
  }

  // The observations one pass makes, each followed by the stops it asks for.
  function Pass(exchanges: set<string>, streams: seq<Stream>, now: Time, outcomes: seq<Option<string>>): seq<Event>
    requires |outcomes| == |streams|
  {
    if streams == [] then []
    else
      var n := |streams| - 1;
      Pass(exchanges, streams[..n], now, outcomes[..n])
        + if IsEligible(exchanges, streams[n])
          then [Reconcile(now, NormalizeStream(streams[n]), outcomes[n]), FinishStops]
          else []
  }

  lemma Restricted<V>(m: map<int, V>, was: map<int, V>, seen: set<int>)
    requires forall a :: a in m <==> a in was && a in seen
    requires forall a :: a in m ==> m[a] == was[a]
    ensures m == map a | a in was && a in seen :: was[a]
  {
    var r := map a | a in was && a in seen :: was[a];
    forall a ensures a in m.Keys <==> a in r.Keys {
      assert a in m.Keys <==> a in m;
      assert a in r.Keys <==> a in r;
    }
    assert forall a :: a in r ==> m[a] == r[a];
    assert m == r;
  }

  lemma EligibleMeans(exchanges: set<string>, raw: Stream)
    ensures var stream := NormalizeStream(raw);
            IsEligible(exchanges, raw) <==> stream.id > 0 && stream.kind == "kline" && stream.exchange in exchanges
  {
  }

  lemma {:induction false} ObservationManages(cfg: Config, s: System, now: Time, stream: Stream,
                                              outcome: Option<string>)
    ensures FinishStopping(ReconcileModel.ReconcileStream(cfg, s, now, stream, outcome)).managed.Keys ==
              s.managed.Keys + {stream.id}
  {
  }

  lemma {:induction false} PassAddsHandles(cfg: Config, s: System, exchanges: set<string>, streams: seq<Stream>,
                                           now: Time, outcomes: seq<Option<string>>)
    requires |outcomes| == |streams| && s.stopping == {}
    ensures var t := After(cfg, s, Pass(exchanges, streams, now, outcomes));
            t.Some? && t.value.stopping == {} && t.value.managed.Keys == s.managed.Keys + Eligible(exchanges, streams)
  {
    hide After, IsEligible, ReconcileModel.ReconcileStream;
    if streams == [] {
      NoEvents(cfg, s);
    } else {
      var n := |streams| - 1;
      PassAddsHandles(cfg, s, exchanges, streams[..n], now, outcomes[..n]);
      var events := Pass(exchanges, streams[..n], now, outcomes[..n]);
      var mid := After(cfg, s, events).value;
      if IsEligible(exchanges, streams[n]) {
        ObserveAndStop(cfg, s, events, mid, now, NormalizeStream(streams[n]), outcomes[n]);
        ObservationManages(cfg, mid, now, NormalizeStream(streams[n]), outcomes[n]);
      } else {
        assert events + [] == events;
      }
    }
  }

  // After an uninterrupted pass the streams with a handle are exactly the eligible
  // ones of the listing, whatever was managed before and whatever the factories did.
  lemma {:induction false} PassManagesEligible(cfg: Config, s: System, exchanges: set<string>, streams: seq<Stream>,
                                               now: Time, outcomes: seq<Option<string>>)
    requires |outcomes| == |streams| && s.stopping == {}
    ensures var t := After(cfg, s, Pass(exchanges, streams, now, outcomes) +
              [StopMissing(Eligible(exchanges, streams)), FinishStops]);
            t.Some? && t.value.managed.Keys == Eligible(exchanges, streams)
  {
    hide After, Pass, Eligible, Settle, Dropped;
    PassAddsHandles(cfg, s, exchanges, streams, now, outcomes);
    var mid := After(cfg, s, Pass(exchanges, streams, now, outcomes)).value;
    DropAndStop(cfg, s, Pass(exchanges, streams, now, outcomes), mid, Eligible(exchanges, streams));
  }

  lemma NoEvents(cfg: Config, s: System)
    ensures After(cfg, s, []) == Some(s)
  {
  }

  lemma AfterTwo(cfg: Config, s: System, events: seq<Event>, mid: System, e: Event, f: Event)
    requires After(cfg, s, events) == Some(mid)
    requires Enabled(mid, e) && Enabled(Step(cfg, mid, e), f)
    ensures After(cfg, s, events + [e, f]) == Some(Step(cfg, Step(cfg, mid, e), f))
  {
    hide Enabled, Step;
    assert (events + [e, f])[..|events| + 1] == events + [e];
    assert (events + [e])[..|events|] == events;
  }

  lemma ObserveAndStop(cfg: Config, s: System, events: seq<Event>, mid: System, now: Time, stream: Stream,
                       outcome: Option<string>)
    requires After(cfg, s, events) == Some(mid) && mid.stopping == {}
    ensures After(cfg, s, events + [Reconcile(now, stream, outcome), FinishStops])
            == Some(FinishStopping(ReconcileModel.ReconcileStream(cfg, mid, now, stream, outcome)))
  {
    hide ReconcileModel.ReconcileStream, After, FinishStopping;
    AfterTwo(cfg, s, events, mid, Reconcile(now, stream, outcome), FinishStops);
  }

  lemma DropAndStop(cfg: Config, s: System, events: seq<Event>, mid: System, seen: set<int>)
    requires After(cfg, s, events) == Some(mid) && mid.stopping == {}
    ensures After(cfg, s, events + [StopMissing(seen), FinishStops])
            == Some(FinishStopping(ReconcileModel.StopMissingStreams(mid, seen)))
  {
    hide ReconcileModel.StopMissingStreams, After, FinishStopping;
    AfterTwo(cfg, s, events, mid, StopMissing(seen), FinishStops);
  }

  lemma SettleLength(ledger: seq<Start>, who: set<nat>, fate: Fate)
    ensures |Settle(ledger, who, fate)| == |ledger|
  {
  }

  lemma ReObserved(cfg: Config, s: System, h: Handle, now: Time, factoryError: Option<string>)
    ensures Wanted(cfg, Put(s, h), h, factoryError) == Wanted(cfg, s, h, factoryError)
    ensures Idle(cfg, Put(s, h), h, now) == Idle(cfg, s, h, now)
  {
    assert forall g: Handle :: g.stream.id == h.stream.id ==> Put(Put(s, h), g) == Put(s, g);
  }
}
