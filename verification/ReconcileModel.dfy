/** The live reconcile runtime as a state machine. Each event is one critical
    section of the runtime's mutex, or what a goroutine does between two of them. */
module ReconcileModel {
  import opened Wrappers
  import opened Calendar

  const DESIRED_RUNNING := "running"
  const LIVE_UNAVAILABLE := "effective_live_delivery requested but market-data kafka publisher is unavailable"
  const EXITED_UNEXPECTEDLY := "collector exited unexpectedly"

  datatype ActualState = Unset | Starting | Running | Draining | Stopped | Errored

  datatype Stream = Stream(
    id: int,
    exchange: string,
    kind: string,
    desiredState: string,
    effectiveLiveDelivery: bool,
    activeLeaseCount: int)

  // Whether a base publisher exists, and how long a stream drains.
  datatype Config = Config(hasPublisher: bool, grace: int)

  // A managed stream. Collectors are named by the order of their starts; gate is
  // the on/off state of the collector's gated publisher. A zero drain deadline is
  // None: a clock reading is always later than Go's zero time. The first collector
  // the handle could have started is kept in born, for specification only.
  datatype Handle = Handle(
    stream: Stream,
    collector: Option<nat>,
    cancel: Option<nat>,
    gate: Option<bool>,
    state: ActualState,
    lastDataAt: Option<Time>,
    lastError: string,
    drainDeadline: Option<Time>,
    version: int,
    born: nat)

  // What became of a collector: still the handle's own; exited by itself; handed
  // over for cancel and Stop; or taken out of its handle by another one's exit.
  datatype Fate = Current | Exited | Retired | Lost

  datatype Start = Start(stream: int, version: int, fate: Fate)

  // The runtime and a ledger of every collector ever started. Collectors the
  // reconciler has yet to cancel and stop are in stopping, those of a shutdown in
  // closing; returned are those whose Run returned and whose context was looked at,
  // and leaving those of them that saw it not done and have yet to take the mutex.
  datatype System = System(
    managed: map<int, Handle>,
    ledger: seq<Start>,
    stopping: set<nat>,
    closing: set<nat>,
    cancelled: set<nat>,
    returned: set<nat>,
    leaving: set<nat>,
    runDone: bool)

  const INITIAL := System(map[], [], {}, {}, {}, {}, {}, false)

  datatype Event =
    | Reconcile(now: Time, stream: Stream, factoryError: Option<string>)
    | StopMissing(seen: set<int>)
    | FinishStops
    | Store(collector: nat, at: Time)
    | Return(collector: nat)
    | Exit(collector: nat)
    | CancelRun
    | Shutdown
    | FinishShutdown(who: set<nat>)

  predicate ShouldRun(stream: Stream) {
    stream.desiredState == DESIRED_RUNNING || stream.activeLeaseCount > 0
  }

  function LiveEnabled(cfg: Config, stream: Stream): bool {
    stream.effectiveLiveDelivery && cfg.hasPublisher
  }

  function Warning(cfg: Config, stream: Stream): string {
    if stream.effectiveLiveDelivery && !cfg.hasPublisher then LIVE_UNAVAILABLE else ""
  }

  function NewHandle(stream: Stream, born: nat): Handle {
    Handle(stream, None, None, None, Unset, None, "", None, 0, born)
  }

  function Put(s: System, h: Handle): System {
    s.(managed := s.managed[h.stream.id := h])
  }

  function Settle(ledger: seq<Start>, who: set<nat>, fate: Fate): seq<Start> {
    seq(|ledger|, c requires 0 <= c < |ledger| => if c in who then ledger[c].(fate := fate) else ledger[c])
  }

  // ----- The critical sections -----

  // The handle once the listed stream is recorded and its gate is set.
  function Observed(cfg: Config, s: System, stream: Stream): Handle {
    var h := if stream.id in s.managed then s.managed[stream.id] else NewHandle(stream, |s.ledger|);
    h.(stream := stream, gate := if h.gate.Some? then Some(LiveEnabled(cfg, stream)) else None)
  }

  function KeepRunning(h: Handle): Handle {
    if h.state in {Unset, Stopped, Errored} then
      h.(state := if h.lastDataAt.Some? then Running else Starting)
    else h
  }

  function Begun(h: Handle, c: nat, live: bool, warning: string): Handle {
    h.(version := h.version + 1, collector := Some(c), cancel := Some(c), gate := Some(live), state := Starting,
        lastError := warning)
  }

  function StartCollector(cfg: Config, s: System, h: Handle): System {
    Put(s, Begun(h, |s.ledger|, LiveEnabled(cfg, h.stream), Warning(cfg, h.stream)))
    .(ledger := s.ledger + [Start(h.stream.id, h.version + 1, Current)])
  }

  function Drained(h: Handle): Handle {
    h.(version := h.version + 1, collector := None, cancel := None, gate := None, state := Stopped, lastError := "",
       drainDeadline := None)
  }

  function Wanted(cfg: Config, s: System, observed: Handle, factoryError: Option<string>): System {
    var h := observed.(drainDeadline := None);
    if h.collector.Some? then Put(s, KeepRunning(h))
    else match factoryError
      case Some(error) => Put(s, h.(gate := None, cancel := None, state := Errored, lastError := error))
      case None => StartCollector(cfg, s, h)
  }

  function Idle(cfg: Config, s: System, h: Handle, now: Time): System {
    match h.collector
    case None => Put(s, h.(state := Stopped, lastError := "", drainDeadline := None))
    case Some(c) =>
      var deadline := if h.drainDeadline.Some? then h.drainDeadline.value else now + cfg.grace;
      if now < deadline then Put(s, h.(drainDeadline := Some(deadline), state := Draining, lastError := ""))
      else Put(s, Drained(h)).(ledger := Settle(s.ledger, {c}, Retired), stopping := s.stopping + {c})
  }

  function ReconcileStream(cfg: Config, s: System, now: Time, stream: Stream, factoryError: Option<string>): System {
    var h := Observed(cfg, s, stream);
    if ShouldRun(stream) then Wanted(cfg, s, h, factoryError) else Idle(cfg, s, h, now)
  }

  // The collectors of the handles that are about to be dropped.
  function Dropped(s: System, seen: set<int>): set<nat> {
    set id | id in s.managed && id !in seen && s.managed[id].collector.Some? :: s.managed[id].collector.value
  }

  function StopMissingStreams(s: System, seen: set<int>): System {
    s.(managed := map id | id in s.managed && id in seen :: s.managed[id],
       ledger := Settle(s.ledger, Dropped(s, seen), Retired),
       stopping := s.stopping + Dropped(s, seen))
  }

  function ShutdownAll(s: System): System {
    s.(managed := map[],
       ledger := Settle(s.ledger, Dropped(s, {}), Retired),
       closing := s.closing + Dropped(s, {}))
  }

  // A handle answers to a collector's callbacks while the versions agree.
  predicate Answers(s: System, c: nat)
    requires c < |s.ledger|
  {
    s.ledger[c].stream in s.managed && s.managed[s.ledger[c].stream].version == s.ledger[c].version
  }

  function RecordStored(cfg: Config, s: System, c: nat, at: Time): System
    requires c < |s.ledger|
  {
    if !Answers(s, c) then s
    else
      var h := s.managed[s.ledger[c].stream];
      s.(managed := s.managed[s.ledger[c].stream :=
        h.(lastDataAt := Some(at), state := Running, lastError := Warning(cfg, h.stream))])
  }

  predicate ContextDone(s: System, c: nat) {
    s.runDone || c in s.cancelled
  }

  // runCollector once Run returned: it looks at the collector's context.
  function RunReturned(s: System, c: nat): System {
    s.(returned := s.returned + {c}, leaving := if ContextDone(s, c) then s.leaving else s.leaving + {c})
  }

  // Its critical section, if the context was not done then. It looks neither at the
  // context again nor at which collector it takes out of the handle.
  function CollectorExited(s: System, c: nat): System
    requires c < |s.ledger|
  {
    var s := s.(leaving := s.leaving - {c});
    if !Answers(s, c) || s.managed[s.ledger[c].stream].collector.None? then s
    else
      var h := s.managed[s.ledger[c].stream];
      s.(managed := s.managed[s.ledger[c].stream :=
           h.(collector := None, cancel := None, gate := None, state := Errored, lastError := EXITED_UNEXPECTEDLY)],
         ledger := Settle(s.ledger, {h.collector.value}, if h.collector.value == c then Exited else Lost))
  }

  function FinishStopping(s: System): System {
    s.(cancelled := s.cancelled + s.stopping, stopping := {})
  }

  // Some of what a shutdown took out is cancelled and stopped.
  function FinishClosing(s: System, who: set<nat>): System {
    s.(cancelled := s.cancelled + who, closing := s.closing - who)
  }

  // ----- Events -----

  // One goroutine reconciles, and it cancels and stops what it took out before it
  // goes on. A collector reports stored bars only from inside its Run. A shutdown can
  // come at any time, from the end of Run or from Stop, which need not have a context
  // to cancel, and it stops what it took out one by one.
  predicate Enabled(s: System, e: Event) {
    match e
    case Reconcile(_, _, _) => s.stopping == {}
    case StopMissing(_) => s.stopping == {}
    case Store(c, _) => c < |s.ledger| && c !in s.returned
    case Return(c) => c < |s.ledger| && c !in s.returned
    case Exit(c) => c < |s.ledger| && c in s.leaving
    case FinishShutdown(who) => who <= s.closing
    case _ => true
  }

  function Step(cfg: Config, s: System, e: Event): System
    requires Enabled(s, e)
  {
    match e
    case Reconcile(now, stream, factoryError) => ReconcileStream(cfg, s, now, stream, factoryError)
    case StopMissing(seen) => StopMissingStreams(s, seen)
    case FinishStops => FinishStopping(s)
    case Store(c, at) => RecordStored(cfg, s, c, at)
    case Return(c) => RunReturned(s, c)
    case Exit(c) => CollectorExited(s, c)
    case CancelRun => s.(runDone := true)
    case Shutdown => ShutdownAll(s)
    case FinishShutdown(who) => FinishClosing(s, who)
  }

  // The state after a list of events, if each of them was possible.
  function After(cfg: Config, s: System, events: seq<Event>): Option<System> {
    if events == [] then Some(s)
    else match After(cfg, s, events[..|events| - 1])
      case None => None
      case Some(before) =>
        var e := events[|events| - 1];
        if Enabled(before, e) then Some(Step(cfg, before, e)) else None
  }

  // ----- Invariant -----

  predicate HandleOk(cfg: Config, ledger: seq<Start>, id: int, h: Handle) {
    && h.stream.id == id
    && h.cancel == h.collector
    && (h.gate.Some? <==> h.collector.Some?)
    && (h.gate.Some? ==> h.gate.value == LiveEnabled(cfg, h.stream))
    && (h.collector.Some? ==> h.state in {Starting, Running, Draining})
    && (h.state == Running ==> h.lastDataAt.Some?)
    && h.born <= |ledger|
    && (h.collector.Some? ==>
          var c := h.collector.value;
          h.born <= c < |ledger| && ledger[c] == Start(id, h.version, Current))
  }

  // Versions of one handle's collectors rise with each start and stay within the
  // handle's version; the handle's own version is not that of one handed over.
  predicate VersionsOk(ledger: seq<Start>, id: int, h: Handle) {
    && (forall c :: h.born <= c < |ledger| && ledger[c].stream == id ==>
          ledger[c].version <= h.version && (ledger[c].version == h.version ==> ledger[c].fate != Retired))
    && (forall c, d :: h.born <= c < d < |ledger| && ledger[c].stream == id && ledger[d].stream == id ==>
          ledger[c].version < ledger[d].version)
  }

  predicate LedgerOk(s: System) {
    && (forall c :: 0 <= c < |s.ledger| && s.ledger[c].fate == Current ==>
          s.ledger[c].stream in s.managed && s.managed[s.ledger[c].stream].collector == Some(c))
    && (forall c :: 0 <= c < |s.ledger| && s.ledger[c].fate == Exited ==> c in s.returned)
    && (forall c :: 0 <= c < |s.ledger| && s.ledger[c].fate == Retired ==> c in s.stopping + s.closing + s.cancelled)
  }

  predicate StopsOk(s: System) {
    && (forall c :: c in s.stopping + s.closing + s.cancelled ==> c < |s.ledger| && s.ledger[c].fate == Retired)
    && (forall c :: c in s.stopping ==> !Answers(s, c))
    && (forall c :: c in s.stopping && s.ledger[c].stream in s.managed ==>
          s.managed[s.ledger[c].stream].collector == None)
    && (forall c :: c in s.leaving ==> c in s.returned)
    && (forall c :: c in s.returned ==> c < |s.ledger|)
    && (forall c, d :: c in s.stopping && d in s.stopping && s.ledger[c].stream == s.ledger[d].stream ==> c == d)
  }

  predicate Inv(cfg: Config, s: System) {
    && (forall id :: id in s.managed ==> HandleOk(cfg, s.ledger, id, s.managed[id]))
    && (forall id :: id in s.managed ==> VersionsOk(s.ledger, id, s.managed[id]))
    && LedgerOk(s)
    && StopsOk(s)
  }
}
