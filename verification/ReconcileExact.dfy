/** Exact conditions for what the reconcile runtime does not keep unconditionally, and
    runs that show it. */
module ReconcileExact {
  import opened Wrappers
  import opened Calendar
  import opened ReconcileModel
  import opened Reconcile
  import opened ReconcileTheorems

  // ----- Whose callbacks are answered -----

  predicate LastStart(ledger: seq<Start>, c: nat)
    requires c < |ledger|
  {
    forall d :: c < d < |ledger| ==> ledger[d].stream != ledger[c].stream
  }

  // The last start of a stream, not handed over for stopping.
  predicate Reigns(ledger: seq<Start>, id: int, c: nat)
    requires c < |ledger|
  {
    ledger[c].stream == id && LastStart(ledger, c) && ledger[c].fate != Retired
  }

  // The handle still has the version of its last start, unless that was handed over.
  predicate LastOk(s: System, id: int) {
    id in s.managed ==>
      forall c :: s.managed[id].born <= c < |s.ledger| && Reigns(s.ledger, id, c) ==>
        s.ledger[c].version == s.managed[id].version
  }

  // No event makes a handed-over collector anything else.
  predicate RetiredStays(s: System, t: System) {
    && |s.ledger| <= |t.ledger|
    && forall c :: 0 <= c < |s.ledger| && s.ledger[c].fate == Retired ==> t.ledger[c].fate == Retired
  }

  lemma {:induction false} StepKeepsRetired(cfg: Config, s: System, e: Event)
    requires Inv(cfg, s) && Enabled(s, e)
    ensures RetiredStays(s, Step(cfg, s, e))
  {
    if e.Reconcile? {
      ObserveKeepsRetired(cfg, s, e);
    } else if e.Exit? {
      ExitKeepsRetired(cfg, s, e.collector);
    } else {
      hide Inv;
    }
  }

  lemma {:induction false} ObserveKeepsRetired(cfg: Config, s: System, e: Event)
    requires Inv(cfg, s) && Enabled(s, e) && e.Reconcile?
    ensures RetiredStays(s, Step(cfg, s, e))
  {
    ObserveOnHandle(cfg, s, e);
    StepOnHandle(cfg, s, e, e.stream.id);
    hide Inv, Step, Enabled;
  }

  lemma {:induction false} ExitKeepsRetired(cfg: Config, s: System, c: nat)
    requires Inv(cfg, s) && c < |s.ledger|
    ensures RetiredStays(s, CollectorExited(s, c))
  {
    if Answers(s, c) && s.managed[s.ledger[c].stream].collector.Some? {
      assert HandleOk(cfg, s.ledger, s.ledger[c].stream, s.managed[s.ledger[c].stream]);
    }
    hide Inv;
  }

  lemma {:induction false} OthersKeepLast(cfg: Config, s: System, e: Event, id: int)
    requires Inv(cfg, s) && Enabled(s, e) && LastOk(s, id) && !Observes(e, id)
    ensures LastOk(Step(cfg, s, e), id)
  {
    var t := Step(cfg, s, e);
    StepOnHandle(cfg, s, e, id);
    StepKeepsRetired(cfg, s, e);
    OnlyObservedStart(cfg, s, e, id);
    hide Inv, Step, Enabled, Observes, Removes;
    if id in t.managed {
      forall c | t.managed[id].born <= c < |t.ledger| && Reigns(t.ledger, id, c)
        ensures t.ledger[c].version == t.managed[id].version
      {
        assert c < |s.ledger| && Reigns(s.ledger, id, c);
      }
    }
  }

  lemma {:induction false} OnlyObservedStart(cfg: Config, s: System, e: Event, id: int)
    requires Inv(cfg, s) && Enabled(s, e) && !Observes(e, id)
    ensures var t := Step(cfg, s, e);
            && |s.ledger| <= |t.ledger|
            && forall c :: |s.ledger| <= c < |t.ledger| ==> t.ledger[c].stream != id
  {
    hide Inv;
  }

  lemma {:induction false} ObservedKeepsLast(cfg: Config, s: System, e: Event)
    requires Inv(cfg, s) && Enabled(s, e) && e.Reconcile? && LastOk(s, e.stream.id)
    ensures LastOk(Step(cfg, s, e), e.stream.id)
  {
    if ShouldRun(e.stream) {
      WantedKeepsLast(cfg, s, e);
    } else {
      IdleKeepsLast(cfg, s, e);
    }
  }

  lemma {:induction false} WantedKeepsLast(cfg: Config, s: System, e: Event)
    requires Inv(cfg, s) && Enabled(s, e) && e.Reconcile? && LastOk(s, e.stream.id) && ShouldRun(e.stream)
    ensures LastOk(Step(cfg, s, e), e.stream.id)
  {
    var id, t := e.stream.id, Step(cfg, s, e);
    ObserveStarts(cfg, s, e);
    hide Inv, Step, Enabled;
    forall c | t.managed[id].born <= c < |t.ledger| && Reigns(t.ledger, id, c)
      ensures t.ledger[c].version == t.managed[id].version
    {
      if t.ledger == s.ledger {
        assert id in s.managed;
      } else {
        assert t.ledger[|s.ledger|].stream == id;
      }
    }
  }

  lemma {:induction false} IdleKeepsLast(cfg: Config, s: System, e: Event)
    requires Inv(cfg, s) && Enabled(s, e) && e.Reconcile? && LastOk(s, e.stream.id) && !ShouldRun(e.stream)
    ensures LastOk(Step(cfg, s, e), e.stream.id)
  {
    var id, t := e.stream.id, Step(cfg, s, e);
    ObserveOnHandle(cfg, s, e);
    StepOnHandle(cfg, s, e, id);
    StepKeepsRetired(cfg, s, e);
    IdleKeepsBorn(cfg, s, e);
    hide Inv, Step, Enabled, Observes, Removes;
    forall c | t.managed[id].born <= c < |t.ledger| && Reigns(t.ledger, id, c)
      ensures t.ledger[c].version == t.managed[id].version
    {
      assert id in s.managed && Reigns(s.ledger, id, c);
      if s.managed[id].collector.Some? {
        LastIsHeld(cfg, s, id, c);
      }
    }
  }

  lemma {:induction false} IdleKeepsBorn(cfg: Config, s: System, e: Event)
    requires Inv(cfg, s) && Enabled(s, e) && e.Reconcile? && !ShouldRun(e.stream)
    ensures var id, t := e.stream.id, Step(cfg, s, e);
            |t.ledger| == |s.ledger| && id in t.managed
            && t.managed[id].born == if id in s.managed then s.managed[id].born else |s.ledger|
  {
    hide Inv;
  }

  lemma LaterVersion(ledger: seq<Start>, id: int, h: Handle, d: nat, c: nat)
    requires VersionsOk(ledger, id, h) && h.born <= d < |ledger| && h.born <= c < |ledger|
    requires ledger[d].stream == id && ledger[c].stream == id
    ensures d < c ==> ledger[d].version < ledger[c].version <= h.version
  {
  }

  // The last start of a handle that holds a collector is that collector.
  lemma {:induction false} LastIsHeld(cfg: Config, s: System, id: int, c: nat)
    requires Inv(cfg, s) && id in s.managed && s.managed[id].collector.Some?
    requires s.managed[id].born <= c < |s.ledger| && s.ledger[c].stream == id && LastStart(s.ledger, c)
    ensures s.managed[id].collector == Some(c)
  {
    var h := s.managed[id];
    assert HandleOk(cfg, s.ledger, id, h) && VersionsOk(s.ledger, id, h);
    hide Inv;
    LaterVersion(s.ledger, id, h, h.collector.value, c);
  }

  lemma {:induction false} RunKeepsLast(cfg: Config, events: seq<Event>, id: int)
    requires After(cfg, INITIAL, events).Some?
    ensures LastOk(After(cfg, INITIAL, events).value, id)
    decreases |events|
  {
    if events != [] {
      hide Inv, Step, Enabled, LastOk;
      var n := |events| - 1;
      var s := After(cfg, INITIAL, events[..n]).value;
      RunKeepsLast(cfg, events[..n], id);
      ReachableInv(cfg, events[..n]);
      if Observes(events[n], id) {
        ObservedKeepsLast(cfg, s, events[n]);
      } else {
        OthersKeepLast(cfg, s, events[n], id);
      }
    }
  }

  // A listed stream's handle answers exactly: of its own collectors the last started,
  // unless that was handed over for stopping; of the collectors of earlier handles,
  // those whose version it happens to have reached.
  lemma {:induction false} WhoIsAnswered(cfg: Config, events: seq<Event>, c: nat)
    requires After(cfg, INITIAL, events).Some? && c < |After(cfg, INITIAL, events).value.ledger|
    requires var s := After(cfg, INITIAL, events).value; s.ledger[c].stream in s.managed
    ensures var s := After(cfg, INITIAL, events).value;
            var start, h := s.ledger[c], s.managed[s.ledger[c].stream];
            Answers(s, c) <==>
              if h.born <= c then LastStart(s.ledger, c) && start.fate != Retired else start.version == h.version
  {
    ReachableInv(cfg, events);
    var s := After(cfg, INITIAL, events).value;
    var id := s.ledger[c].stream;
    RunKeepsLast(cfg, events, id);
    hide After;
    assert VersionsOk(s.ledger, id, s.managed[id]);
    hide Inv;
    if Answers(s, c) && s.managed[id].born <= c {
      assert forall d :: c < d < |s.ledger| && s.ledger[d].stream == id ==> s.ledger[c].version < s.ledger[d].version;
    }
  }

  // ----- Running without a collector -----

  predicate Phantom(s: System, id: int) {
    id in s.managed && s.managed[id].state == Running && s.managed[id].collector == None
  }

  // A stored bar that the stream's handle answers.
  predicate AnsweredStore(s: System, e: Event, id: int) {
    e.Store? && e.collector < |s.ledger| && s.ledger[e.collector].stream == id && Answers(s, e.collector)
  }

  // A collector that an earlier handle of its stream had started, or that was taken
  // out of the handle by another one's exit.
  predicate Outsider(s: System, c: nat) {
    && c < |s.ledger| && s.ledger[c].stream in s.managed
    && (c < s.managed[s.ledger[c].stream].born || s.ledger[c].fate == Lost)
  }

  // A handle without a collector answers outsiders only: its own collectors exited,
  // and report nothing after that, or were handed over.
  lemma {:induction false} OnlyOutsidersAnswered(cfg: Config, s: System, e: Event, id: int)
    requires Inv(cfg, s) && Enabled(s, e) && AnsweredStore(s, e, id) && s.managed[id].collector == None
    ensures Outsider(s, e.collector)
  {
    var c := e.collector;
    if s.managed[id].born <= c {
      assert VersionsOk(s.ledger, id, s.managed[id]);
      assert s.ledger[c].fate != Current && s.ledger[c].fate != Exited by {
        hide HandleOk, VersionsOk, StopsOk;
      }
    }
    hide Inv;
  }

  // A stored bar of an outsider that a handle without a collector answers.
  predicate Revives(s: System, e: Event, id: int) {
    AnsweredStore(s, e, id) && s.managed[id].collector == None && Outsider(s, e.collector)
  }

  // A stream runs without a collector exactly when it did and was neither observed nor
  // removed, or when it had none and an outsider's stored bar is answered.
  lemma {:induction false} PhantomExactly(cfg: Config, s: System, e: Event, id: int)
    requires Inv(cfg, s) && Enabled(s, e)
    ensures Phantom(Step(cfg, s, e), id) <==>
            (Phantom(s, id) && !Observes(e, id) && !Removes(e, id)) || Revives(s, e, id)
  {
    if AnsweredStore(s, e, id) && s.managed[id].collector == None {
      OnlyOutsidersAnswered(cfg, s, e, id);
    }
    hide Outsider;
    match e
    case Reconcile(now, stream, factoryError) =>
      if stream.id == id {
        ObservedIsNoPhantom(cfg, s, e);
      } else if id in s.managed {
        OtherStreamReconciled(cfg, s, e, id);
        hide Inv, Step;
      } else {
        StepOnHandle(cfg, s, e, id);
        hide Inv, Step;
      }
    case _ =>
      if id in s.managed {
        assert HandleOk(cfg, s.ledger, id, s.managed[id]);
      }
      hide Inv;
  }

  lemma {:induction false} ObservedIsNoPhantom(cfg: Config, s: System, e: Event)
    requires Inv(cfg, s) && Enabled(s, e) && e.Reconcile?
    ensures !Phantom(Step(cfg, s, e), e.stream.id)
  {
    hide Inv;
  }

  // In a run: some outsider's stored bar met a handle without a collector, and since
  // then the stream was neither observed nor removed.
  ghost predicate PhantomCause(cfg: Config, s: System, events: seq<Event>, id: int, k: nat) {
    && k < |events| && After(cfg, s, events[..k]).Some?
    && Revives(After(cfg, s, events[..k]).value, events[k], id)
    && forall j :: k < j < |events| ==> !Observes(events[j], id) && !Removes(events[j], id)
  }

  ghost predicate HasCause(cfg: Config, s: System, events: seq<Event>, id: int) {
    exists k: nat :: PhantomCause(cfg, s, events, id, k)
  }

  lemma {:induction false} PhantomRun(cfg: Config, events: seq<Event>, id: int)
    requires After(cfg, INITIAL, events).Some?
    ensures Phantom(After(cfg, INITIAL, events).value, id) <==> HasCause(cfg, INITIAL, events, id)
    decreases |events|
  {
    hide Inv, Step, Enabled, Observes, Removes, Revives, PhantomCause, HasCause;
    if events == [] {
      NoCause(cfg, INITIAL, id);
    } else {
      hide Phantom;
      var n := |events| - 1;
      PhantomRun(cfg, events[..n], id);
      ReachableInv(cfg, events[..n]);
      PhantomExactly(cfg, After(cfg, INITIAL, events[..n]).value, events[n], id);
      CauseSnoc(cfg, INITIAL, events, id);
    }
  }

  lemma NoCause(cfg: Config, s: System, id: int)
    ensures !HasCause(cfg, s, [], id)
  {
    hide After, Revives, Observes, Removes;
  }

  lemma {:induction false} CauseSnoc(cfg: Config, s: System, events: seq<Event>, id: int)
    requires events != [] && After(cfg, s, events[..|events| - 1]).Some?
    ensures var n := |events| - 1;
            var u := After(cfg, s, events[..n]).value;
            HasCause(cfg, s, events, id) <==>
              (HasCause(cfg, s, events[..n], id) && !Observes(events[n], id) && !Removes(events[n], id))
              || Revives(u, events[n], id)
  {
    hide After, Revives, Observes, Removes, PhantomCause;
    var n := |events| - 1;
    CauseAtEnd(cfg, s, events, id);
    if HasCause(cfg, s, events, id) {
      var k: nat :| PhantomCause(cfg, s, events, id, k);
      CauseInside(cfg, s, events, id, k);
      if k < n {
        CauseExtends(cfg, s, events, id, k);
      }
    }
    if HasCause(cfg, s, events[..n], id) {
      var k: nat :| PhantomCause(cfg, s, events[..n], id, k);
      CauseInside(cfg, s, events[..n], id, k);
      CauseExtends(cfg, s, events, id, k);
    }
  }

  lemma CauseInside(cfg: Config, s: System, events: seq<Event>, id: int, k: nat)
    ensures PhantomCause(cfg, s, events, id, k) ==> k < |events|
  {
    hide After, Revives, Observes, Removes;
  }

  lemma CauseAtEnd(cfg: Config, s: System, events: seq<Event>, id: int)
    requires events != [] && After(cfg, s, events[..|events| - 1]).Some?
    ensures var n := |events| - 1;
            var u := After(cfg, s, events[..n]).value;
            PhantomCause(cfg, s, events, id, n) <==> Revives(u, events[n], id)
  {
    hide After, Observes, Removes;
  }

  lemma {:induction false} CauseExtends(cfg: Config, s: System, events: seq<Event>, id: int, k: nat)
    requires k < |events| - 1
    ensures PhantomCause(cfg, s, events, id, k) <==>
            PhantomCause(cfg, s, events[..|events| - 1], id, k)
            && !Observes(events[|events| - 1], id) && !Removes(events[|events| - 1], id)
  {
    hide After, Revives, Observes, Removes;
    assert events[..|events| - 1][..k] == events[..k];
  }

  // ----- Staying stopped -----

  predicate Rests(s: System, id: int) {
    id in s.managed && s.managed[id].state == Stopped && s.managed[id].collector == None
  }

  predicate AlwaysRests(cfg: Config, s: System, events: seq<Event>, id: int)
    requires After(cfg, s, events).Some?
    decreases |events|
  {
    Rests(After(cfg, s, events).value, id) && (events == [] || AlwaysRests(cfg, s, events[..|events| - 1], id))
  }

  predicate NeverRevived(cfg: Config, s: System, events: seq<Event>, id: int)
    requires After(cfg, s, events).Some?
    decreases |events|
  {
    events == [] ||
    var n := |events| - 1;
    NeverRevived(cfg, s, events[..n], id) && !Revives(After(cfg, s, events[..n]).value, events[n], id)
  }

  lemma {:induction false} RestStep(cfg: Config, s: System, e: Event, id: int)
    requires Inv(cfg, s) && Enabled(s, e) && Rests(s, id)
    requires !ObservesWanted(e, id) && !Removes(e, id)
    ensures Rests(Step(cfg, s, e), id) <==> !Revives(s, e, id)
  {
    if AnsweredStore(s, e, id) {
      OnlyOutsidersAnswered(cfg, s, e, id);
    }
    hide Outsider;
    if e.Reconcile? {
      if e.stream.id == id {
        ObserveOnHandle(cfg, s, e);
      } else {
        OtherStreamReconciled(cfg, s, e, id);
      }
      hide Inv, Step;
    } else {
      hide Inv;
    }
  }

  lemma {:induction false} OtherStreamReconciled(cfg: Config, s: System, e: Event, id: int)
    requires Inv(cfg, s) && Enabled(s, e) && e.Reconcile? && e.stream.id != id && id in s.managed
    ensures var t := Step(cfg, s, e);
            id in t.managed && t.managed[id] == s.managed[id]
            && |t.ledger| <= |s.ledger| + 1
            && (|t.ledger| == |s.ledger| + 1 ==> t.ledger[|s.ledger|].stream == e.stream.id)
  {
    hide Inv;
  }

  // A stopped stream without a collector, listed and unwanted, stays so throughout a
  // run if and only if it answers no outsider.
  lemma {:induction false} StaysStopped(cfg: Config, s: System, events: seq<Event>, id: int)
    requires Inv(cfg, s) && After(cfg, s, events).Some? && Unwanted(events, id) && Rests(s, id)
    ensures AlwaysRests(cfg, s, events, id) <==> NeverRevived(cfg, s, events, id)
    decreases |events|
  {
    if events != [] {
      hide Inv, Step, Enabled, Observes, Removes, ObservesWanted, ObservesIdle, Unwanted, Rests, Revives;
      var n := |events| - 1;
      UnwantedParts(events, id);
      StaysStopped(cfg, s, events[..n], id);
      RunKeepsInv(cfg, s, events[..n]);
      if AlwaysRests(cfg, s, events[..n], id) {
        RestStep(cfg, After(cfg, s, events[..n]).value, events[n], id);
      }
    }
  }

  // ----- Streams without outsiders -----

  // None of the handle's own collectors was stolen.
  predicate NoneStolen(s: System, id: int) {
    && id in s.managed
    && forall c :: s.managed[id].born <= c < |s.ledger| && s.ledger[c].stream == id ==> s.ledger[c].fate != Lost
  }

  // Callbacks of collectors that an earlier handle of the stream had started.
  predicate FromEarlierHandle(e: Event, born: nat) {
    e.Store? && e.collector < born
  }

  lemma {:induction false} RestingStep(cfg: Config, s: System, e: Event, id: int)
    requires Inv(cfg, s) && Enabled(s, e) && NoneStolen(s, id) && s.managed[id].collector == None
    requires !ObservesWanted(e, id) && !Removes(e, id)
    ensures var t := Step(cfg, s, e);
            NoneStolen(t, id) && t.managed[id].collector == None && t.managed[id].born == s.managed[id].born
  {
    var t := Step(cfg, s, e);
    StepOnHandle(cfg, s, e, id);
    if Observes(e, id) {
      ObserveOnHandle(cfg, s, e);
    } else {
      OnlyObservedStart(cfg, s, e, id);
    }
    forall c | 0 <= c < |s.ledger| && s.ledger[c].stream == id && s.ledger[c].fate != Lost
      ensures t.ledger[c].fate != Lost
    {
      LostOnlyByOwnStream(cfg, s, e, id, c);
    }
    hide Inv, Step, Enabled;
  }

  // A collector of a stream is lost only by an exit of one of that stream, that steals.
  lemma {:induction false} LostOnlyByOwnStream(cfg: Config, s: System, e: Event, id: int, c: nat)
    requires Inv(cfg, s) && Enabled(s, e) && c < |s.ledger| && s.ledger[c].stream == id && s.ledger[c].fate != Lost
    ensures c < |Step(cfg, s, e).ledger|
    ensures Step(cfg, s, e).ledger[c].fate == Lost ==>
              Steals(s, e) && s.ledger[e.collector].stream == id && s.managed[id].collector == Some(c)
  {
    if e.Exit? && Answers(s, e.collector) && s.managed[s.ledger[e.collector].stream].collector.Some? {
      HeldByItsStream(cfg, s, s.ledger[e.collector].stream);
      ExitFindsItself(cfg, s, e.collector);
    }
    hide Inv;
    if e.Reconcile? {
      ObserveLosesNone(cfg, s, e, c);
    } else {
      hide ReconcileStream;
    }
  }

  lemma {:induction false} ObserveLosesNone(cfg: Config, s: System, e: Event, c: nat)
    requires Enabled(s, e) && e.Reconcile? && c < |s.ledger| && s.ledger[c].fate != Lost
    ensures c < |Step(cfg, s, e).ledger| && Step(cfg, s, e).ledger[c].fate != Lost
  {
  }

  // A resting stream, none of whose collectors was stolen, answers nobody unless a
  // collector of an earlier handle reports.
  lemma {:induction false} OnlyEarlierRevive(cfg: Config, s: System, events: seq<Event>, id: int)
    requires Inv(cfg, s) && After(cfg, s, events).Some? && Unwanted(events, id)
    requires NoneStolen(s, id) && s.managed[id].collector == None
    ensures var t := After(cfg, s, events).value;
            NoneStolen(t, id) && t.managed[id].collector == None && t.managed[id].born == s.managed[id].born
    ensures (forall k :: 0 <= k < |events| ==> !FromEarlierHandle(events[k], s.managed[id].born)) ==>
              NeverRevived(cfg, s, events, id)
    decreases |events|
  {
    if events != [] {
      hide Inv, Step, Enabled, Observes, Removes, ObservesWanted, ObservesIdle, Unwanted;
      var n := |events| - 1;
      UnwantedParts(events, id);
      OnlyEarlierRevive(cfg, s, events[..n], id);
      RunKeepsInv(cfg, s, events[..n]);
      RestingStep(cfg, After(cfg, s, events[..n]).value, events[n], id);
    }
  }

  // Every collector of the handle is past answering.
  predicate AllOutdated(s: System, id: int) {
    && id in s.managed
    && forall c :: s.managed[id].born <= c < |s.ledger| && s.ledger[c].stream == id ==>
         s.ledger[c].version < s.managed[id].version
  }

  lemma {:induction false} DrainedAllOutdated(cfg: Config, s: System, e: Event)
    requires Inv(cfg, s) && e.Reconcile? && Enabled(s, e)
    requires e.stream.id in s.managed && s.managed[e.stream.id].collector.Some?
    requires Step(cfg, s, e).managed[e.stream.id].collector == None
    ensures AllOutdated(Step(cfg, s, e), e.stream.id)
  {
    ObserveOnHandle(cfg, s, e);
    StepOnHandle(cfg, s, e, e.stream.id);
    assert VersionsOk(s.ledger, e.stream.id, s.managed[e.stream.id]);
    hide Inv, Step, Enabled;
  }

  lemma {:induction false} OutdatedStep(cfg: Config, s: System, e: Event, id: int)
    requires Inv(cfg, s) && Enabled(s, e) && AllOutdated(s, id) && s.managed[id].collector == None
    requires !ObservesWanted(e, id) && !Removes(e, id)
    ensures var t := Step(cfg, s, e);
            AllOutdated(t, id) && t.managed[id].collector == None && t.managed[id].born == s.managed[id].born
  {
    StepOnHandle(cfg, s, e, id);
    if Observes(e, id) {
      ObserveOnHandle(cfg, s, e);
    } else {
      OnlyObservedStart(cfg, s, e, id);
    }
    hide Inv, Step, Enabled;
  }

  // So does one all of whose own collectors are outdated, even if one was stolen.
  lemma {:induction false} OutdatedOnlyEarlierRevive(cfg: Config, s: System, events: seq<Event>, id: int)
    requires Inv(cfg, s) && After(cfg, s, events).Some? && Unwanted(events, id)
    requires AllOutdated(s, id) && s.managed[id].collector == None
    ensures var t := After(cfg, s, events).value;
            AllOutdated(t, id) && t.managed[id].collector == None && t.managed[id].born == s.managed[id].born
    ensures (forall k :: 0 <= k < |events| ==> !FromEarlierHandle(events[k], s.managed[id].born)) ==>
              NeverRevived(cfg, s, events, id)
    decreases |events|
  {
    if events != [] {
      hide Inv, Step, Enabled, Observes, Removes, ObservesWanted, ObservesIdle, Unwanted;
      var n := |events| - 1;
      UnwantedParts(events, id);
      OutdatedOnlyEarlierRevive(cfg, s, events[..n], id);
      RunKeepsInv(cfg, s, events[..n]);
      OutdatedStep(cfg, After(cfg, s, events[..n]).value, events[n], id);
    }
  }

  // From a drain deadline on. While a stream with a deadline stays listed and
  // unwanted, the first observation at or past the deadline leaves it stopped, and it
  // then stays stopped throughout if and only if it answers no outsider. It answers
  // none, whether that observation drained its collector or the collector had exited
  // by itself before, unless a collector of an earlier handle reports or, after an
  // exit, one that was stolen does.
  lemma {:induction false} StoppedFromDeadlineOn(cfg: Config, s: System, events: seq<Event>, e: Event,
                                                 later: seq<Event>, id: int, deadline: Time)
    requires Inv(cfg, s) && After(cfg, s, events).Some? && Unwanted(events, id)
    requires id in s.managed && s.managed[id].drainDeadline == Some(deadline)
    requires ObservesIdle(e, id) && e.now >= deadline && Enabled(After(cfg, s, events).value, e)
    requires After(cfg, Step(cfg, After(cfg, s, events).value, e), later).Some? && Unwanted(later, id)
    ensures var u := After(cfg, s, events).value;
            var t := Step(cfg, u, e);
            && Rests(t, id) && id in u.managed
            && (AlwaysRests(cfg, t, later, id) <==> NeverRevived(cfg, t, later, id))
            && ((u.managed[id].collector.Some? || NoneStolen(t, id))
                && (forall k :: 0 <= k < |later| ==> !FromEarlierHandle(later[k], t.managed[id].born))
                ==> AlwaysRests(cfg, t, later, id))
  {
    hide Inv, Step, Enabled, After, Unwanted, AllOutdated, AlwaysRests, NeverRevived, NoneStolen;
    var u := After(cfg, s, events).value;
    var t := Step(cfg, u, e);
    StoppedAtDeadline(cfg, s, events, e, id, deadline);
    DeadlineKept(cfg, s, events, id, deadline);
    RunKeepsInv(cfg, s, events);
    StepKeepsInv(cfg, u, e);
    StaysStopped(cfg, t, later, id);
    if u.managed[id].collector.Some? {
      DrainedAllOutdated(cfg, u, e);
      OutdatedOnlyEarlierRevive(cfg, t, later, id);
    }
    if NoneStolen(t, id) {
      OnlyEarlierRevive(cfg, t, later, id);
    }
  }

  // ----- Streams that are never removed -----

  // All collectors ever started for the stream are its handle's own, and none was
  // stolen.
  predicate OwnOnly(s: System, id: int) {
    forall c :: 0 <= c < |s.ledger| && s.ledger[c].stream == id ==>
      id in s.managed && s.managed[id].born <= c && s.ledger[c].fate != Lost
  }

  predicate NeverRemoved(events: seq<Event>, id: int) {
    forall k :: 0 <= k < |events| ==> !Removes(events[k], id)
  }

  lemma {:induction false} OwnOnlyStep(cfg: Config, s: System, e: Event, id: int)
    requires Inv(cfg, s) && Enabled(s, e) && OwnOnly(s, id) && !Removes(e, id)
    ensures OwnOnly(Step(cfg, s, e), id)
  {
    var t := Step(cfg, s, e);
    StepOnHandle(cfg, s, e, id);
    if Observes(e, id) {
      ObservationStarts(cfg, s, e);
    } else {
      OnlyObservedStart(cfg, s, e, id);
    }
    forall c | 0 <= c < |s.ledger| && s.ledger[c].stream == id ensures t.ledger[c].fate != Lost {
      LostOnlyByOwnStream(cfg, s, e, id, c);
    }
    hide Inv, Step, Enabled;
  }

  lemma {:induction false} ObservationStarts(cfg: Config, s: System, e: Event)
    requires Inv(cfg, s) && Enabled(s, e) && e.Reconcile?
    ensures var id, t := e.stream.id, Step(cfg, s, e);
            && id in t.managed && |s.ledger| <= |t.ledger|
            && t.managed[id].born == (if id in s.managed then s.managed[id].born else |s.ledger|)
            && t.managed[id].born <= |s.ledger|
            && forall c :: |s.ledger| <= c < |t.ledger| ==> t.ledger[c].fate == Current
  {
    if e.stream.id in s.managed {
      assert HandleOk(cfg, s.ledger, e.stream.id, s.managed[e.stream.id]);
    }
    hide Inv;
  }

  lemma {:induction false} NeverRemovedOwnOnly(cfg: Config, s: System, events: seq<Event>, id: int)
    requires Inv(cfg, s) && OwnOnly(s, id) && After(cfg, s, events).Some? && NeverRemoved(events, id)
    ensures OwnOnly(After(cfg, s, events).value, id)
    decreases |events|
  {
    if events != [] {
      hide Inv, Step, Enabled, Removes, OwnOnly;
      var n := |events| - 1;
      NeverRemovedOwnOnly(cfg, s, events[..n], id);
      RunKeepsInv(cfg, s, events[..n]);
      OwnOnlyStep(cfg, After(cfg, s, events[..n]).value, events[n], id);
    }
  }

  // A stream that is never removed never runs without a collector.
  lemma {:induction false} NeverRemovedNeverPhantom(cfg: Config, events: seq<Event>, id: int)
    requires After(cfg, INITIAL, events).Some? && NeverRemoved(events, id)
    ensures !Phantom(After(cfg, INITIAL, events).value, id)
    decreases |events|
  {
    if events != [] {
      var n := |events| - 1;
      var s := After(cfg, INITIAL, events[..n]).value;
      NeverRemovedNeverPhantom(cfg, events[..n], id);
      ReachableInv(cfg, events[..n]);
      InitialInv(cfg);
      NeverRemovedOwnOnly(cfg, INITIAL, events[..n], id);
      PhantomExactly(cfg, s, events[n], id);
      OwnOnlyAnswersNoOutsider(s, events[n], id);
      hide Inv, Step, Enabled, Removes, OwnOnly, Revives, Phantom;
    }
  }

  lemma OwnOnlyAnswersNoOutsider(s: System, e: Event, id: int)
    requires OwnOnly(s, id)
    ensures !Revives(s, e, id)
  {
  }

  // A stopped stream that is never removed stays stopped while it is not wanted,
  // whatever its collectors report.
  lemma {:induction false} NeverRemovedStaysStopped(cfg: Config, events: seq<Event>, later: seq<Event>, id: int)
    requires After(cfg, INITIAL, events).Some? && NeverRemoved(events, id)
    requires Rests(After(cfg, INITIAL, events).value, id)
    requires After(cfg, After(cfg, INITIAL, events).value, later).Some? && Unwanted(later, id)
    ensures AlwaysRests(cfg, After(cfg, INITIAL, events).value, later, id)
  {
    var s := After(cfg, INITIAL, events).value;
    ReachableInv(cfg, events);
    InitialInv(cfg);
    NeverRemovedOwnOnly(cfg, INITIAL, events, id);
    hide Inv, After, OwnOnly, Rests, AlwaysRests, NeverRevived;
    StaysStopped(cfg, s, later, id);
    OwnOnlyNeverRevived(cfg, s, later, id);
  }

  lemma {:induction false} OwnOnlyNeverRevived(cfg: Config, s: System, events: seq<Event>, id: int)
    requires Inv(cfg, s) && OwnOnly(s, id) && After(cfg, s, events).Some? && Unwanted(events, id)
    ensures NeverRevived(cfg, s, events, id)
    decreases |events|
  {
    if events != [] {
      var n := |events| - 1;
      hide Inv, Step, Enabled, Removes, OwnOnly, Revives, ObservesWanted, Unwanted;
      UnwantedParts(events, id);
      OwnOnlyNeverRevived(cfg, s, events[..n], id);
      UnwantedNeverRemoved(events[..n], id);
      NeverRemovedOwnOnly(cfg, s, events[..n], id);
      OwnOnlyAnswersNoOutsider(After(cfg, s, events[..n]).value, events[n], id);
    }
  }

  lemma UnwantedNeverRemoved(events: seq<Event>, id: int)
    requires Unwanted(events, id)
    ensures NeverRemoved(events, id)
  {
    hide Removes, ObservesWanted;
  }

  // ----- Runs in which a natural claim fails -----

  const WANTED := Stream(1, "binance", "kline", "running", false, 0)
  const IDLE := WANTED.(desiredState := "stopped")

  lemma OneMore(cfg: Config, events: seq<Event>, s: System, e: Event) returns (more: seq<Event>)
    requires After(cfg, INITIAL, events) == Some(s) && Enabled(s, e)
    ensures more == events + [e] && After(cfg, INITIAL, more) == Some(Step(cfg, s, e))
  {
    hide Step, Enabled;
    AfterSnoc(cfg, INITIAL, events, e);
    more := events + [e];
  }

  // The first start of the stream, in an empty runtime or after all its handles went.
  lemma {:induction false} FirstStart(cfg: Config, s: System, now: Time)
    requires s.managed == map[] && s.stopping == {}
    ensures var t := Step(cfg, s, Reconcile(now, WANTED, None));
            && t.managed.Keys == {1} && t.managed[1].collector == Some(|s.ledger|) && t.managed[1].version == 1
            && t.managed[1].born == |s.ledger|
            && t == s.(managed := t.managed, ledger := s.ledger + [Start(1, 1, Current)])
  {
  }

  // The stream is no longer listed: its only handle, holding a collector, goes.
  lemma {:induction false} Unlisted(cfg: Config, s: System, c: nat)
    requires s.managed.Keys == {1} && s.managed[1].collector == Some(c)
    ensures var t := Step(cfg, Step(cfg, s.(stopping := {}), StopMissing({})), FinishStops);
            t == s.(managed := map[], ledger := Settle(s.ledger, {c}, Retired), stopping := {},
                cancelled := s.cancelled + {c})
  {
    assert Dropped(s.(stopping := {}), {}) == {c};
  }

  // The empty run.
  function Nothing(cfg: Config): (events: seq<Event>)
    ensures events == [] && After(cfg, INITIAL, events) == Some(INITIAL)
  {
    []
  }

  // A stream is removed and listed again.
  lemma {:induction false} Relisted(cfg: Config) returns (events: seq<Event>, t: System)
    ensures events == [Reconcile(0, WANTED, None), StopMissing({}), FinishStops, Reconcile(5, WANTED, None)]
    ensures After(cfg, INITIAL, events) == Some(t) && t.ledger == [Start(1, 1, Retired), Start(1, 1, Current)]
    ensures t.managed.Keys == {1} && t.managed[1].collector == Some(1) && t.managed[1].version == 1
    ensures t.leaving == {} && t.returned == {} && t.cancelled == {0} && t.stopping == {} && !t.runDone
  {
    var s1 := Step(cfg, INITIAL, Reconcile(0, WANTED, None));
    FirstStart(cfg, INITIAL, 0);
    var s2 := Step(cfg, s1, StopMissing({}));
    var s3 := Step(cfg, s2, FinishStops);
    assert s1.(stopping := {}) == s1;
    Unlisted(cfg, s1, 0);
    assert s3.ledger == [Start(1, 1, Retired)];
    t := Step(cfg, s3, Reconcile(5, WANTED, None));
    FirstStart(cfg, s3, 5);
    hide Step, After;
    events := OneMore(cfg, Nothing(cfg), INITIAL, Reconcile(0, WANTED, None));
    events := OneMore(cfg, events, s1, StopMissing({}));
    events := OneMore(cfg, events, s2, FinishStops);
    events := OneMore(cfg, events, s3, Reconcile(5, WANTED, None));
  }

  // The new handle counts versions from the start, so a stored bar of the old,
  // cancelled collector, still inside its Run, makes the new one look running although
  // it has stored nothing.
  lemma {:induction false} RecreatedHandleAnswersOldCollector(cfg: Config) returns (events: seq<Event>, t: System)
    ensures events == [Reconcile(0, WANTED, None), StopMissing({}), FinishStops, Reconcile(5, WANTED, None),
                       Store(0, 9)]
    ensures After(cfg, INITIAL, events) == Some(t) && |t.ledger| == 2
    ensures 0 in t.cancelled && t.ledger[0].fate == Retired
    ensures 1 in t.managed && t.managed[1].collector == Some(1)
    ensures t.managed[1].state == Running && t.managed[1].lastDataAt == Some(9)
  {
    var s;
    events, s := Relisted(cfg);
    t := Step(cfg, s, Store(0, 9));
    hide Step, After;
    events := OneMore(cfg, events, s, Store(0, 9));
  }

  // The new collector exits by itself.
  lemma {:induction false} NewExits(cfg: Config, s: System)
    requires s.managed.Keys == {1} && s.managed[1].collector == Some(1) && s.managed[1].version == 1
    requires s.ledger == [Start(1, 1, Retired), Start(1, 1, Current)] && 1 in s.leaving
    ensures var t := Step(cfg, s, Exit(1));
            && t.ledger == [Start(1, 1, Retired), Start(1, 1, Exited)]
            && t.stopping == s.stopping && t.returned == s.returned
            && t.managed.Keys == {1} && t.managed[1].collector == None && t.managed[1].version == 1
  {
  }

  // The stream is seen idle, and then the old collector reports a stored bar.
  lemma {:induction false} IdleThenStored(cfg: Config, s: System)
    requires s.ledger == [Start(1, 1, Retired), Start(1, 1, Exited)] && s.stopping == {} && s.returned == {1}
    requires s.managed.Keys == {1} && s.managed[1].collector == None && s.managed[1].version == 1
    ensures var t := Step(cfg, s, Reconcile(9, IDLE, None));
            Rests(t, 1) && Enabled(t, Store(0, 11)) && Phantom(Step(cfg, t, Store(0, 11)), 1)
  {
    var t := Step(cfg, s, Reconcile(9, IDLE, None));
    assert t.managed[1].version == 1 && t.ledger == s.ledger && t.returned == s.returned;
  }

  // The stream is removed and listed again, its new collector exits, and it is seen
  // idle and stopped; then the old collector, still inside its Run, turns it to
  // running with no collector in the handle.
  lemma {:induction false} OldCollectorRevivesStopped(cfg: Config) returns (events: seq<Event>, idle: System, t: System)
    ensures events == [Reconcile(0, WANTED, None), StopMissing({}), FinishStops, Reconcile(5, WANTED, None),
                       Return(1), Exit(1), Reconcile(9, IDLE, None), Store(0, 11)]
    ensures After(cfg, INITIAL, events[..7]) == Some(idle) && Rests(idle, 1)
    ensures After(cfg, INITIAL, events) == Some(t) && Phantom(t, 1)
  {
    var s4;
    events, s4 := Relisted(cfg);
    hide After, ReconcileStream, CollectorExited;
    var s5 := Step(cfg, s4, Return(1));
    assert s5 == s4.(returned := {1}, leaving := {1});
    NewExits(cfg, s5);
    var s6 := Step(cfg, s5, Exit(1));
    IdleThenStored(cfg, s6);
    idle := Step(cfg, s6, Reconcile(9, IDLE, None));
    t := Step(cfg, idle, Store(0, 11));
    hide Step;
    events := OneMore(cfg, events, s4, Return(1));
    events := OneMore(cfg, events, s5, Exit(1));
    var seven := OneMore(cfg, events, s6, Reconcile(9, IDLE, None));
    events := OneMore(cfg, seven, idle, Store(0, 11));
    assert events[..7] == seven;
  }

  // A shutdown that comes while a pass goes on, with a context nobody cancels: the next
  // listing starts a collector before the shutdown has cancelled the old one.
  lemma {:induction false} ShutdownOverlapsAStart(cfg: Config) returns (events: seq<Event>, t: System)
    ensures events == [Reconcile(0, WANTED, None), Shutdown, Reconcile(5, WANTED, None)]
    ensures After(cfg, INITIAL, events) == Some(t) && t.ledger == [Start(1, 1, Retired), Start(1, 1, Current)]
    ensures Live(t, 0) && Live(t, 1) && NoneLost(t) && NeverSteals(cfg, INITIAL, events)
  {
    var s1 := Step(cfg, INITIAL, Reconcile(0, WANTED, None));
    FirstStart(cfg, INITIAL, 0);
    assert Dropped(s1, {}) == {0};
    var s2 := Step(cfg, s1, Shutdown);
    assert s2.ledger == [Start(1, 1, Retired)] && s2.managed == map[] && s2.closing == {0};
    t := Step(cfg, s2, Reconcile(5, WANTED, None));
    FirstStart(cfg, s2, 5);
    hide Step, After;
    events := OneMore(cfg, Nothing(cfg), INITIAL, Reconcile(0, WANTED, None));
    events := OneMore(cfg, events, s1, Shutdown);
    events := OneMore(cfg, events, s2, Reconcile(5, WANTED, None));
    LostExactly(cfg, events);
  }

  // A collector has returned and seen its context not done when its stream is removed
  // and listed again.
  lemma {:induction false} RelistedWhileLeaving(cfg: Config) returns (events: seq<Event>, t: System)
    ensures events == [Reconcile(0, WANTED, None), Return(0), StopMissing({}), FinishStops, Reconcile(5, WANTED, None)]
    ensures After(cfg, INITIAL, events) == Some(t) && t.ledger == [Start(1, 1, Retired), Start(1, 1, Current)]
    ensures t.managed.Keys == {1} && t.managed[1].collector == Some(1) && t.managed[1].version == 1
    ensures t.leaving == {0} && t.returned == {0} && t.cancelled == {0} && t.stopping == {} && !t.runDone
  {
    var s1 := Step(cfg, INITIAL, Reconcile(0, WANTED, None));
    FirstStart(cfg, INITIAL, 0);
    var s2 := Step(cfg, s1, Return(0));
    var s3 := Step(cfg, s2, StopMissing({}));
    var s4 := Step(cfg, s3, FinishStops);
    assert s2.(stopping := {}) == s2;
    Unlisted(cfg, s2, 0);
    assert s4.ledger == [Start(1, 1, Retired)] && s4.leaving == {0} && s4.cancelled == {0};
    t := Step(cfg, s4, Reconcile(5, WANTED, None));
    FirstStart(cfg, s4, 5);
    hide Step, After;
    events := OneMore(cfg, Nothing(cfg), INITIAL, Reconcile(0, WANTED, None));
    events := OneMore(cfg, events, s1, Return(0));
    events := OneMore(cfg, events, s2, StopMissing({}));
    events := OneMore(cfg, events, s3, FinishStops);
    events := OneMore(cfg, events, s4, Reconcile(5, WANTED, None));
  }

  // Its section then takes the new collector out of the new handle, and the next
  // listing starts a third beside it: two live collectors for one stream.
  lemma {:induction false} StolenCollectorStaysLive(cfg: Config) returns (events: seq<Event>, t: System)
    ensures events == [Reconcile(0, WANTED, None), Return(0), StopMissing({}), FinishStops, Reconcile(5, WANTED, None),
                       Exit(0), Reconcile(10, WANTED, None)]
    ensures After(cfg, INITIAL, events) == Some(t) && |t.ledger| == 3
    ensures t.ledger[1].stream == t.ledger[2].stream && Live(t, 1) && Live(t, 2) && t.ledger[1].fate == Lost
  {
    var s5;
    events, s5 := RelistedWhileLeaving(cfg);
    var s6 := Step(cfg, s5, Exit(0));
    assert s6.ledger == [Start(1, 1, Retired), Start(1, 1, Lost)];
    assert s6.managed.Keys == {1} && s6.managed[1].collector == None;
    StolenThenStarted(cfg, s6);
    t := Step(cfg, s6, Reconcile(10, WANTED, None));
    assert s6.stopping == {} && s6.returned == {0} && s6.cancelled == {0} && !s6.runDone;
    hide Step, After;
    events := OneMore(cfg, events, s5, Exit(0));
    events := OneMore(cfg, events, s6, Reconcile(10, WANTED, None));
  }

  lemma {:induction false} StolenThenStarted(cfg: Config, s: System)
    requires 1 in s.managed && s.managed[1].collector == None && s.stopping == {}
    ensures var t := Step(cfg, s, Reconcile(10, WANTED, None));
            t.ledger == s.ledger + [Start(1, s.managed[1].version + 1, Current)]
            && t.returned == s.returned && t.cancelled == s.cancelled && t.runDone == s.runDone
  {
  }
}
