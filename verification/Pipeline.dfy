// From an observed alert to the killswitch's decision: the OnAlert and
// composite-emit closures of the detection engine (main.go), the event mapping
// and the policy, over whole runs.
module Pipeline {
  import opened Basics
  import opened Events
  import opened Composite
  import opened CompositeHistory
  import opened Devices
  import opened Policy
  import F = Feedback
  import N = NoisyOr

  /** What one alert causes. The suppression verdicts are those of the feedback store at that moment. */
  ghost predicate AlertStep(window: int, before: Clients, o: Observation, alertSuppressed: bool, compSuppressed: bool,
                            after: Clients, forwarded: Option<Alert>) {
    if alertSuppressed then after == before && forwarded == None
    else exists comp ::
      && ObserveStep(window, before, o.alert, o.at, after, comp)
      && forwarded == (if comp.None? then Some(o.alert) else if compSuppressed then None else comp)
  }

  class Engine {
    const correlator: Correlator
    const feedback: F.Store

    constructor (correlator: Correlator, feedback: F.Store)
      ensures this.correlator == correlator && this.feedback == feedback
    {
      this.correlator := correlator;
      this.feedback := feedback;
    }

    /** OnAlert, with the composite-emit closure it triggers; returns what reaches the webhook. `comp` is the
        composite the alert completes, if any. */
    method OnAlert(a: Alert, now: int)
      returns (forwarded: Option<Alert>, ghost supA: bool, ghost supC: bool, ghost comp: Option<Alert>)
      modifies correlator`clients, feedback`suppressions
      ensures supA <==> F.SilencesAlert(feedback.options.ttl, old(feedback.suppressions), a, now)
      ensures !supA ==> ObserveStep(correlator.window, old(correlator.clients), a, now, correlator.clients, comp)
      ensures !supA && comp.Some? ==>
                (supC <==> F.SilencesAlert(feedback.options.ttl, old(feedback.suppressions), comp.value, now))
      ensures AlertStep(correlator.window, old(correlator.clients), Observation(a, now), supA, supC,
                        correlator.clients, forwarded)
      ensures forwarded == if supA then None else if comp.None? then Some(a) else if supC then None else comp
    {
      forwarded, supC, comp := None, false, None;
      var suppressed := feedback.Suppressed(a, now);
      supA := suppressed;
      if suppressed {
        return;
      }
      var c := correlator.Observe(a, now);
      comp := c;
      match c
      case None =>
        forwarded := Some(a);
      case Some(combined) =>
        var silenced := feedback.Suppressed(combined, now);
        supC := silenced;
        if !silenced {
          forwarded := Some(combined);
        }
      assert ObserveStep(correlator.window, old(correlator.clients), a, now, correlator.clients, comp);
    }
  }

  // ----- whole runs -----

  /** One alert of a run with everything it caused. */
  datatype Event = Event(obs: Observation, alertSuppressed: bool, compSuppressed: bool,
                         after: Clients, forwarded: Option<Alert>)

  function ClientsAfter(run: seq<Event>): Clients {
    if run == [] then map[] else run[|run| - 1].after
  }

  /** A run of the engine from its empty state. */
  ghost predicate IsRun(window: int, run: seq<Event>) {
    run == [] ||
    (var n := |run| - 1;
     IsRun(window, run[..n])
     && AlertStep(window, ClientsAfter(run[..n]), run[n].obs, run[n].alertSuppressed, run[n].compSuppressed,
                  run[n].after, run[n].forwarded))
  }

  /** The alerts that got past the feedback store. */
  function Observed(run: seq<Event>): History {
    if run == [] then []
    else Observed(run[..|run| - 1]) + (if run[|run| - 1].alertSuppressed then [] else [run[|run| - 1].obs])
  }

  predicate ClockMonotone(run: seq<Event>) {
    forall i, j :: 0 <= i < j < |run| ==> run[i].obs.at <= run[j].obs.at
  }

  predicate SensorAlerts(run: seq<Event>) {
    forall i :: 0 <= i < |run| ==> SingleSignal(run[i].obs.alert)
  }

  /** After every run the correlator's lists satisfy their invariant for the alerts observed,
      and the number of tracked clients is within the cap. */
  lemma {:induction false} RunKeepsInv(window: int, run: seq<Event>)
    requires IsRun(window, run)
    ensures StoreInv(Observed(run), ClientsAfter(run)) && |ClientsAfter(run)| <= 4096
  {
    if run != [] {
      var n := |run| - 1;
      RunKeepsInv(window, run[..n]);
      var e := run[n];
      if !e.alertSuppressed {
        var comp :| ObserveStep(window, ClientsAfter(run[..n]), e.obs.alert, e.obs.at, e.after, comp);
        ObserveKeepsInv(window, Observed(run[..n]), ClientsAfter(run[..n]), e.obs, e.after, comp);
        assert Observed(run) == Observed(run[..n]) + [e.obs];
      } else {
        assert Observed(run) == Observed(run[..n]) && e.after == ClientsAfter(run[..n]);
      }
    }
  }

  lemma {:induction false} ObservedInRun(run: seq<Event>, j: nat)
    requires j < |Observed(run)|
    ensures exists i :: 0 <= i < |run| && !run[i].alertSuppressed && run[i].obs == Observed(run)[j]
  {
    var n := |run| - 1;
    if j < |Observed(run[..n])| {
      ObservedInRun(run[..n], j);
      var i :| 0 <= i < n && !run[..n][i].alertSuppressed && run[..n][i].obs == Observed(run[..n])[j];
      assert run[i] == run[..n][i];
    }
  }

  lemma {:induction false} IsRunPrefix(window: int, run: seq<Event>, n: nat)
    requires IsRun(window, run) && n <= |run|
    ensures IsRun(window, run[..n])
  {
    if n < |run| {
      var m := |run| - 1;
      assert run[..m][..n] == run[..n];
      IsRunPrefix(window, run[..m], n);
    } else {
      assert run[..n] == run;
    }
  }

  /** Externally attested evidence about the device of alert i: a feed match or an IDS signature, observed
      for that device in time. */
  ghost predicate Attested(run: seq<Event>, i: nat, window: int, j: int) {
    && i < |run| && 0 <= j <= i
    && !run[j].alertSuppressed
    && run[j].obs.alert.signalClass in {"ioc", "ids-signature"}
    && SameDevice(run[j].obs.alert, run[i].obs.alert)
    && 0 <= run[i].obs.at - run[j].obs.at <= window
  }

  /** One step: a forwarded alert that auto-blocks is backed by a known-bad alert in the window. */
  lemma AutoBlockIsAttested(window: int, h: History, before: Clients, e: Event, p: Policy) returns (c: string, m: int)
    requires window >= 0 && StoreInv(h, before) && SingleSignal(e.obs.alert) && p.autoRequireKnownBad
    requires !e.alertSuppressed && e.forwarded.Some?
    requires AlertStep(window, before, e.obs, e.alertSuppressed, e.compSuppressed, e.after, e.forwarded)
    requires Evaluate(p, AlertToEvent(e.forwarded.value)).verb == AutoBlock
    ensures IsKnownBadSignal(c)
    ensures InWindow(h + [e.obs], CorrelationKey(e.obs.alert), c, e.obs.at, window, m)
  {
    var f := e.forwarded.value;
    assert HasKnownBadSignal(AlertToEvent(f));
    var comp :| && ObserveStep(window, before, e.obs.alert, e.obs.at, e.after, comp)
                && e.forwarded == (if comp.None? then Some(e.obs.alert) else if e.compSuppressed then None else comp);
    if comp.None? {
      c, m := f.signalClass, |h|;
    } else {
      EmissionFacts(window, h, before, e.obs, e.after, f);
      c :| c in f.signals && IsKnownBadSignal(c);
      SignalsAreRecent(window, h, before, e.obs, e.after, f, c);
      m :| InWindow(h + [e.obs], CorrelationKey(e.obs.alert), c, e.obs.at, window, m);
    }
  }

  lemma RunStep(window: int, run: seq<Event>, i: nat)
    requires IsRun(window, run) && i < |run|
    ensures StoreInv(Observed(run[..i]), ClientsAfter(run[..i]))
    ensures AlertStep(window, ClientsAfter(run[..i]), run[i].obs, run[i].alertSuppressed, run[i].compSuppressed,
                      run[i].after, run[i].forwarded)
  {
    IsRunPrefix(window, run, i + 1);
    assert run[..i + 1][..i] == run[..i];
    RunKeepsInv(window, run[..i]);
  }

  /** Heuristics alone never auto-block. Over every run, if what is forwarded for alert i is decided
      auto_block, a known-bad alert about the same device was observed within the last window. */
  lemma HeuristicsNeverAutoBlock(window: int, run: seq<Event>, i: nat, p: Policy)
    requires window >= 0 && IsRun(window, run) && ClockMonotone(run) && SensorAlerts(run)
    requires i < |run| && run[i].forwarded.Some?
    requires p.autoRequireKnownBad
    requires Evaluate(p, AlertToEvent(run[i].forwarded.value)).verb == AutoBlock
    ensures exists j :: Attested(run, i, window, j)
  {
    RunStep(window, run, i);
    var c, m := AutoBlockIsAttested(window, Observed(run[..i]), ClientsAfter(run[..i]), run[i], p);
    RecentInRun(run, i, window, CorrelationKey(run[i].obs.alert), c, m);
  }

  lemma RecentInRun(run: seq<Event>, i: nat, window: int, key: string, c: string, m: int)
    requires i < |run| && ClockMonotone(run) && !run[i].alertSuppressed && IsKnownBadSignal(c)
    requires CorrelationKey(run[i].obs.alert) == key
    requires InWindow(Observed(run[..i]) + [run[i].obs], key, c, run[i].obs.at, window, m)
    ensures exists j :: Attested(run, i, window, j)
  {
    if m == |Observed(run[..i])| {
      KeyIff(run[i].obs.alert, run[i].obs.alert);
      assert Attested(run, i, window, i);
    } else {
      ObservedInRun(run[..i], m);
      var j :| 0 <= j < i && !run[..i][j].alertSuppressed && run[..i][j].obs == Observed(run[..i])[m];
      assert run[j] == run[..i][j];
      KeyIff(run[j].obs.alert, run[i].obs.alert);
      assert Attested(run, i, window, j);
    }
  }

  /** Over every run, an emitted composite is at least as confident as its (valid) trigger and at most
      the noisy-OR of the per-class maxima of that device's alerts inside the window. */
  lemma CompositeBounds(window: int, run: seq<Event>, i: nat, comp: Alert, kinds: seq<string>)
    requires window >= 0 && IsRun(window, run) && i < |run| && !run[i].alertSuppressed
    requires ObserveStep(window, ClientsAfter(run[..i]), run[i].obs.alert, run[i].obs.at, run[i].after, Some(comp))
    requires Covers(Observed(run[..i]) + [run[i].obs], CorrelationKey(run[i].obs.alert), run[i].obs.at, window, kinds)
    ensures run[i].obs.alert.confidence <= 100 ==> run[i].obs.alert.confidence <= comp.confidence
    ensures comp.confidence <= N.NoisyOr(WindowMaxima(Observed(run[..i]) + [run[i].obs],
                                                      CorrelationKey(run[i].obs.alert), kinds, run[i].obs.at, window))
  {
    RunStep(window, run, i);
    TriggerTakesPart(window, Observed(run[..i]), ClientsAfter(run[..i]), run[i].obs, run[i].after, comp);
    CompositeJustified(window, Observed(run[..i]), ClientsAfter(run[..i]), run[i].obs, run[i].after, comp, kinds);
  }

  /** A sensor alert whose severity follows from its confidence, as the pipeline produces them. */
  predicate Derived(a: Alert) {
    SingleSignal(a) && a.confidence <= 100 && (a.severity == "" || a.severity == SeverityForConfidence(a.confidence))
  }

  /** Exactly when superseding an alert by its composite weakens the response, for every policy:
      the composite names an allowlisted address the alert did not carry (only possible without a
      client IP), or the alert auto-blocks on its own and the composite has too few classes. */
  lemma SupersedingWeakensIff(window: int, h: History, before: Clients, o: Observation, after: Clients,
                              comp: Alert, p: Policy)
    requires StoreInv(h, before) && Derived(o.alert)
    requires ObserveStep(window, before, o.alert, o.at, after, Some(comp))
    ensures var single, combined := AlertToEvent(o.alert), AlertToEvent(comp);
            Strength(Evaluate(p, combined).verb) < Strength(Evaluate(p, single).verb)
            <==> Evaluate(p, single).verb != Ignore
                 && (p.allowlist.Contains(combined.clientMAC, combined.clientIP)
                     || (Evaluate(p, single).verb == AutoBlock && |comp.signals| < p.autoMinSignals))
  {
    EmissionFacts(window, h, before, o, after, comp);
    TriggerTakesPart(window, h, before, o, after, comp);
    CompositeIdentity(window, h, before, o, after, comp);
    SeverityMonotone(o.alert.confidence, comp.confidence);
    var single, combined := AlertToEvent(o.alert), AlertToEvent(comp);
    assert comp.severity != "";
    if p.allowlist.Contains(single.clientMAC, single.clientIP) {
      assert Evaluate(p, single).verb == Ignore;
    } else if !p.allowlist.Contains(combined.clientMAC, combined.clientIP) {
      assert AtLeastAsStrong(p, single, combined);
      StrongerEvidence(p, single, combined);
    }
  }

  /** In particular it never does when two signals are enough and the alert has a client address. */
  lemma SupersedingNeverWeakens(window: int, h: History, before: Clients, o: Observation, after: Clients,
                                comp: Alert, p: Policy)
    requires StoreInv(h, before) && Derived(o.alert) && o.alert.clientIP != "" && p.autoMinSignals <= 2
    requires ObserveStep(window, before, o.alert, o.at, after, Some(comp))
    ensures Strength(Evaluate(p, AlertToEvent(comp)).verb) >= Strength(Evaluate(p, AlertToEvent(o.alert)).verb)
  {
    SupersedingWeakensIff(window, h, before, o, after, comp, p);
    CompositeIdentity(window, h, before, o, after, comp);
    EmissionFacts(window, h, before, o, after, comp);
  }

  // ----- a response that superseding does weaken -----

  function Sensed(kind: string, confidence: int): Alert {
    Alert("", 1, "evil.example", "192.0.2.7", "aa", "", "", "", "", "", "", confidence, "", "", "", [], kind, [], 0)
  }

  const TLS_FIRST := [SignalOf(Sensed(TLS, 30), 1)]
  const IOC_SECOND := Observation(Sensed(IOC, 95), 2)

  lemma BothSignalsKept(window: int)
    requires window >= 1
    ensures Updated(window, map["mac:aa" := TLS_FIRST], IOC_SECOND.alert, 2) ==
              TLS_FIRST + [SignalOf(IOC_SECOND.alert, 2)]
  {
    KeyOfSensed(IOC, 95);
    assert TLS[0] != IOC[0];
    assert TLS_FIRST[..0] == [];
    assert Pruned(TLS_FIRST, 2, window) == TLS_FIRST;
    UpsertedAt(TLS_FIRST, SignalOf(IOC_SECOND.alert, 2), 1);
  }

  /** Two signals of different classes of which one reaches 50 always make a composite. */
  lemma PairEmits(a: Alert, s: Signal, t: Signal, now: int)
    requires s.kind != t.kind && MIN_EMIT_CONFIDENCE <= t.confidence <= 100
    ensures Emitted(a, [s, t], now).Some?
    ensures var comp := Emitted(a, [s, t], now).value; comp.signalCount == 2 && comp.confidence >= t.confidence
  {
    var sigs := [s, t];
    assert sigs[..1] == [s] && [s][..0] == [];
    assert Kinds(sigs[..1]) == [s.kind] && t.kind !in [s.kind];
    assert Kinds(sigs) == Kinds(sigs[..1]) + [t.kind];
    ClassesOf(sigs);
    BestKeys(sigs);
    BestIsStrongest(sigs, t.kind);
    assert t in sigs;
    var i :| 0 <= i < |Classes(sigs)| && Classes(sigs)[i] == t.kind;
    N.NoisyOrAtLeast(Confidences(Best(sigs), Classes(sigs)), i);
  }

  /** With AutoMinSignals at 3, a TLS oddity seen first turns the auto-block of a 95% feed match into
      a pending action: the pair forms a composite of two classes, which needs three. */
  lemma SupersedingCanWeaken(p: Policy, window: int) returns (after: Clients, comp: Alert)
    requires p.autoMinConfidence == 90 && p.autoMinSeverity == CRITICAL && p.autoMinSignals == 3
    requires !p.allowlist.Contains("aa", "192.0.2.7") && window >= 1
    ensures var before: Clients := map["mac:aa" := TLS_FIRST];
            && StoreInv([Observation(Sensed(TLS, 30), 1)], before) && Derived(IOC_SECOND.alert)
            && ObserveStep(window, before, IOC_SECOND.alert, 2, after, Some(comp))
    ensures Evaluate(p, AlertToEvent(IOC_SECOND.alert)).verb == AutoBlock
    ensures Evaluate(p, AlertToEvent(comp)).verb == Pend
  {
    var before: Clients := map["mac:aa" := TLS_FIRST];
    var h := [Observation(Sensed(TLS, 30), 1)];
    KeyOfSensed(TLS, 30);
    KeyOfSensed(IOC, 95);
    assert Origin(h, "mac:aa", TLS_FIRST[0], 0);
    BothSignalsKept(window);
    var sigs := TLS_FIRST + [SignalOf(IOC_SECOND.alert, 2)];
    assert sigs == [TLS_FIRST[0], SignalOf(IOC_SECOND.alert, 2)];
    assert TLS[0] != IOC[0];
    PairEmits(IOC_SECOND.alert, TLS_FIRST[0], SignalOf(IOC_SECOND.alert, 2), 2);
    after := before["mac:aa" := sigs];
    assert Evicted(after, after);
    comp := Emitted(IOC_SECOND.alert, sigs, 2).value;
    assert ObserveStep(window, before, IOC_SECOND.alert, 2, after, Some(comp));
    CompositeIdentity(window, h, before, IOC_SECOND, after, comp);
    EmissionFacts(window, h, before, IOC_SECOND, after, comp);
  }

  lemma KeyOfSensed(kind: string, confidence: int)
    ensures CorrelationKey(Sensed(kind, confidence)) == "mac:aa"
  {
    assert "aa"[1..] == "a" && "a"[1..] == "";
    assert ToLower("a") == "a";
    assert ToLower("aa") == "aa";
  }
}
