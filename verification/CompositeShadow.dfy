// A run in which an alert stays shadowed after its shadow has left the window.
module CompositeShadow {
  import opened Basics
  import opened Events
  import opened Composite
  import opened CompositeHistory
  import opened Pipeline
  import N = NoisyOr

  const KEY := "mac:aa"

  function Plain(o: Observation, after: Clients): Event {
    Event(o, false, false, after, Some(o.alert))
  }

  lemma LoneSignal(s: Signal, a: Alert, now: int)
    ensures Emitted(a, [s], now) == None
  {
    ClassesOf([s]);
    assert [s][..0] == [];
    assert Kinds([s][..0]) == [];
  }

  function Tracking(s: Signal): Clients {
    map[KEY := [s]]
  }

  /** A device with one signal, and an alert that leaves it with one. */
  lemma LoneStep(window: int, before: Clients, o: Observation, s: Signal)
    requires Correlatable(o.alert) && CorrelationKey(o.alert) == KEY && before.Keys <= {KEY}
    requires Updated(window, before, o.alert, o.at) == [s]
    ensures ObserveStep(window, before, o.alert, o.at, Tracking(s), None)
    ensures AlertStep(window, before, o, false, false, Tracking(s), Some(o.alert))
  {
    LoneSignal(s, o.alert, o.at);
    assert before[KEY := [s]] == Tracking(s);
  }

  lemma PrunedLone(s: Signal, now: int, window: int)
    ensures Pruned([s], now, window) == if now - s.seen <= window then [s] else []
  {
    assert [s][..0] == [];
  }

  /** The next alert finds the signal gone, or is weaker than it. */
  lemma LoneUpdate(window: int, s: Signal, o: Observation)
    requires CorrelationKey(o.alert) == KEY
    ensures o.at - s.seen > window ==> Updated(window, Tracking(s), o.alert, o.at) == [SignalOf(o.alert, o.at)]
    ensures o.at - s.seen <= window && s.kind == o.alert.signalClass && o.alert.confidence < s.confidence ==>
              Updated(window, Tracking(s), o.alert, o.at) == [s]
  {
    PrunedLone(s, o.at, window);
  }

  function Strong(): Observation {
    Observation(Sensed(IOC, 90), 0)
  }

  function Weak(window: int): Observation {
    Observation(Sensed(IOC, 60), window)
  }

  function Beacon(window: int): Observation {
    Observation(Sensed(BEACON, 75), window + 1)
  }

  lemma BeaconAlone(window: int)
    requires window >= 1
    ensures var s, b := SignalOf(Strong().alert, 0), SignalOf(Beacon(window).alert, window + 1);
            && AlertStep(window, map[], Strong(), false, false, Tracking(s), Some(Strong().alert))
            && AlertStep(window, Tracking(s), Weak(window), false, false, Tracking(s), Some(Weak(window).alert))
            && AlertStep(window, Tracking(s), Beacon(window), false, false, Tracking(b), Some(Beacon(window).alert))
            && ObserveStep(window, Tracking(s), Beacon(window).alert, window + 1, Tracking(b), None)
  {
    var s, b := SignalOf(Strong().alert, 0), SignalOf(Beacon(window).alert, window + 1);
    KeyOfSensed(IOC, 90);
    KeyOfSensed(IOC, 60);
    KeyOfSensed(BEACON, 75);
    assert IOC[0] == 'i' && BEACON[0] == 'b' && COMPOSITE[0] == 'c';
    LoneUpdate(window, s, Weak(window));
    LoneUpdate(window, s, Beacon(window));
    LoneStep(window, map[], Strong(), s);
    LoneStep(window, Tracking(s), Weak(window), s);
    LoneStep(window, Tracking(s), Beacon(window), b);
  }

  lemma WindowMaxSnoc(h: History, o: Observation, key: string, kind: string, now: int, window: int)
    ensures WindowMax(h + [o], key, kind, now, window) ==
            var rest := WindowMax(h, key, kind, now, window);
            if Concerns(o.alert, key, kind) && now - o.at <= window && o.alert.confidence > rest
            then o.alert.confidence else rest
  {
    assert (h + [o])[..|h|] == h;
  }

  lemma WindowMaxOfThree(window: int, kind: string, h: History)
    requires window >= 1 && h == [Strong()] + [Weak(window)] + [Beacon(window)] && kind in [IOC, BEACON]
    ensures WindowMax(h, KEY, kind, window + 1, window) == if kind == IOC then 60 else 75
  {
    KeyOfSensed(IOC, 90);
    KeyOfSensed(IOC, 60);
    KeyOfSensed(BEACON, 75);
    assert IOC[0] == 'i' && BEACON[0] == 'b';
    WindowMaxSnoc([], Strong(), KEY, kind, window + 1, window);
    WindowMaxSnoc([Strong()], Weak(window), KEY, kind, window + 1, window);
    WindowMaxSnoc([Strong()] + [Weak(window)], Beacon(window), KEY, kind, window + 1, window);
    assert [] + [Strong()] == [Strong()];
  }

  lemma WindowJustifies90(window: int, h: History)
    requires window >= 1 && h == [Strong()] + [Weak(window)] + [Beacon(window)]
    ensures InWindow(h, KEY, IOC, window + 1, window, 1)
    ensures Covers(h, KEY, window + 1, window, [BEACON, IOC])
    ensures N.NoisyOr(WindowMaxima(h, KEY, [BEACON, IOC], window + 1, window)) == 90
  {
    KeyOfSensed(IOC, 90);
    KeyOfSensed(IOC, 60);
    KeyOfSensed(BEACON, 75);
    assert IOC[0] == 'i' && BEACON[0] == 'b';
    WindowMaxOfThree(window, IOC, h);
    WindowMaxOfThree(window, BEACON, h);
    assert WindowMaxima(h, KEY, [BEACON, IOC], window + 1, window) == [75, 60];
    SeventyFiveAndSixty();
  }

  lemma SeventyFiveAndSixty()
    ensures N.NoisyOr([75, 60]) == 90
  {
    assert [75, 60][..1] == [75] && [75][..0] == [];
    assert N.Inv([75]) == 1.0 - 0.75;
  }

  predicate Unsuppressed(e: Event) {
    !e.alertSuppressed && !e.compSuppressed
  }

  ghost predicate Caused(window: int, before: Clients, e: Event) {
    AlertStep(window, before, e.obs, e.alertSuppressed, e.compSuppressed, e.after, e.forwarded)
  }

  lemma RunSnoc(window: int, run: seq<Event>, e: Event)
    requires IsRun(window, run) && Caused(window, ClientsAfter(run), e)
    ensures IsRun(window, run + [e]) && ClientsAfter(run + [e]) == e.after
    ensures !e.alertSuppressed ==> Observed(run + [e]) == Observed(run) + [e.obs]
  {
    assert (run + [e])[..|run|] == run;
  }

  lemma RunOfThree(window: int, d: Event, e: Event, f: Event) returns (run: seq<Event>)
    requires Unsuppressed(d) && Unsuppressed(e) && Unsuppressed(f)
    requires Caused(window, map[], d) && Caused(window, d.after, e) && Caused(window, e.after, f)
    ensures IsRun(window, run) && |run| == 3 && run[0] == d && run[1] == e && run[2] == f
    ensures ClientsAfter(run[..2]) == e.after
    ensures Observed(run) == [d.obs] + [e.obs] + [f.obs]
  {
    RunSnoc(window, [], d);
    assert [] + [d] == [d];
    RunSnoc(window, [d], e);
    RunSnoc(window, [d] + [e], f);
    run := [d] + [e] + [f];
    assert run[..2] == [d] + [e];
  }

  lemma ThreeSensed(run: seq<Event>)
    requires |run| == 3
    requires SingleSignal(run[0].obs.alert) && SingleSignal(run[1].obs.alert) && SingleSignal(run[2].obs.alert)
    requires run[0].obs.at <= run[1].obs.at <= run[2].obs.at
    ensures ClockMonotone(run) && SensorAlerts(run)
  {
    forall i | 0 <= i < |run|
      ensures SingleSignal(run[i].obs.alert)
    {
      assert i == 0 || i == 1 || i == 2;
    }
  }

  /** For every window: a feed match of 90 at time 0 and one of 60 just inside its window are followed by a
      beacon of 75 once the first has left. The second match is in the window and would make 90 with the
      beacon, but it was shadowed on arrival: no composite is emitted. */
  lemma ShadowedClassIsLost(window: int) returns (run: seq<Event>)
    requires window >= 1
    ensures IsRun(window, run) && ClockMonotone(run) && SensorAlerts(run) && |run| == 3
    ensures ObserveStep(window, ClientsAfter(run[..2]), run[2].obs.alert, run[2].obs.at, run[2].after, None)
    ensures InWindow(Observed(run), KEY, IOC, run[2].obs.at, window, 1)
    ensures Covers(Observed(run), KEY, run[2].obs.at, window, [BEACON, IOC])
    ensures N.NoisyOr(WindowMaxima(Observed(run), KEY, [BEACON, IOC], run[2].obs.at, window)) == 90
  {
    var s, b := SignalOf(Strong().alert, 0), SignalOf(Beacon(window).alert, window + 1);
    BeaconAlone(window);
    run := RunOfThree(window, Plain(Strong(), Tracking(s)), Plain(Weak(window), Tracking(s)),
                      Plain(Beacon(window), Tracking(b)));
    ThreeSensed(run);
    WindowJustifies90(window, Observed(run));
  }
}
