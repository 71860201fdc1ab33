// Exactly what the correlator remembers and when it emits, as functions of the
// alerts alone: one rule per class replaces lists, pruning and upserts.
module CompositeExact {
  import opened Basics
  import opened Events
  import opened Composite
  import opened CompositeHistory
  import opened Devices
  import opened Pipeline
  import N = NoisyOr

  // ----- the rule -----

  /** The kept alert is still in the window and strictly stronger than the one arriving. */
  predicate Shadows(kept: Option<Observation>, o: Observation, window: int) {
    kept.Some? && o.at - kept.value.at <= window && kept.value.alert.confidence > o.alert.confidence
  }

  /** The alert that stands for a class: a new one takes over unless it is shadowed on arrival. */
  function Kept(h: History, key: string, kind: string, window: int): Option<Observation> {
    if h == [] then None
    else
      var kept, o := Kept(h[..|h| - 1], key, kind, window), h[|h| - 1];
      if Correlatable(o.alert) && Concerns(o.alert, key, kind) && !Shadows(kept, o, window) then Some(o) else kept
  }

  /** The class is represented at time `now`. */
  predicate LiveClass(h: History, key: string, kind: string, now: int, window: int) {
    var kept := Kept(h, key, kind, window);
    kept.Some? && now - kept.value.at <= window
  }

  /** The confidence the class contributes (0 if nothing was ever kept). */
  function KeptConfidence(h: History, key: string, kind: string, window: int): int {
    var kept := Kept(h, key, kind, window);
    if kept.Some? then kept.value.alert.confidence else 0
  }

  predicate Monotone(h: History) {
    forall i, j :: 0 <= i < j < |h| ==> h[i].at <= h[j].at
  }

  // ----- a device's list is what the rule says -----

  /** The signal stands for its class by the rule, and is in the window. */
  predicate Live(h: History, key: string, window: int, now: int, s: Signal) {
    var kept := Kept(h, key, s.kind, window);
    kept.Some? && s == SignalOf(kept.value.alert, kept.value.at) && now - s.seen <= window
  }

  /** What is in the list and in the window is exactly what the rule says. */
  ghost predicate Exact(h: History, key: string, sigs: seq<Signal>, window: int, now: int) {
    forall s :: s in sigs && now - s.seen <= window <==> Live(h, key, window, now, s)
  }

  lemma KeptSnoc(h: History, o: Observation, key: string, kind: string, window: int)
    ensures var kept := Kept(h, key, kind, window);
            Kept(h + [o], key, kind, window) ==
            if Correlatable(o.alert) && Concerns(o.alert, key, kind) && !Shadows(kept, o, window) then Some(o) else kept
  {
    assert (h + [o])[..|h|] == h;
  }

  /** The kept alert is of the class it is kept for. */
  lemma {:induction false} KeptOrigin(h: History, key: string, kind: string, window: int) returns (m: nat)
    requires Kept(h, key, kind, window).Some?
    ensures m < |h| && Kept(h, key, kind, window) == Some(h[m])
    ensures Correlatable(h[m].alert) && Concerns(h[m].alert, key, kind)
    ensures !Shadows(Kept(h[..m], key, kind, window), h[m], window)
  {
    var n := |h| - 1;
    if Kept(h, key, kind, window) == Kept(h[..n], key, kind, window) && Kept(h[..n], key, kind, window).Some? {
      m := KeptOrigin(h[..n], key, kind, window);
      assert h[..n][..m] == h[..m];
    } else {
      m := n;
    }
  }

  /** An upsert decides about its own class only, by the comparison of confidences. */
  lemma {:induction false} UpsertedExact(sigs: seq<Signal>, s: Signal)
    requires OnePerKind(sigs)
    ensures forall x: Signal :: x.kind != s.kind ==> (x in Upserted(sigs, s) <==> x in sigs)
    ensures forall y :: y in sigs && y.kind == s.kind ==>
              forall x: Signal :: x.kind == s.kind ==>
                (x in Upserted(sigs, s) <==> x == if s.confidence >= y.confidence then s else y)
    ensures (forall y :: y in sigs ==> y.kind != s.kind) ==>
              forall x: Signal :: x.kind == s.kind ==> (x in Upserted(sigs, s) <==> x == s)
  {
    if sigs != [] {
      assert sigs == [sigs[0]] + sigs[1..];
      if sigs[0].kind == s.kind {
        assert forall x :: x in sigs[1..] ==> x.kind != s.kind;
      } else {
        UpsertedExact(sigs[1..], s);
      }
    }
  }

  /** Recording an alert applies the rule to its class and leaves the others alone. */
  lemma RecordedExact(h: History, o: Observation, key: string, sigs: seq<Signal>, window: int, s: Signal)
    requires OnePerKind(sigs) && Exact(h, key, sigs, window, o.at) && window >= 0
    requires Correlatable(o.alert) && CorrelationKey(o.alert) == key
    ensures s in Upserted(Pruned(sigs, o.at, window), SignalOf(o.alert, o.at)) <==> Live(h + [o], key, window, o.at, s)
  {
    var pruned, new_ := Pruned(sigs, o.at, window), SignalOf(o.alert, o.at);
    PrunedContents(sigs, o.at, window);
    UpsertedExact(pruned, new_);
    KeptSnoc(h, o, key, s.kind, window);
    var kept := Kept(h, key, s.kind, window);
    if s.kind == new_.kind {
      if kept.Some? && o.at - kept.value.at <= window {
        var m := KeptOrigin(h, key, s.kind, window);
        var y := SignalOf(kept.value.alert, kept.value.at);
        assert Live(h, key, window, o.at, y) && y in pruned;
      } else {
        forall y | y in pruned
          ensures y.kind != new_.kind
        {
          assert Live(h, key, window, o.at, y);
        }
      }
    } else {
      assert s in pruned <==> Live(h, key, window, o.at, s);
    }
  }

  lemma RecordedIsExact(h: History, before: Clients, o: Observation, window: int)
    requires Correlatable(o.alert) && window >= 0
    requires var sigs := SignalsFor(before, CorrelationKey(o.alert));
             OnePerKind(sigs) && Exact(h, CorrelationKey(o.alert), sigs, window, o.at)
    ensures forall s :: s in Updated(window, before, o.alert, o.at) <==>
              Live(h + [o], CorrelationKey(o.alert), window, o.at, s)
  {
    var key := CorrelationKey(o.alert);
    forall s
      ensures s in Updated(window, before, o.alert, o.at) <==> Live(h + [o], key, window, o.at, s)
    {
      RecordedExact(h, o, key, SignalsFor(before, key), window, s);
    }
  }

  /** Time only takes signals out of the window. */
  lemma ExactLater(h: History, key: string, sigs: seq<Signal>, window: int, now: int, later: int)
    requires Exact(h, key, sigs, window, now) && now <= later
    ensures Exact(h, key, sigs, window, later)
  {
    forall s
      ensures s in sigs && later - s.seen <= window <==> Live(h, key, window, later, s)
    {
      assert s in sigs && now - s.seen <= window <==> Live(h, key, window, now, s);
    }
  }

  /** An alert about another device, or about none, changes nothing. */
  lemma ExactElsewhere(h: History, o: Observation, key: string, sigs: seq<Signal>, window: int, now: int)
    requires Exact(h, key, sigs, window, now)
    requires !Correlatable(o.alert) || CorrelationKey(o.alert) != key
    ensures Exact(h + [o], key, sigs, window, now)
  {
    forall s
      ensures Live(h + [o], key, window, now, s) <==> Live(h, key, window, now, s)
    {
      KeptSnoc(h, o, key, s.kind, window);
    }
  }

  /** One observation keeps every list exact, of whatever device survives eviction. */
  lemma ObserveKeepsExact(window: int, h: History, before: Clients, o: Observation, after: Clients,
                          out: Option<Alert>, key: string)
    requires window >= 0 && ObserveStep(window, before, o.alert, o.at, after, out) && key in after
    requires OnePerKind(SignalsFor(before, key)) && Exact(h, key, SignalsFor(before, key), window, o.at)
    ensures Exact(h + [o], key, after[key], window, o.at)
  {
    if Correlatable(o.alert) && CorrelationKey(o.alert) == key {
      RecordedIsExact(h, before, o, window);
    } else {
      ExactElsewhere(h, o, key, SignalsFor(before, key), window, o.at);
    }
  }

  // ----- whole runs -----

  /** The alerts observed since the device was last untracked: all of them, if it was never evicted. */
  function Memory(run: seq<Event>, key: string): History {
    if run == [] || key !in run[|run| - 1].after then []
    else Memory(run[..|run| - 1], key) + (if run[|run| - 1].alertSuppressed then [] else [run[|run| - 1].obs])
  }

  lemma UntrackedIsEmpty(run: seq<Event>, key: string, window: int, now: int)
    requires key !in ClientsAfter(run)
    ensures Exact(Memory(run, key), key, SignalsFor(ClientsAfter(run), key), window, now)
  {
  }

  lemma MonotonePrefix(run: seq<Event>, n: nat)
    requires ClockMonotone(run) && n <= |run|
    ensures ClockMonotone(run[..n])
  {
  }

  /** Over every run, whatever was evicted, the list of each device is the kept alert of each class. */
  lemma {:induction false} ListsAreExact(window: int, run: seq<Event>, key: string, now: int)
    requires window >= 0 && IsRun(window, run) && ClockMonotone(run)
    requires run != [] ==> run[|run| - 1].obs.at <= now
    ensures OnePerKind(SignalsFor(ClientsAfter(run), key))
    ensures Exact(Memory(run, key), key, SignalsFor(ClientsAfter(run), key), window, now)
  {
    RunKeepsInv(window, run);
    if key !in ClientsAfter(run) {
      UntrackedIsEmpty(run, key, window, now);
    } else {
      var n := |run| - 1;
      MonotonePrefix(run, n);
      ListsAreExact(window, run[..n], key, run[n].obs.at);
      LastEventKeepsExact(window, run, key);
      ExactLater(Memory(run, key), key, SignalsFor(ClientsAfter(run), key), window, run[n].obs.at, now);
    }
  }

  lemma LastEventKeepsExact(window: int, run: seq<Event>, key: string)
    requires window >= 0 && IsRun(window, run) && run != [] && key in ClientsAfter(run)
    requires var before := SignalsFor(ClientsAfter(run[..|run| - 1]), key);
             OnePerKind(before) && Exact(Memory(run[..|run| - 1], key), key, before, window, run[|run| - 1].obs.at)
    ensures Exact(Memory(run, key), key, SignalsFor(ClientsAfter(run), key), window, run[|run| - 1].obs.at)
  {
    var n := |run| - 1;
    var e := run[n];
    var h := Memory(run[..n], key);
    if e.alertSuppressed {
      assert Memory(run, key) == h;
    } else {
      var out :| ObserveStep(window, ClientsAfter(run[..n]), e.obs.alert, e.obs.at, e.after, out);
      ObserveKeepsExact(window, h, ClientsAfter(run[..n]), e.obs, e.after, out, key);
    }
  }

  /** The device was evicted at no point: it is tracked from its first correlatable alert on. */
  ghost predicate NeverEvicted(run: seq<Event>, key: string) {
    forall i, j :: 0 <= j <= i < |run| && key !in run[i].after && !run[j].alertSuppressed ==>
      !Correlatable(run[j].obs.alert) || CorrelationKey(run[j].obs.alert) != key
  }

  /** Without eviction the rule may be applied to everything observed. */
  lemma {:induction false} MemoryIsEverything(run: seq<Event>, key: string, kind: string, window: int)
    requires NeverEvicted(run, key)
    ensures Kept(Memory(run, key), key, kind, window) == Kept(Observed(run), key, kind, window)
  {
    if run != [] {
      var n := |run| - 1;
      var e := run[n];
      assert NeverEvicted(run[..n], key) by {
        forall i, j | 0 <= j <= i < n && key !in run[..n][i].after && !run[..n][j].alertSuppressed
          ensures !Correlatable(run[..n][j].obs.alert) || CorrelationKey(run[..n][j].obs.alert) != key
        {
          assert run[..n][i] == run[i] && run[..n][j] == run[j];
        }
      }
      MemoryIsEverything(run[..n], key, kind, window);
      if e.alertSuppressed {
        assert Observed(run) == Observed(run[..n]);
      } else {
        KeptSnoc(Observed(run[..n]), e.obs, key, kind, window);
        KeptSnoc(Memory(run[..n], key), e.obs, key, kind, window);
      }
      if key !in e.after {
        NothingKept(run, key, kind, window);
      } else if e.alertSuppressed {
        assert Memory(run, key) == Memory(run[..n], key);
      }
    }
  }

  lemma NothingKept(run: seq<Event>, key: string, kind: string, window: int)
    requires NeverEvicted(run, key) && run != [] && key !in ClientsAfter(run)
    ensures Kept(Observed(run), key, kind, window) == None
  {
    if Kept(Observed(run), key, kind, window).Some? {
      var m := KeptOrigin(Observed(run), key, kind, window);
      ObservedInRun(run, m);
    }
  }

  // ----- exactly when a composite is emitted -----

  /** The classes in the list are the live ones, each with the confidence of its kept alert. */
  lemma LiveKinds(h: History, key: string, sigs: seq<Signal>, now: int, window: int, c: string)
    requires forall s :: s in sigs <==> Live(h, key, window, now, s)
    ensures c in Kinds(sigs) <==> LiveClass(h, key, c, now, window)
    ensures c in Best(sigs) ==> Best(sigs)[c].confidence == KeptConfidence(h, key, c, window)
  {
    BestKeys(sigs);
    if c in Kinds(sigs) {
      KindsSound(sigs, c);
      BestIsStrongest(sigs, c);
      assert Live(h, key, window, now, Best(sigs)[c]);
    } else if LiveClass(h, key, c, now, window) {
      var m := KeptOrigin(h, key, c, window);
      var s := SignalOf(h[m].alert, h[m].at);
      assert Live(h, key, window, now, s);
      KindsComplete(sigs, s);
    }
  }

  lemma SameLength(a: seq<string>, b: seq<string>)
    requires NoDuplicates(a) && NoDuplicates(b) && forall c :: c in a <==> c in b
    ensures |a| == |b|
  {
    ValuesSubset(c => 0, a, b);
    ValuesSubset(c => 0, b, a);
    assert multiset(Values(c => 0, a)) == multiset(Values(c => 0, b));
    assert |multiset(Values(c => 0, a))| == |a| && |multiset(Values(c => 0, b))| == |b|;
  }

  lemma SameNoisyOr(f: string -> int, a: seq<string>, b: seq<string>)
    requires NoDuplicates(a) && NoDuplicates(b) && forall c :: c in a <==> c in b
    ensures N.NoisyOr(Values(f, a)) == N.NoisyOr(Values(f, b))
  {
    ValuesSubset(f, a, b);
    ValuesSubset(f, b, a);
    N.NoisyOrSubset(Values(f, a), Values(f, b));
    N.NoisyOrSubset(Values(f, b), Values(f, a));
  }

  /** The list's classes and confidences are those of any list of the live classes. */
  lemma ListCombines(h: History, key: string, sigs: seq<Signal>, now: int, window: int, kinds: seq<string>)
    requires forall s :: s in sigs <==> Live(h, key, window, now, s)
    requires NoDuplicates(kinds) && forall c :: c in kinds <==> LiveClass(h, key, c, now, window)
    ensures forall c :: c in Classes(sigs) ==> c in Best(sigs)
    ensures |Classes(sigs)| == |kinds| && forall c :: c in Classes(sigs) <==> c in kinds
    ensures N.NoisyOr(Confidences(Best(sigs), Classes(sigs))) ==
            N.NoisyOr(Values(c => KeptConfidence(h, key, c, window), kinds))
  {
    var classes := Classes(sigs);
    ClassesOf(sigs);
    BestKeys(sigs);
    KindsDistinct(sigs);
    NoDuplicatesIsMultiset(Kinds(sigs), classes);
    forall c
      ensures c in classes <==> c in kinds
      ensures c in classes ==> Best(sigs)[c].confidence == KeptConfidence(h, key, c, window)
    {
      LiveKinds(h, key, sigs, now, window, c);
    }
    SameLength(classes, kinds);
    var f := c => KeptConfidence(h, key, c, window);
    assert Confidences(Best(sigs), classes) == Values(f, classes);
    SameNoisyOr(f, classes, kinds);
  }

  /** One step: a composite is emitted exactly when at least two classes are live and their kept alerts
      combine to 50 or more, and that is its confidence. */
  lemma EmittedIff(window: int, h: History, before: Clients, o: Observation, after: Clients, out: Option<Alert>,
                   kinds: seq<string>)
    requires window >= 0 && Correlatable(o.alert) && ObserveStep(window, before, o.alert, o.at, after, out)
    requires var sigs := SignalsFor(before, CorrelationKey(o.alert));
             OnePerKind(sigs) && Exact(h, CorrelationKey(o.alert), sigs, window, o.at)
    requires NoDuplicates(kinds)
    requires forall c :: c in kinds <==> LiveClass(h + [o], CorrelationKey(o.alert), c, o.at, window)
    ensures var combined := N.NoisyOr(Values(c => KeptConfidence(h + [o], CorrelationKey(o.alert), c, window), kinds));
            && (out.Some? <==> |kinds| >= 2 && combined >= MIN_EMIT_CONFIDENCE)
            && (out.Some? ==> out.value.confidence == combined && forall c :: c in out.value.signals <==> c in kinds)
  {
    var sigs := Updated(window, before, o.alert, o.at);
    RecordedIsExact(h, before, o, window);
    ListCombines(h + [o], CorrelationKey(o.alert), sigs, o.at, window, kinds);
  }

  /** There always is a list of the live classes. */
  lemma LiveClassesListed(window: int, h: History, before: Clients, o: Observation) returns (kinds: seq<string>)
    requires window >= 0 && Correlatable(o.alert)
    requires var sigs := SignalsFor(before, CorrelationKey(o.alert));
             OnePerKind(sigs) && Exact(h, CorrelationKey(o.alert), sigs, window, o.at)
    ensures NoDuplicates(kinds)
    ensures forall c :: c in kinds <==> LiveClass(h + [o], CorrelationKey(o.alert), c, o.at, window)
  {
    var sigs := Updated(window, before, o.alert, o.at);
    RecordedIsExact(h, before, o, window);
    kinds := Kinds(sigs);
    KindsDistinct(sigs);
    forall c
      ensures c in kinds <==> LiveClass(h + [o], CorrelationKey(o.alert), c, o.at, window)
    {
      LiveKinds(h + [o], CorrelationKey(o.alert), sigs, o.at, window, c);
    }
  }

  /** Over every run: when alert i makes a composite, in terms of keys. */
  lemma CompositeByKey(window: int, run: seq<Event>, i: nat, out: Option<Alert>, kinds: seq<string>)
    requires window >= 0 && IsRun(window, run) && ClockMonotone(run)
    requires i < |run| && !run[i].alertSuppressed && Correlatable(run[i].obs.alert)
    requires ObserveStep(window, ClientsAfter(run[..i]), run[i].obs.alert, run[i].obs.at, run[i].after, out)
    requires var key := CorrelationKey(run[i].obs.alert);
             var h := Memory(run[..i], key) + [run[i].obs];
             NoDuplicates(kinds) && forall c :: c in kinds <==> LiveClass(h, key, c, run[i].obs.at, window)
    ensures var key := CorrelationKey(run[i].obs.alert);
            var h := Memory(run[..i], key) + [run[i].obs];
            var combined := N.NoisyOr(Values(c => KeptConfidence(h, key, c, window), kinds));
            && (out.Some? <==> |kinds| >= 2 && combined >= MIN_EMIT_CONFIDENCE)
            && (out.Some? ==> out.value.confidence == combined && forall c :: c in out.value.signals <==> c in kinds)
  {
    var key := CorrelationKey(run[i].obs.alert);
    IsRunPrefix(window, run, i);
    MonotonePrefix(run, i);
    ListsAreExact(window, run[..i], key, run[i].obs.at);
    EmittedIff(window, Memory(run[..i], key), ClientsAfter(run[..i]), run[i].obs, run[i].after, out, kinds);
  }

  lemma KeptOfEverything(run: seq<Event>, o: Observation, key: string, kind: string, window: int)
    requires NeverEvicted(run, key)
    ensures Kept(Memory(run, key) + [o], key, kind, window) == Kept(Observed(run) + [o], key, kind, window)
  {
    MemoryIsEverything(run, key, kind, window);
    KeptSnoc(Observed(run), o, key, kind, window);
    KeptSnoc(Memory(run, key), o, key, kind, window);
  }

  lemma SameKept(h: History, m: History, key: string, kinds: seq<string>, now: int, window: int)
    requires forall c :: Kept(h, key, c, window) == Kept(m, key, c, window)
    ensures forall c :: LiveClass(h, key, c, now, window) <==> LiveClass(m, key, c, now, window)
    ensures Values(c => KeptConfidence(h, key, c, window), kinds) ==
              Values(c => KeptConfidence(m, key, c, window), kinds)
  {
  }

  // ----- the same in terms of devices -----

  /** An alert of the class about the device of `d`, of the kind that correlates. */
  predicate About(o: Observation, d: Alert, kind: string) {
    HasDevice(o.alert) && SameDevice(o.alert, d) && o.alert.signalClass == kind && kind !in {"", "composite"}
  }

  /** The rule for the device of `d`. */
  function KeptFor(h: History, d: Alert, kind: string, window: int): Option<Observation> {
    if h == [] then None
    else
      var kept, o := KeptFor(h[..|h| - 1], d, kind, window), h[|h| - 1];
      if About(o, d, kind) && !Shadows(kept, o, window) then Some(o) else kept
  }

  predicate LiveFor(h: History, d: Alert, kind: string, now: int, window: int) {
    var kept := KeptFor(h, d, kind, window);
    kept.Some? && now - kept.value.at <= window
  }

  function ConfidenceFor(h: History, d: Alert, kind: string, window: int): int {
    var kept := KeptFor(h, d, kind, window);
    if kept.Some? then kept.value.alert.confidence else 0
  }

  lemma {:induction false} KeptForDevice(h: History, d: Alert, kind: string, window: int)
    ensures KeptFor(h, d, kind, window) == Kept(h, CorrelationKey(d), kind, window)
  {
    if h != [] {
      KeptForDevice(h[..|h| - 1], d, kind, window);
      KeyIff(h[|h| - 1].alert, d);
    }
  }

  /** What the rule says of an alert: a composite is due, listing `kinds`, with confidence `combined`. */
  ghost predicate Due(h: History, o: Observation, window: int, kinds: seq<string>, combined: int) {
    && NoDuplicates(kinds)
    && (forall c :: c in kinds <==> LiveFor(h + [o], o.alert, c, o.at, window))
    && combined == N.NoisyOr(Values(c => ConfidenceFor(h + [o], o.alert, c, window), kinds))
  }

  /** The composite is there exactly when two classes are live and combine to 50 or more, and is what they make. */
  ghost predicate Matches(out: Option<Alert>, kinds: seq<string>, combined: int) {
    && (out.Some? <==> |kinds| >= 2 && combined >= 50)
    && (out.Some? ==> out.value.confidence == combined && forall c :: c in out.value.signals <==> c in kinds)
  }

  lemma DueByKey(h: History, o: Observation, window: int, kinds: seq<string>, combined: int, key: string)
    requires Due(h, o, window, kinds, combined) && key == CorrelationKey(o.alert)
    ensures forall c :: c in kinds <==> LiveClass(h + [o], key, c, o.at, window)
    ensures combined == N.NoisyOr(Values(c => KeptConfidence(h + [o], key, c, window), kinds))
  {
    forall c
      ensures KeptFor(h + [o], o.alert, c, window) == Kept(h + [o], key, c, window)
    {
      KeptForDevice(h + [o], o.alert, c, window);
    }
    assert Values(c => ConfidenceFor(h + [o], o.alert, c, window), kinds)
        == Values(c => KeptConfidence(h + [o], key, c, window), kinds);
  }

  /** Over every run: alert i makes a composite exactly when, with it, at least two classes of its device are
      live and their kept alerts combine to 50 or more; the composite lists them and has that confidence. What
      counts is what was observed since the device was last untracked. */
  lemma CompositeExactly(window: int, run: seq<Event>, i: nat, out: Option<Alert>, kinds: seq<string>, combined: int)
    requires window >= 0 && IsRun(window, run) && ClockMonotone(run)
    requires i < |run| && !run[i].alertSuppressed && Correlatable(run[i].obs.alert)
    requires ObserveStep(window, ClientsAfter(run[..i]), run[i].obs.alert, run[i].obs.at, run[i].after, out)
    requires Due(Memory(run[..i], CorrelationKey(run[i].obs.alert)), run[i].obs, window, kinds, combined)
    ensures Matches(out, kinds, combined)
  {
    var key := CorrelationKey(run[i].obs.alert);
    DueByKey(Memory(run[..i], key), run[i].obs, window, kinds, combined, key);
    CompositeByKey(window, run, i, out, kinds);
  }

  /** For a device that was never evicted, the rule applies to all alerts observed. */
  lemma UnevictedExactly(window: int, run: seq<Event>, i: nat, out: Option<Alert>, kinds: seq<string>, combined: int)
    requires window >= 0 && IsRun(window, run) && ClockMonotone(run)
    requires i < |run| && !run[i].alertSuppressed && Correlatable(run[i].obs.alert)
    requires ObserveStep(window, ClientsAfter(run[..i]), run[i].obs.alert, run[i].obs.at, run[i].after, out)
    requires NeverEvicted(run[..i], CorrelationKey(run[i].obs.alert))
    requires Due(Observed(run[..i]), run[i].obs, window, kinds, combined)
    ensures Matches(out, kinds, combined)
  {
    var key, o := CorrelationKey(run[i].obs.alert), run[i].obs;
    var h, m := Observed(run[..i]) + [o], Memory(run[..i], key) + [o];
    DueByKey(Observed(run[..i]), o, window, kinds, combined, key);
    forall c
      ensures Kept(h, key, c, window) == Kept(m, key, c, window)
    {
      KeptOfEverything(run[..i], o, key, c, window);
    }
    SameKept(h, m, key, kinds, o.at, window);
    CompositeByKey(window, run, i, out, kinds);
  }

  /** What is observed in a run keeps the order of the clock. */
  lemma {:induction false} ObservedIsMonotone(run: seq<Event>, now: int)
    requires ClockMonotone(run) && (run != [] ==> run[|run| - 1].obs.at <= now)
    ensures Monotone(Observed(run)) && forall i :: 0 <= i < |Observed(run)| ==> Observed(run)[i].at <= now
  {
    if run != [] {
      var n := |run| - 1;
      MonotonePrefix(run, n);
      ObservedIsMonotone(run[..n], run[n].obs.at);
    }
  }

  // ----- when the kept alert is the strongest in the window -----

  /** A device and a class that the correlator takes in. */
  predicate Tracked(key: string, kind: string) {
    key != "" && kind != "" && kind != COMPOSITE
  }

  /** An in-window alert that was the strongest of its class, and was taken over on arrival. */
  ghost predicate StrongestKept(h: History, key: string, kind: string, now: int, window: int, m: int) {
    && InWindow(h, key, kind, now, window, m)
    && h[m].alert.confidence == WindowMax(h, key, kind, now, window)
    && !Shadows(Kept(h[..m], key, kind, window), h[m], window)
  }

  /** The alert is kept for its class, or a later one at least as strong. */
  predicate Stands(kept: Option<Observation>, o: Observation) {
    kept.Some? && kept.value.at >= o.at && kept.value.alert.confidence >= o.alert.confidence
  }

  lemma StandsOn(h: History, next: Observation, key: string, kind: string, window: int, o: Observation)
    requires Stands(Kept(h, key, kind, window), o) && o.at <= next.at <= o.at + window
    ensures Stands(Kept(h + [next], key, kind, window), o)
  {
    KeptSnoc(h, next, key, kind, window);
  }

  lemma MonotoneParts(h: History, m: nat)
    requires Monotone(h) && m < |h|
    ensures Monotone(h[..|h| - 1]) && h[m].at <= h[|h| - 1].at
    ensures m < |h| - 1 ==> h[m].at <= h[|h| - 2].at <= h[|h| - 1].at
  {
  }

  /** What took over is replaced only by something at least as strong while it is in the window. */
  lemma {:induction false} TakenOverStays(h: History, key: string, kind: string, window: int, m: nat, o: Observation)
    requires Monotone(h) && m < |h| && h[m] == o && h[|h| - 1].at - o.at <= window
    requires Correlatable(o.alert) && Concerns(o.alert, key, kind)
    requires !Shadows(Kept(h[..m], key, kind, window), o, window)
    ensures Stands(Kept(h, key, kind, window), o)
  {
    var before, last := h[..|h| - 1], h[|h| - 1];
    MonotoneParts(h, m);
    assert h == before + [last];
    if m < |h| - 1 {
      assert before[..m] == h[..m];
      TakenOverStays(before, key, kind, window, m, o);
      StandsOn(before, last, key, kind, window, o);
    } else {
      KeptSnoc(before, last, key, kind, window);
    }
  }

  /** Per class: what the correlator uses is the window's maximum exactly when some alert of that maximum
      was not shadowed when it arrived. */
  lemma WindowMaxIff(h: History, key: string, kind: string, now: int, window: int)
    requires Monotone(h) && (forall i :: 0 <= i < |h| ==> h[i].at <= now) && Tracked(key, kind)
    ensures (LiveClass(h, key, kind, now, window)
             && KeptConfidence(h, key, kind, window) == WindowMax(h, key, kind, now, window))
       <==> exists m :: StrongestKept(h, key, kind, now, window, m)
  {
    if LiveClass(h, key, kind, now, window) {
      var k := KeptOrigin(h, key, kind, window);
      assert InWindow(h, key, kind, now, window, k);
      WindowMaxBounds(h, key, kind, now, window, k);
      if h[k].alert.confidence == WindowMax(h, key, kind, now, window) {
        assert StrongestKept(h, key, kind, now, window, k);
      }
    }
    if m :| StrongestKept(h, key, kind, now, window, m) {
      TakenOverStays(h, key, kind, window, m, h[m]);
      var k := KeptOrigin(h, key, kind, window);
      assert InWindow(h, key, kind, now, window, k);
      WindowMaxBounds(h, key, kind, now, window, k);
    }
  }

  /** A maximum of the window was shadowed only by an alert that has left the window since. */
  lemma ShadowHasLeft(h: History, key: string, kind: string, now: int, window: int, m: nat)
    requires InWindow(h, key, kind, now, window, m)
    requires h[m].alert.confidence == WindowMax(h, key, kind, now, window)
    requires Shadows(Kept(h[..m], key, kind, window), h[m], window)
    ensures now - Kept(h[..m], key, kind, window).value.at > window
  {
    var k := KeptOrigin(h[..m], key, kind, window);
    if now - h[k].at <= window {
      assert InWindow(h, key, kind, now, window, k);
      WindowMaxBounds(h, key, kind, now, window, k);
    }
  }

  /** If every class of the window has such an alert, the bound by the window's maxima is met exactly. */
  lemma MaximaAreUsed(window: int, h: History, before: Clients, o: Observation, after: Clients, out: Option<Alert>,
                      kinds: seq<string>)
    requires window >= 0 && Correlatable(o.alert) && ObserveStep(window, before, o.alert, o.at, after, out)
    requires var sigs := SignalsFor(before, CorrelationKey(o.alert));
             OnePerKind(sigs) && Exact(h, CorrelationKey(o.alert), sigs, window, o.at)
    requires Monotone(h + [o]) && NoDuplicates(kinds) && forall c :: c in kinds ==> Tracked(CorrelationKey(o.alert), c)
    requires forall c :: c in kinds <==> exists m :: InWindow(h + [o], CorrelationKey(o.alert), c, o.at, window, m)
    requires forall c :: c in kinds ==> exists m :: StrongestKept(h + [o], CorrelationKey(o.alert), c, o.at, window, m)
    ensures var combined := N.NoisyOr(WindowMaxima(h + [o], CorrelationKey(o.alert), kinds, o.at, window));
            && (out.Some? <==> |kinds| >= 2 && combined >= MIN_EMIT_CONFIDENCE)
            && (out.Some? ==> out.value.confidence == combined)
  {
    var h', key := h + [o], CorrelationKey(o.alert);
    assert forall i :: 0 <= i < |h'| ==> h'[i].at <= h'[|h|].at;
    forall c
      ensures c in kinds <==> LiveClass(h', key, c, o.at, window)
      ensures c in kinds ==> KeptConfidence(h', key, c, window) == WindowMax(h', key, c, o.at, window)
    {
      if c in kinds {
        WindowMaxIff(h', key, c, o.at, window);
      } else if LiveClass(h', key, c, o.at, window) {
        var m := KeptOrigin(h', key, c, window);
        assert InWindow(h', key, c, o.at, window, m);
      }
    }
    EmittedIff(window, h, before, o, after, out, kinds);
    assert WindowMaxima(h', key, kinds, o.at, window) == Values(c => KeptConfidence(h', key, c, window), kinds);
  }

  lemma SnocIsMonotone(h: History, o: Observation)
    requires Monotone(h) && forall i :: 0 <= i < |h| ==> h[i].at <= o.at
    ensures Monotone(h + [o]) && forall i :: 0 <= i < |h + [o]| ==> (h + [o])[i].at <= o.at
  {
  }

  /** Over every run, for a device never evicted: in the list that alert i leaves, a class of the window has
      the window's maximum as its best exactly when some alert of that maximum was not shadowed on arrival. */
  lemma BestIsWindowMaxIff(window: int, run: seq<Event>, i: nat, c: string)
    requires window >= 0 && IsRun(window, run) && ClockMonotone(run) && i < |run|
    requires Correlatable(run[i].obs.alert) && NeverEvicted(run[..i], CorrelationKey(run[i].obs.alert))
    requires Tracked(CorrelationKey(run[i].obs.alert), c)
    ensures var o, key := run[i].obs, CorrelationKey(run[i].obs.alert);
            var h, best := Observed(run[..i]) + [o], Best(Updated(window, ClientsAfter(run[..i]), o.alert, o.at));
            c in best && best[c].confidence == WindowMax(h, key, c, o.at, window)
            <==> exists m :: StrongestKept(h, key, c, o.at, window, m)
  {
    var o, key := run[i].obs, CorrelationKey(run[i].obs.alert);
    var before, h := ClientsAfter(run[..i]), Observed(run[..i]) + [o];
    var sigs := Updated(window, before, o.alert, o.at);
    IsRunPrefix(window, run, i);
    MonotonePrefix(run, i);
    ListsAreExact(window, run[..i], key, o.at);
    RecordedIsExact(Memory(run[..i], key), before, o, window);
    LiveKinds(Memory(run[..i], key) + [o], key, sigs, o.at, window, c);
    BestKeys(sigs);
    KeptOfEverything(run[..i], o, key, c, window);
    ObservedIsMonotone(run[..i], o.at);
    SnocIsMonotone(Observed(run[..i]), o);
    WindowMaxIff(h, key, c, o.at, window);
  }
}
