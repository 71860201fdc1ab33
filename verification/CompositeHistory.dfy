// What the correlator's lists say about the alerts observed so far.
module CompositeHistory {
  import opened Basics
  import opened Events
  import opened Composite
  import N = NoisyOr

  datatype Observation = Observation(alert: Alert, at: int)

  type History = seq<Observation>

  /** An alert about the device `key` in the class `kind`. */
  predicate Concerns(a: Alert, key: string, kind: string) {
    CorrelationKey(a) == key && a.signalClass == kind
  }

  /** `s` is what was stored for observation `j`, and it dominates every later one of its class. */
  ghost predicate Origin(h: History, key: string, s: Signal, j: int) {
    && 0 <= j < |h|
    && Correlatable(h[j].alert) && CorrelationKey(h[j].alert) == key
    && s == SignalOf(h[j].alert, h[j].at)
    && forall m :: j < m < |h| && Concerns(h[m].alert, key, s.kind) ==> h[m].alert.confidence < s.confidence
  }

  ghost predicate HasOrigin(h: History, key: string, s: Signal) {
    exists j :: Origin(h, key, s, j)
  }

  ghost predicate ListInv(h: History, key: string, sigs: seq<Signal>) {
    OnePerKind(sigs) && forall s :: s in sigs ==> HasOrigin(h, key, s)
  }

  ghost predicate StoreInv(h: History, clients: Clients) {
    && |clients| <= MAX_TRACKED_CLIENTS
    && forall key :: key in clients ==> ListInv(h, key, clients[key])
  }

  /** A signal keeps its origin unless it is outdone. */
  lemma OriginKept(h: History, o: Observation, key: string, s: Signal)
    requires HasOrigin(h, key, s)
    requires Concerns(o.alert, key, s.kind) ==> o.alert.confidence < s.confidence
    ensures HasOrigin(h + [o], key, s)
  {
    var j :| Origin(h, key, s, j);
    assert Origin(h + [o], key, s, j);
  }

  lemma UpdatedInv(window: int, h: History, clients: Clients, a: Alert, now: int)
    requires StoreInv(h, clients) && Correlatable(a)
    ensures ListInv(h + [Observation(a, now)], CorrelationKey(a), Updated(window, clients, a, now))
  {
    var key, s, o := CorrelationKey(a), SignalOf(a, now), Observation(a, now);
    var old_ := SignalsFor(clients, key);
    PrunedContents(old_, now, window);
    UpsertedContents(Pruned(old_, now, window), s);
    forall x | x in Updated(window, clients, a, now)
      ensures HasOrigin(h + [o], key, x)
    {
      if x == s {
        assert Origin(h + [o], key, s, |h|);
      } else {
        OriginKept(h, o, key, x);
      }
    }
  }

  lemma OthersInv(h: History, o: Observation, key: string, sigs: seq<Signal>)
    requires ListInv(h, key, sigs)
    requires !Correlatable(o.alert) || CorrelationKey(o.alert) != key
    ensures ListInv(h + [o], key, sigs)
  {
    forall s | s in sigs
      ensures HasOrigin(h + [o], key, s)
    {
      var j :| Origin(h, key, s, j);
      assert Correlatable(h[j].alert);
      OriginKept(h, o, key, s);
    }
  }

  /** Every step keeps one dominating signal per class, each traceable to its observation. */
  lemma ObserveKeepsInv(window: int, h: History, before: Clients, o: Observation, after: Clients, out: Option<Alert>)
    requires StoreInv(h, before)
    requires ObserveStep(window, before, o.alert, o.at, after, out)
    ensures StoreInv(h + [o], after)
  {
    var key := CorrelationKey(o.alert);
    if Correlatable(o.alert) {
      UpdatedInv(window, h, before, o.alert, o.at);
    }
    forall k | k in after
      ensures ListInv(h + [o], k, after[k])
    {
      if !Correlatable(o.alert) || k != key {
        OthersInv(h, o, k, before[k]);
      }
    }
  }

  // ----- what an emitted composite stands for -----

  /** Some alert about the device, in the class `kind`, no older than the window. */
  ghost predicate InWindow(h: History, key: string, kind: string, now: int, window: int, j: int) {
    0 <= j < |h| && Concerns(h[j].alert, key, kind) && now - h[j].at <= window
  }

  /** Every class seen for the device inside the window is listed. */
  ghost predicate Covers(h: History, key: string, now: int, window: int, kinds: seq<string>) {
    forall c, j :: InWindow(h, key, c, now, window, j) ==> c in kinds
  }

  /** The most confident in-window alert of a class (0 if there is none). */
  function WindowMax(h: History, key: string, kind: string, now: int, window: int): int {
    if h == [] then 0
    else
      var rest, o := WindowMax(h[..|h| - 1], key, kind, now, window), h[|h| - 1];
      if Concerns(o.alert, key, kind) && now - o.at <= window && o.alert.confidence > rest
      then o.alert.confidence else rest
  }

  lemma {:induction false} WindowMaxBounds(h: History, key: string, kind: string, now: int, window: int, j: int)
    requires InWindow(h, key, kind, now, window, j)
    ensures h[j].alert.confidence <= WindowMax(h, key, kind, now, window)
  {
    var n := |h| - 1;
    if j < n {
      assert InWindow(h[..n], key, kind, now, window, j);
      WindowMaxBounds(h[..n], key, kind, now, window, j);
    }
  }

  /** One value per class, in the order of the list. */
  function Values(f: string -> int, kinds: seq<string>): seq<int> {
    seq(|kinds|, i requires 0 <= i < |kinds| => f(kinds[i]))
  }

  function WindowMaxima(h: History, key: string, kinds: seq<string>, now: int, window: int): seq<int> {
    Values(c => WindowMax(h, key, c, now, window), kinds)
  }

  /** What is known of a list right after its update. */
  lemma UpdatedSignals(window: int, h: History, before: Clients, o: Observation, s: Signal)
    requires StoreInv(h, before) && Correlatable(o.alert) && window >= 0
    requires s in Updated(window, before, o.alert, o.at)
    ensures exists j :: InWindow(h + [o], CorrelationKey(o.alert), s.kind, o.at, window, j)
                        && s == SignalOf((h + [o])[j].alert, (h + [o])[j].at)
  {
    var key := CorrelationKey(o.alert);
    UpdatedInv(window, h, before, o.alert, o.at);
    var j :| Origin(h + [o], key, s, j);
    PrunedContents(SignalsFor(before, key), o.at, window);
    UpsertedContents(Pruned(SignalsFor(before, key), o.at, window), SignalOf(o.alert, o.at));
    assert InWindow(h + [o], key, s.kind, o.at, window, j);
  }

  /** Unfolds an emission: which list it came from and what its fields are. */
  lemma EmissionFacts(window: int, h: History, before: Clients, o: Observation, after: Clients, comp: Alert)
    requires StoreInv(h, before)
    requires ObserveStep(window, before, o.alert, o.at, after, Some(comp))
    ensures Correlatable(o.alert)
    ensures var sigs := Updated(window, before, o.alert, o.at);
            && Emitted(o.alert, sigs, o.at) == Some(comp)
            && comp.signals == Classes(sigs)
            && comp.signalCount == |comp.signals| >= 2
            && NoDuplicates(comp.signals)
            && (forall c :: c in comp.signals ==> c in Best(sigs))
            && comp.confidence == N.NoisyOr(Confidences(Best(sigs), comp.signals)) >= MIN_EMIT_CONFIDENCE
            && comp.severity == SeverityForConfidence(comp.confidence)
            && comp.signalClass == COMPOSITE
  {
    var sigs := Updated(window, before, o.alert, o.at);
    KindsDistinct(sigs);
    NoDuplicatesIsMultiset(Kinds(sigs), Classes(sigs));
    ClassesOf(sigs);
    BestKeys(sigs);
  }

  /** Every class a composite lists was observed for that device within the window. */
  lemma SignalsAreRecent(window: int, h: History, before: Clients, o: Observation, after: Clients,
                         comp: Alert, c: string)
    requires StoreInv(h, before) && window >= 0
    requires ObserveStep(window, before, o.alert, o.at, after, Some(comp))
    requires c in comp.signals
    ensures exists j :: InWindow(h + [o], CorrelationKey(o.alert), c, o.at, window, j)
  {
    EmissionFacts(window, h, before, o, after, comp);
    var sigs := Updated(window, before, o.alert, o.at);
    ClassesOf(sigs);
    KindsSound(sigs, c);
    var s :| s in sigs && s.kind == c;
    UpdatedSignals(window, h, before, o, s);
  }

  /** The class of the alert just recorded is in the list, at least as confident as the alert. */
  lemma TriggerIsListed(window: int, h: History, before: Clients, o: Observation) returns (x: Signal)
    requires StoreInv(h, before) && Correlatable(o.alert)
    ensures x in Updated(window, before, o.alert, o.at)
    ensures x.kind == o.alert.signalClass && o.alert.confidence <= x.confidence
  {
    var sigs := SignalsFor(before, CorrelationKey(o.alert));
    PrunedContents(sigs, o.at, window);
    var s := SignalOf(o.alert, o.at);
    UpsertedContents(Pruned(sigs, o.at, window), s);
    x :| x in Upserted(Pruned(sigs, o.at, window), s) && x.kind == s.kind && s.confidence <= x.confidence;
  }

  /** A listed signal gives its class an index among the classes, where the best is no weaker. */
  lemma ListedIsCombined(sigs: seq<Signal>, x: Signal) returns (i: nat)
    requires x in sigs
    ensures i < |Classes(sigs)| && Classes(sigs)[i] == x.kind
    ensures x.kind in Best(sigs) && x.confidence <= Best(sigs)[x.kind].confidence
  {
    KindsComplete(sigs, x);
    ClassesOf(sigs);
    BestKeys(sigs);
    i :| 0 <= i < |Classes(sigs)| && Classes(sigs)[i] == x.kind;
    BestIsStrongest(sigs, x.kind);
  }

  /** The alert that completes a composite never outranks it: its class takes part. */
  lemma TriggerTakesPart(window: int, h: History, before: Clients, o: Observation, after: Clients, comp: Alert)
    requires StoreInv(h, before)
    requires ObserveStep(window, before, o.alert, o.at, after, Some(comp))
    ensures o.alert.signalClass in comp.signals
    ensures N.Clamp(o.alert.confidence) <= comp.confidence <= 100
  {
    EmissionFacts(window, h, before, o, after, comp);
    var sigs := Updated(window, before, o.alert, o.at);
    var x := TriggerIsListed(window, h, before, o);
    var i := ListedIsCombined(sigs, x);
    var confs := Confidences(Best(sigs), comp.signals);
    assert confs[i] >= o.alert.confidence;
    N.NoisyOrAtLeast(confs, i);
    N.NoisyOrAtMost(confs);
  }

  lemma RemoveClass(kinds: seq<string>, i: nat, c: string)
    requires i < |kinds| && c in kinds && c != kinds[i]
    ensures c in kinds[..i] + kinds[i + 1..]
  {
    var j :| 0 <= j < |kinds| && kinds[j] == c;
    var r := kinds[..i] + kinds[i + 1..];
    assert if j < i then r[j] == c else r[j - 1] == c;
  }

  /** The values of some of the classes are among the values of all of them. */
  lemma {:induction false} ValuesSubset(f: string -> int, some: seq<string>, all: seq<string>)
    requires NoDuplicates(some) && forall c :: c in some ==> c in all
    ensures multiset(Values(f, some)) <= multiset(Values(f, all))
  {
    if some != [] {
      var n := |some| - 1;
      var c := some[n];
      assert c in some;
      var i :| 0 <= i < |all| && all[i] == c;
      var rest := all[..i] + all[i + 1..];
      forall d | d in some[..n]
        ensures d in rest
      {
        RemoveClass(all, i, d);
      }
      ValuesSubset(f, some[..n], rest);
      var va, vs := Values(f, all), Values(f, some);
      assert va == va[..i] + [va[i]] + va[i + 1..];
      assert Values(f, rest) == va[..i] + va[i + 1..];
      assert vs == Values(f, some[..n]) + [va[i]];
    }
  }

  /** A composite claims at most what the window's alerts justify: the noisy-OR of the per-class
      maxima, over any duplicate-free list of classes that covers those seen in the window. */
  lemma CompositeJustified(window: int, h: History, before: Clients, o: Observation, after: Clients,
                           comp: Alert, kinds: seq<string>)
    requires StoreInv(h, before) && window >= 0
    requires ObserveStep(window, before, o.alert, o.at, after, Some(comp))
    requires Covers(h + [o], CorrelationKey(o.alert), o.at, window, kinds)
    ensures comp.confidence <= N.NoisyOr(WindowMaxima(h + [o], CorrelationKey(o.alert), kinds, o.at, window))
  {
    EmissionFacts(window, h, before, o, after, comp);
    var h', key, sigs := h + [o], CorrelationKey(o.alert), Updated(window, before, o.alert, o.at);
    var confs := Confidences(Best(sigs), comp.signals);
    var maxima := WindowMaxima(h', key, comp.signals, o.at, window);
    forall i | 0 <= i < |confs|
      ensures confs[i] <= maxima[i]
    {
      var c := comp.signals[i];
      BestIsStrongest(sigs, c);
      UpdatedSignals(window, h, before, o, Best(sigs)[c]);
      var j :| InWindow(h', key, c, o.at, window, j) && Best(sigs)[c] == SignalOf(h'[j].alert, h'[j].at);
      WindowMaxBounds(h', key, c, o.at, window, j);
    }
    N.NoisyOrPointwise(confs, maxima);
    forall c | c in comp.signals
      ensures c in kinds
    {
      SignalsAreRecent(window, h, before, o, after, comp, c);
    }
    ValuesSubset(c => WindowMax(h', key, c, o.at, window), comp.signals, kinds);
    N.NoisyOrSubset(maxima, WindowMaxima(h', key, kinds, o.at, window));
  }

  /** The composite names the device of its trigger: same key, same MAC, and the same IP if it had one. */
  lemma CompositeIdentity(window: int, h: History, before: Clients, o: Observation, after: Clients, comp: Alert)
    requires StoreInv(h, before)
    requires ObserveStep(window, before, o.alert, o.at, after, Some(comp))
    ensures comp.clientMAC == o.alert.clientMAC
    ensures o.alert.clientIP != "" ==> comp.clientIP == o.alert.clientIP
    ensures CorrelationKey(comp) == CorrelationKey(o.alert)
  {
    EmissionFacts(window, h, before, o, after, comp);
    if o.alert.clientMAC == "" {
      var key, sigs := CorrelationKey(o.alert), Updated(window, before, o.alert, o.at);
      AnchorIsContributor(Best(sigs), comp.signals);
      var c :| c in comp.signals && Anchor(Best(sigs), comp.signals) == Best(sigs)[c].alert;
      BestIsStrongest(sigs, c);
      UpdatedInv(window, h, before, o.alert, o.at);
      var j :| Origin(h + [o], key, Best(sigs)[c], j);
      assert key[0] == 'i';
    }
  }

  /** The rest of a composite: when and for whom it was made, and what it lists. */
  lemma CompositeFields(window: int, h: History, before: Clients, o: Observation, after: Clients, comp: Alert)
    requires StoreInv(h, before)
    requires ObserveStep(window, before, o.alert, o.at, after, Some(comp))
    ensures comp.id == "" && comp.timestamp == o.at && comp.clientName == o.alert.clientName
    ensures comp.source == "composite" && comp.signalClass == "composite" && comp.queryType == ""
    ensures comp.signalCount == |comp.signals| && |comp.tags| == 1 + |comp.signals| && comp.tags[0] == "composite"
    ensures forall i :: 0 <= i < |comp.signals| ==> comp.tags[1 + i] == "signal:" + comp.signals[i]
    ensures forall i, j :: 0 <= i < j < |comp.signals| ==> StringLess(comp.signals[i], comp.signals[j])
    ensures comp.severity == if comp.confidence >= 90 then "critical" else if comp.confidence >= 70 then "high"
                             else "medium"
  {
    EmissionFacts(window, h, before, o, after, comp);
    ClassesAscend(Updated(window, before, o.alert, o.at));
  }

  /** Among equals or not, the anchor is as confident as any contributor. */
  lemma {:induction false} AnchorIsStrongest(best: map<string, Signal>, classes: seq<string>)
    requires classes != [] && forall c :: c in classes ==> c in best
    requires forall c :: c in classes ==> best[c].confidence == best[c].alert.confidence
    ensures forall c :: c in classes ==> best[c].confidence <= Anchor(best, classes).confidence
  {
    var n := |classes| - 1;
    var some, last := classes[..n], classes[n];
    assert last in classes;
    if n > 0 {
      assert forall c :: c in some ==> c in classes;
      AnchorIsStrongest(best, some);
      var top := Anchor(best, classes).confidence;
      assert Anchor(best, some).confidence <= top && best[last].confidence <= top;
      forall c | c in classes
        ensures best[c].confidence <= top
      {
        assert c in some || c == last;
      }
    }
  }

  /** What a composite says about the threat is what the most confident of the device's current signals said. */
  lemma CompositeContext(window: int, h: History, before: Clients, o: Observation, after: Clients, comp: Alert)
    returns (s: Signal)
    requires StoreInv(h, before)
    requires ObserveStep(window, before, o.alert, o.at, after, Some(comp))
    ensures s in Updated(window, before, o.alert, o.at)
    ensures forall x :: x in Updated(window, before, o.alert, o.at) ==> x.confidence <= s.confidence
    ensures comp.domain == s.alert.domain && comp.matchedIoC == s.alert.matchedIoC && comp.iocType == s.alert.iocType
            && comp.threat == s.alert.threat && comp.mitreID == s.alert.mitreID && comp.mitreName == s.alert.mitreName
  {
    EmissionFacts(window, h, before, o, after, comp);
    UpdatedInv(window, h, before, o.alert, o.at);
    var key, sigs := CorrelationKey(o.alert), Updated(window, before, o.alert, o.at);
    var best := Best(sigs);
    forall c | c in comp.signals
      ensures best[c] in sigs && best[c].kind == c && best[c].confidence == best[c].alert.confidence
    {
      BestIsStrongest(sigs, c);
      var j :| Origin(h + [o], key, best[c], j);
    }
    AnchorIsStrongest(best, comp.signals);
    AnchorIsContributor(best, comp.signals);
    var c :| c in comp.signals && Anchor(best, comp.signals) == best[c].alert;
    s := best[c];
    forall x | x in sigs
      ensures x.confidence <= s.confidence
    {
      KindsComplete(sigs, x);
      ClassesOf(sigs);
      BestIsStrongest(sigs, x.kind);
    }
  }
}
