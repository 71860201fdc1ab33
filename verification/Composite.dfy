// The composite correlator (composite.go): per-device lists of recent signals,
// one per class, combined into a single detection when classes corroborate.
module Composite {
  import opened Basics
  import opened Events
  import N = NoisyOr

  const MIN_EMIT_CONFIDENCE := 50
  const MAX_TRACKED_CLIENTS: nat := 4096
  const DEFAULT_WINDOW := 15 * 60 * 1_000_000_000

  datatype Signal = Signal(kind: string, confidence: int, alert: Alert, seen: int)

  type Clients = map<string, seq<Signal>>

  // ----- what each helper computes -----

  /** The device a signal belongs to: its MAC, else its IP, else nothing. */
  function CorrelationKey(a: Alert): string {
    if a.clientMAC != "" then "mac:" + ToLower(a.clientMAC)
    else if a.clientIP != "" then "ip:" + a.clientIP
    else ""
  }

  predicate Correlatable(a: Alert) {
    CorrelationKey(a) != "" && a.signalClass != "" && a.signalClass != COMPOSITE
  }

  function Pruned(sigs: seq<Signal>, now: int, window: int): seq<Signal> {
    if sigs == [] then []
    else
      var n := |sigs| - 1;
      Pruned(sigs[..n], now, window) + (if now - sigs[n].seen <= window then [sigs[n]] else [])
  }

  function Upserted(sigs: seq<Signal>, s: Signal): seq<Signal> {
    if sigs == [] then [s]
    else if sigs[0].kind == s.kind then (if s.confidence >= sigs[0].confidence then [s] + sigs[1..] else sigs)
    else [sigs[0]] + Upserted(sigs[1..], s)
  }

  function Best(sigs: seq<Signal>): map<string, Signal> {
    if sigs == [] then map[]
    else
      var best, s := Best(sigs[..|sigs| - 1]), sigs[|sigs| - 1];
      if s.kind !in best || s.confidence > best[s.kind].confidence then best[s.kind := s] else best
  }

  function Kinds(sigs: seq<Signal>): seq<string> {
    if sigs == [] then []
    else
      var kinds, s := Kinds(sigs[..|sigs| - 1]), sigs[|sigs| - 1];
      if s.kind in kinds then kinds else kinds + [s.kind]
  }

  function InsertString(x: string, s: seq<string>): (r: seq<string>)
    ensures multiset(r) == multiset(s) + multiset{x}
  {
    if s == [] then [x]
    else if StringLess(s[0], x) then
      assert s == [s[0]] + s[1..];
      [s[0]] + InsertString(x, s[1..])
    else [x] + s
  }

  /** sort.Strings. */
  function SortStrings(s: seq<string>): (r: seq<string>)
    ensures multiset(r) == multiset(s)
  {
    if s == [] then []
    else
      assert s == [s[0]] + s[1..];
      InsertString(s[0], SortStrings(s[1..]))
  }

  function Classes(sigs: seq<Signal>): seq<string> {
    SortStrings(Kinds(sigs))
  }

  function Confidences(best: map<string, Signal>, classes: seq<string>): seq<int>
    requires forall c :: c in classes ==> c in best
  {
    seq(|classes|, i requires 0 <= i < |classes| => best[classes[i]].confidence)
  }

  /** The alert of the strongest class; among equals the first in class order. */
  function Anchor(best: map<string, Signal>, classes: seq<string>): Alert
    requires classes != [] && forall c :: c in classes ==> c in best
  {
    if |classes| == 1 then best[classes[0]].alert
    else
      var n := |classes| - 1;
      var anchor := Anchor(best, classes[..n]);
      if best[classes[n]].confidence > anchor.confidence then best[classes[n]].alert else anchor
  }

  function SignalTags(classes: seq<string>): seq<string> {
    ["composite"] + seq(|classes|, i requires 0 <= i < |classes| => "signal:" + classes[i])
  }

  function Built(trigger: Alert, best: map<string, Signal>, classes: seq<string>, now: int): Alert
    requires classes != [] && forall c :: c in classes ==> c in best
  {
    var combined := N.NoisyOr(Confidences(best, classes));
    var anchor := Anchor(best, classes);
    Alert(
      "", now, anchor.domain,
      if trigger.clientIP == "" then anchor.clientIP else trigger.clientIP,
      if trigger.clientMAC == "" then anchor.clientMAC else trigger.clientMAC,
      trigger.clientName,
      "", anchor.matchedIoC, anchor.iocType,
      SeverityForConfidence(combined), "composite", combined,
      anchor.mitreID, anchor.mitreName, anchor.threat, SignalTags(classes),
      COMPOSITE, classes, |classes|)
  }

  /** The composite that a device's current signals give rise to, if any. */
  function Emitted(trigger: Alert, sigs: seq<Signal>, now: int): Option<Alert> {
    var classes := Classes(sigs);
    if |classes| < 2 then None
    else
      BestKeys(sigs);
      ClassesOf(sigs);
      var comp := Built(trigger, Best(sigs), classes, now);
      if comp.confidence < MIN_EMIT_CONFIDENCE then None else Some(comp)
  }

  function SignalOf(a: Alert, now: int): Signal {
    Signal(a.signalClass, a.confidence, a, now)
  }

  function SignalsFor(clients: Clients, key: string): seq<Signal> {
    if key in clients then clients[key] else []
  }

  function Updated(window: int, clients: Clients, a: Alert, now: int): seq<Signal> {
    Upserted(Pruned(SignalsFor(clients, CorrelationKey(a)), now, window), SignalOf(a, now))
  }

  /** The time of the newest signal, counted from the zero time. */
  function Newest(sigs: seq<Signal>): int {
    if sigs == [] then 0
    else
      var rest, s := Newest(sigs[..|sigs| - 1]), sigs[|sigs| - 1];
      if s.seen > rest then s.seen else rest
  }

  /** Which clients survive: at most the cap, never one that is older than a dropped one. */
  ghost predicate Evicted(before: Clients, after: Clients) {
    && (forall k :: k in after ==> k in before && after[k] == before[k])
    && |after| == (if |before| <= MAX_TRACKED_CLIENTS then |before| else MAX_TRACKED_CLIENTS)
    && (forall d, k :: d in before && d !in after && k in after ==> Newest(before[d]) <= Newest(before[k]))
  }

  ghost predicate ObserveStep(window: int, before: Clients, a: Alert, now: int, after: Clients, out: Option<Alert>) {
    if !Correlatable(a) then after == before && out == None
    else
      var sigs := Updated(window, before, a, now);
      Evicted(before[CorrelationKey(a) := sigs], after) && out == Emitted(a, sigs, now)
  }

  // ----- facts about the helpers -----

  lemma {:induction false} BestKeys(sigs: seq<Signal>)
    ensures forall c :: c in Best(sigs) <==> c in Kinds(sigs)
  {
    if sigs != [] {
      BestKeys(sigs[..|sigs| - 1]);
    }
  }

  lemma ClassesOf(sigs: seq<Signal>)
    ensures forall c :: c in Classes(sigs) <==> c in Kinds(sigs)
    ensures |Classes(sigs)| == |Kinds(sigs)|
  {
    var m := multiset(Kinds(sigs));
    assert multiset(Classes(sigs)) == m;
    forall c
      ensures c in Classes(sigs) <==> c in Kinds(sigs)
    {
      assert c in Classes(sigs) <==> c in multiset(Classes(sigs));
      assert c in Kinds(sigs) <==> c in m;
    }
    assert |multiset(Classes(sigs))| == |Classes(sigs)|;
    assert |m| == |Kinds(sigs)|;
  }

  /** Each class is represented by its most confident signal. */
  lemma {:induction false} BestIsStrongest(sigs: seq<Signal>, c: string)
    requires c in Best(sigs)
    ensures Best(sigs)[c] in sigs && Best(sigs)[c].kind == c
    ensures forall s :: s in sigs && s.kind == c ==> s.confidence <= Best(sigs)[c].confidence
  {
    var n := |sigs| - 1;
    assert sigs == sigs[..n] + [sigs[n]];
    if c in Best(sigs[..n]) {
      BestIsStrongest(sigs[..n], c);
    } else {
      BestKeys(sigs[..n]);
      forall s | s in sigs[..n]
        ensures s.kind != c
      {
        KindsComplete(sigs[..n], s);
      }
    }
  }

  lemma {:induction false} KindsComplete(sigs: seq<Signal>, s: Signal)
    requires s in sigs
    ensures s.kind in Kinds(sigs)
  {
    var n := |sigs| - 1;
    assert sigs == sigs[..n] + [sigs[n]];
    if s in sigs[..n] {
      KindsComplete(sigs[..n], s);
    }
  }

  lemma {:induction false} KindsSound(sigs: seq<Signal>, c: string)
    requires c in Kinds(sigs)
    ensures exists s :: s in sigs && s.kind == c
  {
    var n := |sigs| - 1;
    assert sigs == sigs[..n] + [sigs[n]];
    if c in Kinds(sigs[..n]) {
      KindsSound(sigs[..n], c);
      var s :| s in sigs[..n] && s.kind == c;
      assert s in sigs;
    } else {
      assert sigs[n] in sigs;
    }
  }

  lemma {:induction false} KindsDistinct(sigs: seq<Signal>)
    ensures NoDuplicates(Kinds(sigs))
  {
    if sigs != [] {
      KindsDistinct(sigs[..|sigs| - 1]);
    }
  }

  // ----- the order of the classes -----

  /** Each string comes before the next or equals it. */
  predicate Sorted(s: seq<string>) {
    forall i, j :: 0 <= i < j < |s| ==> !StringLess(s[j], s[i])
  }

  lemma {:induction false} StringLessTransitive(a: string, b: string, c: string)
    requires !StringLess(b, a) && !StringLess(c, b)
    ensures !StringLess(c, a)
  {
    if a != [] && b != [] && c != [] && a[0] == b[0] && b[0] == c[0] {
      StringLessTransitive(a[1..], b[1..], c[1..]);
    }
  }

  lemma {:induction false} InsertSorted(x: string, s: seq<string>)
    requires Sorted(s)
    ensures Sorted(InsertString(x, s))
  {
    if s != [] {
      if StringLess(s[0], x) {
        InsertSorted(x, s[1..]);
        StringLessTotal(s[0], x);
        var rest := InsertString(x, s[1..]);
        forall j | 0 <= j < |rest|
          ensures !StringLess(rest[j], s[0])
        {
          assert rest[j] in multiset(rest);
          assert rest[j] == x || rest[j] in s[1..];
        }
      } else {
        forall j | 0 <= j < |s|
          ensures !StringLess(s[j], x)
        {
          if j > 0 {
            StringLessTransitive(x, s[0], s[j]);
          }
        }
      }
    }
  }

  lemma {:induction false} SortedStrings(s: seq<string>)
    ensures Sorted(SortStrings(s))
  {
    if s != [] {
      SortedStrings(s[1..]);
      InsertSorted(s[0], SortStrings(s[1..]));
    }
  }

  /** The classes of a list: each class present once, in ascending order. */
  lemma ClassesAscend(sigs: seq<Signal>)
    ensures forall i, j :: 0 <= i < j < |Classes(sigs)| ==> StringLess(Classes(sigs)[i], Classes(sigs)[j])
    ensures forall c :: c in Classes(sigs) <==> exists s :: s in sigs && s.kind == c
  {
    var classes := Classes(sigs);
    SortedStrings(Kinds(sigs));
    KindsDistinct(sigs);
    NoDuplicatesIsMultiset(Kinds(sigs), classes);
    ClassesOf(sigs);
    forall i, j | 0 <= i < j < |classes|
      ensures StringLess(classes[i], classes[j])
    {
      StringLessTotal(classes[i], classes[j]);
      assert !StringLess(classes[j], classes[i]) && classes[i] != classes[j];
    }
    forall c
      ensures c in classes <==> exists s :: s in sigs && s.kind == c
    {
      if c in Kinds(sigs) {
        KindsSound(sigs, c);
      }
      if s :| s in sigs && s.kind == c {
        KindsComplete(sigs, s);
      }
    }
  }

  lemma NoDuplicatesIsMultiset<T>(a: seq<T>, b: seq<T>)
    requires NoDuplicates(a) && multiset(a) == multiset(b)
    ensures NoDuplicates(b)
  {
    forall i, j | 0 <= i < j < |b|
      ensures b[i] != b[j]
    {
      if b[i] == b[j] {
        MultiplicityTwo(b, i, j);
        MultiplicityOne(a, b[i]);
        assert false;
      }
    }
  }

  lemma MultiplicityTwo<T>(b: seq<T>, i: nat, j: nat)
    requires i < j < |b| && b[i] == b[j]
    ensures multiset(b)[b[i]] >= 2
  {
    assert b == b[..j] + [b[j]] + b[j + 1..];
    assert multiset(b) == multiset(b[..j]) + multiset{b[j]} + multiset(b[j + 1..]);
    assert b[i] in b[..j];
    assert multiset(b[..j])[b[i]] >= 1;
  }

  lemma {:induction false} MultiplicityOne<T>(a: seq<T>, x: T)
    requires NoDuplicates(a)
    ensures multiset(a)[x] <= 1
  {
    if a != [] {
      var n := |a| - 1;
      assert a == a[..n] + [a[n]];
      MultiplicityOne(a[..n], x);
      assert multiset(a) == multiset(a[..n]) + multiset{a[n]};
      if x == a[n] {
        assert x !in a[..n];
        assert multiset(a[..n])[x] == 0;
      }
    }
  }

  /** The anchor is the alert of one of the combined signals. */
  lemma {:induction false} AnchorIsContributor(best: map<string, Signal>, classes: seq<string>)
    requires classes != [] && forall c :: c in classes ==> c in best
    ensures exists c :: c in classes && Anchor(best, classes) == best[c].alert
  {
    var n := |classes| - 1;
    assert classes[n] in classes;
    if |classes| > 1 {
      AnchorIsContributor(best, classes[..n]);
      var c :| c in classes[..n] && Anchor(best, classes[..n]) == best[c].alert;
      assert c in classes;
    }
  }

  predicate OnePerKind(sigs: seq<Signal>) {
    forall i, j :: 0 <= i < j < |sigs| ==> sigs[i].kind != sigs[j].kind
  }

  lemma {:induction false} PrunedContents(sigs: seq<Signal>, now: int, window: int)
    ensures forall s :: s in Pruned(sigs, now, window) <==> s in sigs && now - s.seen <= window
    ensures OnePerKind(sigs) ==> OnePerKind(Pruned(sigs, now, window))
  {
    if sigs != [] {
      var n := |sigs| - 1;
      PrunedContents(sigs[..n], now, window);
      assert sigs == sigs[..n] + [sigs[n]];
      var rest := Pruned(sigs[..n], now, window);
      if OnePerKind(sigs) {
        forall i | 0 <= i < |rest|
          ensures rest[i].kind != sigs[n].kind
        {
          assert rest[i] in sigs[..n];
        }
      }
    }
  }

  /** After an upsert the list still has one signal per class, and the class of the new one
      is held by a signal at least as confident. */
  lemma {:induction false} UpsertedContents(sigs: seq<Signal>, s: Signal)
    requires OnePerKind(sigs)
    ensures OnePerKind(Upserted(sigs, s))
    ensures forall x :: x in Upserted(sigs, s) ==>
              x == s || (x in sigs && (x.kind == s.kind ==> s.confidence < x.confidence))
    ensures exists x :: x in Upserted(sigs, s) && x.kind == s.kind && s.confidence <= x.confidence
  {
    var r := Upserted(sigs, s);
    if sigs == [] || sigs[0].kind == s.kind {
      assert r[0] in r;
      forall x | x in r && x != s && sigs != []
        ensures x in sigs && (x.kind == s.kind ==> s.confidence < x.confidence)
      {
        if r == [s] + sigs[1..] {
          assert x in sigs[1..];
        }
      }
    } else {
      UpsertedContents(sigs[1..], s);
      var rest := Upserted(sigs[1..], s);
      var x :| x in rest && x.kind == s.kind && s.confidence <= x.confidence;
      assert x in r;
      forall i | 0 <= i < |rest|
        ensures rest[i].kind != sigs[0].kind
      {
        assert rest[i] in rest;
      }
    }
  }

  // ----- the correlator -----

  lemma {:induction false} UpsertedAt(sigs: seq<Signal>, s: Signal, i: nat)
    requires i <= |sigs| && forall j :: 0 <= j < i ==> sigs[j].kind != s.kind
    requires i < |sigs| ==> sigs[i].kind == s.kind
    ensures Upserted(sigs, s) ==
            if i == |sigs| then sigs + [s]
            else if s.confidence >= sigs[i].confidence then sigs[i := s]
            else sigs
  {
    if i > 0 {
      UpsertedAt(sigs[1..], s, i - 1);
      assert sigs == [sigs[0]] + sigs[1..];
    }
  }

  method UpsertSignal(sigs: seq<Signal>, s: Signal) returns (r: seq<Signal>)
    ensures r == Upserted(sigs, s)
  {
    for i := 0 to |sigs|
      invariant forall j :: 0 <= j < i ==> sigs[j].kind != s.kind
    {
      if sigs[i].kind == s.kind {
        UpsertedAt(sigs, s, i);
        if s.confidence >= sigs[i].confidence {
          return sigs[i := s];
        }
        return sigs;
      }
    }
    UpsertedAt(sigs, s, |sigs|);
    return sigs + [s];
  }

  method BestPerClass(sigs: seq<Signal>) returns (best: map<string, Signal>)
    ensures best == Best(sigs)
  {
    best := map[];
    for i := 0 to |sigs|
      invariant best == Best(sigs[..i])
    {
      var s := sigs[i];
      if s.kind !in best || s.confidence > best[s.kind].confidence {
        best := best[s.kind := s];
      }
      assert sigs[..i + 1][..i] == sigs[..i];
    }
    assert sigs[..|sigs|] == sigs;
  }

  method DistinctClasses(sigs: seq<Signal>) returns (classes: seq<string>)
    ensures classes == Classes(sigs)
  {
    var seen: set<string> := {};
    classes := [];
    for i := 0 to |sigs|
      invariant classes == Kinds(sigs[..i])
      invariant forall c :: c in seen <==> c in classes
    {
      if sigs[i].kind !in seen {
        seen := seen + {sigs[i].kind};
        classes := classes + [sigs[i].kind];
      }
      assert sigs[..i + 1][..i] == sigs[..i];
    }
    assert sigs[..|sigs|] == sigs;
    classes := SortStrings(classes);
  }

  method NewestOf(sigs: seq<Signal>) returns (newest: int)
    ensures newest == Newest(sigs)
  {
    newest := 0;
    for i := 0 to |sigs|
      invariant newest == Newest(sigs[..i])
    {
      if sigs[i].seen > newest {
        newest := sigs[i].seen;
      }
      assert sigs[..i + 1][..i] == sigs[..i];
    }
    assert sigs[..|sigs|] == sigs;
  }

  /** A client whose newest signal is oldest. */
  method OldestClient(clients: Clients) returns (oldest: string)
    requires clients != map[]
    ensures oldest in clients
    ensures forall k :: k in clients ==> Newest(clients[oldest]) <= Newest(clients[k])
  {
    var todo := clients.Keys;
    oldest :| oldest in todo;
    var age := NewestOf(clients[oldest]);
    while todo != {}
      invariant todo <= clients.Keys && oldest in clients && age == Newest(clients[oldest])
      invariant forall k :: k in clients && k !in todo ==> age <= Newest(clients[k])
      decreases todo
    {
      var k :| k in todo;
      todo := todo - {k};
      var n := NewestOf(clients[k]);
      if n < age {
        oldest, age := k, n;
      }
    }
  }

  method BuildComposite(trigger: Alert, sigs: seq<Signal>, classes: seq<string>, now: int) returns (comp: Alert)
    requires classes != [] && forall c :: c in classes ==> c in Best(sigs)
    ensures comp == Built(trigger, Best(sigs), classes, now)
  {
    var best := BestPerClass(sigs);
    var confs: seq<int> := [];
    for i := 0 to |classes|
      invariant confs == Confidences(best, classes)[..i]
    {
      confs := confs + [best[classes[i]].confidence];
    }
    assert confs == Confidences(best, classes);
    var combined := N.Combine(confs);
    var anchor := best[classes[0]].alert;
    assert classes[..1] == [classes[0]];
    for i := 0 to |classes|
      invariant anchor == if i == 0 then best[classes[0]].alert else Anchor(best, classes[..i])
    {
      if best[classes[i]].confidence > anchor.confidence {
        anchor := best[classes[i]].alert;
      }
      assert classes[..i + 1][..i] == classes[..i];
    }
    assert classes[..|classes|] == classes;
    var tags := ["composite"];
    for i := 0 to |classes|
      invariant tags == SignalTags(classes)[..i + 1]
    {
      tags := tags + ["signal:" + classes[i]];
    }
    assert tags == SignalTags(classes);
    var clientIP := if trigger.clientIP == "" then anchor.clientIP else trigger.clientIP;
    var clientMAC := if trigger.clientMAC == "" then anchor.clientMAC else trigger.clientMAC;
    comp := Alert(
      "", now, anchor.domain, clientIP, clientMAC, trigger.clientName,
      "", anchor.matchedIoC, anchor.iocType,
      SeverityForConfidence(combined), "composite", combined,
      anchor.mitreID, anchor.mitreName, anchor.threat, tags,
      COMPOSITE, classes, |classes|);
  }

  class Correlator {
    const window: int
    var clients: Clients

    constructor (window: int)
      ensures this.window == if window <= 0 then 15 * 60 * 1_000_000_000 else window
      ensures clients == map[]
    {
      this.window := if window <= 0 then DEFAULT_WINDOW else window;
      clients := map[];
    }

    method Prune(sigs: seq<Signal>, now: int) returns (kept: seq<Signal>)
      ensures kept == Pruned(sigs, now, window)
    {
      kept := [];
      for i := 0 to |sigs|
        invariant kept == Pruned(sigs[..i], now, window)
      {
        if now - sigs[i].seen <= window {
          kept := kept + [sigs[i]];
        }
        assert sigs[..i + 1][..i] == sigs[..i];
      }
      assert sigs[..|sigs|] == sigs;
    }

    /** Drops the oldest clients, one minimum after another, until the cap is met. */
    method Evict()
      modifies this`clients
      ensures Evicted(old(clients), clients)
    {
      while |clients| > MAX_TRACKED_CLIENTS
        invariant forall k :: k in clients ==> k in old(clients) && clients[k] == old(clients)[k]
        invariant |clients| == |old(clients)| || |old(clients)| > |clients| >= MAX_TRACKED_CLIENTS
        invariant forall d, k :: d in old(clients) && d !in clients && k in clients ==>
          Newest(old(clients)[d]) <= Newest(old(clients)[k])
        decreases |clients|
      {
        var oldest := OldestClient(clients);
        clients := clients - {oldest};
      }
      if |old(clients)| <= MAX_TRACKED_CLIENTS {
        assert |clients| == |old(clients)|;
      }
    }

    /** Records one alert and returns the composite it completes, if any. */
    method Observe(a: Alert, now: int) returns (comp: Option<Alert>)
      modifies this`clients
      ensures ObserveStep(window, old(clients), a, now, clients, comp)
    {
      var client := CorrelationKey(a);
      if client == "" || a.signalClass == "" || a.signalClass == COMPOSITE {
        return None;
      }
      var sigs := Prune(if client in clients then clients[client] else [], now);
      sigs := UpsertSignal(sigs, SignalOf(a, now));
      clients := clients[client := sigs];
      Evict();
      var classes := DistinctClasses(sigs);
      if |classes| < 2 {
        return None;
      }
      BestKeys(sigs);
      ClassesOf(sigs);
      var built := BuildComposite(a, sigs, classes, now);
      if built.confidence < MIN_EMIT_CONFIDENCE {
        return None;
      }
      return Some(built);
    }
  }
}
