// The decision function of the killswitch (policy.go).
module Policy {
  import opened Events

  datatype Verb = Ignore | Pend | AutoBlock

  datatype Decision = Decision(verb: Verb, actionType: string, ttl: int)

  /** Allowlist lookups: which spellings of a MAC or an IP normalise to a listed device. */
  datatype Allowlist = Allowlist(listsMAC: string -> bool, listsIP: string -> bool) {
    predicate Contains(mac: string, ip: string) {
      (mac != "" && listsMAC(mac)) || (ip != "" && listsIP(ip))
    }
  }

  datatype Policy = Policy(
    autoMinConfidence: int, autoMinSeverity: string,
    pendMinConfidence: int, pendMinSeverity: string,
    defaultTTL: int, defaultAction: string,
    autoMinSignals: int, autoRequireKnownBad: bool,
    allowlist: Allowlist)

  function SeverityRank(s: string): int {
    if s == CRITICAL then 4
    else if s == HIGH then 3
    else if s == MEDIUM then 2
    else if s == LOW then 1
    else 0
  }

  predicate Corroborated(p: Policy, e: DetectionEvent) {
    p.autoMinSignals <= 1 || e.signalCount == 0 || e.signalCount >= p.autoMinSignals
  }

  predicate AutoBlockAllowed(p: Policy, e: DetectionEvent) {
    (p.autoRequireKnownBad ==> HasKnownBadSignal(e)) && Corroborated(p, e)
  }

  function Evaluate(p: Policy, e: DetectionEvent): Decision {
    if p.allowlist.Contains(e.clientMAC, e.clientIP) then
      Decision(Ignore, "", 0)
    else if e.confidence >= p.autoMinConfidence && SeverityRank(e.severity) >= SeverityRank(p.autoMinSeverity) then
      Decision(if AutoBlockAllowed(p, e) then AutoBlock else Pend, p.defaultAction, p.defaultTTL)
    else if e.confidence >= p.pendMinConfidence && SeverityRank(e.severity) >= SeverityRank(p.pendMinSeverity) then
      Decision(Pend, p.defaultAction, p.defaultTTL)
    else
      Decision(Ignore, "", 0)
  }

  /** How strong a response is: ignore < pending < auto_block. */
  function Strength(v: Verb): nat {
    match v
    case Ignore => 0
    case Pend => 1
    case AutoBlock => 2
  }

  lemma SeverityMonotone(c: int, d: int)
    requires c <= d
    ensures SeverityRank(SeverityForConfidence(c)) <= SeverityRank(SeverityForConfidence(d))
  {
  }

  /** At least as severe, as confident and as protected. */
  predicate AtLeastAsStrong(p: Policy, weak: DetectionEvent, strong: DetectionEvent) {
    && weak.confidence <= strong.confidence
    && SeverityRank(weak.severity) <= SeverityRank(strong.severity)
    && (HasKnownBadSignal(weak) ==> HasKnownBadSignal(strong))
    && (p.allowlist.Contains(strong.clientMAC, strong.clientIP) ==> p.allowlist.Contains(weak.clientMAC, weak.clientIP))
  }

  /** Stronger evidence about the same device is answered at least as strongly,
      except where the weak event auto-blocks and the strong one misses the signal count. */
  lemma StrongerEvidence(p: Policy, weak: DetectionEvent, strong: DetectionEvent)
    requires AtLeastAsStrong(p, weak, strong)
    ensures Strength(Evaluate(p, strong).verb) < Strength(Evaluate(p, weak).verb)
       <==> Evaluate(p, weak).verb == AutoBlock && !Corroborated(p, strong)
  {
  }

  /** `q` is at least as strict as `p` in every respect. */
  ghost predicate Stricter(q: Policy, p: Policy) {
    && p.autoMinConfidence <= q.autoMinConfidence && SeverityRank(p.autoMinSeverity) <= SeverityRank(q.autoMinSeverity)
    && p.pendMinConfidence <= q.pendMinConfidence && SeverityRank(p.pendMinSeverity) <= SeverityRank(q.pendMinSeverity)
    && p.autoMinSignals <= q.autoMinSignals && (p.autoRequireKnownBad ==> q.autoRequireKnownBad)
    && forall mac, ip :: p.allowlist.Contains(mac, ip) ==> q.allowlist.Contains(mac, ip)
  }

  /** Tightening any threshold, gate or allowlist never strengthens a response. */
  lemma StricterNeverStronger(q: Policy, p: Policy, e: DetectionEvent)
    requires Stricter(q, p)
    ensures Strength(Evaluate(q, e).verb) <= Strength(Evaluate(p, e).verb)
  {
    assert p.allowlist.Contains(e.clientMAC, e.clientIP) ==> q.allowlist.Contains(e.clientMAC, e.clientIP);
  }

  // ----- when each verb is given -----

  /** At least as severe, on the scale low < medium < high < critical; a bar off the scale holds nobody back. */
  predicate NoMilder(severity: string, bar: string) {
    && (bar == "critical" ==> severity == "critical")
    && (bar == "high" ==> severity in ["high", "critical"])
    && (bar == "medium" ==> severity in ["medium", "high", "critical"])
    && (bar == "low" ==> severity in ["low", "medium", "high", "critical"])
  }

  /** The device is on the allowlist, by its MAC or by its address. */
  predicate Listed(p: Policy, e: DetectionEvent) {
    (e.clientMAC != "" && p.allowlist.listsMAC(e.clientMAC)) || (e.clientIP != "" && p.allowlist.listsIP(e.clientIP))
  }

  predicate MeetsAuto(p: Policy, e: DetectionEvent) {
    p.autoMinConfidence <= e.confidence && NoMilder(e.severity, p.autoMinSeverity)
  }

  predicate MeetsPend(p: Policy, e: DetectionEvent) {
    p.pendMinConfidence <= e.confidence && NoMilder(e.severity, p.pendMinSeverity)
  }

  /** Both gates: a feed match or an IDS signature among the signals if the policy asks for one, and as many
      signals as it asks for, unless the event is a single signal. */
  predicate PassesGates(p: Policy, e: DetectionEvent) {
    && (p.autoRequireKnownBad ==> exists k :: k in [e.signalClass] + e.signals && k in {"ioc", "ids-signature"})
    && (e.signalCount == 0 || p.autoMinSignals <= 1 || p.autoMinSignals <= e.signalCount)
  }

  /** Exactly when an event is blocked, held or ignored, and what a decision to act carries. */
  lemma VerbIff(p: Policy, e: DetectionEvent)
    ensures Evaluate(p, e).verb == AutoBlock <==> !Listed(p, e) && MeetsAuto(p, e) && PassesGates(p, e)
    ensures Evaluate(p, e).verb == Ignore <==> Listed(p, e) || (!MeetsAuto(p, e) && !MeetsPend(p, e))
    ensures Evaluate(p, e).verb == Pend <==>
            !Listed(p, e) && if MeetsAuto(p, e) then !PassesGates(p, e) else MeetsPend(p, e)
    ensures Evaluate(p, e).verb != Ignore ==>
              Evaluate(p, e).actionType == p.defaultAction && Evaluate(p, e).ttl == p.defaultTTL
  {
    GateIff(e);
    RankIff(e.severity, p.autoMinSeverity);
    RankIff(e.severity, p.pendMinSeverity);
  }

  lemma RankIff(severity: string, bar: string)
    ensures SeverityRank(severity) >= SeverityRank(bar) <==> NoMilder(severity, bar)
  {
  }

  lemma KnownBadIff(kind: string)
    ensures IsKnownBadSignal(kind) <==> kind in {"ioc", "ids-signature"}
  {
  }

  lemma GateIff(e: DetectionEvent)
    ensures HasKnownBadSignal(e) <==> exists k :: k in [e.signalClass] + e.signals && k in {"ioc", "ids-signature"}
  {
    forall k
      ensures k in [e.signalClass] + e.signals <==> k == e.signalClass || k in e.signals
      ensures IsKnownBadSignal(k) <==> k in {"ioc", "ids-signature"}
    {
      KnownBadIff(k);
    }
    if HasKnownBadSignal(e) {
      var k :| (k == e.signalClass || k in e.signals) && IsKnownBadSignal(k);
      assert k in [e.signalClass] + e.signals;
    }
  }

  /** The scale that derived severities are taken from. */
  lemma SeverityTable(confidence: int)
    ensures SeverityForConfidence(confidence) == "critical" <==> confidence >= 90
    ensures SeverityForConfidence(confidence) == "high" <==> 70 <= confidence < 90
    ensures SeverityForConfidence(confidence) == "medium" <==> 50 <= confidence < 70
    ensures SeverityForConfidence(confidence) == "low" <==> confidence < 50
  {
  }
}
