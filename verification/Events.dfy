// The records that travel from the detection engine to the killswitch:
// internal alerts (engine.go), the shared event contract (libs/events) and the
// mapping between the two (eventmap.go).
module Events {
  import opened Basics

  const CRITICAL := "critical"
  const HIGH := "high"
  const MEDIUM := "medium"
  const LOW := "low"

  const IOC := "ioc"
  const IDS := "ids-signature"
  const TLS := "tls"
  const BEACON := "beacon"
  const COMPOSITE := "composite"

  datatype Alert = Alert(
    id: string, timestamp: int, domain: string,
    clientIP: string, clientMAC: string, clientName: string,
    queryType: string, matchedIoC: string, iocType: string,
    severity: string, source: string, confidence: int,
    mitreID: string, mitreName: string, threat: string, tags: seq<string>,
    signalClass: string, signals: seq<string>, signalCount: int)

  datatype DetectionEvent = DetectionEvent(
    schemaVersion: string, id: string, timestamp: int,
    domain: string, matchedIoC: string, iocType: string,
    clientIP: string, clientMAC: string, clientName: string,
    severity: string, confidence: int, source: string, threat: string,
    mitreID: string, mitreName: string,
    queryType: string, tags: seq<string>,
    signalClass: string, signals: seq<string>, signalCount: int)

  function SeverityForConfidence(confidence: int): string {
    if confidence >= 90 then CRITICAL
    else if confidence >= 70 then HIGH
    else if confidence >= 50 then MEDIUM
    else LOW
  }

  /** Feed matches and IDS signatures are attested from outside; everything else is a local heuristic. */
  predicate IsKnownBadSignal(kind: string) {
    kind == IOC || kind == IDS
  }

  predicate HasKnownBadSignal(e: DetectionEvent) {
    IsKnownBadSignal(e.signalClass) || exists s :: s in e.signals && IsKnownBadSignal(s)
  }

  method Contains(haystack: seq<string>, needle: string) returns (found: bool)
    ensures found <==> needle in haystack
  {
    for i := 0 to |haystack|
      invariant needle !in haystack[..i]
    {
      if haystack[i] == needle {
        return true;
      }
    }
    assert haystack[..|haystack|] == haystack;
    return false;
  }

  /** Exactly the known-bad classes the event carries, each once; empty iff there is none. */
  method KnownBadSignals(e: DetectionEvent) returns (out: seq<string>)
    ensures NoDuplicates(out)
    ensures forall k :: k in out <==> IsKnownBadSignal(k) && (k == e.signalClass || k in e.signals)
    ensures out != [] <==> HasKnownBadSignal(e)
  {
    out := [];
    if IsKnownBadSignal(e.signalClass) {
      out := [e.signalClass];
    }
    for i := 0 to |e.signals|
      invariant NoDuplicates(out)
      invariant forall k :: k in out <==> IsKnownBadSignal(k) && (k == e.signalClass || k in e.signals[..i])
    {
      var seen := Contains(out, e.signals[i]);
      if IsKnownBadSignal(e.signals[i]) && !seen {
        out := out + [e.signals[i]];
      }
      assert e.signals[..i + 1] == e.signals[..i] + [e.signals[i]];
    }
    assert e.signals[..|e.signals|] == e.signals;
    assert out == [] || out[0] in out;
    if HasKnownBadSignal(e) {
      var k :| IsKnownBadSignal(k) && (k == e.signalClass || k in e.signals);
      assert k in out;
    }
  }

  predicate ValidIoCType(t: string) {
    t in ["domain", "ip", "url", "ja3", "tlsfp", "md5", "sha256"]
  }

  function AlertToEvent(a: Alert): DetectionEvent {
    DetectionEvent(
      "1.0", a.id, a.timestamp,
      a.domain, a.matchedIoC, if ValidIoCType(a.iocType) then a.iocType else "ip",
      a.clientIP, a.clientMAC, a.clientName,
      if a.severity == "" then SeverityForConfidence(a.confidence) else a.severity,
      a.confidence, a.source, a.threat,
      a.mitreID, a.mitreName,
      a.queryType, a.tags,
      a.signalClass, a.signals, a.signalCount)
  }

  /** Field by field: who, what and which signals arrive as they are; a type the contract does not list is sent
      as "ip", and a missing severity is derived from the confidence. */
  lemma EventCarries(a: Alert)
    ensures var e := AlertToEvent(a);
            && e.schemaVersion == "1.0" && e.id == a.id && e.timestamp == a.timestamp
            && e.domain == a.domain && e.matchedIoC == a.matchedIoC
            && e.clientIP == a.clientIP && e.clientMAC == a.clientMAC && e.clientName == a.clientName
            && e.confidence == a.confidence && e.source == a.source && e.threat == a.threat
            && e.mitreID == a.mitreID && e.mitreName == a.mitreName && e.queryType == a.queryType
            && e.tags == a.tags
            && e.signalClass == a.signalClass && e.signals == a.signals && e.signalCount == a.signalCount
    ensures AlertToEvent(a).iocType ==
            if a.iocType in {"domain", "ip", "url", "ja3", "tlsfp", "md5", "sha256"} then a.iocType else "ip"
    ensures AlertToEvent(a).severity ==
            if a.severity != "" then a.severity
            else if a.confidence >= 90 then "critical"
            else if a.confidence >= 70 then "high"
            else if a.confidence >= 50 then "medium"
            else "low"
  {
  }

  /** Indicator types that the contract cannot tell apart: equal, or each `ip` or none of the listed ones. */
  predicate SameType(s: string, t: string) {
    s == t || ((s == "ip" || !ValidIoCType(s)) && (t == "ip" || !ValidIoCType(t)))
  }

  /** Severities equal once a missing one is derived from the confidence. */
  predicate SameSeverity(s: string, t: string, confidence: int) {
    s == t || (s == "" && t == SeverityForConfidence(confidence)) || (t == "" && s == SeverityForConfidence(confidence))
  }

  /** Nothing else is lost on the way: two alerts become one event iff they differ in no more than an
      unlisted indicator type or a severity left to be derived. In particular who, what class and which
      signals arrive unchanged. */
  lemma MappingIsLossless(a: Alert, b: Alert)
    ensures AlertToEvent(a) == AlertToEvent(b)
       <==> && b == a.(iocType := b.iocType, severity := b.severity)
            && SameType(a.iocType, b.iocType) && SameSeverity(a.severity, b.severity, a.confidence)
  {
  }

  /** What a sensor produces: no composite metadata of its own. */
  predicate SingleSignal(a: Alert) {
    a.signals == [] && a.signalCount == 0
  }
}
