// End to end: from sensor alerts to AdGuard's rule list without an operator.
module ResponsePath {
  import opened Basics
  import opened Events
  import opened CompositeHistory
  import opened Composite
  import opened Devices
  import opened Pipeline
  import opened Policy
  import P = Policy
  import opened Actions
  import opened Sinkhole
  import opened Hostnames
  import opened Enforcement
  import opened Release
  import opened Killswitch
  import opened KillswitchRuns

  /** Submitting what the engine forwarded for alert i changes AdGuard's rules, or leaves an action in
      force, only if auto-block is enabled, the device is not allowlisted, and a known-bad alert about
      that device was observed within the last window. */
  lemma CutOffIsAttested(window: int, run: seq<Event>, i: nat, c: Config, s: Sys, now: int, net: Net)
    requires window >= 0 && IsRun(window, run) && ClockMonotone(run) && SensorAlerts(run)
    requires i < |run| && run[i].forwarded.Some? && c.policy.autoRequireKnownBad && Sound(s.book)
    ensures var ev := AlertToEvent(run[i].forwarded.value);
            var s' := Evaluated(c, s, ev, now, net);
            s'.rules != s.rules ||
                (exists id :: id in s'.book.actions && id !in s.book.actions && s'.book.actions[id].state == Active)
            ==> c.autoBlockAllowed
                && !c.policy.allowlist.Contains(ev.clientMAC, ev.clientIP)
                && exists j :: Attested(run, i, window, j)
  {
    var ev := AlertToEvent(run[i].forwarded.value);
    var verb := Response(c, ev);
    if verb == AutoBlock {
      HeuristicsNeverAutoBlock(window, run, i, c.policy);
    } else if verb == Pend {
      CreatedConsistent(s.book, Requested(c, s, ev, now, false), c.maxActions);
    }
  }

  /** What an action is about: everything but its state. */
  predicate SameTarget(a: Action, b: Action) {
    && a.targetMAC == b.targetMAC && a.targetIP == b.targetIP && a.domain == b.domain
    && a.detectionID == b.detectionID && a.actionType == b.actionType
    && a.ttl == b.ttl && a.expiresAt == b.expiresAt && a.autoApproved == b.autoApproved
  }

  /** Whatever the driver answers, enforcement keeps what an action is about. */
  lemma EnforcedKeepsTarget(s: Sys, a: Action, net: Net, id: nat)
    requires Consistent(s.book) && ApprovedOnly(s.book, a.id)
    requires a.id in s.book.actions && s.book.actions[a.id] == a && a.state == Approved && id in s.book.actions
    ensures id in Enforced(s, a, net).book.actions
    ensures SameTarget(Enforced(s, a, net).book.actions[id], s.book.actions[id])
  {
    var why := EnforcedOutcome(s, a, net);
  }

  /** The only action an event adds is the one it asks for: about the event's device and domain, of the kind
      and duration the policy says. */
  lemma NewActionTarget(c: Config, s: Sys, ev: DetectionEvent, now: int, net: Net, s': Sys, id: nat)
    requires Sound(s.book) && s' == Evaluated(c, s, ev, now, net)
    requires id in s'.book.actions && id !in s.book.actions
    ensures id == s.book.counter + 1
    ensures var a := s'.book.actions[id];
            && a.detectionID == ev.id && a.targetMAC == ev.clientMAC && a.targetIP == ev.clientIP
            && a.domain == ev.domain
            && a.actionType == c.policy.defaultAction && a.ttl == c.policy.defaultTTL
            && a.expiresAt == if a.ttl > 0 then Some(now + a.ttl * 1_000_000_000) else None
  {
    VerbIff(c.policy, ev);
    var verb := Response(c, ev);
    if verb == AutoBlock {
      var a := Requested(c, s, ev, now, true);
      BlockTarget(s, a, c.maxActions, net, s', id);
    } else if verb == Pend {
      CreatedConsistent(s.book, Requested(c, s, ev, now, false), c.maxActions);
    }
  }

  lemma BlockTarget(s: Sys, a: Action, maxActions: nat, net: Net, s': Sys, id: nat)
    requires Sound(s.book) && a.id == s.book.counter + 1 && a.state == Approved && a.failure.None?
    requires s' == Enforced(s.(book := Created(s.book, a, maxActions)), a, net)
    requires id in s'.book.actions && id !in s.book.actions
    ensures id == a.id && SameTarget(s'.book.actions[id], a)
  {
    var s1 := s.(book := Created(s.book, a, maxActions));
    CreatedConsistent(s.book, a, maxActions);
    EnforcedSound(s1, a, net);
    EnforcedKeepsTarget(s1, a, net, id);
  }

  /** What the handler does with an event: the policy's decision, with blocks held where the environment
      forbids them. */
  lemma ResponseIff(c: Config, ev: DetectionEvent)
    ensures var p := c.policy;
            var blocks := !Listed(p, ev) && MeetsAuto(p, ev) && PassesGates(p, ev);
            && (Response(c, ev) == AutoBlock <==> blocks && c.autoBlockAllowed)
            && (Response(c, ev) == Ignore <==> Listed(p, ev) || (!MeetsAuto(p, ev) && !MeetsPend(p, ev)))
  {
    VerbIff(c.policy, ev);
  }

  /** An event that is to be blocked, about any spelling of a plain name, with AdGuard answering: the new action
      is active, and the rule list has gained the rule of that name, if it lacked it, and nothing else. */
  lemma NameIsBlocked(c: Config, s: Sys, ev: DetectionEvent, now: int, s': Sys, d: string)
    requires Sound(s.book) && s' == Evaluated(c, s, ev, now, Net(true, true))
    requires c.autoBlockAllowed && !Listed(c.policy, ev) && MeetsAuto(c.policy, ev) && PassesGates(c.policy, ev)
    requires c.policy.defaultAction == "dns_sinkhole" && PlainName(d) && Spelled(ev.domain, d)
    ensures var id := s.book.counter + 1;
            id in s'.book.actions && s'.book.actions[id].state == Active
            && s'.rules == (var rule := "||" + d + "^"; if rule in s.rules then s.rules else s.rules + [rule])
  {
    ResponseIff(c, ev);
    VerbIff(c.policy, ev);
    var a := Requested(c, s, ev, now, true);
    AutoBlockEffect(c, s, ev, now, Net(true, true), s', a);
    ValidateIff(ev.domain, d);
    AppliesIff(s, a, Net(true, true));
    AppliedExactly(s.rules, ev.domain);
    BlockedRules(c, s, ev, now, Net(true, true));
  }

  lemma BlockedRules(c: Config, s: Sys, ev: DetectionEvent, now: int, net: Net)
    requires Response(c, ev) == AutoBlock && P.Evaluate(c.policy, ev).actionType == "dns_sinkhole"
    ensures Evaluated(c, s, ev, now, net).rules == Applied(s.rules, ev.domain, net).0
  {
  }

  // ----- the right device and the right domain -----

  /** One of the device's current signals, of the greatest confidence among them. */
  ghost predicate Strongest(s: Signal, sigs: seq<Signal>) {
    s in sigs && forall x :: x in sigs ==> x.confidence <= s.confidence
  }

  /** The alerts observed up to alert i. */
  function UpToAlert(run: seq<Event>, i: nat): History
    requires i < |run|
  {
    Observed(run[..i]) + [run[i].obs]
  }

  /** The domain of an observed alert about the device of alert i, inside the window, which is as confident as
      any of the device's current signals. */
  ghost predicate StrongestDomain(window: int, run: seq<Event>, i: nat, domain: string)
    requires i < |run|
  {
    exists s, j ::
      && Strongest(s, Updated(window, ClientsAfter(run[..i]), run[i].obs.alert, run[i].obs.at))
      && 0 <= j < |UpToAlert(run, i)| && UpToAlert(run, i)[j].alert == s.alert
      && SameDevice(s.alert, run[i].obs.alert) && run[i].obs.at - UpToAlert(run, i)[j].at <= window
      && s.alert.domain == domain && s.confidence == s.alert.confidence
  }

  lemma CompositeDomain(window: int, run: seq<Event>, i: nat, comp: Alert)
    requires window >= 0 && IsRun(window, run) && i < |run| && !run[i].alertSuppressed
    requires ObserveStep(window, ClientsAfter(run[..i]), run[i].obs.alert, run[i].obs.at, run[i].after, Some(comp))
    ensures StrongestDomain(window, run, i, comp.domain)
  {
    RunStep(window, run, i);
    var h, before, o := Observed(run[..i]), ClientsAfter(run[..i]), run[i].obs;
    var s := CompositeContext(window, h, before, o, run[i].after, comp);
    UpdatedSignals(window, h, before, o, s);
    var j :| InWindow(h + [o], CorrelationKey(o.alert), s.kind, o.at, window, j)
             && s == SignalOf((h + [o])[j].alert, (h + [o])[j].at);
    KeyIff(s.alert, o.alert);
    assert Strongest(s, Updated(window, before, o.alert, o.at));
    assert UpToAlert(run, i)[j].alert == s.alert;
  }

  /** Over every run, whatever action the event forwarded for alert i creates is aimed at the MAC of that alert's
      own device, and at its IP if it had one; and it is on that alert's domain or, where a composite superseded
      the alert, on the domain of the most confident current signal of the device. */
  lemma ActionTargetsTrigger(window: int, run: seq<Event>, i: nat, c: Config, s: Sys, now: int, net: Net, id: nat)
    requires window >= 0 && IsRun(window, run) && i < |run| && run[i].forwarded.Some? && Sound(s.book)
    requires var s' := Evaluated(c, s, AlertToEvent(run[i].forwarded.value), now, net);
             id in s'.book.actions && id !in s.book.actions
    ensures var a := Evaluated(c, s, AlertToEvent(run[i].forwarded.value), now, net).book.actions[id];
            var trigger := run[i].obs.alert;
            && a.targetMAC == trigger.clientMAC
            && (trigger.clientIP != "" ==> a.targetIP == trigger.clientIP)
            && (if run[i].forwarded == Some(trigger) then a.domain == trigger.domain
                else StrongestDomain(window, run, i, a.domain))
  {
    var f := run[i].forwarded.value;
    NewActionTarget(c, s, AlertToEvent(f), now, net, Evaluated(c, s, AlertToEvent(f), now, net), id);
    EventCarries(f);
    ForwardedTarget(window, run, i, f);
  }

  lemma ForwardedTarget(window: int, run: seq<Event>, i: nat, f: Alert)
    requires window >= 0 && IsRun(window, run) && i < |run| && run[i].forwarded == Some(f)
    ensures f.clientMAC == run[i].obs.alert.clientMAC
    ensures run[i].obs.alert.clientIP != "" ==> f.clientIP == run[i].obs.alert.clientIP
    ensures f != run[i].obs.alert ==> StrongestDomain(window, run, i, f.domain)
  {
    RunStep(window, run, i);
    var before := ClientsAfter(run[..i]);
    var comp :|
      && ObserveStep(window, before, run[i].obs.alert, run[i].obs.at, run[i].after, comp)
      && run[i].forwarded ==
         (if comp.None? then Some(run[i].obs.alert) else if run[i].compSuppressed then None else comp);
    if comp.Some? {
      CompositeIdentity(window, Observed(run[..i]), before, run[i].obs, run[i].after, f);
      CompositeDomain(window, run, i, f);
    }
  }
}
