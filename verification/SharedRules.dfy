// Exactly when the actions on one domain, which share one AdGuard rule, stay enforced.
module SharedRules {
  import opened Basics
  import opened Events
  import opened Actions
  import opened AuditTrail
  import opened Sinkhole
  import opened Killswitch
  import opened KillswitchRuns
  import opened Enforcement
  import opened Release

  // ----- what a tick does to rules and actions -----

  /** The job takes the action's rule out of AdGuard, if it is there. */
  predicate Lifts(j: Job, a: Action) {
    j.net == Net(true, true) && SameRule(j.action, a)
  }

  /** One of the first `n` jobs lifts the action's rule. */
  ghost predicate LiftedBy(jobs: seq<Job>, n: int, a: Action) {
    exists i :: 0 <= i < n <= |jobs| && Lifts(jobs[i], a)
  }

  lemma JobRules(s: Sys, j: Job, now: int, s': Sys, a: Action)
    requires JobDone(s, j, now, s') && j.action.actionType == DNS_SINKHOLE
    ensures InPlace(s'.rules, a) <==> InPlace(s.rules, a) && !Lifts(j, a)
  {
    RemovedInPlace(s.rules, j.action, j.net);
    if InPlace(s.rules, j.action) {
      RemovedIff(s.rules, j.action, j.net);
    }
  }

  lemma LiftedSnoc(jobs: seq<Job>, n: nat, a: Action)
    requires n < |jobs|
    ensures LiftedBy(jobs, n + 1, a) <==> LiftedBy(jobs, n, a) || Lifts(jobs[n], a)
  {
    if i :| 0 <= i < n + 1 <= |jobs| && Lifts(jobs[i], a) {
      assert i < n ==> LiftedBy(jobs, n, a);
    }
  }

  lemma JobIsTargeted(b: Book, jobs: seq<Job>, now: int, n: nat)
    requires Targeted(b) && ExpiredJobs(b, jobs, now) && n < |jobs|
    ensures jobs[n].action.actionType == DNS_SINKHOLE && HasRule(jobs[n].action)
  {
    assert b.actions[jobs[n].action.id] == jobs[n].action;
  }

  lemma TickRulesStep(s: Sys, jobs: seq<Job>, now: int, states: seq<Sys>, n: nat, a: Action)
    requires Targeted(s.book) && ExpiredJobs(s.book, jobs, now) && TickTrace(s, jobs, now, states) && n < |jobs|
    ensures InPlace(states[n + 1].rules, a) <==> InPlace(states[n].rules, a) && !Lifts(jobs[n], a)
  {
    JobIsTargeted(s.book, jobs, now, n);
    JobRules(states[n], jobs[n], now, states[n + 1], a);
  }

  lemma {:induction false} RulesSoFar(jobs: seq<Job>, states: seq<Sys>, n: nat, a: Action)
    requires n <= |jobs| && |states| == |jobs| + 1
    requires forall m :: 0 <= m < |jobs| ==>
               (InPlace(states[m + 1].rules, a) <==> InPlace(states[m].rules, a) && !Lifts(jobs[m], a))
    ensures InPlace(states[n].rules, a) <==> InPlace(states[0].rules, a) && !LiftedBy(jobs, n, a)
  {
    if n > 0 {
      RulesSoFar(jobs, states, n - 1, a);
      LiftedSnoc(jobs, n - 1, a);
      assert Lifts(jobs[n - 1], a) || !Lifts(jobs[n - 1], a);
    }
  }

  /** After the first jobs, the rules that are gone are the lifted ones. */
  lemma TickRules(s: Sys, jobs: seq<Job>, now: int, states: seq<Sys>, n: nat, a: Action)
    requires Targeted(s.book) && ExpiredJobs(s.book, jobs, now) && TickTrace(s, jobs, now, states) && n <= |jobs|
    ensures InPlace(states[n].rules, a) <==> InPlace(s.rules, a) && !LiftedBy(jobs, n, a)
  {
    forall m | 0 <= m < |jobs|
      ensures InPlace(states[m + 1].rules, a) <==> InPlace(states[m].rules, a) && !Lifts(jobs[m], a)
    {
      TickRulesStep(s, jobs, now, states, m, a);
    }
    RulesSoFar(jobs, states, n, a);
  }

  /** AdGuard answers the read of job `i`, and its rule is lifted by then. */
  ghost predicate Released(jobs: seq<Job>, i: int) {
    0 <= i < |jobs| && jobs[i].net.get && LiftedBy(jobs, i + 1, jobs[i].action)
  }

  lemma CallSucceedsIff(rules: seq<string>, a: Action, net: Net)
    requires HasRule(a)
    ensures Removed(rules, a.domain, net).1.None? <==> net.get && (net.set_ || !InPlace(rules, a))
  {
    WithoutContents(rules, Rule(ValidateDomain(a.domain).value));
  }

  /** The action of job `i` is reverted by the tick exactly when it is released, and untouched otherwise. */
  lemma JobReleases(s: Sys, jobs: seq<Job>, now: int, states: seq<Sys>, i: nat)
    requires Sound(s.book) && Targeted(s.book) && Enforcing(s) && ExpiredJobs(s.book, jobs, now)
    requires TickTrace(s, jobs, now, states) && i < |jobs|
    ensures var a, after := jobs[i].action, states[|jobs|].book.actions;
            a.id in after && if Released(jobs, i) then after[a.id].state == Reverted else after[a.id] == a
  {
    var a := jobs[i].action;
    JobIsTargeted(s.book, jobs, now, i);
    TickStates(s, jobs, now, states, i);
    SnapshotCurrent(s.book, jobs, now, i, states[i].book);
    OneJob(states[i], jobs[i], now, states[i + 1]);
    LaterJobsLeave(s, jobs, now, states, i);
    TickRules(s, jobs, now, states, i, a);
    CallSucceedsIff(states[i].rules, a, jobs[i].net);
    LiftedSnoc(jobs, i, a);
    assert InPlace(s.rules, a);
  }

  // ----- exactly when a tick keeps every active action enforced -----

  /** An active action whose rule the tick lifts without releasing the action. */
  ghost predicate Harmed(b: Book, jobs: seq<Job>, id: nat) {
    && id in b.actions && b.actions[id].state == Active && LiftedBy(jobs, |jobs|, b.actions[id])
    && !exists i :: Released(jobs, i) && jobs[i].action.id == id
  }

  /** Every active action whose rule the tick lifts is itself released by the tick. */
  ghost predicate HarmlessTick(b: Book, jobs: seq<Job>) {
    forall id :: !Harmed(b, jobs, id)
  }

  /** What becomes of one active action. */
  lemma TickOutcome(s: Sys, jobs: seq<Job>, now: int, states: seq<Sys>, id: nat)
    requires Sound(s.book) && Targeted(s.book) && Enforcing(s) && ExpiredJobs(s.book, jobs, now)
    requires TickTrace(s, jobs, now, states) && id in s.book.actions && s.book.actions[id].state == Active
    ensures var after := states[|jobs|].book.actions;
            && id in after
            && (after[id].state == Active <==> !exists i :: Released(jobs, i) && jobs[i].action.id == id)
            && (after[id].state == Active ==> after[id] == s.book.actions[id])
  {
    var after := states[|jobs|].book.actions;
    TickStates(s, jobs, now, states, |jobs|);
    assert jobs[..|jobs|] == jobs;
    if i :| 0 <= i < |jobs| && jobs[i].action.id == id {
      JobReleases(s, jobs, now, states, i);
      forall k | Released(jobs, k) && jobs[k].action.id == id
        ensures k == i
      {
        assert jobs[k].action.id == jobs[i].action.id;
      }
    } else {
      assert Untouched(jobs, id);
    }
  }

  /** An active action whose rule is missing. */
  predicate Exposed(s: Sys, id: nat) {
    id in s.book.actions && s.book.actions[id].state == Active && !InPlace(s.rules, s.book.actions[id])
  }

  lemma TickExposes(s: Sys, jobs: seq<Job>, now: int, states: seq<Sys>, id: nat)
    requires Sound(s.book) && Targeted(s.book) && Enforcing(s) && ExpiredJobs(s.book, jobs, now)
    requires TickTrace(s, jobs, now, states) && id in s.book.actions && s.book.actions[id].state == Active
    ensures Exposed(states[|jobs|], id) <==> Harmed(s.book, jobs, id)
  {
    TickOutcome(s, jobs, now, states, id);
    TickRules(s, jobs, now, states, |jobs|, s.book.actions[id]);
    assert InPlace(s.rules, s.book.actions[id]);
  }

  lemma ExposedWasActive(b: Book, jobs: seq<Job>, s': Sys, id: nat)
    requires TickState(b, jobs, s'.book) && Exposed(s', id)
    ensures id in b.actions && b.actions[id].state == Active
  {
    assert LeftOrReverted(b.actions[id], s'.book.actions[id]);
  }

  lemma ExposedIffHarmed(s: Sys, jobs: seq<Job>, now: int, states: seq<Sys>, id: nat)
    requires Sound(s.book) && Targeted(s.book) && Enforcing(s) && ExpiredJobs(s.book, jobs, now)
    requires TickTrace(s, jobs, now, states)
    ensures Exposed(states[|jobs|], id) <==> Harmed(s.book, jobs, id)
  {
    if Exposed(states[|jobs|], id) {
      TickStates(s, jobs, now, states, |jobs|);
      ExposedWasActive(s.book, jobs[..|jobs|], states[|jobs|], id);
    }
    if id in s.book.actions && s.book.actions[id].state == Active {
      TickExposes(s, jobs, now, states, id);
    }
  }

  lemma EnforcingIffNoneExposed(s: Sys)
    ensures Enforcing(s) <==> forall id :: !Exposed(s, id)
  {
    if Enforcing(s) {
      forall id
        ensures !Exposed(s, id)
      {
      }
    } else {
      var id :| id in s.book.actions && s.book.actions[id].state == Active && !InPlace(s.rules, s.book.actions[id]);
      assert Exposed(s, id);
    }
  }

  lemma SameIds(s: Sys, b: Book, jobs: seq<Job>)
    requires forall id :: Exposed(s, id) <==> Harmed(b, jobs, id)
    ensures (forall id :: !Exposed(s, id)) <==> HarmlessTick(b, jobs)
  {
  }

  /** A tick leaves every active action enforced exactly when it releases whatever action's rule it lifts. */
  lemma TickKeepsEnforcementIff(s: Sys, jobs: seq<Job>, now: int)
    requires Sound(s.book) && Targeted(s.book) && Enforcing(s) && ExpiredJobs(s.book, jobs, now)
    ensures Enforcing(Ticked(s, jobs, now)) <==> HarmlessTick(s.book, jobs)
  {
    var states := TickTraceExists(s, jobs, now);
    forall id
      ensures Exposed(states[|jobs|], id) <==> Harmed(s.book, jobs, id)
    {
      ExposedIffHarmed(s, jobs, now, states, id);
    }
    EnforcingIffNoneExposed(states[|jobs|]);
    SameIds(states[|jobs|], s.book, jobs);
  }

  /** In particular the release of one of two active actions on a domain unblocks the other. */
  lemma LoneReleaseUnblocks(s: Sys, jobs: seq<Job>, now: int, id: nat)
    requires Sound(s.book) && Targeted(s.book) && Enforcing(s) && ExpiredJobs(s.book, jobs, now)
    requires id in s.book.actions && s.book.actions[id].state == Active && !ExpiredAction(s.book.actions[id], now)
    requires LiftedBy(jobs, |jobs|, s.book.actions[id])
    ensures !Enforcing(Ticked(s, jobs, now))
  {
    TickKeepsEnforcementIff(s, jobs, now);
    assert Harmed(s.book, jobs, id);
  }

  // ----- any call, and whole runs -----

  /** The calls that leave every active action enforced. */
  ghost predicate Harmless(s: Sys, call: Call) {
    match call
    case Revert(id, now, net) =>
      id in s.book.actions && s.book.actions[id].state == Active && net == Net(true, true) ==> !Shared(s.book, id)
    case Tick(jobs, now) => HarmlessTick(s.book, jobs)
    case _ => true
  }

  /** One call of any kind keeps every active action enforced exactly when it is harmless. */
  lemma StepKeepsEnforcementIff(c: Config, s: Sys, call: Call, s': Sys)
    requires Sound(s.book) && Targeted(s.book) && Enforcing(s) && Possible(s, call) && s' == Step(c, s, call)
    ensures Enforcing(s') <==> Harmless(s, call)
  {
    match call
    case Evaluate(ev, now, net) => EvaluatedKeeps(c, s, ev, now, net, s');
    case Approve(id, approver, net) => ApprovalKeeps(s, id, approver, net, s');
    case Reject(id) => RejectionKeeps(s, id, s');
    case Revert(id, now, net) =>
      if id in s.book.actions && s.book.actions[id].state == Active {
        RevertKeepsEnforcementIff(s, id, now, net);
      } else {
        RevertBookShrinks(s, id, now, net, s'.book);
        RevertRules(s, id, now, net, s');
        NoNewActiveKeeps(s, s');
      }
    case Tick(jobs, now) => TickKeepsEnforcementIff(s, jobs, now);
  }

  /** Over every run from an empty store: active actions are enforced throughout exactly when every call is
      harmless in the state it finds. */
  lemma EnforcedThroughoutIff(c: Config, rules: seq<string>, calls: seq<Call>)
    requires PossibleRun(c, Sys(EMPTY, rules), calls)
    ensures (forall n :: 0 <= n <= |calls| ==> Enforcing(Exec(c, Sys(EMPTY, rules), calls[..n])))
       <==> (forall n :: 0 <= n < |calls| ==> Harmless(Exec(c, Sys(EMPTY, rules), calls[..n]), calls[n]))
  {
    var s := Sys(EMPTY, rules);
    if forall n :: 0 <= n <= |calls| ==> Enforcing(Exec(c, s, calls[..n])) {
      forall n | 0 <= n < |calls|
        ensures Harmless(Exec(c, s, calls[..n]), calls[n])
      {
        StepOfRun(c, rules, calls, n);
        assert Enforcing(Exec(c, s, calls[..n + 1]));
      }
    }
    if forall n :: 0 <= n < |calls| ==> Harmless(Exec(c, s, calls[..n]), calls[n]) {
      forall n | 0 <= n <= |calls|
        ensures Enforcing(Exec(c, s, calls[..n]))
      {
        HarmlessSoFar(c, rules, calls, n);
      }
    }
  }

  lemma PossibleSoFar(c: Config, s: Sys, calls: seq<Call>, n: nat)
    requires PossibleRun(c, s, calls) && n <= |calls|
    ensures PossibleRun(c, s, calls[..n])
  {
    forall m | 0 <= m < n
      ensures Possible(Exec(c, s, calls[..n][..m]), calls[..n][m])
    {
      assert calls[..n][..m] == calls[..m];
    }
  }

  lemma StepOfRun(c: Config, rules: seq<string>, calls: seq<Call>, n: nat)
    requires PossibleRun(c, Sys(EMPTY, rules), calls) && n < |calls|
    requires Enforcing(Exec(c, Sys(EMPTY, rules), calls[..n]))
    ensures Enforcing(Exec(c, Sys(EMPTY, rules), calls[..n + 1]))
       <==> Harmless(Exec(c, Sys(EMPTY, rules), calls[..n]), calls[n])
  {
    PossibleSoFar(c, Sys(EMPTY, rules), calls, n);
    RunSound(c, rules, calls[..n]);
    RunTargeted(c, rules, calls[..n]);
    assert calls[..n + 1][..n] == calls[..n];
    StepKeepsEnforcementIff(c, Exec(c, Sys(EMPTY, rules), calls[..n]), calls[n],
        Exec(c, Sys(EMPTY, rules), calls[..n + 1]));
  }

  lemma {:induction false} HarmlessSoFar(c: Config, rules: seq<string>, calls: seq<Call>, n: nat)
    requires PossibleRun(c, Sys(EMPTY, rules), calls) && n <= |calls|
    requires forall m :: 0 <= m < |calls| ==> Harmless(Exec(c, Sys(EMPTY, rules), calls[..m]), calls[m])
    ensures Enforcing(Exec(c, Sys(EMPTY, rules), calls[..n]))
  {
    if n > 0 {
      HarmlessSoFar(c, rules, calls, n - 1);
      StepOfRun(c, rules, calls, n - 1);
    }
  }

  // ----- a run that loses a block -----

  /** Live actions outlast any creation. */
  lemma CreationSpares(b: Book, a: Action, maxActions: nat, id: nat)
    requires Sound(b) && a.id == b.counter + 1 && Edge(None, a.state) && a.failure.None?
    requires id in b.actions && b.actions[id].state == Active
    ensures id != a.id && id in Created(b, a, maxActions).actions
    ensures Created(b, a, maxActions).actions[id] == b.actions[id]
    ensures Created(b, a, maxActions).counter == a.id
  {
    EvictionIsBounded(b, a, maxActions);
  }

  lemma EnforcementSpares(s: Sys, a: Action, net: Net, s': Sys, id: nat)
    requires Consistent(s.book) && ApprovedOnly(s.book, a.id) && s' == Enforced(s, a, net)
    requires a.id in s.book.actions && s.book.actions[a.id] == a && a.state == Approved
    requires id in s.book.actions && id != a.id
    ensures id in s'.book.actions && s'.book.actions[id] == s.book.actions[id]
    ensures s'.book.counter == s.book.counter
  {
    EnforcedSound(s, a, net);
    var why := EnforcedOutcome(s, a, net);
  }

  lemma AutoBlockSpares(c: Config, s: Sys, ev: DetectionEvent, now: int, net: Net, s': Sys, id: nat, a: Action)
    requires Sound(s.book) && Response(c, ev) == Policy.AutoBlock && s' == Evaluated(c, s, ev, now, net)
    requires id in s.book.actions && s.book.actions[id].state == Active && a == Requested(c, s, ev, now, true)
    ensures id in s'.book.actions && s'.book.actions[id] == s.book.actions[id]
  {
    var s1 := s.(book := Created(s.book, a, c.maxActions));
    CreationSpares(s.book, a, c.maxActions, id);
    CreatedConsistent(s.book, a, c.maxActions);
    EnforcementSpares(s1, a, net, s', id);
  }

  lemma AppliesFully(s: Sys, a: Action)
    requires a.actionType == DNS_SINKHOLE && HasRule(a)
    ensures Applies(s, a, Net(true, true))
  {
  }

  /** An auto-block that meets no obstacle adds an enforced action. */
  lemma AutoBlockAdds(c: Config, s: Sys, ev: DetectionEvent, now: int, s': Sys) returns (id: nat)
    requires Sound(s.book) && Targeted(s.book) && Enforcing(s)
    requires Response(c, ev) == Policy.AutoBlock && Policy.Evaluate(c.policy, ev).actionType == DNS_SINKHOLE
    requires ValidateDomain(ev.domain).Some? && s' == Evaluated(c, s, ev, now, Net(true, true))
    ensures Sound(s'.book) && Targeted(s'.book) && Enforcing(s')
    ensures id == s.book.counter + 1 && id !in s.book.actions
    ensures id in s'.book.actions && s'.book.actions[id].state == Active && s'.book.actions[id].domain == ev.domain
  {
    var a := Requested(c, s, ev, now, true);
    id := a.id;
    EvaluatedSound(c, s, ev, now, Net(true, true));
    EvaluatedKeeps(c, s, ev, now, Net(true, true), s');
    AutoBlockEffect(c, s, ev, now, Net(true, true), s', a);
    AppliesFully(s, a);
  }

  predicate NoTicks(calls: seq<Call>) {
    forall n :: 0 <= n < |calls| ==> !calls[n].Tick?
  }

  lemma NoTicksPossible(c: Config, s: Sys, calls: seq<Call>)
    requires NoTicks(calls)
    ensures PossibleRun(c, s, calls)
  {
  }

  lemma ExecSnoc(c: Config, s: Sys, calls: seq<Call>, call: Call)
    ensures Exec(c, s, calls + [call]) == Step(c, Exec(c, s, calls), call)
  {
    assert (calls + [call])[..|calls|] == calls;
  }

  /** Two events on one domain are auto-blocked and the first action is reverted by hand: the second is active
      without a rule. This happens under every configuration, for all such events. */
  lemma SecondBlockIsLost(c: Config, s: Sys, first: DetectionEvent, second: DetectionEvent, now: int)
    returns (calls: seq<Call>)
    requires s.book == EMPTY
    requires Response(c, first) == Policy.AutoBlock && Response(c, second) == Policy.AutoBlock
    requires Policy.Evaluate(c.policy, first).actionType == DNS_SINKHOLE
    requires Policy.Evaluate(c.policy, second).actionType == DNS_SINKHOLE
    requires ValidateDomain(first.domain).Some? && second.domain == first.domain
    ensures PossibleRun(c, s, calls) && !Enforcing(Exec(c, s, calls))
    ensures |calls| == 3 && calls[0] == Call.Evaluate(first, now, Net(true, true))
    ensures calls[1] == Call.Evaluate(second, now, Net(true, true)) && calls[2] == Call.Revert(1, now, Net(true, true))
  {
    EmptyEnforces(s);
    var net := Net(true, true);
    calls := TwoBlocks(first, second, now, Call.Revert(1, now, net));
    NoTicksPossible(c, s, calls);
    BlocksLose(c, s, first, second, now, calls);
  }

  lemma TwoBlocks(first: DetectionEvent, second: DetectionEvent, now: int, last: Call) returns (calls: seq<Call>)
    requires !last.Tick?
    ensures NoTicks(calls) && |calls| == 3 && calls[2] == last
    ensures calls[0] == Call.Evaluate(first, now, Net(true, true))
    ensures calls[1] == Call.Evaluate(second, now, Net(true, true))
  {
    calls := [Call.Evaluate(first, now, Net(true, true)), Call.Evaluate(second, now, Net(true, true)), last];
  }

  lemma BlocksLose(c: Config, s: Sys, first: DetectionEvent, second: DetectionEvent, now: int, calls: seq<Call>)
    requires Sound(s.book) && Targeted(s.book) && Enforcing(s)
    requires Response(c, first) == Policy.AutoBlock && Response(c, second) == Policy.AutoBlock
    requires Policy.Evaluate(c.policy, first).actionType == DNS_SINKHOLE
    requires Policy.Evaluate(c.policy, second).actionType == DNS_SINKHOLE
    requires ValidateDomain(first.domain).Some? && second.domain == first.domain
    requires |calls| == 3 && calls[0] == Call.Evaluate(first, now, Net(true, true))
    requires calls[1] == Call.Evaluate(second, now, Net(true, true))
    requires calls[2] == Call.Revert(s.book.counter + 1, now, Net(true, true))
    ensures !Enforcing(Exec(c, s, calls))
  {
    BlocksThenRevert(c, s, first, second, now);
    ExecOfThree(c, s, calls);
  }

  lemma ExecOfThree(c: Config, s: Sys, calls: seq<Call>)
    requires |calls| == 3
    ensures Exec(c, s, calls) == Step(c, Step(c, Step(c, s, calls[0]), calls[1]), calls[2])
  {
    ExecSnoc(c, s, [], calls[0]);
    ExecSnoc(c, s, [] + [calls[0]], calls[1]);
    ExecSnoc(c, s, [] + [calls[0]] + [calls[1]], calls[2]);
    assert calls == [] + [calls[0]] + [calls[1]] + [calls[2]];
  }

  lemma BlocksThenRevert(c: Config, s: Sys, first: DetectionEvent, second: DetectionEvent, now: int)
    requires Sound(s.book) && Targeted(s.book) && Enforcing(s)
    requires Response(c, first) == Policy.AutoBlock && Response(c, second) == Policy.AutoBlock
    requires Policy.Evaluate(c.policy, first).actionType == DNS_SINKHOLE
    requires Policy.Evaluate(c.policy, second).actionType == DNS_SINKHOLE
    requires ValidateDomain(first.domain).Some? && second.domain == first.domain
    ensures var net := Net(true, true);
            var s1 := Step(c, s, Call.Evaluate(first, now, net));
            var s2 := Step(c, s1, Call.Evaluate(second, now, net));
            !Enforcing(Step(c, s2, Call.Revert(s.book.counter + 1, now, net)))
  {
    var s1 := Step(c, s, Call.Evaluate(first, now, Net(true, true)));
    var a := AutoBlockAdds(c, s, first, now, s1);
    var s2 := Step(c, s1, Call.Evaluate(second, now, Net(true, true)));
    SecondIsExposed(c, s1, a, second, now, s2);
    RevertStep(c, s2, a, now);
  }

  lemma RevertStep(c: Config, s: Sys, id: nat, now: int)
    ensures Step(c, s, Call.Revert(id, now, Net(true, true))) == RevertOf(s, id, now, Net(true, true)).0
  {
  }

  lemma EmptyEnforces(s: Sys)
    requires s.book == EMPTY
    ensures Sound(s.book) && Targeted(s.book) && Enforcing(s)
  {
  }

  /** A second auto-block on the domain of an active action, and then the first is reverted. */
  lemma SecondIsExposed(c: Config, s: Sys, a: nat, second: DetectionEvent, now: int, s': Sys)
    requires Sound(s.book) && Targeted(s.book) && Enforcing(s)
    requires a in s.book.actions && s.book.actions[a].state == Active && s.book.actions[a].domain == second.domain
    requires Response(c, second) == Policy.AutoBlock && ValidateDomain(second.domain).Some?
    requires Policy.Evaluate(c.policy, second).actionType == DNS_SINKHOLE
    requires s' == Evaluated(c, s, second, now, Net(true, true))
    ensures !Enforcing(RevertOf(s', a, now, Net(true, true)).0)
  {
    var b := AutoBlockAdds(c, s, second, now, s');
    AutoBlockSpares(c, s, second, now, Net(true, true), s', a, Requested(c, s, second, now, true));
    SharedRevertUnblocks(s', a, b, now);
  }

  lemma SharedRevertUnblocks(s: Sys, a: nat, b: nat, now: int)
    requires Sound(s.book) && Targeted(s.book) && Enforcing(s) && a != b
    requires a in s.book.actions && s.book.actions[a].state == Active
    requires b in s.book.actions && s.book.actions[b].state == Active && SameRule(s.book.actions[b], s.book.actions[a])
    ensures !Enforcing(RevertOf(s, a, now, Net(true, true)).0)
  {
    RevertKeepsEnforcementIff(s, a, now, Net(true, true));
  }
}
