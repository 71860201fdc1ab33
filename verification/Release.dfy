// When blocks are lifted, when they are not, and what the killswitch never touches.
module Release {
  import opened Basics
  import opened Events
  import opened Actions
  import opened Sinkhole
  import opened Killswitch
  import opened KillswitchRuns
  import opened Enforcement

  // ----- reverted means lifted -----

  /** An action that went from live to reverted without any failure has its rule out of the list. */
  predicate Lifted(rules: seq<string>, before: Action, after: Action) {
    before.state != Reverted && after.state == Reverted && after.failure.None? ==>
      HasRule(after) && !InPlace(rules, after)
  }

  lemma JobLifts(s: Sys, j: Job, now: int, s': Sys, k: nat, before: Action)
    requires Sound(s.book) && JobDone(s, j, now, s') && k in s.book.actions
    requires Lifted(s.rules, before, s.book.actions[k])
    requires k == j.action.id ==> s.book.actions[k] == j.action && j.action.state == Active && HasRule(j.action)
    ensures k in s'.book.actions && Lifted(s'.rules, before, s'.book.actions[k])
  {
    ReversionSound(s.book, j.action.id, now);
    RemovedInPlace(s.rules, j.action, j.net);
  }

  lemma TickLiftsOne(s: Sys, jobs: seq<Job>, now: int, states: seq<Sys>, n: nat, k: nat)
    requires Sound(s.book) && Targeted(s.book) && ExpiredJobs(s.book, jobs, now) && TickTrace(s, jobs, now, states)
    requires n < |jobs| && k in s.book.actions && k in states[n].book.actions
    requires Lifted(states[n].rules, s.book.actions[k], states[n].book.actions[k])
    ensures k in states[n + 1].book.actions
    ensures Lifted(states[n + 1].rules, s.book.actions[k], states[n + 1].book.actions[k])
  {
    TickStates(s, jobs, now, states, n);
    SnapshotCurrent(s.book, jobs, now, n, states[n].book);
    JobLifts(states[n], jobs[n], now, states[n + 1], k, s.book.actions[k]);
  }

  lemma {:induction false} TickLifts(s: Sys, jobs: seq<Job>, now: int, states: seq<Sys>, n: nat, k: nat)
    requires Sound(s.book) && Targeted(s.book) && ExpiredJobs(s.book, jobs, now) && TickTrace(s, jobs, now, states)
    requires n <= |jobs| && k in s.book.actions
    ensures k in states[n].book.actions && Lifted(states[n].rules, s.book.actions[k], states[n].book.actions[k])
  {
    if n > 0 {
      TickLifts(s, jobs, now, states, n - 1, k);
      TickLiftsOne(s, jobs, now, states, n - 1, k);
    }
  }

  lemma TickedLifts(s: Sys, jobs: seq<Job>, now: int, s': Sys, k: nat)
    requires Sound(s.book) && Targeted(s.book) && ExpiredJobs(s.book, jobs, now) && s' == Ticked(s, jobs, now)
    requires k in s.book.actions
    ensures k in s'.book.actions && Lifted(s'.rules, s.book.actions[k], s'.book.actions[k])
  {
    var states := TickTraceExists(s, jobs, now);
    TickLifts(s, jobs, now, states, |jobs|, k);
  }

  lemma RejectionNeverReverts(s: Sys, id: nat, s': Sys, k: nat)
    requires k in s.book.actions && s' == RejectionOf(s, id).0
    ensures k in s'.book.actions && (s'.book.actions[k] == s.book.actions[k] || s'.book.actions[k].state != Reverted)
  {
  }

  lemma EvaluatedLeaves(c: Config, s: Sys, ev: DetectionEvent, now: int, net: Net, s': Sys, k: nat)
    requires Sound(s.book) && s' == Evaluated(c, s, ev, now, net) && k in s.book.actions && k in s'.book.actions
    ensures s'.book.actions[k] == s.book.actions[k]
  {
    var verb := Response(c, ev);
    if verb == Policy.AutoBlock {
      var a := Requested(c, s, ev, now, true);
      CreatedConsistent(s.book, a, c.maxActions);
      EnforcedSound(s.(book := Created(s.book, a, c.maxActions)), a, net);
    } else if verb == Policy.Pend {
      CreatedConsistent(s.book, Requested(c, s, ev, now, false), c.maxActions);
    }
  }

  lemma ApprovalNeverReverts(s: Sys, id: nat, approver: string, net: Net, s': Sys, k: nat)
    requires Sound(s.book) && k in s.book.actions && s' == ApprovalOf(s, id, approver, net).0
    ensures k in s'.book.actions && (s'.book.actions[k] == s.book.actions[k] || s'.book.actions[k].state != Reverted)
  {
    if id in s.book.actions && s.book.actions[id].state == Pending {
      var a := s.book.actions[id].(state := Approved, approvedBy := approver);
      MovedConsistent(s.book, id, a, approver);
      EnforcedSound(s.(book := Moved(s.book, id, a, approver)), a, net);
    }
  }

  lemma RevertLifts(s: Sys, id: nat, now: int, net: Net, s': Sys, k: nat)
    requires Sound(s.book) && Targeted(s.book) && k in s.book.actions && s' == RevertOf(s, id, now, net).0
    ensures k in s'.book.actions && Lifted(s'.rules, s.book.actions[k], s'.book.actions[k])
  {
    if k == id {
      RevertedLifts(s, id, now, net, s');
    } else {
      RevertLeavesOthers(s, id, now, net, s'.book, k);
    }
  }

  lemma RevertLeavesOthers(s: Sys, id: nat, now: int, net: Net, b: Book, k: nat)
    requires Sound(s.book) && k in s.book.actions && k != id && b == RevertOf(s, id, now, net).0.book
    ensures k in b.actions && b.actions[k] == s.book.actions[k]
  {
    var why := RevertBook(s, id, now, net);
    ReversionSound(s.book, id, now);
  }

  lemma RevertedLifts(s: Sys, id: nat, now: int, net: Net, s': Sys)
    requires Sound(s.book) && Targeted(s.book) && id in s.book.actions && s' == RevertOf(s, id, now, net).0
    ensures id in s'.book.actions && Lifted(s'.rules, s.book.actions[id], s'.book.actions[id])
  {
    RemovedInPlace(s.rules, s.book.actions[id], net);
  }

  /** In any step, an action that reaches reverted with no failure on record has its rule absent then. */
  lemma RevertedMeansLifted(c: Config, s: Sys, call: Call, s': Sys, k: nat)
    requires Sound(s.book) && Targeted(s.book) && Possible(s, call) && s' == Step(c, s, call)
    requires k in s.book.actions && k in s'.book.actions
    ensures Lifted(s'.rules, s.book.actions[k], s'.book.actions[k])
  {
    match call
    case Evaluate(ev, now, net) => EvaluatedLeaves(c, s, ev, now, net, s', k);
    case Approve(id, approver, net) => ApprovalNeverReverts(s, id, approver, net, s', k);
    case Reject(id) => RejectionNeverReverts(s, id, s', k);
    case Revert(id, now, net) => RevertLifts(s, id, now, net, s', k);
    case Tick(jobs, now) => TickedLifts(s, jobs, now, s', k);
  }

  /** The same over whole runs. */
  lemma RunRevertedMeansLifted(c: Config, rules: seq<string>, calls: seq<Call>, k: nat)
    requires PossibleRun(c, Sys(EMPTY, rules), calls) && calls != []
    requires k in Exec(c, Sys(EMPTY, rules), calls[..|calls| - 1]).book.actions
    requires k in Exec(c, Sys(EMPTY, rules), calls).book.actions
    ensures Lifted(Exec(c, Sys(EMPTY, rules), calls).rules,
                   Exec(c, Sys(EMPTY, rules), calls[..|calls| - 1]).book.actions[k],
                   Exec(c, Sys(EMPTY, rules), calls).book.actions[k])
  {
    var n := |calls| - 1;
    PossiblePrefix(c, Sys(EMPTY, rules), calls);
    RunSound(c, rules, calls[..n]);
    RunTargeted(c, rules, calls[..n]);
    RevertedMeansLifted(c, Exec(c, Sys(EMPTY, rules), calls[..n]), calls[n], Exec(c, Sys(EMPTY, rules), calls), k);
  }

  /** A manual revert that answers OK leaves the rule out exactly when the driver was asked (the action
      was active) or the rule was not there to begin with. */
  lemma ManualRevertLiftsIff(s: Sys, id: nat, now: int, net: Net)
    requires Sound(s.book) && Targeted(s.book) && RevertOf(s, id, now, net).1 == OK
    requires id in s.book.actions && s.book.actions[id].state != Reverted
    ensures !InPlace(RevertOf(s, id, now, net).0.rules, s.book.actions[id])
       <==> s.book.actions[id].state == Active || !InPlace(s.rules, s.book.actions[id])
  {
    RemovedInPlace(s.rules, s.book.actions[id], net);
  }

  /** After a failed revert the device is still blocked, but the action is failed: no tick will pick it up
      again, and a second revert reports success without touching the rule. */
  lemma FailedRevertStrandsRule(s: Sys, id: nat, now: int, net: Net, later: int, retry: Net)
    requires Sound(s.book) && Targeted(s.book) && id in s.book.actions && s.book.actions[id].state == Active
    requires InPlace(s.rules, s.book.actions[id]) && Removed(s.rules, s.book.actions[id].domain, net).1.Some?
    ensures var (failed, reply) := RevertOf(s, id, now, net); var a := failed.book.actions[id];
            && reply == BadGateway && a.state == Failed && InPlace(failed.rules, a)
            && !ExpiredAction(a, later)
            && (var (gone, again) := RevertOf(failed, id, later, retry);
                again == OK && gone.book.actions[id].state == Reverted && InPlace(gone.rules, gone.book.actions[id]))
  {
    var why := RevertOutcome(s, id, now, net);
    assert RevertOf(s, id, now, net).0.rules == s.rules by {
      RemovedInPlace(s.rules, s.book.actions[id], net);
    }
  }

  // ----- expiry -----

  predicate LeavesAction(b: Book, b': Book, id: nat) {
    id in b.actions ==> id in b'.actions && b'.actions[id] == b.actions[id]
  }

  lemma JobLeaves(mid: Sys, j: Job, now: int, mid': Sys, id: nat)
    requires Sound(mid.book) && JobDone(mid, j, now, mid') && id != j.action.id
    ensures LeavesAction(mid.book, mid'.book, id)
  {
    ReversionSound(mid.book, j.action.id, now);
  }

  lemma LaterJobLeaves(s: Sys, jobs: seq<Job>, now: int, states: seq<Sys>, i: nat, n: nat)
    requires Sound(s.book) && ExpiredJobs(s.book, jobs, now) && TickTrace(s, jobs, now, states)
    requires i < n < |jobs|
    ensures LeavesAction(states[n].book, states[n + 1].book, jobs[i].action.id)
  {
    TickStates(s, jobs, now, states, n);
    JobLeaves(states[n], jobs[n], now, states[n + 1], jobs[i].action.id);
  }

  lemma {:induction false} LeavesThroughout(states: seq<Sys>, id: nat, i: nat, n: nat)
    requires i <= n < |states|
    requires forall m :: i <= m < n ==> LeavesAction(states[m].book, states[m + 1].book, id)
    ensures LeavesAction(states[i].book, states[n].book, id)
  {
    if i < n {
      LeavesThroughout(states, id, i, n - 1);
      assert LeavesAction(states[n - 1].book, states[n].book, id);
    }
  }

  lemma LaterJobsLeave(s: Sys, jobs: seq<Job>, now: int, states: seq<Sys>, i: nat)
    requires Sound(s.book) && ExpiredJobs(s.book, jobs, now) && TickTrace(s, jobs, now, states) && i < |jobs|
    ensures LeavesAction(states[i + 1].book, states[|jobs|].book, jobs[i].action.id)
  {
    forall m | i + 1 <= m < |jobs|
      ensures LeavesAction(states[m].book, states[m + 1].book, jobs[i].action.id)
    {
      LaterJobLeaves(s, jobs, now, states, i, m);
    }
    LeavesThroughout(states, jobs[i].action.id, i + 1, |jobs|);
  }

  lemma OneJob(mid: Sys, j: Job, now: int, mid': Sys)
    requires Sound(mid.book) && JobDone(mid, j, now, mid')
    requires j.action.id in mid.book.actions && mid.book.actions[j.action.id] == j.action
    requires j.action.state == Active && j.action.actionType == DNS_SINKHOLE
    ensures j.action.id in mid'.book.actions
    ensures if Removed(mid.rules, j.action.domain, j.net).1.None?
            then mid'.book.actions[j.action.id].state == Reverted
            else mid' == mid
  {
    ReversionSound(mid.book, j.action.id, now);
    RemovedInPlace(mid.rules, j.action, j.net);
  }

  /** An expired action leaves active on the first tick whose driver call for it succeeds, and on no other;
      while the calls fail it stays as it is, to be retried. A call succeeds whenever AdGuard answers. */
  lemma TickReleases(s: Sys, jobs: seq<Job>, now: int, i: nat) returns (states: seq<Sys>)
    requires Sound(s.book) && Targeted(s.book) && ExpiredJobs(s.book, jobs, now) && i < |jobs|
    ensures TickTrace(s, jobs, now, states) && states[|jobs|] == Ticked(s, jobs, now)
    ensures var a, s' := jobs[i].action, Ticked(s, jobs, now);
            var ok := Removed(states[i].rules, a.domain, jobs[i].net).1.None?;
            && a.id in s'.book.actions
            && (if ok then s'.book.actions[a.id].state == Reverted else s'.book.actions[a.id] == s.book.actions[a.id])
            && (jobs[i].net == Net(true, true) ==> ok)
            && (!jobs[i].net.get ==> !ok)
  {
    states := TickTraceExists(s, jobs, now);
    TickStates(s, jobs, now, states, i);
    SnapshotCurrent(s.book, jobs, now, i, states[i].book);
    OneJob(states[i], jobs[i], now, states[i + 1]);
    LaterJobsLeave(s, jobs, now, states, i);
    CallSucceeds(states[i].rules, jobs[i].action, jobs[i].net);
  }

  lemma CallSucceeds(rules: seq<string>, a: Action, net: Net)
    requires HasRule(a)
    ensures net == Net(true, true) ==> Removed(rules, a.domain, net).1.None?
    ensures !net.get ==> Removed(rules, a.domain, net).1.Some?
  {
  }

  // ----- rules that are not the killswitch's -----

  /** The rule of every recorded action is among `own`. */
  predicate Owns(own: set<string>, b: Book) {
    forall id :: id in b.actions && HasRule(b.actions[id]) ==> Rule(ValidateDomain(b.actions[id].domain).value) in own
  }

  lemma DriverKeepsForeign(rules: seq<string>, a: Action, net: Net, own: set<string>)
    requires HasRule(a) ==> Rule(ValidateDomain(a.domain).value) in own
    ensures Foreign(Applied(rules, a.domain, net).0, own) == Foreign(rules, own)
    ensures Foreign(Removed(rules, a.domain, net).0, own) == Foreign(rules, own)
  {
    if HasRule(a) {
      ForeignAppend(rules, Rule(ValidateDomain(a.domain).value), own);
      ForeignWithout(rules, Rule(ValidateDomain(a.domain).value), own);
    }
  }

  lemma EvaluatedKeepsForeign(c: Config, s: Sys, ev: DetectionEvent, now: int, net: Net, own: set<string>)
    requires Sound(s.book) && Owns(own, Evaluated(c, s, ev, now, net).book)
    ensures Foreign(Evaluated(c, s, ev, now, net).rules, own) == Foreign(s.rules, own)
  {
    if Response(c, ev) == Policy.AutoBlock {
      var a := Requested(c, s, ev, now, true);
      var s1 := s.(book := Created(s.book, a, c.maxActions));
      CreatedConsistent(s.book, a, c.maxActions);
      EnforcedSound(s1, a, net);
      assert a.id in Enforced(s1, a, net).book.actions;
      DriverKeepsForeign(s.rules, a, net, own);
    }
  }

  lemma ApprovalKeepsForeign(s: Sys, id: nat, approver: string, net: Net, own: set<string>)
    requires Sound(s.book) && Owns(own, s.book)
    ensures Foreign(ApprovalOf(s, id, approver, net).0.rules, own) == Foreign(s.rules, own)
  {
    if id in s.book.actions && s.book.actions[id].state == Pending {
      DriverKeepsForeign(s.rules, s.book.actions[id], net, own);
    }
  }

  lemma RevertKeepsForeign(s: Sys, id: nat, now: int, net: Net, own: set<string>)
    requires Owns(own, s.book)
    ensures Foreign(RevertOf(s, id, now, net).0.rules, own) == Foreign(s.rules, own)
  {
    if id in s.book.actions {
      DriverKeepsForeign(s.rules, s.book.actions[id], net, own);
    }
  }

  lemma JobKeepsForeign(s: Sys, j: Job, now: int, s': Sys, own: set<string>)
    requires JobDone(s, j, now, s')
    requires HasRule(j.action) ==> Rule(ValidateDomain(j.action.domain).value) in own
    ensures Foreign(s'.rules, own) == Foreign(s.rules, own)
  {
    DriverKeepsForeign(s.rules, j.action, j.net, own);
  }

  lemma OwnsExpired(b: Book, jobs: seq<Job>, now: int, own: set<string>, n: nat)
    requires Owns(own, b) && ExpiredJobs(b, jobs, now) && n < |jobs|
    ensures HasRule(jobs[n].action) ==> Rule(ValidateDomain(jobs[n].action.domain).value) in own
  {
    assert jobs[n].action.id in b.actions;
  }

  lemma {:induction false} TickKeepsForeign(s: Sys, jobs: seq<Job>, now: int, states: seq<Sys>,
                                            own: set<string>, n: nat)
    requires Owns(own, s.book) && ExpiredJobs(s.book, jobs, now) && TickTrace(s, jobs, now, states) && n <= |jobs|
    ensures Foreign(states[n].rules, own) == Foreign(s.rules, own)
  {
    if n > 0 {
      TickKeepsForeign(s, jobs, now, states, own, n - 1);
      OwnsExpired(s.book, jobs, now, own, n - 1);
      JobKeepsForeign(states[n - 1], jobs[n - 1], now, states[n], own);
    }
  }

  lemma StepKeepsForeign(c: Config, s: Sys, call: Call, own: set<string>)
    requires Sound(s.book) && Possible(s, call) && Owns(own, s.book) && Owns(own, Step(c, s, call).book)
    ensures Foreign(Step(c, s, call).rules, own) == Foreign(s.rules, own)
  {
    match call
    case Evaluate(ev, now, net) => EvaluatedKeepsForeign(c, s, ev, now, net, own);
    case Approve(id, approver, net) => ApprovalKeepsForeign(s, id, approver, net, own);
    case Reject(id) =>
    case Revert(id, now, net) => RevertKeepsForeign(s, id, now, net, own);
    case Tick(jobs, now) =>
      var states := TickTraceExists(s, jobs, now);
      TickKeepsForeign(s, jobs, now, states, own, |jobs|);
  }

  /** In every run, the rules that belong to no action ever handled keep their content and order. */
  lemma {:induction false} ForeignRulesKept(c: Config, rules: seq<string>, calls: seq<Call>, own: set<string>)
    requires PossibleRun(c, Sys(EMPTY, rules), calls)
    requires forall n :: 0 <= n <= |calls| ==> Owns(own, Exec(c, Sys(EMPTY, rules), calls[..n]).book)
    ensures Foreign(Exec(c, Sys(EMPTY, rules), calls).rules, own) == Foreign(rules, own)
  {
    if calls != [] {
      var n := |calls| - 1;
      PossiblePrefix(c, Sys(EMPTY, rules), calls);
      forall m | 0 <= m <= n
        ensures Owns(own, Exec(c, Sys(EMPTY, rules), calls[..n][..m]).book)
      {
        assert calls[..n][..m] == calls[..m];
      }
      ForeignRulesKept(c, rules, calls[..n], own);
      RunSound(c, rules, calls[..n]);
      assert calls[..|calls|] == calls;
      StepKeepsForeign(c, Exec(c, Sys(EMPTY, rules), calls[..n]), calls[n], own);
    }
  }

  // ----- what a response achieves -----

  /** The driver's answer to applying an action, given what AdGuard does. */
  predicate Applies(s: Sys, a: Action, net: Net) {
    a.actionType == DNS_SINKHOLE && HasRule(a) && net.get && (InPlace(s.rules, a) || net.set_)
  }

  lemma AppliesIff(s: Sys, a: Action, net: Net)
    ensures Applies(s, a, net) <==> a.actionType == DNS_SINKHOLE && Applied(s.rules, a.domain, net).1.None?
  {
  }

  /** Running the driver on an approved action puts it in force, or fails it and leaves the rules alone. */
  lemma EnforcedEffect(s: Sys, a: Action, net: Net, s': Sys)
    requires Consistent(s.book) && ApprovedOnly(s.book, a.id)
    requires a.id in s.book.actions && s.book.actions[a.id] == a && a.state == Approved
    requires s' == Enforced(s, a, net)
    ensures a.id in s'.book.actions && s'.book.actions[a.id].domain == a.domain
    ensures if Applies(s, a, net) then s'.book.actions[a.id].state == Active && InPlace(s'.rules, s'.book.actions[a.id])
            else s'.book.actions[a.id].state == Failed && s'.rules == s.rules
  {
    EnforcedSound(s, a, net);
    AppliedInPlace(s.rules, a, net);
    AppliesIff(s, a, net);
  }

  /** An auto-block creates an action that is in force if the driver succeeds and failed otherwise. */
  lemma AutoBlockEffect(c: Config, s: Sys, ev: DetectionEvent, now: int, net: Net, s': Sys, a: Action)
    requires Sound(s.book) && s' == Evaluated(c, s, ev, now, net) && Response(c, ev) == Policy.AutoBlock
    requires a == Requested(c, s, ev, now, true)
    ensures a.id == s.book.counter + 1 && a.id in s'.book.actions && s'.book.actions[a.id].domain == ev.domain
    ensures if Applies(s, a, net) then s'.book.actions[a.id].state == Active && InPlace(s'.rules, s'.book.actions[a.id])
            else s'.book.actions[a.id].state == Failed && s'.rules == s.rules
  {
    CreatedConsistent(s.book, a, c.maxActions);
    var s1 := s.(book := Created(s.book, a, c.maxActions));
    EnforcedEffect(s1, a, net, s');
    assert Applies(s1, a, net) == Applies(s, a, net);
  }

  /** A pending decision creates an action that waits and touches no rule; an ignored event changes nothing. */
  lemma HeldEffect(c: Config, s: Sys, ev: DetectionEvent, now: int, net: Net, s': Sys)
    requires Sound(s.book) && s' == Evaluated(c, s, ev, now, net)
    ensures Response(c, ev) == Policy.Ignore ==> s' == s
    ensures Response(c, ev) == Policy.Pend ==>
              && s.book.counter + 1 in s'.book.actions && s'.book.actions[s.book.counter + 1].state == Pending
              && s'.rules == s.rules
  {
    if Response(c, ev) == Policy.Pend {
      CreatedConsistent(s.book, Requested(c, s, ev, now, false), c.maxActions);
    }
  }

  /** Approving a pending action puts it in force if the driver succeeds and fails it otherwise; an action
      that is not pending cannot be approved. */
  lemma ApproveEffect(s: Sys, id: nat, approver: string, net: Net, s': Sys, reply: Reply)
    requires Sound(s.book) && (s', reply) == ApprovalOf(s, id, approver, net)
    ensures if id in s.book.actions && s.book.actions[id].state == Pending then
              && reply == OK && id in s'.book.actions
              && (if Applies(s, s.book.actions[id], net)
                  then s'.book.actions[id].state == Active && InPlace(s'.rules, s'.book.actions[id])
                  else s'.book.actions[id].state == Failed && s'.rules == s.rules)
            else reply == Conflict && s' == s
  {
    if id in s.book.actions && s.book.actions[id].state == Pending {
      var a := s.book.actions[id].(state := Approved, approvedBy := approver);
      MovedConsistent(s.book, id, a, approver);
      EnforcedEffect(s.(book := Moved(s.book, id, a, approver)), a, net, s');
    }
  }

  /** Rejecting takes a pending action to rejected, answers OK again for a rejected one, and is a conflict for
      any other; no rule is touched. */
  lemma RejectEffect(s: Sys, id: nat)
    ensures var (s', reply) := RejectionOf(s, id);
            && s'.rules == s.rules
            && (if id in s.book.actions && s.book.actions[id].state == Pending then
                  reply == OK && s'.book.actions == s.book.actions[id := s.book.actions[id].(state := Rejected)]
                else
                  && s' == s
                  && reply == if id in s.book.actions && s.book.actions[id].state == Rejected then OK else Conflict)
  {
  }

  /** Every case of a manual revert: an active action goes to reverted once its rule is out, or to failed if the
      driver fails; a failed one goes to reverted with the rules as they are; a reverted one stays; one that is
      pending, approved or rejected is a conflict, and an unknown one is not found. */
  lemma RevertEffect(s: Sys, id: nat, now: int, net: Net)
    requires Targeted(s.book)
    ensures var (s', reply) := RevertOf(s, id, now, net);
            if id !in s.book.actions then reply == NotFound && s' == s
            else
              var a := s.book.actions[id];
              match a.state
              case Active =>
                if net.get && (net.set_ || !InPlace(s.rules, a)) then
                  && reply == OK && !InPlace(s'.rules, a)
                  && s'.book.actions == s.book.actions[id := a.(state := Reverted, revertedAt := Some(now))]
                else
                  && reply == BadGateway && s'.rules == s.rules
                  && id in s'.book.actions && s'.book.actions[id].state == Failed && s'.book.actions[id].failure.Some?
              case Failed =>
                && reply == OK && s'.rules == s.rules
                && s'.book.actions == s.book.actions[id := a.(state := Reverted, revertedAt := Some(now))]
              case Reverted => reply == OK && s' == s
              case _ => reply == Conflict && s' == s
  {
    if id in s.book.actions && s.book.actions[id].state == Active {
      var a := s.book.actions[id];
      RemovedInPlace(s.rules, a, net);
      WithoutContents(s.rules, Rule(ValidateDomain(a.domain).value));
    }
  }

  /** Once in force, an action created with a time to live is due for release exactly when that time has passed. */
  lemma TimeToLive(id: nat, now: int, detectionID: string, mac: string, ip: string, actionType: string,
                   ttl: int, auto: bool, domain: string, t: int)
    ensures ExpiredAction(NewAction(id, now, detectionID, mac, ip, actionType, ttl, auto, domain).(state := Active), t)
       <==> ttl > 0 && t > now + ttl * 1_000_000_000
  {
  }
}
