// What the killswitch's records promise about AdGuard's rule list, over every run.
module Enforcement {
  import opened Basics
  import opened Events
  import opened Actions
  import opened AuditTrail
  import opened Sinkhole
  import opened Killswitch
  import opened KillswitchRuns

  /** The rule that blocks the action's domain is in the list. */
  predicate InPlace(rules: seq<string>, a: Action) {
    match ValidateDomain(a.domain)
    case None => false
    case Some(d) => Rule(d) in rules
  }

  predicate HasRule(a: Action) {
    ValidateDomain(a.domain).Some?
  }

  predicate SameRule(a: Action, b: Action) {
    ValidateDomain(a.domain) == ValidateDomain(b.domain)
  }

  /** Active actions are ones the sinkhole driver can handle. */
  predicate Targeted(b: Book) {
    forall id :: id in b.actions && b.actions[id].state == Active ==>
      b.actions[id].actionType == DNS_SINKHOLE && HasRule(b.actions[id])
  }

  /** Every active action is really enforced. */
  predicate Enforcing(s: Sys) {
    forall id :: id in s.book.actions && s.book.actions[id].state == Active ==> InPlace(s.rules, s.book.actions[id])
  }

  /** Another active action relies on the same rule. */
  ghost predicate Shared(b: Book, id: nat) {
    id in b.actions &&
        exists k :: k in b.actions && k != id && b.actions[k].state == Active && SameRule(b.actions[k], b.actions[id])
  }

  /** No two active actions are about one domain. */
  ghost predicate Unshared(b: Book) {
    forall id :: id in b.actions && b.actions[id].state == Active ==> !Shared(b, id)
  }

  // ----- the driver seen through the rules of actions -----

  lemma AppliedInPlace(rules: seq<string>, a: Action, net: Net)
    ensures var (rules', err) := Applied(rules, a.domain, net);
            && (err.None? ==> HasRule(a) && InPlace(rules', a))
            && (err.Some? ==> rules' == rules)
            && (forall b :: InPlace(rules, b) ==> InPlace(rules', b))
  {
  }

  /** A revert that succeeds takes out the action's rule, and with it that of every action sharing it. */
  lemma RemovedInPlace(rules: seq<string>, a: Action, net: Net)
    ensures var (rules', err) := Removed(rules, a.domain, net);
            && (err.Some? ==> rules' == rules)
            && (err.None? ==> forall b :: InPlace(rules', b) <==> InPlace(rules, b) && !SameRule(a, b))
  {
    var (rules', err) := Removed(rules, a.domain, net);
    if HasRule(a) {
      var d := ValidateDomain(a.domain).value;
      WithoutContents(rules, Rule(d));
      forall b: Action
        ensures err.None? ==> (InPlace(rules', b) <==> InPlace(rules, b) && !SameRule(a, b))
      {
        if HasRule(b) {
          RuleInjective(ValidateDomain(b.domain).value, d);
        }
      }
    }
  }

  // ----- one call -----

  lemma EnforcedKeeps(s: Sys, a: Action, net: Net)
    requires Consistent(s.book) && ApprovedOnly(s.book, a.id)
    requires a.id in s.book.actions && s.book.actions[a.id] == a && a.state == Approved
    requires Targeted(s.book)
    ensures Targeted(Enforced(s, a, net).book)
    ensures Enforcing(s) ==> Enforcing(Enforced(s, a, net))
  {
    EnforcedSound(s, a, net);
    AppliedInPlace(s.rules, a, net);
  }

  /** Whatever is active afterwards was already, unchanged. */
  predicate NoNewActive(b: Book, b': Book) {
    forall k :: k in b'.actions && b'.actions[k].state == Active ==> k in b.actions && b'.actions[k] == b.actions[k]
  }

  lemma NoNewActiveKeeps(s: Sys, s': Sys)
    requires Targeted(s.book) && NoNewActive(s.book, s'.book)
    ensures Targeted(s'.book)
    ensures Enforcing(s) && s'.rules == s.rules ==> Enforcing(s')
  {
  }

  lemma CreatedKeeps(s: Sys, a: Action, maxActions: nat)
    requires Sound(s.book) && a.id == s.book.counter + 1 && Edge(None, a.state) && a.failure.None?
    requires Targeted(s.book)
    ensures Targeted(Created(s.book, a, maxActions))
    ensures Enforcing(s) ==> Enforcing(s.(book := Created(s.book, a, maxActions)))
  {
    CreatedConsistent(s.book, a, maxActions);
    var s' := s.(book := Created(s.book, a, maxActions));
    assert NoNewActive(s.book, s'.book);
    NoNewActiveKeeps(s, s');
  }

  lemma EvaluatedKeeps(c: Config, s: Sys, ev: DetectionEvent, now: int, net: Net, s': Sys)
    requires Sound(s.book) && Targeted(s.book) && s' == Evaluated(c, s, ev, now, net)
    ensures Targeted(s'.book)
    ensures Enforcing(s) ==> Enforcing(s')
  {
    var verb := Response(c, ev);
    if verb == Policy.AutoBlock {
      var a := Requested(c, s, ev, now, true);
      CreatedKeeps(s, a, c.maxActions);
      CreatedConsistent(s.book, a, c.maxActions);
      EnforcedKeeps(s.(book := Created(s.book, a, c.maxActions)), a, net);
    } else if verb == Policy.Pend {
      CreatedKeeps(s, Requested(c, s, ev, now, false), c.maxActions);
    }
  }

  lemma ApprovalKeeps(s: Sys, id: nat, approver: string, net: Net, s': Sys)
    requires Sound(s.book) && Targeted(s.book) && s' == ApprovalOf(s, id, approver, net).0
    ensures Targeted(s'.book)
    ensures Enforcing(s) ==> Enforcing(s')
  {
    if id in s.book.actions && s.book.actions[id].state == Pending {
      var a := s.book.actions[id].(state := Approved, approvedBy := approver);
      MovedConsistent(s.book, id, a, approver);
      EnforcedKeeps(s.(book := Moved(s.book, id, a, approver)), a, net);
    }
  }

  lemma RejectionKeeps(s: Sys, id: nat, s': Sys)
    requires Sound(s.book) && Targeted(s.book) && s' == RejectionOf(s, id).0
    ensures Targeted(s'.book)
    ensures Enforcing(s) ==> Enforcing(s')
  {
  }

  lemma RevertedOneKeeps(s: Sys, a: Action, now: int, net: Net)
    requires Sound(s.book) && Enforcing(s) && a.id in s.book.actions && s.book.actions[a.id] == a
    requires a.state == Active && !Shared(s.book, a.id)
    ensures Enforcing(RevertedOne(s, a, now, net))
  {
    var s' := RevertedOne(s, a, now, net);
    RevertedOneOutcome(s, a, now, net, s');
    if s' != s {
      RevertedKeeps(s, a, s');
    }
  }

  /** Either nothing happens, or only the action changes and only its rule goes. */
  lemma RevertedOneOutcome(s: Sys, a: Action, now: int, net: Net, s': Sys)
    requires Sound(s.book) && a.id in s.book.actions && s.book.actions[a.id] == a && a.state == Active
    requires s' == RevertedOne(s, a, now, net)
    ensures s' == s || (OnlyDiffersAt(s.book, s'.book, a.id) && s'.book.actions[a.id].state == Reverted
                        && forall b :: InPlace(s'.rules, b) <==> InPlace(s.rules, b) && !SameRule(a, b))
  {
    ReversionSound(s.book, a.id, now);
    RemovedInPlace(s.rules, a, net);
  }

  lemma RevertedKeeps(s: Sys, a: Action, s': Sys)
    requires Enforcing(s) && a.id in s.book.actions && s.book.actions[a.id] == a && !Shared(s.book, a.id)
    requires OnlyDiffersAt(s.book, s'.book, a.id) && s'.book.actions[a.id].state == Reverted
    requires forall b :: InPlace(s'.rules, b) <==> InPlace(s.rules, b) && !SameRule(a, b)
    ensures Enforcing(s')
  {
    forall k | k in s'.book.actions && s'.book.actions[k].state == Active
      ensures InPlace(s'.rules, s'.book.actions[k])
    {
      assert s.book.actions[k] == s'.book.actions[k];
    }
  }

  lemma RevertBookShrinks(s: Sys, id: nat, now: int, net: Net, b: Book)
    requires Sound(s.book) && b == RevertOf(s, id, now, net).0.book
    ensures NoNewActive(s.book, b)
  {
    var why := RevertBook(s, id, now, net);
    ReversionSound(s.book, id, now);
  }

  lemma RevertRules(s: Sys, id: nat, now: int, net: Net, s': Sys)
    requires Sound(s.book) && s' == RevertOf(s, id, now, net).0
    ensures s'.rules == s.rules
            || (id in s.book.actions && s.book.actions[id].state == Active
                && s' == RevertedOne(s, s.book.actions[id], now, net))
  {
    if id in s.book.actions {
      AppliedInPlace(s.rules, s.book.actions[id], net);
      RemovedInPlace(s.rules, s.book.actions[id], net);
    }
  }

  lemma RevertKeeps(s: Sys, id: nat, now: int, net: Net, s': Sys)
    requires Sound(s.book) && Targeted(s.book) && s' == RevertOf(s, id, now, net).0
    ensures Targeted(s'.book)
    ensures Enforcing(s) && Unshared(s.book) ==> Enforcing(s')
  {
    RevertBookShrinks(s, id, now, net, s'.book);
    NoNewActiveKeeps(s, s');
    RevertRules(s, id, now, net, s');
    if s'.rules != s.rules && Enforcing(s) && Unshared(s.book) {
      assert !Shared(s.book, id);
      RevertedOneKeeps(s, s.book.actions[id], now, net);
    }
  }

  /** While the rule is in place, taking it out needs AdGuard to answer both the read and the write. */
  lemma RemovedIff(rules: seq<string>, a: Action, net: Net)
    requires InPlace(rules, a)
    ensures Removed(rules, a.domain, net).1.None? <==> net == Net(true, true)
  {
    WithoutContents(rules, Rule(ValidateDomain(a.domain).value));
  }

  /** Exactly when reverting an enforced action leaves every remaining active action enforced:
      unless AdGuard answers while another active action relies on the same rule. */
  lemma RevertKeepsEnforcementIff(s: Sys, id: nat, now: int, net: Net)
    requires Sound(s.book) && Targeted(s.book) && Enforcing(s)
    requires id in s.book.actions && s.book.actions[id].state == Active
    ensures Enforcing(RevertOf(s, id, now, net).0) <==> !(net == Net(true, true) && Shared(s.book, id))
  {
    var a, s' := s.book.actions[id], RevertOf(s, id, now, net).0;
    ReversionSound(s.book, id, now);
    RemovedInPlace(s.rules, a, net);
    RemovedIff(s.rules, a, net);
    if net == Net(true, true) && Shared(s.book, id) {
      var k :| k in s.book.actions && k != id && s.book.actions[k].state == Active && SameRule(s.book.actions[k], a);
      assert s'.book.actions[k] == s.book.actions[k];
      assert !InPlace(s'.rules, s'.book.actions[k]);
    }
  }

  // ----- ticks -----

  predicate Untouched(jobs: seq<Job>, id: nat) {
    forall i :: 0 <= i < |jobs| ==> jobs[i].action.id != id
  }

  predicate LeftOrReverted(before: Action, after: Action) {
    after == before
    || (after.state == Reverted && after.domain == before.domain && after.failure == before.failure)
  }

  /** What the first jobs of a tick have done: each snapshot either reverted or left alone. */
  ghost predicate TickState(b: Book, jobs: seq<Job>, b': Book) {
    && b'.actions.Keys == b.actions.Keys
    && (forall id :: id in b.actions && Untouched(jobs, id) ==> b'.actions[id] == b.actions[id])
    && (forall id :: id in b.actions ==> LeftOrReverted(b.actions[id], b'.actions[id]))
  }

  lemma TickStateSnoc(b: Book, jobs: seq<Job>, mid: Book, j: Job, now: int)
    requires Sound(mid) && TickState(b, jobs, mid)
    ensures TickState(b, jobs + [j], mid)
    ensures TickState(b, jobs + [j], Reversion(mid, j.action.id, now).0)
  {
    ReversionSound(mid, j.action.id, now);
    forall id | Untouched(jobs + [j], id)
      ensures Untouched(jobs, id) && id != j.action.id
    {
      assert (jobs + [j])[|jobs|] == j;
      forall i | 0 <= i < |jobs|
        ensures jobs[i].action.id != id
      {
        assert (jobs + [j])[i] == jobs[i];
      }
    }
  }

  /** The states a tick passes through, one job after another. */
  ghost predicate TickTrace(s: Sys, jobs: seq<Job>, now: int, states: seq<Sys>) {
    && |states| == |jobs| + 1 && states[0] == s
    && forall i :: 0 <= i < |jobs| ==> JobDone(states[i], jobs[i], now, states[i + 1])
  }

  predicate JobDone(s: Sys, j: Job, now: int, s': Sys) {
    s' == RevertedOne(s, j.action, now, j.net)
  }

  lemma {:induction false} TickTraceExists(s: Sys, jobs: seq<Job>, now: int) returns (states: seq<Sys>)
    ensures TickTrace(s, jobs, now, states) && states[|jobs|] == Ticked(s, jobs, now)
  {
    if jobs == [] {
      states := [s];
    } else {
      var n := |jobs| - 1;
      var before := TickTraceExists(s, jobs[..n], now);
      states := before + [Ticked(s, jobs, now)];
      forall i | 0 <= i < |jobs|
        ensures JobDone(states[i], jobs[i], now, states[i + 1])
      {
        if i < n {
          assert JobDone(before[i], jobs[..n][i], now, before[i + 1]);
        }
      }
    }
  }

  lemma JobDoneBook(s: Sys, j: Job, now: int, s': Sys)
    requires JobDone(s, j, now, s')
    ensures s'.book == s.book || s'.book == Reversion(s.book, j.action.id, now).0
  {
  }

  lemma JobTickState(b: Book, jobs: seq<Job>, n: nat, now: int, mid: Sys, mid': Sys)
    requires n < |jobs| && JobDone(mid, jobs[n], now, mid')
    requires Sound(mid.book) && TickState(b, jobs[..n], mid.book)
    ensures TickState(b, jobs[..n + 1], mid'.book) && Sound(mid'.book)
  {
    assert jobs[..n + 1] == jobs[..n] + [jobs[n]];
    JobDoneBook(mid, jobs[n], now, mid');
    TickStateSnoc(b, jobs[..n], mid.book, jobs[n], now);
    ReversionSound(mid.book, jobs[n].action.id, now);
  }

  lemma {:induction false} TickStates(s: Sys, jobs: seq<Job>, now: int, states: seq<Sys>, n: nat)
    requires Sound(s.book) && TickTrace(s, jobs, now, states) && n <= |jobs|
    ensures TickState(s.book, jobs[..n], states[n].book) && Sound(states[n].book)
  {
    if n > 0 {
      TickStates(s, jobs, now, states, n - 1);
      JobTickState(s.book, jobs, n - 1, now, states[n - 1], states[n]);
    }
  }

  lemma UnsharedShrinks(b: Book, jobs: seq<Job>, b': Book)
    requires Unshared(b) && TickState(b, jobs, b')
    ensures Unshared(b')
  {
    forall id | id in b'.actions && b'.actions[id].state == Active
      ensures !Shared(b', id)
    {
      assert b'.actions[id] == b.actions[id];
      forall k | k in b'.actions && k != id && b'.actions[k].state == Active
        ensures !SameRule(b'.actions[k], b'.actions[id])
      {
        assert b'.actions[k] == b.actions[k];
        assert !Shared(b, id);
      }
    }
  }

  /** When a job's turn comes, its action is still as the snapshot shows it. */
  lemma SnapshotCurrent(b: Book, jobs: seq<Job>, now: int, n: nat, mid: Book)
    requires ExpiredJobs(b, jobs, now) && n < |jobs| && TickState(b, jobs[..n], mid)
    ensures var a := jobs[n].action; a.id in mid.actions && mid.actions[a.id] == a && a.state == Active
  {
    assert Untouched(jobs[..n], jobs[n].action.id);
  }

  lemma JobKeeps(b: Book, jobs: seq<Job>, now: int, n: nat, mid: Sys, mid': Sys)
    requires ExpiredJobs(b, jobs, now) && Unshared(b) && n < |jobs|
    requires TickState(b, jobs[..n], mid.book) && Sound(mid.book) && Enforcing(mid)
    requires JobDone(mid, jobs[n], now, mid')
    ensures Enforcing(mid')
  {
    SnapshotCurrent(b, jobs, now, n, mid.book);
    UnsharedShrinks(b, jobs[..n], mid.book);
    assert !Shared(mid.book, jobs[n].action.id);
    RevertedOneKeeps(mid, jobs[n].action, now, jobs[n].net);
  }

  lemma TickJobKeeps(s: Sys, jobs: seq<Job>, now: int, states: seq<Sys>, n: nat)
    requires Sound(s.book) && ExpiredJobs(s.book, jobs, now) && TickTrace(s, jobs, now, states) && n < |jobs|
    requires Unshared(s.book) && Enforcing(states[n])
    ensures Enforcing(states[n + 1])
  {
    TickStates(s, jobs, now, states, n);
    JobKeeps(s.book, jobs, now, n, states[n], states[n + 1]);
  }

  lemma {:induction false} TickKeeps(s: Sys, jobs: seq<Job>, now: int, states: seq<Sys>, n: nat)
    requires Sound(s.book) && ExpiredJobs(s.book, jobs, now) && TickTrace(s, jobs, now, states) && n <= |jobs|
    requires Enforcing(s) && Unshared(s.book)
    ensures Enforcing(states[n])
  {
    if n > 0 {
      TickKeeps(s, jobs, now, states, n - 1);
      TickJobKeeps(s, jobs, now, states, n - 1);
    }
  }

  lemma TickedKeeps(s: Sys, jobs: seq<Job>, now: int, s': Sys)
    requires Sound(s.book) && Targeted(s.book) && ExpiredJobs(s.book, jobs, now) && s' == Ticked(s, jobs, now)
    ensures Targeted(s'.book)
    ensures Enforcing(s) && Unshared(s.book) ==> Enforcing(s')
  {
    var states := TickTraceExists(s, jobs, now);
    TickStates(s, jobs, now, states, |jobs|);
    TargetedShrinks(s.book, jobs[..|jobs|], states[|jobs|].book);
    if Enforcing(s) && Unshared(s.book) {
      TickKeeps(s, jobs, now, states, |jobs|);
    }
  }

  lemma TargetedShrinks(b: Book, jobs: seq<Job>, b': Book)
    requires Targeted(b) && TickState(b, jobs, b')
    ensures Targeted(b')
  {
    forall k | k in b'.actions && b'.actions[k].state == Active
      ensures b'.actions[k] == b.actions[k]
    {
      assert LeftOrReverted(b.actions[k], b'.actions[k]);
    }
  }

  /** Every call keeps active actions manageable, and enforced as long as none share a domain. */
  lemma StepKeeps(c: Config, s: Sys, call: Call, s': Sys)
    requires Sound(s.book) && Targeted(s.book) && Possible(s, call) && s' == Step(c, s, call)
    ensures Targeted(s'.book)
    ensures Enforcing(s) && Unshared(s.book) ==> Enforcing(s')
  {
    match call
    case Evaluate(ev, now, net) => EvaluatedKeeps(c, s, ev, now, net, s');
    case Approve(id, approver, net) => ApprovalKeeps(s, id, approver, net, s');
    case Reject(id) => RejectionKeeps(s, id, s');
    case Revert(id, now, net) => RevertKeeps(s, id, now, net, s');
    case Tick(jobs, now) => TickedKeeps(s, jobs, now, s');
  }

  // ----- whole runs -----

  /** No two active actions share a domain when a call begins. */
  ghost predicate UnsharedRun(c: Config, s: Sys, calls: seq<Call>) {
    forall n :: 0 <= n < |calls| ==> Unshared(Exec(c, s, calls[..n]).book)
  }

  lemma {:induction false} RunTargeted(c: Config, rules: seq<string>, calls: seq<Call>)
    requires PossibleRun(c, Sys(EMPTY, rules), calls)
    ensures Targeted(Exec(c, Sys(EMPTY, rules), calls).book)
  {
    if calls != [] {
      var n := |calls| - 1;
      PossiblePrefix(c, Sys(EMPTY, rules), calls);
      RunTargeted(c, rules, calls[..n]);
      RunSound(c, rules, calls[..n]);
      StepKeeps(c, Exec(c, Sys(EMPTY, rules), calls[..n]), calls[n], Exec(c, Sys(EMPTY, rules), calls));
    }
  }

  lemma PossiblePrefix(c: Config, s: Sys, calls: seq<Call>)
    requires PossibleRun(c, s, calls) && calls != []
    ensures PossibleRun(c, s, calls[..|calls| - 1])
    ensures Possible(Exec(c, s, calls[..|calls| - 1]), calls[|calls| - 1])
    ensures UnsharedRun(c, s, calls) ==>
              UnsharedRun(c, s, calls[..|calls| - 1]) && Unshared(Exec(c, s, calls[..|calls| - 1]).book)
  {
    var n := |calls| - 1;
    forall m | 0 <= m < n
      ensures Possible(Exec(c, s, calls[..n][..m]), calls[..n][m])
      ensures UnsharedRun(c, s, calls) ==> Unshared(Exec(c, s, calls[..n][..m]).book)
    {
      assert calls[..n][..m] == calls[..m];
    }
  }

  /** In every run from an empty store, an active action's rule is in AdGuard. */
  lemma {:induction false} ActiveIsEnforced(c: Config, rules: seq<string>, calls: seq<Call>)
    requires PossibleRun(c, Sys(EMPTY, rules), calls) && UnsharedRun(c, Sys(EMPTY, rules), calls)
    ensures Enforcing(Exec(c, Sys(EMPTY, rules), calls))
  {
    if calls != [] {
      var n := |calls| - 1;
      PossiblePrefix(c, Sys(EMPTY, rules), calls);
      ActiveIsEnforced(c, rules, calls[..n]);
      RunTargeted(c, rules, calls[..n]);
      RunSound(c, rules, calls[..n]);
      StepKeeps(c, Exec(c, Sys(EMPTY, rules), calls[..n]), calls[n], Exec(c, Sys(EMPTY, rules), calls));
    }
  }
}
