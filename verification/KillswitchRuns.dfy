// Safety of the killswitch over every run of handler calls and TTL ticks, with
// arbitrary driver failures.
module KillswitchRuns {
  import opened Basics
  import opened Events
  import opened Actions
  import opened AuditTrail
  import opened Sinkhole
  import opened Killswitch

  datatype Call =
    | Evaluate(ev: DetectionEvent, now: int, net: Net)
    | Approve(id: nat, approver: string, net: Net)
    | Reject(id: nat)
    | Revert(id: nat, now: int, net: Net)
    | Tick(jobs: seq<Job>, now: int)

  function Step(c: Config, s: Sys, call: Call): Sys {
    match call
    case Evaluate(ev, now, net) => Evaluated(c, s, ev, now, net)
    case Approve(id, approver, net) => ApprovalOf(s, id, approver, net).0
    case Reject(id) => RejectionOf(s, id).0
    case Revert(id, now, net) => RevertOf(s, id, now, net).0
    case Tick(jobs, now) => Ticked(s, jobs, now)
  }

  /** A tick works on the actions that are expired when it starts. */
  ghost predicate Possible(s: Sys, call: Call) {
    call.Tick? ==> ExpiredJobs(s.book, call.jobs, call.now)
  }

  function Exec(c: Config, s: Sys, calls: seq<Call>): Sys {
    if calls == [] then s else Step(c, Exec(c, s, calls[..|calls| - 1]), calls[|calls| - 1])
  }

  ghost predicate PossibleRun(c: Config, s: Sys, calls: seq<Call>) {
    forall n :: 0 <= n < |calls| ==> Possible(Exec(c, s, calls[..n]), calls[n])
  }

  // ----- the store's own invariant -----

  predicate NoneApproved(b: Book) {
    forall id :: id in b.actions ==> b.actions[id].state != Approved
  }

  predicate ApprovedOnly(b: Book, only: nat) {
    forall id :: id in b.actions && b.actions[id].state == Approved ==> id == only
  }

  /** A failed action says why; one that is not failed nor reverted has no failure on record. */
  predicate Explained(b: Book) {
    forall id :: id in b.actions ==>
      var a := b.actions[id];
      (a.state == Failed ==> a.failure.Some?) && (a.failure.Some? ==> a.state == Failed || a.state == Reverted)
  }

  ghost predicate Consistent(b: Book) {
    Ordered(b) && Audited(b) && Explained(b)
  }

  ghost predicate Sound(b: Book) {
    Consistent(b) && NoneApproved(b)
  }

  lemma MovedConsistent(b: Book, id: nat, a: Action, actor: string)
    requires Consistent(b) && id in b.actions && a.id == id
    requires Edge(Some(b.actions[id].state), a.state)
    requires (a.state == Failed ==> a.failure.Some?) && (a.failure.Some? ==> a.state == Failed || a.state == Reverted)
    ensures Consistent(Moved(b, id, a, actor))
  {
    MovedAudited(b, id, a, actor);
  }

  lemma CreatedContents(b: Book, a: Action, maxActions: nat)
    requires Sound(b) && a.id == b.counter + 1 && Edge(None, a.state)
    ensures a.id in Created(b, a, maxActions).actions && Created(b, a, maxActions).actions[a.id] == a
    ensures ApprovedOnly(Created(b, a, maxActions), a.id)
    ensures forall id :: id in Created(b, a, maxActions).actions && id != a.id ==>
              id in b.actions && Created(b, a, maxActions).actions[id] == b.actions[id]
  {
    EvictionIsBounded(b, a, maxActions);
  }

  lemma CreatedConsistent(b: Book, a: Action, maxActions: nat)
    requires Sound(b) && a.id == b.counter + 1 && Edge(None, a.state) && a.failure.None?
    ensures Consistent(Created(b, a, maxActions))
    ensures a.id in Created(b, a, maxActions).actions && Created(b, a, maxActions).actions[a.id] == a
    ensures ApprovedOnly(Created(b, a, maxActions), a.id)
    ensures forall id :: id in Created(b, a, maxActions).actions && id != a.id ==>
              id in b.actions && Created(b, a, maxActions).actions[id] == b.actions[id]
  {
    CreatedAudited(b, a, maxActions);
    CreatedContents(b, a, maxActions);
  }

  lemma FailedConsistent(b: Book, id: nat, why: Failure)
    requires Consistent(b) && id in b.actions && (b.actions[id].state == Approved || b.actions[id].state == Active)
    ensures Consistent(FailureRecorded(b, id, why))
  {
    MovedConsistent(b, id, b.actions[id].(state := Failed, failure := Some(why)), "system");
  }

  lemma ActivatedConsistent(b: Book, id: nat)
    requires Consistent(b) && id in b.actions && b.actions[id].state == Approved
    ensures Transitioned(b, id, Active, "system", [Approved]) ==
              (Moved(b, id, b.actions[id].(state := Active), "system"), true)
    ensures Consistent(Moved(b, id, b.actions[id].(state := Active), "system"))
  {
    MovedConsistent(b, id, b.actions[id].(state := Active), "system");
  }

  /** Enforcement activates the action, or records why it could not. */
  function Outcome(b: Book, a: Action, why: Option<Failure>): Book {
    match why
    case None => Transitioned(b, a.id, Active, "system", [Approved]).0
    case Some(w) => FailureRecorded(b, a.id, w)
  }

  lemma EnforcedOutcome(s: Sys, a: Action, net: Net) returns (why: Option<Failure>)
    ensures Enforced(s, a, net).book == Outcome(s.book, a, why)
    ensures why.None? <==> a.actionType == DNS_SINKHOLE && Applied(s.rules, a.domain, net).1.None?
  {
    why := if a.actionType != DNS_SINKHOLE then Some(NoDriver) else Applied(s.rules, a.domain, net).1;
  }

  predicate OnlyDiffersAt(b: Book, b': Book, id: nat) {
    && b'.actions.Keys == b.actions.Keys
    && (forall k :: k in b.actions && k != id ==> b'.actions[k] == b.actions[k])
    && (forall k :: k in b.actions ==> b'.actions[k].domain == b.actions[k].domain
                                       && b'.actions[k].actionType == b.actions[k].actionType)
  }

  lemma OutcomeSound(b: Book, a: Action, why: Option<Failure>)
    requires Consistent(b) && ApprovedOnly(b, a.id)
    requires a.id in b.actions && b.actions[a.id] == a && a.state == Approved
    ensures Sound(Outcome(b, a, why)) && OnlyDiffersAt(b, Outcome(b, a, why), a.id)
    ensures Outcome(b, a, why).actions[a.id].state == if why.None? then Active else Failed
  {
    match why
    case None => ActivatedConsistent(b, a.id);
    case Some(w) => FailedConsistent(b, a.id, w);
  }

  /** Whatever the driver answers, an approved action ends up active or failed. */
  lemma EnforcedSound(s: Sys, a: Action, net: Net)
    requires Consistent(s.book) && ApprovedOnly(s.book, a.id)
    requires a.id in s.book.actions && s.book.actions[a.id] == a && a.state == Approved
    ensures Sound(Enforced(s, a, net).book) && OnlyDiffersAt(s.book, Enforced(s, a, net).book, a.id)
    ensures Enforced(s, a, net).book.actions[a.id].state ==
            if a.actionType == DNS_SINKHOLE && Applied(s.rules, a.domain, net).1.None? then Active else Failed
  {
    var why := EnforcedOutcome(s, a, net);
    OutcomeSound(s.book, a, why);
  }

  lemma ReversionSound(b: Book, id: nat, now: int)
    requires Sound(b)
    ensures Sound(Reversion(b, id, now).0) && OnlyDiffersAt(b, Reversion(b, id, now).0, id)
    ensures id in b.actions && (b.actions[id].state == Active || b.actions[id].state == Failed) ==>
              Reversion(b, id, now).0.actions[id].state == Reverted
              && Reversion(b, id, now).0.actions[id].failure == b.actions[id].failure
  {
    if id in b.actions && (b.actions[id].state == Active || b.actions[id].state == Failed) {
      MovedConsistent(b, id, b.actions[id].(state := Reverted, revertedAt := Some(now)), "system");
    }
  }

  lemma RevertedOneBook(s: Sys, a: Action, now: int, net: Net)
    ensures var b := RevertedOne(s, a, now, net).book; b == s.book || b == Reversion(s.book, a.id, now).0
  {
  }

  lemma RevertedOneSound(s: Sys, a: Action, now: int, net: Net, b: Book)
    requires Sound(s.book) && b == RevertedOne(s, a, now, net).book
    ensures Sound(b) && OnlyDiffersAt(s.book, b, a.id)
  {
    RevertedOneBook(s, a, now, net);
    ReversionSound(s.book, a.id, now);
  }

  lemma {:induction false} TickedSound(s: Sys, jobs: seq<Job>, now: int)
    requires Sound(s.book)
    ensures Sound(Ticked(s, jobs, now).book)
    ensures Ticked(s, jobs, now).book.actions.Keys == s.book.actions.Keys
    ensures forall k :: k in s.book.actions ==>
              Ticked(s, jobs, now).book.actions[k].domain == s.book.actions[k].domain
              && Ticked(s, jobs, now).book.actions[k].actionType == s.book.actions[k].actionType
    ensures forall k :: k in s.book.actions && (forall i :: 0 <= i < |jobs| ==> jobs[i].action.id != k) ==>
              Ticked(s, jobs, now).book.actions[k] == s.book.actions[k]
  {
    if jobs != [] {
      var n := |jobs| - 1;
      TickedSound(s, jobs[..n], now);
      RevertedOneSound(Ticked(s, jobs[..n], now), jobs[n].action, now, jobs[n].net, Ticked(s, jobs, now).book);
    }
  }

  lemma ApprovalSound(s: Sys, id: nat, approver: string, net: Net)
    requires Sound(s.book)
    ensures Sound(ApprovalOf(s, id, approver, net).0.book)
  {
    if id in s.book.actions && s.book.actions[id].state == Pending {
      var a := s.book.actions[id].(state := Approved, approvedBy := approver);
      MovedConsistent(s.book, id, a, approver);
      EnforcedSound(s.(book := Moved(s.book, id, a, approver)), a, net);
    }
  }

  lemma RejectionSound(s: Sys, id: nat)
    requires Sound(s.book)
    ensures Sound(RejectionOf(s, id).0.book)
  {
    if id in s.book.actions && s.book.actions[id].state == Pending {
      MovedConsistent(s.book, id, s.book.actions[id].(state := Rejected), "operator");
    }
  }

  lemma RevertOutcome(s: Sys, id: nat, now: int, net: Net) returns (why: Option<Failure>)
    requires id in s.book.actions && s.book.actions[id].state == Active && s.book.actions[id].actionType == DNS_SINKHOLE
    ensures RevertOf(s, id, now, net).0.book == match why
                                                case None => Reversion(s.book, id, now).0
                                                case Some(w) => FailureRecorded(s.book, id, w)
    ensures why == Removed(s.rules, s.book.actions[id].domain, net).1
  {
    why := Removed(s.rules, s.book.actions[id].domain, net).1;
  }

  lemma FailedSound(b: Book, id: nat, why: Failure)
    requires Sound(b) && id in b.actions && b.actions[id].state == Active
    ensures Sound(FailureRecorded(b, id, why))
  {
    FailedConsistent(b, id, why);
  }

  lemma RevertBook(s: Sys, id: nat, now: int, net: Net) returns (why: Option<Failure>)
    ensures var b := RevertOf(s, id, now, net).0.book;
            if why.Some? then id in s.book.actions && s.book.actions[id].state == Active
                && b == FailureRecorded(s.book, id, why.value)
            else b == s.book || b == Reversion(s.book, id, now).0
  {
    why := None;
    if id in s.book.actions && s.book.actions[id].state == Active && s.book.actions[id].actionType == DNS_SINKHOLE {
      why := RevertOutcome(s, id, now, net);
    }
  }

  lemma RevertSound(s: Sys, id: nat, now: int, net: Net, b: Book)
    requires Sound(s.book) && b == RevertOf(s, id, now, net).0.book
    ensures Sound(b)
  {
    var why := RevertBook(s, id, now, net);
    if why.Some? {
      FailedSound(s.book, id, why.value);
    } else {
      ReversionSound(s.book, id, now);
    }
  }

  lemma EvaluatedSound(c: Config, s: Sys, ev: DetectionEvent, now: int, net: Net)
    requires Sound(s.book)
    ensures Sound(Evaluated(c, s, ev, now, net).book)
  {
    match Response(c, ev)
    case AutoBlock =>
      var a := Requested(c, s, ev, now, true);
      CreatedConsistent(s.book, a, c.maxActions);
      EnforcedSound(s.(book := Created(s.book, a, c.maxActions)), a, net);
    case Pend =>
      var a := Requested(c, s, ev, now, false);
      CreatedConsistent(s.book, a, c.maxActions);
    case Ignore =>
  }

  /** Every call keeps the store sound: ordered, audited, and with no action left in `approved`. */
  lemma StepSound(c: Config, s: Sys, call: Call)
    requires Sound(s.book)
    ensures Sound(Step(c, s, call).book)
  {
    match call
    case Evaluate(ev, now, net) => EvaluatedSound(c, s, ev, now, net);
    case Approve(id, approver, net) => ApprovalSound(s, id, approver, net);
    case Reject(id) => RejectionSound(s, id);
    case Revert(id, now, net) => RevertSound(s, id, now, net, Step(c, s, call).book);
    case Tick(jobs, now) => TickedSound(s, jobs, now);
  }

  lemma {:induction false} RunSound(c: Config, rules: seq<string>, calls: seq<Call>)
    ensures Sound(Exec(c, Sys(EMPTY, rules), calls).book)
  {
    if calls != [] {
      RunSound(c, rules, calls[..|calls| - 1]);
      StepSound(c, Exec(c, Sys(EMPTY, rules), calls[..|calls| - 1]), calls[|calls| - 1]);
    }
  }
}
