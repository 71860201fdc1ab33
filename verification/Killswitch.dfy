// The handlers and the TTL loop of the killswitch controller (main.go), each run
// to completion against the action store and AdGuard's rule list.
module Killswitch {
  import opened Basics
  import opened Events
  import opened Policy
  import opened Actions
  import opened Sinkhole

  const DNS_SINKHOLE := "dns_sinkhole"

  /** Everything the controller decides on: its store and AdGuard's rules. */
  datatype Sys = Sys(book: Book, rules: seq<string>)

  datatype Reply = OK | Conflict | NotFound | Unavailable | BadGateway

  datatype Config = Config(policy: Policy, autoBlockAllowed: bool, maxActions: nat)

  // ----- what each handler does -----

  /** Runs the driver; only a driver that succeeded activates the action. */
  function Enforced(s: Sys, a: Action, net: Net): Sys {
    if a.actionType != DNS_SINKHOLE then s.(book := FailureRecorded(s.book, a.id, NoDriver))
    else
      var (rules, err) := Applied(s.rules, a.domain, net);
      match err
      case Some(why) => Sys(FailureRecorded(s.book, a.id, why), rules)
      case None => Sys(Transitioned(s.book, a.id, Active, "system", [Approved]).0, rules)
  }

  function Response(c: Config, ev: DetectionEvent): Verb {
    var verb := Evaluate(c.policy, ev).verb;
    if verb == AutoBlock && !c.autoBlockAllowed then Pend else verb
  }

  /** The action an event asks for. */
  function Requested(c: Config, s: Sys, ev: DetectionEvent, now: int, auto: bool): Action {
    var d := Evaluate(c.policy, ev);
    NewAction(s.book.counter + 1, now, ev.id, ev.clientMAC, ev.clientIP, d.actionType, d.ttl, auto, ev.domain)
  }

  function Evaluated(c: Config, s: Sys, ev: DetectionEvent, now: int, net: Net): Sys {
    match Response(c, ev)
    case AutoBlock =>
      var a := Requested(c, s, ev, now, true);
      Enforced(s.(book := Created(s.book, a, c.maxActions)), a, net)
    case Pend =>
      s.(book := Created(s.book, Requested(c, s, ev, now, false), c.maxActions))
    case Ignore => s
  }

  function ApprovalOf(s: Sys, id: nat, approver: string, net: Net): (Sys, Reply) {
    var (b, ok) := Transitioned(s.book, id, Approved, approver, [Pending]);
    if !ok then (s, Conflict)
    else if b.actions[id].state == Approved then (Enforced(s.(book := b), b.actions[id], net), OK)
    else (s.(book := b), OK)
  }

  function RejectionOf(s: Sys, id: nat): (Sys, Reply) {
    var (b, ok) := Transitioned(s.book, id, Rejected, "operator", [Pending]);
    if ok then (s.(book := b), OK) else (s, Conflict)
  }

  function RevertOf(s: Sys, id: nat, now: int, net: Net): (Sys, Reply) {
    if id !in s.book.actions then (s, NotFound)
    else
      var a := s.book.actions[id];
      if a.state == Active then
        if a.actionType != DNS_SINKHOLE then (s, Unavailable)
        else
          var (rules, err) := Removed(s.rules, a.domain, net);
          match err
          case Some(why) => (Sys(FailureRecorded(s.book, id, why), rules), BadGateway)
          case None => (Sys(Reversion(s.book, id, now).0, rules), OK)
      else
        var (b, ok) := Reversion(s.book, id, now);
        if ok then (s.(book := b), OK) else (s, Conflict)
  }

  /** One expired action of a tick: driver first, state second, and nothing at all if the driver fails. */
  function RevertedOne(s: Sys, a: Action, now: int, net: Net): Sys {
    if a.actionType != DNS_SINKHOLE then s
    else
      var (rules, err) := Removed(s.rules, a.domain, net);
      match err
      case Some(_) => s.(rules := rules)
      case None => Sys(Reversion(s.book, a.id, now).0, rules)
  }

  /** A tick works through a snapshot of the expired actions, one driver call each. */
  datatype Job = Job(action: Action, net: Net)

  function Ticked(s: Sys, jobs: seq<Job>, now: int): Sys {
    if jobs == [] then s
    else RevertedOne(Ticked(s, jobs[..|jobs| - 1], now), jobs[|jobs| - 1].action, now, jobs[|jobs| - 1].net)
  }

  /** The jobs are the expired actions, each once, in whatever order the map yields them. */
  ghost predicate ExpiredJobs(b: Book, jobs: seq<Job>, now: int) {
    && (forall i :: 0 <= i < |jobs| ==>
          var a := jobs[i].action; a.id in b.actions && b.actions[a.id] == a && ExpiredAction(a, now))
    && (forall i, j :: 0 <= i < j < |jobs| ==> jobs[i].action.id != jobs[j].action.id)
    && (forall id :: id in b.actions && ExpiredAction(b.actions[id], now) ==>
          exists i :: 0 <= i < |jobs| && jobs[i].action == b.actions[id])
  }

  lemma SnapshotIsExpiredJobs(b: Book, expired: seq<Action>, jobs: seq<Job>, now: int)
    requires forall i :: 0 <= i < |expired| ==>
               expired[i].id in b.actions && b.actions[expired[i].id] == expired[i] && ExpiredAction(expired[i], now)
    requires forall i, j :: 0 <= i < j < |expired| ==> expired[i].id != expired[j].id
    requires forall id :: id in b.actions && ExpiredAction(b.actions[id], now) ==> b.actions[id] in expired
    requires |jobs| == |expired| && forall i :: 0 <= i < |jobs| ==> jobs[i].action == expired[i]
    ensures ExpiredJobs(b, jobs, now)
  {
    forall id | id in b.actions && ExpiredAction(b.actions[id], now)
      ensures exists i :: 0 <= i < |jobs| && jobs[i].action == b.actions[id]
    {
      var i :| 0 <= i < |expired| && expired[i] == b.actions[id];
      assert jobs[i].action == expired[i];
    }
  }

  class Controller {
    const config: Config
    const store: Store
    const driver: SinkholeDriver

    ghost function System(): Sys
      reads store, driver
    {
      Sys(store.Contents(), driver.rules)
    }

    constructor (config: Config, store: Store, driver: SinkholeDriver)
      requires store.maxActions == config.maxActions
      ensures this.config == config && this.store == store && this.driver == driver
    {
      this.config := config;
      this.store := store;
      this.driver := driver;
    }

    method ApplyAction(action: Action, net: Net)
      modifies store, driver
      ensures System() == Enforced(old(System()), action, net)
    {
      if action.actionType != DNS_SINKHOLE {
        store.RecordFailure(action.id, NoDriver);
        return;
      }
      var err := driver.Apply(action, net);
      if err.Some? {
        store.RecordFailure(action.id, err.value);
        return;
      }
      var _ := store.Activate(action.id);
    }

    method HandleEvaluate(ev: DetectionEvent, now: int, net: Net)
      requires store.maxActions == config.maxActions
      modifies store, driver
      ensures System() == Evaluated(config, old(System()), ev, now, net)
    {
      var decision := Evaluate(config.policy, ev);
      if decision.verb == AutoBlock && !config.autoBlockAllowed {
        decision := decision.(verb := Pend);
      }
      match decision.verb
      case AutoBlock =>
        var action := store.Create(now, ev.id, ev.clientMAC, ev.clientIP,
            decision.actionType, decision.ttl, true, ev.domain);
        ApplyAction(action, net);
      case Pend =>
        var _ := store.Create(now, ev.id, ev.clientMAC, ev.clientIP,
            decision.actionType, decision.ttl, false, ev.domain);
      case Ignore =>
    }

    method HandleApprove(id: nat, approvedBy: string, net: Net) returns (reply: Reply)
      modifies store, driver
      ensures (System(), reply) ==
              ApprovalOf(old(System()), id, if approvedBy == "" then "operator" else approvedBy, net)
    {
      var approver := if approvedBy == "" then "operator" else approvedBy;
      var ok := store.Approve(id, approver);
      if !ok {
        return Conflict;
      }
      if store.actions[id].state == Approved {
        ApplyAction(store.actions[id], net);
      }
      return OK;
    }

    method HandleReject(id: nat) returns (reply: Reply)
      modifies store
      ensures (System(), reply) == RejectionOf(old(System()), id)
    {
      var ok := store.Reject(id);
      return if ok then OK else Conflict;
    }

    method HandleRevert(id: nat, now: int, net: Net) returns (reply: Reply)
      modifies store, driver
      ensures (System(), reply) == RevertOf(old(System()), id, now, net)
    {
      if id !in store.actions {
        return NotFound;
      }
      var action := store.actions[id];
      if action.state == Active {
        if action.actionType != DNS_SINKHOLE {
          return Unavailable;
        }
        var err := driver.Revert(action, net);
        if err.Some? {
          store.RecordFailure(id, err.value);
          return BadGateway;
        }
      }
      var ok := store.Revert(id, now);
      return if ok then OK else Conflict;
    }

    method RevertOne(a: Action, now: int, net: Net)
      modifies store, driver
      ensures System() == RevertedOne(old(System()), a, now, net)
    {
      if a.actionType != DNS_SINKHOLE {
        return;
      }
      var err := driver.Revert(a, net);
      if err.Some? {
        return;
      }
      var _ := store.Revert(a.id, now);
    }

    /** One tick of the TTL loop; `nets` says how AdGuard answers for each action. */
    method TTLTick(now: int, nets: map<nat, Net>) returns (ghost jobs: seq<Job>)
      requires Filed(store.Contents())
      requires forall id :: id in store.actions ==> id in nets
      modifies store, driver
      ensures ExpiredJobs(old(store.Contents()), jobs, now)
      ensures forall i :: 0 <= i < |jobs| ==> jobs[i].action.id in nets && jobs[i].net == nets[jobs[i].action.id]
      ensures System() == Ticked(old(System()), jobs, now)
    {
      var expired := store.ListExpired(now);
      jobs := seq(|expired|, i requires 0 <= i < |expired| => Job(expired[i], nets[expired[i].id]));
      SnapshotIsExpiredJobs(store.Contents(), expired, jobs, now);
      for i := 0 to |expired|
        invariant System() == Ticked(old(System()), jobs[..i], now)
      {
        assert jobs[..i + 1][..i] == jobs[..i];
        RevertOne(expired[i], now, nets[expired[i].id]);
      }
      assert jobs[..|jobs|] == jobs;
    }
  }
}
