// The action store of the killswitch (store.go): a state machine per action,
// an audit log, and bounded eviction of finished actions.
module Actions {
  import opened Basics

  datatype State = Pending | Approved | Active | Reverted | Rejected | Failed

  /** Why an action failed: which driver call, and where in it. */
  datatype Failure = NoDriver | BadDomain | GetRules | SetRules

  datatype Action = Action(
    id: nat, createdAt: int, detectionID: string, actionType: string, state: State,
    targetMAC: string, targetIP: string, domain: string, autoApproved: bool,
    ttl: int, expiresAt: Option<int>, revertedAt: Option<int>,
    approvedBy: string, failure: Option<Failure>)

  /** An audit record; `from` is None for the empty string written at creation. */
  datatype Entry = Entry(id: nat, from: Option<State>, to: State, actor: string)

  /** The store's contents. Ids are the values of the process-wide counter. */
  datatype Book = Book(actions: map<nat, Action>, order: seq<nat>, counter: nat, audit: seq<Entry>)

  const EMPTY := Book(map[], [], 0, [])

  predicate Terminal(s: State) {
    s == Reverted || s == Rejected || s == Failed
  }

  function NewAction(id: nat, now: int, detectionID: string, mac: string, ip: string, actionType: string,
                     ttl: int, autoApproved: bool, domain: string): Action {
    Action(id, now, detectionID, actionType, if autoApproved then Approved else Pending,
           mac, ip, domain, autoApproved,
           ttl, if ttl > 0 then Some(now + ttl * 1_000_000_000) else None, None,
           if autoApproved then "auto-policy" else "", None)
  }

  // ----- eviction -----

  datatype Eviction = Eviction(kept: seq<nat>, actions: map<nat, Action>, removed: nat)

  /** The scan over the first entries of `order`: drop finished actions until `target` are gone. */
  function Scan(order: seq<nat>, actions: map<nat, Action>, target: int): Eviction {
    if order == [] then Eviction([], actions, 0)
    else ScanOne(Scan(order[..|order| - 1], actions, target), order[|order| - 1], target)
  }

  function ScanOne(e: Eviction, id: nat, target: int): Eviction {
    if id !in e.actions then e
    else if e.removed < target && Terminal(e.actions[id].state) then
      Eviction(e.kept, e.actions - {id}, e.removed + 1)
    else
      Eviction(e.kept + [id], e.actions, e.removed)
  }

  function Evict(b: Book, maxActions: nat): Book {
    if |b.actions| <= maxActions then b
    else
      var e := Scan(b.order, b.actions, |b.actions| - maxActions);
      b.(actions := e.actions, order := e.kept)
  }

  // ----- operations -----

  function Inserted(b: Book, a: Action): Book {
    b.(actions := b.actions[a.id := a], order := b.order + [a.id], counter := a.id)
  }

  function Created(b: Book, a: Action, maxActions: nat): Book {
    var e := Evict(Inserted(b, a), maxActions);
    e.(audit := e.audit + [Entry(a.id, None, a.state, "system")])
  }

  /** One recorded change of an action's state. */
  function Moved(b: Book, id: nat, a: Action, actor: string): Book
    requires id in b.actions
  {
    b.(actions := b.actions[id := a],
       audit := b.audit + [Entry(id, Some(b.actions[id].state), a.state, actor)])
  }

  function Transitioned(b: Book, id: nat, to: State, actor: string, allowedFrom: seq<State>): (Book, bool) {
    if id !in b.actions then (b, false)
    else
      var a := b.actions[id];
      if a.state == to then (b, true)
      else if a.state !in allowedFrom then (b, false)
      else (Moved(b, id, a.(state := to, approvedBy := if to == Approved then actor else a.approvedBy), actor), true)
  }

  function Reversion(b: Book, id: nat, now: int): (Book, bool) {
    if id !in b.actions then (b, false)
    else
      var a := b.actions[id];
      if a.state == Reverted then (b, true)
      else if a.state != Active && a.state != Failed then (b, false)
      else (Moved(b, id, a.(state := Reverted, revertedAt := Some(now)), "system"), true)
  }

  function FailureRecorded(b: Book, id: nat, why: Failure): Book {
    if id !in b.actions then b
    else Moved(b, id, b.actions[id].(state := Failed, failure := Some(why)), "system")
  }

  predicate ExpiredAction(a: Action, now: int) {
    a.state == Active && a.expiresAt.Some? && now > a.expiresAt.value
  }

  /** Every entry of the map is filed under its own id. */
  predicate Filed(b: Book) {
    forall id :: id in b.actions ==> b.actions[id].id == id
  }

  class Store {
    const maxActions: nat
    var actions: map<nat, Action>
    var order: seq<nat>
    var counter: nat
    var audit: seq<Entry>

    ghost function Contents(): Book
      reads this
    {
      Book(actions, order, counter, audit)
    }

    constructor (maxActions: int)
      ensures this.maxActions == if maxActions <= 0 then 10000 else maxActions
      ensures Contents() == EMPTY
    {
      this.maxActions := if maxActions <= 0 then 10000 else maxActions;
      actions, order, counter, audit := map[], [], 0, [];
    }

    method WriteAudit(id: nat, from: Option<State>, to: State, actor: string)
      modifies this`audit
      ensures audit == old(audit) + [Entry(id, from, to, actor)]
    {
      audit := audit + [Entry(id, from, to, actor)];
    }

    method EvictLocked()
      modifies this`actions, this`order
      ensures Contents() == Evict(old(Contents()), maxActions)
    {
      if |actions| <= maxActions {
        return;
      }
      var kept: seq<nat> := [];
      var removed := 0;
      var target := |actions| - maxActions;
      ghost var all := actions;
      for i := 0 to |order|
        invariant order == old(order) && counter == old(counter) && audit == old(audit)
        invariant Eviction(kept, actions, removed) == Scan(order[..i], all, target)
      {
        var id := order[i];
        assert order[..i + 1][..i] == order[..i];
        if id !in actions {
          continue;
        }
        if removed < target && Terminal(actions[id].state) {
          actions := actions - {id};
          removed := removed + 1;
          continue;
        }
        kept := kept + [id];
      }
      assert order[..|order|] == order;
      order := kept;
    }

    method Create(now: int, detectionID: string, mac: string, ip: string, actionType: string,
                  ttl: int, autoApproved: bool, domain: string) returns (action: Action)
      modifies this
      ensures action == NewAction(old(counter) + 1, now, detectionID, mac, ip, actionType, ttl, autoApproved, domain)
      ensures Contents() == Created(old(Contents()), action, maxActions)
    {
      counter := counter + 1;
      var state, approvedBy := Pending, "";
      if autoApproved {
        state, approvedBy := Approved, "auto-policy";
      }
      var expiresAt: Option<int> := None;
      if ttl > 0 {
        expiresAt := Some(now + ttl * 1_000_000_000);
      }
      action := Action(counter, now, detectionID, actionType, state, mac, ip, domain, autoApproved,
                       ttl, expiresAt, None, approvedBy, None);
      actions := actions[counter := action];
      order := order + [counter];
      EvictLocked();
      WriteAudit(action.id, None, state, "system");
    }

    method Transition(id: nat, to: State, actor: string, allowedFrom: seq<State>) returns (ok: bool)
      modifies this
      ensures (Contents(), ok) == Transitioned(old(Contents()), id, to, actor, allowedFrom)
    {
      if id !in actions {
        return false;
      }
      var a := actions[id];
      if a.state == to {
        return true;
      }
      var allowed := false;
      for i := 0 to |allowedFrom|
        invariant !allowed && a.state !in allowedFrom[..i]
      {
        if a.state == allowedFrom[i] {
          allowed := true;
          break;
        }
      }
      assert allowedFrom[..|allowedFrom|] == allowedFrom;
      if !allowed {
        return false;
      }
      var from := a.state;
      a := a.(state := to);
      if to == Approved {
        a := a.(approvedBy := actor);
      }
      actions := actions[id := a];
      WriteAudit(id, Some(from), to, actor);
      return true;
    }

    method Approve(id: nat, approver: string) returns (ok: bool)
      modifies this
      ensures (Contents(), ok) == Transitioned(old(Contents()), id, Approved, approver, [Pending])
    {
      ok := Transition(id, Approved, approver, [Pending]);
    }

    method Reject(id: nat) returns (ok: bool)
      modifies this
      ensures (Contents(), ok) == Transitioned(old(Contents()), id, Rejected, "operator", [Pending])
    {
      ok := Transition(id, Rejected, "operator", [Pending]);
    }

    method Activate(id: nat) returns (ok: bool)
      modifies this
      ensures (Contents(), ok) == Transitioned(old(Contents()), id, Active, "system", [Approved])
    {
      ok := Transition(id, Active, "system", [Approved]);
    }

    method Revert(id: nat, now: int) returns (ok: bool)
      modifies this
      ensures (Contents(), ok) == Reversion(old(Contents()), id, now)
    {
      if id !in actions {
        return false;
      }
      var a := actions[id];
      if a.state == Reverted {
        return true;
      }
      if a.state != Active && a.state != Failed {
        return false;
      }
      var from := a.state;
      actions := actions[id := a.(state := Reverted, revertedAt := Some(now))];
      WriteAudit(id, Some(from), Reverted, "system");
      return true;
    }

    method RecordFailure(id: nat, why: Failure)
      modifies this
      ensures Contents() == FailureRecorded(old(Contents()), id, why)
    {
      if id !in actions {
        return;
      }
      var from := actions[id].state;
      actions := actions[id := actions[id].(state := Failed, failure := Some(why))];
      WriteAudit(id, Some(from), Failed, "system");
    }

    /** Snapshots of the active actions past their TTL, in map order (that is, in any order). */
    method ListExpired(now: int) returns (out: seq<Action>)
      requires Filed(Contents())
      ensures forall i :: 0 <= i < |out| ==>
                out[i].id in actions && actions[out[i].id] == out[i] && ExpiredAction(out[i], now)
      ensures forall i, j :: 0 <= i < j < |out| ==> out[i].id != out[j].id
      ensures forall id :: id in actions && ExpiredAction(actions[id], now) ==> actions[id] in out
    {
      out := [];
      var todo := actions.Keys;
      while todo != {}
        invariant todo <= actions.Keys
        invariant forall i :: 0 <= i < |out| ==>
                  out[i].id in actions && out[i].id !in todo
                   && actions[out[i].id] == out[i] && ExpiredAction(out[i], now)
        invariant forall i, j :: 0 <= i < j < |out| ==> out[i].id != out[j].id
        invariant forall id :: id in actions && id !in todo && ExpiredAction(actions[id], now) ==> actions[id] in out
        decreases todo
      {
        var id :| id in todo;
        todo := todo - {id};
        if ExpiredAction(actions[id], now) {
          out := out + [actions[id]];
        }
      }
    }
  }

  // ----- bounded eviction -----

  /** `order` lists exactly the stored ids, oldest first, all drawn from the counter. */
  ghost predicate Ordered(b: Book) {
    && Ascending(b.order)
    && (forall id :: id in b.order <==> id in b.actions)
    && (forall id :: id in b.actions ==> 1 <= id <= b.counter)
    && Filed(b)
  }

  /** What one scan does, for the prefix of `order` it has covered. */
  ghost predicate ScanResult(order: seq<nat>, actions: map<nat, Action>, target: nat, e: Eviction) {
    && Ascending(e.kept)
    && e.removed <= target
    && |e.actions| + e.removed == |actions|
    && (forall id :: id in e.actions ==> id in actions && e.actions[id] == actions[id])
    && (forall id :: id in e.kept <==> id in order && id in e.actions)
    && (forall id :: id in actions && id !in e.actions ==> id in order && Terminal(actions[id].state))
    && (forall d, t :: d in actions && d !in e.actions && t in e.kept && Terminal(actions[t].state) ==> d < t)
    && (e.removed < target ==> forall id :: id in e.kept ==> !Terminal(actions[id].state))
  }

  lemma ScanDrop(before: seq<nat>, id: nat, actions: map<nat, Action>, target: nat, e: Eviction)
    requires ScanResult(before, actions, target, e) && id in e.actions
    requires forall x :: x in before ==> x < id
    requires e.removed < target && Terminal(e.actions[id].state)
    ensures ScanResult(before + [id], actions, target, Eviction(e.kept, e.actions - {id}, e.removed + 1))
  {
    assert forall x :: x in before + [id] <==> x in before || x == id;
    assert id !in before;
  }

  lemma ScanKeep(before: seq<nat>, id: nat, actions: map<nat, Action>, target: nat, e: Eviction)
    requires ScanResult(before, actions, target, e) && id in e.actions
    requires forall x :: x in before ==> x < id
    requires !(e.removed < target && Terminal(e.actions[id].state))
    ensures ScanResult(before + [id], actions, target, Eviction(e.kept + [id], e.actions, e.removed))
  {
    assert forall x :: x in before + [id] <==> x in before || x == id;
    AscendingSnoc(e.kept, id);
  }

  lemma ScanStep(before: seq<nat>, id: nat, actions: map<nat, Action>, target: nat, e: Eviction, e': Eviction)
    requires ScanResult(before, actions, target, e) && id in actions
    requires forall x :: x in before ==> x < id
    requires e' == ScanOne(e, id, target)
    ensures ScanResult(before + [id], actions, target, e')
  {
    assert id in e.actions;
    if e.removed < target && Terminal(e.actions[id].state) {
      ScanDrop(before, id, actions, target, e);
    } else {
      ScanKeep(before, id, actions, target, e);
    }
  }

  lemma AscendingParts(before: seq<nat>, id: nat)
    requires Ascending(before + [id])
    ensures Ascending(before) && forall x :: x in before ==> x < id
  {
    var s := before + [id];
    forall i, j | 0 <= i < j < |before|
      ensures before[i] < before[j]
    {
      assert s[i] < s[j];
    }
    forall x | x in before
      ensures x < id
    {
      var i :| 0 <= i < |before| && before[i] == x;
      assert s[i] < s[|before|];
    }
  }

  lemma {:induction false} ScanCorrect(order: seq<nat>, actions: map<nat, Action>, target: nat)
    requires Ascending(order) && forall id :: id in order ==> id in actions
    ensures ScanResult(order, actions, target, Scan(order, actions, target))
  {
    if order != [] {
      var n := |order| - 1;
      var id, before := order[n], order[..n];
      assert order == before + [id];
      AscendingParts(before, id);
      assert id in order;
      ScanCorrect(before, actions, target);
      ScanStep(before, id, actions, target, Scan(before, actions, target), Scan(order, actions, target));
    }
  }

  /** No live action is lost, the oldest finished ones go first and no more than necessary, and eviction
      stops only when the store is within its limit or no finished action is left. */
  ghost predicate FairlyEvicted(full: map<nat, Action>, kept: map<nat, Action>, maxActions: nat) {
    && (forall id :: id in kept ==> id in full && kept[id] == full[id])
    && (forall id :: id in full && !Terminal(full[id].state) ==> id in kept)
    && (forall d, t :: d in full && d !in kept && t in kept && Terminal(full[t].state) ==> d < t)
    && (|kept| <= maxActions || forall id :: id in kept ==> !Terminal(full[id].state))
    && (|full| <= maxActions ==> kept == full)
    && (|full| > maxActions ==> |kept| >= maxActions)
  }

  lemma ScanKeepsOrder(b: Book, target: nat, e: Eviction, b': Book)
    requires Ordered(b) && ScanResult(b.order, b.actions, target, e)
    requires b' == b.(actions := e.actions, order := e.kept)
    ensures Ordered(b')
  {
  }

  lemma ScanIsFair(order: seq<nat>, actions: map<nat, Action>, maxActions: nat, e: Eviction)
    requires forall id :: id in order <==> id in actions
    requires |actions| > maxActions && ScanResult(order, actions, |actions| - maxActions, e)
    ensures FairlyEvicted(actions, e.actions, maxActions)
  {
  }

  lemma EvictionIsScan(b: Book, maxActions: nat, b': Book) returns (e: Eviction)
    requires Ordered(b) && |b.actions| > maxActions && b' == Evict(b, maxActions)
    ensures ScanResult(b.order, b.actions, |b.actions| - maxActions, e)
    ensures b' == b.(actions := e.actions, order := e.kept)
  {
    var target := |b.actions| - maxActions;
    ScanCorrect(b.order, b.actions, target);
    e := Scan(b.order, b.actions, target);
  }

  lemma EvictCorrect(b: Book, maxActions: nat, b': Book)
    requires Ordered(b) && b' == Evict(b, maxActions)
    ensures Ordered(b')
    ensures FairlyEvicted(b.actions, b'.actions, maxActions)
  {
    if |b.actions| > maxActions {
      var e := EvictionIsScan(b, maxActions, b');
      ScanKeepsOrder(b, |b.actions| - maxActions, e, b');
      ScanIsFair(b.order, b.actions, maxActions, e);
    }
  }

  /** Every creation leaves the store ordered and fairly evicted. */
  lemma EvictionIsBounded(b: Book, a: Action, maxActions: nat)
    requires Ordered(b) && a.id == b.counter + 1
    ensures Ordered(Created(b, a, maxActions))
    ensures FairlyEvicted(b.actions[a.id := a], Created(b, a, maxActions).actions, maxActions)
  {
    InsertedOrdered(b, a);
    EvictCorrect(Inserted(b, a), maxActions, Evict(Inserted(b, a), maxActions));
    AuditIsApart(Evict(Inserted(b, a), maxActions), Created(b, a, maxActions));
  }

  /** In terms of states: what a creation drops was reverted, rejected or failed, each older than every such
      action that stays, and the store exceeds its limit only with pending, approved and active ones. */
  lemma OnlyFinishedDropped(b: Book, a: Action, maxActions: nat)
    requires Ordered(b) && a.id == b.counter + 1
    ensures var full, kept := b.actions[a.id := a], Created(b, a, maxActions).actions;
            && (forall d :: d in full && d !in kept ==> full[d].state in {Reverted, Rejected, Failed})
            && (forall d, t :: d in full && d !in kept && t in kept && kept[t].state in {Reverted, Rejected, Failed}
                  ==> d < t)
            && (|kept| > maxActions ==> forall id :: id in kept ==> kept[id].state in {Pending, Approved, Active})
  {
    EvictionIsBounded(b, a, maxActions);
  }

  lemma InsertedOrdered(b: Book, a: Action)
    requires Ordered(b) && a.id == b.counter + 1
    ensures Ordered(Inserted(b, a))
  {
    AscendingSnoc(b.order, a.id);
  }

  lemma AuditIsApart(b: Book, b': Book)
    requires Ordered(b) && b'.actions == b.actions && b'.order == b.order && b'.counter == b.counter
    ensures Ordered(b')
  {
  }
}
