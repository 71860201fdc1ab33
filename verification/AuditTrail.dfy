// What the audit log says about every action (store.go, driven by main.go).
module AuditTrail {
  import opened Basics
  import opened Actions

  /** The entries about one action, in order. */
  function Trail(audit: seq<Entry>, id: nat): seq<Entry> {
    if audit == [] then []
    else Trail(audit[..|audit| - 1], id) + (if audit[|audit| - 1].id == id then [audit[|audit| - 1]] else [])
  }

  /** The state changes the handlers make. */
  predicate Edge(from: Option<State>, to: State) {
    match from
    case None => to == Pending || to == Approved
    case Some(Pending) => to == Approved || to == Rejected
    case Some(Approved) => to == Active || to == Failed
    case Some(Active) => to == Reverted || to == Failed
    case Some(Failed) => to == Reverted
    case _ => false
  }

  /** Changes still possible from a state, at most. */
  function StepsLeft(s: State): nat {
    match s
    case Pending => 4
    case Approved => 3
    case Active => 2
    case Failed => 1
    case _ => 0
  }

  /** The state an action is in before entry `i` of its trail. */
  function StateBefore(t: seq<Entry>, i: nat): Option<State>
    requires i <= |t|
  {
    if i == 0 then None else Some(t[i - 1].to)
  }

  /** Each entry starts where the one before ended, the first one from nothing. */
  predicate Chain(t: seq<Entry>) {
    t == [] ||
    (var n := |t| - 1; Chain(t[..n]) && t[n].from == StateBefore(t, n) && Edge(t[n].from, t[n].to))
  }

  predicate Settled(t: seq<Entry>, b: Book, id: nat) {
    && t != [] && Chain(t)
    && |t| + StepsLeft(t[|t| - 1].to) <= 5
    && (if id in b.actions then t[|t| - 1].to == b.actions[id].state else Terminal(t[|t| - 1].to))
  }

  /** The trail of every action ever created replays to its present state. */
  ghost predicate Audited(b: Book) {
    forall id: nat :: if 1 <= id <= b.counter then Settled(Trail(b.audit, id), b, id) else Trail(b.audit, id) == []
  }

  lemma TrailSnoc(audit: seq<Entry>, e: Entry, id: nat)
    ensures Trail(audit + [e], id) == if e.id == id then Trail(audit, id) + [e] else Trail(audit, id)
  {
    assert (audit + [e])[..|audit|] == audit;
  }

  lemma ChainSnoc(t: seq<Entry>, e: Entry)
    requires Chain(t) && Edge(e.from, e.to)
    requires e.from == StateBefore(t, |t|)
    ensures Chain(t + [e])
  {
    assert (t + [e])[..|t|] == t;
  }

  /** Entry `e` extends the trail of its action and of no other. */
  lemma Extends(b: Book, b': Book, e: Entry)
    requires Audited(b) && b'.audit == b.audit + [e] && e.id >= 1
    requires b'.counter == if b.counter < e.id then e.id else b.counter
    requires e.id <= b.counter ==> e.id in b.actions && e.from == Some(b.actions[e.id].state)
    requires e.id > b.counter ==> e.id == b.counter + 1 && e.from == None
    requires Edge(e.from, e.to) && e.id in b'.actions && b'.actions[e.id].state == e.to
    requires forall id :: id in b'.actions && id != e.id ==>
              id in b.actions && b'.actions[id].state == b.actions[id].state
    requires forall id :: id in b.actions && id !in b'.actions ==> Terminal(b.actions[id].state)
    ensures Audited(b')
  {
    forall k: nat
      ensures if 1 <= k <= b'.counter then Settled(Trail(b'.audit, k), b', k) else Trail(b'.audit, k) == []
    {
      TrailSnoc(b.audit, e, k);
      if 1 <= k <= b.counter {
        assert Settled(Trail(b.audit, k), b, k);
      } else {
        assert Trail(b.audit, k) == [];
        assert [] + [e] == [e];
      }
      if k == e.id {
        ChainSnoc(Trail(b.audit, k), e);
      }
    }
  }

  lemma MovedAudited(b: Book, id: nat, a: Action, actor: string)
    requires Ordered(b) && Audited(b) && id in b.actions && a.id == id
    requires Edge(Some(b.actions[id].state), a.state)
    ensures Ordered(Moved(b, id, a, actor)) && Audited(Moved(b, id, a, actor))
  {
    var b' := Moved(b, id, a, actor);
    assert b'.actions.Keys == b.actions.Keys;
    Extends(b, b', Entry(id, Some(b.actions[id].state), a.state, actor));
  }

  lemma CreatedAudited(b: Book, a: Action, maxActions: nat)
    requires Ordered(b) && Audited(b) && a.id == b.counter + 1 && Edge(None, a.state)
    ensures Ordered(Created(b, a, maxActions)) && Audited(Created(b, a, maxActions))
    ensures a.id in Created(b, a, maxActions).actions
  {
    EvictionIsBounded(b, a, maxActions);
    CreationExtends(b, a, Created(b, a, maxActions), maxActions);
  }

  lemma CreationExtends(b: Book, a: Action, b': Book, maxActions: nat)
    requires Audited(b) && a.id == b.counter + 1 && Edge(None, a.state)
    requires FairlyEvicted(b.actions[a.id := a], b'.actions, maxActions) && b'.counter == a.id
    requires b'.audit == b.audit + [Entry(a.id, None, a.state, "system")]
    ensures Audited(b') && a.id in b'.actions
  {
    Extends(b, b', Entry(a.id, None, a.state, "system"));
  }

  lemma {:induction false} ChainSteps(t: seq<Entry>, i: nat)
    requires Chain(t) && i < |t|
    ensures t[i].from == StateBefore(t, i) && Edge(t[i].from, t[i].to)
    ensures i > 0 ==> StepsLeft(t[i].to) < StepsLeft(t[i - 1].to)
  {
    if i < |t| - 1 {
      ChainSteps(t[..|t| - 1], i);
    }
  }

  /** Replaying the log: its first entry about a stored action is the creation, each later one takes an
      allowed step from where the last one ended, the final one gives the action's state, and there are
      at most four after the creation. */
  lemma TrailReplays(b: Book, id: nat)
    requires Ordered(b) && Audited(b) && id in b.actions
    ensures var t := Trail(b.audit, id);
            && 1 <= |t| <= 5
            && t[|t| - 1].to == b.actions[id].state
            && (forall i :: 0 <= i < |t| ==> t[i].from == StateBefore(t, i) && Edge(t[i].from, t[i].to))
  {
    var t := Trail(b.audit, id);
    assert Settled(t, b, id);
    forall i | 0 <= i < |t|
      ensures t[i].from == StateBefore(t, i) && Edge(t[i].from, t[i].to)
    {
      ChainSteps(t, i);
    }
  }
}
