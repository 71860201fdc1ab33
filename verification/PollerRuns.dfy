// Delivery guarantees of the poller over every run of appends and polls.
module PollerRuns {
  import opened Basics
  import opened Poller

  datatype World = World(table: set<Row>, st: State)

  datatype Step = Append(rows: set<Row>) | Success(answer: seq<Row>) | Failure(part: seq<Row>)

  /** New rows are never older than the cursor and keys stay unique within a second; a poll handles an
      answer of the database, a failing one some first part of an answer. */
  ghost predicate Legal(limit: nat, w: World, s: Step) {
    match s
    case Append(rows) => UniqueKeys(w.table + rows) && forall r :: r in rows ==> r in w.table || r.ts >= w.st.cursor
    case Success(answer) => Answer(w.table, w.st.cursor, limit, answer)
    case Failure(part) => exists answer :: Answer(w.table, w.st.cursor, limit, answer) && part <= answer
  }

  function Next(w: World, s: Step): World {
    match s
    case Append(rows) => w.(table := w.table + rows)
    case Success(answer) => w.(st := Polled(w.st, answer))
    case Failure(part) => w.(st := Broken(w.st, part))
  }

  function Exec(w: World, run: seq<Step>): World {
    if run == [] then w else Next(Exec(w, run[..|run| - 1]), run[|run| - 1])
  }

  ghost predicate LegalRun(limit: nat, w: World, run: seq<Step>) {
    run == [] || (LegalRun(limit, w, run[..|run| - 1]) && Legal(limit, Exec(w, run[..|run| - 1]), run[|run| - 1]))
  }

  // ----- invariants -----

  /** A row that should be delivered by a poller started at `start`. */
  predicate Due(table: set<Row>, start: int, r: Row) {
    r in table && r.valid && r.ts >= start
  }

  /** The row the seen-set remembers under a key. */
  ghost predicate SeenAs(w: World, k: string, r: Row) {
    r in w.table && r.valid && r.ts == w.st.cursor && r.key == k && r in w.st.emitted
  }

  /** Nothing due is behind the cursor without having been emitted, nothing else was ever emitted. */
  ghost predicate NothingLost(start: int, w: World) {
    && UniqueKeys(w.table) && start <= w.st.cursor
    && (forall r :: r in w.st.emitted ==> Due(w.table, start, r))
    && (forall r :: Due(w.table, start, r) && r.ts < w.st.cursor ==> r in w.st.emitted)
    && (forall k :: k in w.st.seen ==> exists r :: SeenAs(w, k, r))
  }

  /** Each row was emitted once, and none that a later poll would emit again. */
  ghost predicate NothingTwice(w: World) {
    && NoDuplicates(w.st.emitted)
    && (forall r :: r in w.st.emitted ==> r.ts < w.st.cursor || (r.ts == w.st.cursor && r.key in w.st.seen))
  }

  lemma SkippedIsDelivered(start: int, w: World, r: Row)
    requires NothingLost(start, w) && r in w.table && r.valid && Skipped(w.st, r)
    ensures r in w.st.emitted
  {
    var q :| SeenAs(w, r.key, q);
    assert q == r;
  }

  lemma ScanIsDue(start: int, w: World, rows: seq<Row>, p: Progress)
    requires NothingLost(start, w) && (forall r :: r in rows ==> r in w.table && r.ts >= w.st.cursor)
    requires ScanFacts(w.st, rows, p)
    ensures forall r :: r in w.st.emitted + p.out ==> Due(w.table, start, r)
  {
  }

  /** A row due before the new cursor was delivered earlier or is in this answer. */
  lemma NothingSkippedOver(start: int, limit: nat, w: World, answer: seq<Row>, p: Progress, r: Row)
    requires NothingLost(start, w) && Answer(w.table, w.st.cursor, limit, answer) && ScanFacts(w.st, answer, p)
    requires Due(w.table, start, r) && r.ts < p.maxTS
    ensures r in w.st.emitted + p.out
  {
    if r.ts >= w.st.cursor {
      var top :| top in p.out && top.ts == p.maxTS;
      assert top in answer;
      assert r in answer;
      if Skipped(w.st, r) {
        SkippedIsDelivered(start, w, r);
      } else {
        assert r in p.out;
      }
    }
  }

  lemma NewSeen(start: int, w: World, answer: seq<Row>, p: Progress, k: string)
    requires NothingLost(start, w) && ScanFacts(w.st, answer, p)
    requires forall r :: r in answer ==> r in w.table
    requires k in Polled(w.st, answer).seen && p == Scanned(w.st, answer)
    ensures exists r :: SeenAs(w.(st := Polled(w.st, answer)), k, r)
  {
    var w' := w.(st := Polled(w.st, answer));
    if k in p.latest {
      var r :| r in p.out && r.ts == p.maxTS && r.key == k;
      assert SeenAs(w', k, r);
    } else {
      var r :| SeenAs(w, k, r);
      assert SeenAs(w', k, r);
    }
  }

  lemma SuccessKeeps(start: int, limit: nat, w: World, answer: seq<Row>)
    requires NothingLost(start, w) && Answer(w.table, w.st.cursor, limit, answer)
    ensures NothingLost(start, w.(st := Polled(w.st, answer)))
  {
    var p, w' := Scanned(w.st, answer), w.(st := Polled(w.st, answer));
    ScanEmits(w.st, answer);
    ScanIsDue(start, w, answer, p);
    forall r | Due(w.table, start, r) && r.ts < w'.st.cursor
      ensures r in w'.st.emitted
    {
      NothingSkippedOver(start, limit, w, answer, p, r);
    }
    forall k | k in w'.st.seen
      ensures exists r :: SeenAs(w', k, r)
    {
      NewSeen(start, w, answer, p, k);
    }
  }

  lemma EmittedPair(a: seq<Row>, b: seq<Row>)
    requires NoDuplicates(a) && NoDuplicates(b) && forall r :: r in b ==> r !in a
    ensures NoDuplicates(a + b)
  {
    forall i, j | 0 <= i < j < |a + b|
      ensures (a + b)[i] != (a + b)[j]
    {
      if i < |a| <= j {
        assert (a + b)[j] in b && (a + b)[i] in a;
      }
    }
  }

  lemma SuccessOnce(start: int, limit: nat, w: World, answer: seq<Row>)
    requires NothingLost(start, w) && NothingTwice(w) && Answer(w.table, w.st.cursor, limit, answer)
    ensures NothingTwice(w.(st := Polled(w.st, answer)))
  {
    var p, w' := Scanned(w.st, answer), w.(st := Polled(w.st, answer));
    ScanEmits(w.st, answer);
    ScanDistinct(w.st, answer);
    forall r | r in p.out
      ensures r !in w.st.emitted
      ensures r.ts < w'.st.cursor || (r.ts == w'.st.cursor && r.key in w'.st.seen)
    {
      assert r in answer && !Skipped(w.st, r);
      if r.ts == p.maxTS {
        assert r.key in p.latest;
      }
    }
    EmittedPair(w.st.emitted, p.out);
  }

  lemma FailureKeeps(start: int, limit: nat, w: World, part: seq<Row>, answer: seq<Row>)
    requires NothingLost(start, w) && Answer(w.table, w.st.cursor, limit, answer) && part <= answer
    ensures NothingLost(start, w.(st := Broken(w.st, part)))
  {
    forall r | r in part
      ensures r in w.table && r.ts >= w.st.cursor
    {
      assert r in answer;
    }
    ScanEmits(w.st, part);
    ScanIsDue(start, w, part, Scanned(w.st, part));
    var w' := w.(st := Broken(w.st, part));
    forall k | k in w'.st.seen
      ensures exists r :: SeenAs(w', k, r)
    {
      var r :| SeenAs(w, k, r);
      assert SeenAs(w', k, r);
    }
  }

  lemma AppendKeeps(start: int, w: World, rows: set<Row>)
    requires NothingLost(start, w) && UniqueKeys(w.table + rows) &&
              forall r :: r in rows ==> r in w.table || r.ts >= w.st.cursor
    ensures NothingLost(start, w.(table := w.table + rows))
  {
    var w' := w.(table := w.table + rows);
    forall k | k in w'.st.seen
      ensures exists r :: SeenAs(w', k, r)
    {
      var r :| SeenAs(w, k, r);
      assert SeenAs(w', k, r);
    }
  }

  lemma StepKeeps(start: int, limit: nat, w: World, s: Step)
    requires NothingLost(start, w) && Legal(limit, w, s)
    ensures NothingLost(start, Next(w, s))
    ensures NothingTwice(w) && !s.Failure? ==> NothingTwice(Next(w, s))
  {
    match s
    case Append(rows) => AppendKeeps(start, w, rows);
    case Success(answer) =>
      SuccessKeeps(start, limit, w, answer);
      if NothingTwice(w) {
        SuccessOnce(start, limit, w, answer);
      }
    case Failure(part) =>
      var answer :| Answer(w.table, w.st.cursor, limit, answer) && part <= answer;
      FailureKeeps(start, limit, w, part, answer);
  }

  /** At least once: whatever polls fail on the way, no due row is ever left behind the cursor. */
  lemma {:induction false} AtLeastOnce(limit: nat, table: set<Row>, start: int, run: seq<Step>)
    requires UniqueKeys(table) && LegalRun(limit, World(table, State(start, {}, [])), run)
    ensures NothingLost(start, Exec(World(table, State(start, {}, [])), run))
  {
    if run != [] {
      AtLeastOnce(limit, table, start, run[..|run| - 1]);
      StepKeeps(start, limit, Exec(World(table, State(start, {}, [])), run[..|run| - 1]), run[|run| - 1]);
    }
  }

  /** Exactly once: if no poll fails, no row is emitted twice either. */
  lemma {:induction false} ExactlyOnce(limit: nat, table: set<Row>, start: int, run: seq<Step>)
    requires UniqueKeys(table) && LegalRun(limit, World(table, State(start, {}, [])), run)
    requires forall i :: 0 <= i < |run| ==> !run[i].Failure?
    ensures var w := Exec(World(table, State(start, {}, [])), run); NothingLost(start, w) && NothingTwice(w)
  {
    if run != [] {
      ExactlyOnce(limit, table, start, run[..|run| - 1]);
      StepKeeps(start, limit, Exec(World(table, State(start, {}, [])), run[..|run| - 1]), run[|run| - 1]);
    }
  }

  // ----- progress -----

  function Undelivered(start: int, w: World): set<Row> {
    set r | r in w.table && r.valid && r.ts >= start && r !in w.st.emitted
  }

  /** Rows the next query may return in front of time `t` without anything being emitted for them. */
  function Blockers(w: World, t: int): set<Row> {
    set r | r in w.table && w.st.cursor <= r.ts <= t && Skipped(w.st, r)
  }

  /** `u` is due and undelivered, and nothing older is. */
  ghost predicate Oldest(start: int, w: World, u: Row) {
    u in Undelivered(start, w) && forall r :: r in Undelivered(start, w) ==> u.ts <= r.ts
  }

  lemma SeqSize(rows: seq<Row>, s: set<Row>)
    requires NoDuplicates(rows) && forall r :: r in rows ==> r in s
    ensures |rows| <= |s|
  {
    if rows != [] {
      var n := |rows| - 1;
      assert rows[n] in s;
      forall r | r in rows[..n]
        ensures r in s - {rows[n]}
      {
      }
      SeqSize(rows[..n], s - {rows[n]});
    }
  }

  /** A poll that emits nothing was handed nothing but blockers, and as many as the limit. */
  lemma EmptyPollIsBlocked(start: int, limit: nat, w: World, answer: seq<Row>, u: Row)
    requires NothingLost(start, w) && NothingTwice(w) && Answer(w.table, w.st.cursor, limit, answer)
    requires Oldest(start, w, u) && Scanned(w.st, answer).out == []
    ensures limit <= |Blockers(w, u.ts)|
  {
    ScanEmits(w.st, answer);
    NotSkipped(start, w, u);
    var p := Scanned(w.st, answer);
    assert u in answer ==> u in p.out;
    forall r | r in answer
      ensures r in Blockers(w, u.ts)
    {
      assert r !in p.out;
    }
    SeqSize(answer, Blockers(w, u.ts));
  }

  /** A poll delivers something whenever fewer rows than the limit stand in front of the oldest undelivered one. */
  lemma PollDelivers(start: int, limit: nat, w: World, answer: seq<Row>, u: Row)
    requires NothingLost(start, w) && NothingTwice(w) && Answer(w.table, w.st.cursor, limit, answer)
    requires Oldest(start, w, u) && |Blockers(w, u.ts)| < limit
    ensures Scanned(w.st, answer).out != []
    ensures Undelivered(start, w.(st := Polled(w.st, answer))) < Undelivered(start, w)
  {
    var p, w' := Scanned(w.st, answer), w.(st := Polled(w.st, answer));
    if p.out == [] {
      EmptyPollIsBlocked(start, limit, w, answer, u);
      assert false;
    }
    ScanEmits(w.st, answer);
    ScanIsDue(start, w, answer, p);
    EmittingShrinks(start, w, answer, p, w');
  }

  /** What a scan emits was undelivered. */
  lemma EmittingShrinks(start: int, w: World, answer: seq<Row>, p: Progress, w': World)
    requires NothingTwice(w) && ScanFacts(w.st, answer, p) && (forall r :: r in answer ==> r.ts >= w.st.cursor)
    requires p.out != [] && w'.table == w.table && w'.st.emitted == w.st.emitted + p.out
    requires forall r :: r in w'.st.emitted ==> Due(w.table, start, r)
    ensures Undelivered(start, w') < Undelivered(start, w)
  {
    var first := p.out[0];
    assert first in p.out && first in w'.st.emitted;
    assert first !in w.st.emitted;
    assert first in Undelivered(start, w) && first !in Undelivered(start, w');
  }

  lemma NotSkipped(start: int, w: World, u: Row)
    requires NothingLost(start, w) && u in Undelivered(start, w)
    ensures !Skipped(w.st, u)
  {
    if Skipped(w.st, u) {
      SkippedIsDelivered(start, w, u);
    }
  }

  lemma InsertRow(rows: seq<Row>, r: Row) returns (out: seq<Row>)
    requires SortedByTime(rows) && NoDuplicates(rows) && r !in rows
    ensures SortedByTime(out) && NoDuplicates(out)
    ensures forall q :: q in out <==> q in rows || q == r
  {
    if rows == [] || r.ts <= rows[0].ts {
      out := [r] + rows;
    } else {
      var rest := InsertRow(rows[1..], r);
      out := [rows[0]] + rest;
      assert rows == [rows[0]] + rows[1..];
      forall i | 0 <= i < |rest|
        ensures rows[0].ts <= rest[i].ts && rows[0] != rest[i]
      {
        assert rest[i] in rest;
      }
    }
  }

  lemma {:induction false} SortRows(s: set<Row>) returns (rows: seq<Row>)
    ensures SortedByTime(rows) && NoDuplicates(rows) && |rows| == |s|
    ensures forall r :: r in rows <==> r in s
  {
    if s == {} {
      rows := [];
    } else {
      var r :| r in s;
      var rest := SortRows(s - {r});
      rows := InsertRow(rest, r);
      SeqSize(rows, s);
      SetSize(rows, s);
    }
  }

  lemma {:induction false} SetSize(rows: seq<Row>, s: set<Row>)
    requires forall r :: r in s ==> r in rows
    ensures |s| <= |rows|
  {
    if rows == [] {
      assert s == {};
    } else {
      var n := |rows| - 1;
      forall r | r in s - {rows[n]}
        ensures r in rows[..n]
      {
      }
      SetSize(rows[..n], s - {rows[n]});
    }
  }

  lemma PrefixIsAnswer(start: int, limit: nat, w: World, u: Row, all: seq<Row>)
    requires NothingLost(start, w) && NothingTwice(w) && Oldest(start, w, u)
    requires SortedByTime(all) && NoDuplicates(all) && limit <= |all|
    requires forall r :: r in all <==> r in Blockers(w, u.ts)
    ensures Answer(w.table, w.st.cursor, limit, all[..limit])
  {
    var answer := all[..limit];
    assert forall r :: r in answer ==> r in all;
    forall r, q | r in w.table && r.ts >= w.st.cursor && r !in answer && q in answer
      ensures q.ts <= r.ts
    {
      if r.ts < u.ts {
        OlderIsBlocker(start, w, u, r);
        var i :| 0 <= i < |all| && all[i] == r;
        var j :| 0 <= j < limit && answer[j] == q;
        assert forall m :: 0 <= m < limit ==> all[m] == answer[m];
        assert all[j] == q;
      } else {
        assert q in Blockers(w, u.ts);
      }
    }
  }

  /** Otherwise the database may answer with rows for which nothing is emitted: the poller is stuck there. */
  lemma PollStalls(start: int, limit: nat, w: World, u: Row) returns (answer: seq<Row>)
    requires NothingLost(start, w) && NothingTwice(w) && Oldest(start, w, u)
    requires |Blockers(w, u.ts)| >= limit
    ensures Answer(w.table, w.st.cursor, limit, answer)
    ensures Polled(w.st, answer) == w.st && Scanned(w.st, answer).out == []
  {
    var all := SortRows(Blockers(w, u.ts));
    PrefixIsAnswer(start, limit, w, u, all);
    answer := all[..limit];
    assert forall r :: r in answer ==> r in all;
    ScanSkips(w.st, answer);
  }

  lemma OlderIsBlocker(start: int, w: World, u: Row, r: Row)
    requires NothingLost(start, w) && NothingTwice(w) && Oldest(start, w, u)
    requires r in w.table && w.st.cursor <= r.ts < u.ts
    ensures r in Blockers(w, u.ts)
  {
    if r.valid {
      assert r !in Undelivered(start, w);
    }
  }

  lemma {:induction false} ScanSkips(st: State, rows: seq<Row>)
    requires forall r :: r in rows ==> Skipped(st, r)
    ensures Scanned(st, rows) == Progress(st.cursor, {}, [])
  {
    if rows != [] {
      assert rows[|rows| - 1] in rows;
      ScanSkips(st, rows[..|rows| - 1]);
    }
  }

  /** The exact condition for progress, for every answer the database may give. */
  lemma ProgressIff(start: int, limit: nat, w: World, u: Row)
    requires NothingLost(start, w) && NothingTwice(w) && Oldest(start, w, u)
    ensures (forall answer :: Answer(w.table, w.st.cursor, limit, answer) ==> Scanned(w.st, answer).out != [])
       <==> |Blockers(w, u.ts)| < limit
  {
    if |Blockers(w, u.ts)| < limit {
      forall answer | Answer(w.table, w.st.cursor, limit, answer)
        ensures Scanned(w.st, answer).out != []
      {
        PollDelivers(start, limit, w, answer, u);
      }
    } else {
      var answer := PollStalls(start, limit, w, u);
    }
  }

  // ----- a run that never delivers -----

  /** As many malformed rows as one query returns, all in the second `ts`. */
  function Malformed(limit: nat, ts: int): seq<Row> {
    seq(limit, i requires 0 <= i < limit => Row(i, ts, "", false))
  }

  function Good(limit: nat, ts: int): Row {
    Row(limit, ts, "k", true)
  }

  function Clogged(limit: nat, start: int): set<Row> {
    (set r | r in Malformed(limit, start)) + {Good(limit, start + 1)}
  }

  /** The rows arrive, and then there are `n` polls. */
  function CloggedRun(limit: nat, start: int, n: nat): seq<Step> {
    if n == 0 then [Append(Clogged(limit, start))]
    else CloggedRun(limit, start, n - 1) + [Success(Malformed(limit, start))]
  }

  lemma MalformedIsAnswer(limit: nat, start: int)
    ensures Answer(Clogged(limit, start), start, limit, Malformed(limit, start))
    ensures Polled(State(start, {}, []), Malformed(limit, start)) == State(start, {}, [])
  {
    var rows := Malformed(limit, start);
    forall i, j | 0 <= i < j < |rows|
      ensures rows[i] != rows[j]
    {
      assert rows[i].id == i && rows[j].id == j;
    }
    ScanSkips(State(start, {}, []), rows);
  }

  lemma RunStep(limit: nat, w: World, run: seq<Step>, s: Step)
    requires LegalRun(limit, w, run) && Legal(limit, Exec(w, run), s)
    ensures LegalRun(limit, w, run + [s]) && Exec(w, run + [s]) == Next(Exec(w, run), s)
  {
    assert (run + [s])[..|run|] == run;
  }

  /** For every limit: however often it polls, a poller may be handed the malformed rows each time. The row
      behind them is due and stays undelivered, and no state changes. */
  lemma {:induction false} NeverDelivered(limit: nat, start: int, n: nat)
    ensures var w, stuck := World({}, State(start, {}, [])), World(Clogged(limit, start), State(start, {}, []));
            && LegalRun(limit, w, CloggedRun(limit, start, n))
            && Exec(w, CloggedRun(limit, start, n)) == stuck
            && Good(limit, start + 1) in Undelivered(start, stuck)
  {
    var w, stuck := World({}, State(start, {}, [])), World(Clogged(limit, start), State(start, {}, []));
    if n == 0 {
      assert Next(w, Append(Clogged(limit, start))) == stuck;
      RunStep(limit, w, [], Append(Clogged(limit, start)));
      assert [] + [Append(Clogged(limit, start))] == CloggedRun(limit, start, 0);
    } else {
      NeverDelivered(limit, start, n - 1);
      MalformedIsAnswer(limit, start);
      RunStep(limit, w, CloggedRun(limit, start, n - 1), Success(Malformed(limit, start)));
    }
  }

  // ----- tables that are delivered -----

  function RowsAt(table: set<Row>, t: int): set<Row> {
    set r | r in table && r.ts == t
  }

  /** Every row parses and no second holds as many rows as one query returns. */
  ghost predicate Manageable(limit: nat, table: set<Row>) {
    && (forall r :: r in table ==> r.valid)
    && (forall t :: |RowsAt(table, t)| < limit)
  }

  lemma ManageableNeverBlocks(start: int, limit: nat, w: World, u: Row)
    requires NothingLost(start, w) && Manageable(limit, w.table) && Oldest(start, w, u)
    ensures |Blockers(w, u.ts)| < limit
  {
    var second := RowsAt(w.table, w.st.cursor);
    assert Blockers(w, u.ts) <= second;
    assert second == Blockers(w, u.ts) + (second - Blockers(w, u.ts));
  }

  lemma {:induction false} OldestExists(start: int, w: World, todo: set<Row>) returns (u: Row)
    requires todo != {}
    ensures u in todo && forall r :: r in todo ==> u.ts <= r.ts
  {
    var x :| x in todo;
    if todo == {x} {
      u := x;
    } else {
      var rest := todo - {x};
      assert todo == rest + {x};
      var y := OldestExists(start, w, rest);
      u := if x.ts <= y.ts then x else y;
    }
  }

  /** Once the table is quiet, each poll delivers at least one row until nothing is left: after as many
      polls as there were undelivered rows, everything due has been emitted, once. */
  lemma {:induction false} EverythingArrives(start: int, limit: nat, w: World, polls: seq<seq<Row>>)
    requires NothingLost(start, w) && NothingTwice(w) && Manageable(limit, w.table)
    requires LegalRun(limit, w, seq(|polls|, i requires 0 <= i < |polls| => Success(polls[i])))
    ensures var w' := Exec(w, seq(|polls|, i requires 0 <= i < |polls| => Success(polls[i])));
            && NothingLost(start, w') && NothingTwice(w') && w'.table == w.table
            && |Undelivered(start, w')| <=
                (if |polls| <= |Undelivered(start, w)| then |Undelivered(start, w)| - |polls| else 0)
  {
    var steps := seq(|polls|, i requires 0 <= i < |polls| => Success(polls[i]));
    if polls != [] {
      var n := |polls| - 1;
      var before := polls[..n];
      assert steps[..n] == seq(|before|, i requires 0 <= i < |before| => Success(before[i]));
      EverythingArrives(start, limit, w, before);
      OnePollMore(start, limit, Exec(w, steps[..n]), polls[n]);
    }
  }

  lemma OnePollMore(start: int, limit: nat, mid: World, answer: seq<Row>)
    requires NothingLost(start, mid) && NothingTwice(mid) && Manageable(limit, mid.table)
    requires Answer(mid.table, mid.st.cursor, limit, answer)
    ensures var w' := Next(mid, Success(answer));
            && NothingLost(start, w') && NothingTwice(w') && w'.table == mid.table
            && (|Undelivered(start, w')| < |Undelivered(start, mid)| || |Undelivered(start, w')| == 0)
  {
    StepKeeps(start, limit, mid, Success(answer));
    OnePollLess(start, limit, mid, answer);
  }

  lemma OnePollLess(start: int, limit: nat, w: World, answer: seq<Row>)
    requires NothingLost(start, w) && NothingTwice(w) && Manageable(limit, w.table)
    requires Answer(w.table, w.st.cursor, limit, answer)
    ensures var left := |Undelivered(start, w.(st := Polled(w.st, answer)))|;
            if Undelivered(start, w) == {} then left == 0 else left < |Undelivered(start, w)|
  {
    var w' := w.(st := Polled(w.st, answer));
    if Undelivered(start, w) == {} {
      assert Undelivered(start, w') <= Undelivered(start, w);
    } else {
      var u := OldestExists(start, w, Undelivered(start, w));
      ManageableNeverBlocks(start, limit, w, u);
      PollDelivers(start, limit, w, answer, u);
      ProperSubsetSize(Undelivered(start, w'), Undelivered(start, w));
    }
  }

  lemma ProperSubsetSize(a: set<Row>, b: set<Row>)
    requires a < b
    ensures |a| < |b|
  {
    assert b == a + (b - a);
  }
}
