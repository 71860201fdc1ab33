// A suppression store rebuilt from ClickHouse after a restart answers as the
// one that was lost (feedback.go, clickhouse.go).
module FeedbackRestart {
  import opened Basics
  import opened Events
  import opened Feedback

  /** The row ClickHouse returns for a persisted verdict: no alert id, whole seconds. */
  function RowOf(v: Verdict): Verdict {
    Verdict("", v.matchedIoC, v.clientIP, v.verdict, v.reason, v.analyst, v.timestamp / SECOND * SECOND)
  }

  predicate SamePair(v: Verdict, w: Verdict) {
    v.matchedIoC == w.matchedIoC && v.clientIP == w.clientIP
  }

  /** argMax: row i of the log carries the greatest timestamp of its indicator and client. */
  ghost predicate LatestOfPair(log: seq<Verdict>, i: int) {
    0 <= i < |log| && forall j :: 0 <= j < |log| && SamePair(log[i], log[j]) ==> log[j].timestamp <= log[i].timestamp
  }

  ghost predicate RowFrom(log: seq<Verdict>, row: Verdict, i: int) {
    LatestOfPair(log, i) && row == RowOf(log[i])
  }

  ghost predicate RowFor(rows: seq<Verdict>, v: Verdict, a: int) {
    0 <= a < |rows| && SamePair(rows[a], v)
  }

  /** The query's answer, in any order: one row per pair, taken from a latest verdict of the pair. */
  ghost predicate QueryAnswer(log: seq<Verdict>, rows: seq<Verdict>) {
    && (forall a, b :: 0 <= a < b < |rows| ==> !SamePair(rows[a], rows[b]))
    && (forall a :: 0 <= a < |rows| ==> exists i :: RowFrom(log, rows[a], i))
    && (forall i :: 0 <= i < |log| ==> exists a :: RowFor(rows, log[i], a))
  }

  /** Values stored as keys see them; a client address has no separator in it. */
  predicate KeyNormal(v: Verdict) {
    Normal(v.matchedIoC) == v.matchedIoC && Normal(v.clientIP) == v.clientIP && '|' !in v.clientIP
  }

  predicate NormalLog(log: seq<Verdict>) {
    forall i :: 0 <= i < |log| ==> KeyNormal(log[i])
  }

  predicate WholeSeconds(log: seq<Verdict>) {
    forall i :: 0 <= i < |log| ==> log[i].timestamp % SECOND == 0
  }

  predicate Increasing(log: seq<Verdict>) {
    forall i, j :: 0 <= i < j < |log| && KeyOf(log[i]) == KeyOf(log[j]) ==> log[i].timestamp < log[j].timestamp
  }

  function LogKeys(log: seq<Verdict>): set<string> {
    set i | 0 <= i < |log| :: KeyOf(log[i])
  }

  function LiveKeys(o: Options, log: seq<Verdict>, now: int): set<string> {
    set k | k in LogKeys(log) && LogSilences(o.ttl, log, k, now)
  }

  // ----- keys -----

  lemma NormalKeysInjective(v: Verdict, w: Verdict)
    requires KeyNormal(v) && KeyNormal(w)
    ensures KeyOf(v) == KeyOf(w) <==> SamePair(v, w)
  {
    if KeyOf(v) == KeyOf(w) {
      LastSeparator(v.matchedIoC, v.clientIP, w.matchedIoC, w.clientIP, '|');
    }
  }

  // ----- the last verdict of a key is the latest row of its pair -----

  lemma {:induction false} LastForIsLast(log: seq<Verdict>, i: nat, k: string)
    requires i < |log| && KeyOf(log[i]) == k && forall j :: i < j < |log| ==> KeyOf(log[j]) != k
    ensures LastFor(log, k) == Some(log[i])
  {
    var n := |log| - 1;
    if i < n {
      var before := log[..n];
      assert before[i] == log[i];
      forall j | i < j < |before|
        ensures KeyOf(before[j]) != k
      {
        assert before[j] == log[j];
      }
      LastForIsLast(before, i, k);
      assert KeyOf(log[n]) != k;
    }
  }

  lemma LatestIsLast(log: seq<Verdict>, i: int)
    requires NormalLog(log) && Increasing(log) && LatestOfPair(log, i)
    ensures LastFor(log, KeyOf(log[i])) == Some(log[i])
  {
    forall j | i < j < |log|
      ensures KeyOf(log[j]) != KeyOf(log[i])
    {
      NormalKeysInjective(log[i], log[j]);
    }
    LastForIsLast(log, i, KeyOf(log[i]));
  }

  lemma {:induction false} LastForSome(log: seq<Verdict>, k: string)
    requires LastFor(log, k).Some?
    ensures exists i :: 0 <= i < |log| && KeyOf(log[i]) == k
  {
    var n := |log| - 1;
    if KeyOf(log[n]) != k {
      LastForSome(log[..n], k);
      var i :| 0 <= i < n && KeyOf(log[..n][i]) == k;
      assert log[i] == log[..n][i];
    }
  }

  /** Each row carries the verdict the log ends with for its key, at the same time. */
  lemma RowFacts(log: seq<Verdict>, rows: seq<Verdict>, a: nat)
    requires NormalLog(log) && Increasing(log) && WholeSeconds(log) && QueryAnswer(log, rows)
    requires a < |rows|
    ensures KeyOf(rows[a]) in LogKeys(log) && KeyNormal(rows[a])
    ensures var last := LastFor(log, KeyOf(rows[a]));
            last.Some? && rows[a].verdict == last.value.verdict && rows[a].timestamp == last.value.timestamp
  {
    var i :| RowFrom(log, rows[a], i);
    LatestIsLast(log, i);
  }

  lemma RowIndex(rows: seq<Verdict>, v: Verdict) returns (a: nat)
    requires exists b :: RowFor(rows, v, b)
    ensures a < |rows| && SamePair(rows[a], v)
  {
    a :| RowFor(rows, v, a);
  }

  /** Conversely every key of the log has a row. */
  lemma RowExists(log: seq<Verdict>, rows: seq<Verdict>, k: string) returns (a: nat)
    requires NormalLog(log) && Increasing(log) && WholeSeconds(log) && QueryAnswer(log, rows)
    requires LastFor(log, k).Some?
    ensures a < |rows| && KeyOf(rows[a]) == k
  {
    LastForSome(log, k);
    var i :| 0 <= i < |log| && KeyOf(log[i]) == k;
    a := RowIndex(rows, log[i]);
  }

  // ----- the replay -----

  predicate LiveRow(o: Options, r: Verdict, now: int) {
    r.verdict == FALSE_POSITIVE && !Expired(o.ttl, r, now)
  }

  /** Exactly the live rows have been installed, each under its key. */
  ghost predicate Installed(o: Options, rows: seq<Verdict>, m: Suppressions, now: int) {
    && (forall k :: k in m ==> m[k] in rows && KeyOf(m[k]) == k && LiveRow(o, m[k], now))
    && (forall r :: r in rows && LiveRow(o, r, now) ==> KeyOf(r) in m && m[KeyOf(r)] == r)
  }

  /** A row is skipped when its verdict is out of date, and nothing was installed for its key. */
  lemma LoadedWhat(o: Options, m: Suppressions, r: Verdict, k: string, now: int)
    requires KeyOf(r) == k && k !in m
    ensures Loaded(o, m, r, now) == if LiveRow(o, r, now) && |m| < o.cap then m[k := r] else m
  {
    RemovingNothing(m, k);
  }

  lemma RemovingNothing(m: Suppressions, k: string)
    requires k !in m
    ensures m - {k} == m
  {
  }

  lemma RoomForOneMore(m: Suppressions, k: string, live: set<string>)
    requires m.Keys <= live && k in live && k !in m
    ensures |m| < |live|
  {
    assert m.Keys + {k} <= live;
    SubsetSize(m.Keys + {k}, live);
  }

  lemma InstallOne(o: Options, before: seq<Verdict>, rows: seq<Verdict>, m: Suppressions, r: Verdict, k: string,
                   live: set<string>, now: int, m': Suppressions)
    requires rows == before + [r] && KeyOf(r) == k && (forall x :: x in before ==> KeyOf(x) != k)
    requires Installed(o, before, m, now) && m.Keys <= live && |live| <= o.cap && (LiveRow(o, r, now) ==> k in live)
    requires m' == Loaded(o, m, r, now)
    ensures Installed(o, rows, m', now) && m'.Keys <= live
  {
    assert k !in m;
    if LiveRow(o, r, now) {
      RoomForOneMore(m, k, live);
    }
    LoadedWhat(o, m, r, k, now);
    assert forall x :: x in rows <==> x in before || x == r;
  }

  predicate DistinctKeys(rows: seq<Verdict>) {
    forall a, b :: 0 <= a < b < |rows| ==> KeyOf(rows[a]) != KeyOf(rows[b])
  }

  lemma NewKey(rows: seq<Verdict>, n: nat)
    requires n < |rows| && DistinctKeys(rows)
    ensures DistinctKeys(rows[..n]) && forall x :: x in rows[..n] ==> KeyOf(x) != KeyOf(rows[n])
  {
  }

  lemma {:induction false} ReplayInstalls(o: Options, rows: seq<Verdict>, live: set<string>, now: int)
    requires |live| <= o.cap && DistinctKeys(rows)
    requires forall r :: r in rows && LiveRow(o, r, now) ==> KeyOf(r) in live
    ensures Installed(o, rows, Replayed(o, map[], rows, now), now) && Replayed(o, map[], rows, now).Keys <= live
  {
    if rows != [] {
      var n := |rows| - 1;
      var before, r := rows[..n], rows[n];
      assert r in rows && rows == before + [r];
      NewKey(rows, n);
      ReplayInstalls(o, before, live, now);
      InstallOne(o, before, rows, Replayed(o, map[], before, now), r, KeyOf(r), live, now,
          Replayed(o, map[], rows, now));
    }
  }

  lemma AnswerKeysDiffer(log: seq<Verdict>, rows: seq<Verdict>, a: nat, b: nat)
    requires NormalLog(log) && Increasing(log) && WholeSeconds(log) && QueryAnswer(log, rows)
    requires a < b < |rows|
    ensures KeyOf(rows[a]) != KeyOf(rows[b])
  {
    RowFacts(log, rows, a);
    RowFacts(log, rows, b);
    NormalKeysInjective(rows[a], rows[b]);
  }

  lemma LiveRowIsLiveKey(o: Options, log: seq<Verdict>, rows: seq<Verdict>, a: nat, now: int)
    requires NormalLog(log) && Increasing(log) && WholeSeconds(log) && QueryAnswer(log, rows)
    requires a < |rows|
    ensures LiveRow(o, rows[a], now) <==> KeyOf(rows[a]) in LiveKeys(o, log, now)
  {
    RowFacts(log, rows, a);
  }

  lemma InstalledAgrees(o: Options, log: seq<Verdict>, rows: seq<Verdict>, m: Suppressions, k: string, now: int)
    requires NormalLog(log) && Increasing(log) && WholeSeconds(log) && QueryAnswer(log, rows)
    requires Installed(o, rows, m, now)
    ensures Agrees(o.ttl, m, LastFor(log, k), k, now)
  {
    if k in m {
      var a :| 0 <= a < |rows| && rows[a] == m[k];
      RowFacts(log, rows, a);
    } else if LastFor(log, k).Some? {
      var a := RowExists(log, rows, k);
      RowFacts(log, rows, a);
      assert rows[a] in rows;
    }
  }

  /** The rebuilt map refines the same log as the lost one did. */
  lemma RestartRefines(o: Options, log: seq<Verdict>, rows: seq<Verdict>, now: int)
    requires NormalLog(log) && Increasing(log) && WholeSeconds(log) && QueryAnswer(log, rows)
    requires |LiveKeys(o, log, now)| <= o.cap
    ensures Refines(o.ttl, Replayed(o, map[], rows, now), log, now)
  {
    forall a, b | 0 <= a < b < |rows|
      ensures KeyOf(rows[a]) != KeyOf(rows[b])
    {
      AnswerKeysDiffer(log, rows, a, b);
    }
    forall r | r in rows && LiveRow(o, r, now)
      ensures KeyOf(r) in LiveKeys(o, log, now)
    {
      var a :| 0 <= a < |rows| && rows[a] == r;
      LiveRowIsLiveKey(o, log, rows, a, now);
    }
    ReplayInstalls(o, rows, LiveKeys(o, log, now), now);
    var m := Replayed(o, map[], rows, now);
    forall k
      ensures Agrees(o.ttl, m, LastFor(log, k), k, now)
    {
      InstalledAgrees(o, log, rows, m, k, now);
    }
  }

  /** Sweeps, of whatever keys, at whatever moments. */
  function SweptBy(o: Options, m: Suppressions, sweeps: seq<(seq<string>, int)>): Suppressions {
    if sweeps == [] then m
    else Swept(o, SweptBy(o, m, sweeps[..|sweeps| - 1]), sweeps[|sweeps| - 1].0, sweeps[|sweeps| - 1].1)
  }

  predicate UpTo(sweeps: seq<(seq<string>, int)>, now: int) {
    forall i :: 0 <= i < |sweeps| ==> sweeps[i].1 <= now
  }

  /** Sweeping changes no answer. */
  lemma {:induction false} SweepsChangeNoAnswer(o: Options, m: Suppressions, sweeps: seq<(seq<string>, int)>,
                                                k: string, now: int)
    requires UpTo(sweeps, now)
    ensures Silences(o.ttl, SweptBy(o, m, sweeps), k, now) <==> Silences(o.ttl, m, k, now)
  {
    if sweeps != [] {
      SweepsChangeNoAnswer(o, m, sweeps[..|sweeps| - 1], k, now);
    }
  }

  /** Restart transparency: at any time after the reload, the old store and the rebuilt one, whatever each has
      swept since, hold the same live suppressions and so give every alert the same answer. */
  lemma RestartTransparent(o: Options, run: seq<Timed>, rows: seq<Verdict>, reload: int,
                           oldSweeps: seq<(seq<string>, int)>, newSweeps: seq<(seq<string>, int)>, now: int)
    requires ClockMonotone(run) && (forall i :: 0 <= i < |run| ==> run[i].at <= reload) && reload <= now
    requires var log := Run(o, run).log;
             NormalLog(log) && Increasing(log) && WholeSeconds(log) && QueryAnswer(log, rows)
             && |LiveKeys(o, log, reload)| <= o.cap
    requires UpTo(oldSweeps, now) && UpTo(newSweeps, now)
    ensures var old_ := SweptBy(o, Run(o, run).suppressions, oldSweeps);
            var new_ := SweptBy(o, Replayed(o, map[], rows, reload), newSweeps);
            && (forall k :: Silences(o.ttl, old_, k, now) <==> Silences(o.ttl, new_, k, now))
            && (forall a :: SilencesAlert(o.ttl, old_, a, now) <==> SilencesAlert(o.ttl, new_, a, now))
  {
    var st, rebuilt := Run(o, run), Replayed(o, map[], rows, reload);
    RunRefines(o, run, now);
    RestartRefines(o, st.log, rows, reload);
    forall k
      ensures Silences(o.ttl, SweptBy(o, st.suppressions, oldSweeps), k, now)
         <==> Silences(o.ttl, SweptBy(o, rebuilt, newSweeps), k, now)
    {
      SweepsChangeNoAnswer(o, st.suppressions, oldSweeps, k, now);
      SweepsChangeNoAnswer(o, rebuilt, newSweeps, k, now);
      RefinementAnswers(o.ttl, st.suppressions, st.log, now, now, k);
      RefinementAnswers(o.ttl, rebuilt, st.log, reload, now, k);
    }
  }
}
