// False-positive suppressions (feedback.go): a capped map of verdicts that
// expire lazily, and its reconstruction from ClickHouse (clickhouse.go).
// Times are nanoseconds since the zero time, so 0 is the "unset" timestamp.
module Feedback {
  import opened Basics
  import opened Events

  const FALSE_POSITIVE := "false_positive"
  const CONFIRMED := "confirmed"
  const DEFAULT_TTL := 30 * 24 * 3600 * 1_000_000_000
  const DEFAULT_CAP: nat := 10000
  const SECOND := 1_000_000_000

  datatype Verdict = Verdict(
    alertID: string, matchedIoC: string, clientIP: string,
    verdict: string, reason: string, analyst: string, timestamp: int)

  datatype Options = Options(ttl: int, cap: nat)

  type Suppressions = map<string, Verdict>

  /** The in-memory map, and the verdicts accepted so far in order (what the sink is handed). */
  datatype State = State(suppressions: Suppressions, log: seq<Verdict>)

  function Normal(s: string): string {
    ToLower(TrimSpace(s))
  }

  function Key(matchedIoC: string, clientIP: string): string {
    Normal(matchedIoC) + "|" + Normal(clientIP)
  }

  function KeyOf(v: Verdict): string {
    Key(v.matchedIoC, v.clientIP)
  }

  predicate Expired(ttl: int, v: Verdict, now: int) {
    now - v.timestamp > ttl
  }

  predicate Silences(ttl: int, m: Suppressions, k: string, now: int) {
    k in m && !Expired(ttl, m[k], now)
  }

  /** The client-scoped or the indicator-wide key silences the alert. */
  predicate SilencesAlert(ttl: int, m: Suppressions, a: Alert, now: int) {
    Silences(ttl, m, Key(a.matchedIoC, a.clientIP), now) || Silences(ttl, m, Key(a.matchedIoC, ""), now)
  }

  function Stamped(v: Verdict, now: int): Verdict {
    if v.timestamp == 0 then v.(timestamp := now) else v
  }

  predicate WellFormed(v: Verdict) {
    v.matchedIoC != "" && (v.verdict == FALSE_POSITIVE || v.verdict == CONFIRMED) && v.analyst != ""
  }

  predicate Accepted(o: Options, m: Suppressions, v: Verdict) {
    WellFormed(v) && (v.verdict == FALSE_POSITIVE ==> KeyOf(v) in m || |m| < o.cap)
  }

  function Recorded(o: Options, st: State, v: Verdict, now: int): State {
    if !Accepted(o, st.suppressions, v) then st
    else
      var w := Stamped(v, now);
      State(if w.verdict == FALSE_POSITIVE then st.suppressions[KeyOf(w) := w] else st.suppressions - {KeyOf(w)},
            st.log + [w])
  }

  /** The sweep re-checks every candidate: only what is expired by now goes. */
  function Swept(o: Options, m: Suppressions, stale: seq<string>, now: int): Suppressions {
    map k | k in m && !(k in stale && Expired(o.ttl, m[k], now)) :: m[k]
  }

  function Loaded(o: Options, m: Suppressions, v: Verdict, now: int): Suppressions {
    if v.verdict == FALSE_POSITIVE then
      if Expired(o.ttl, v, now) || |m| >= o.cap then m else m[KeyOf(v) := v]
    else m - {KeyOf(v)}
  }

  // ----- the store -----

  class Store {
    const options: Options
    var suppressions: Suppressions
    var persisted: seq<Verdict>

    ghost function Contents(): State
      reads this
    {
      State(suppressions, persisted)
    }

    constructor (ttl: int, cap: int)
      ensures options.ttl == if ttl <= 0 then 30 * 24 * 3600 * 1_000_000_000 else ttl
      ensures options.cap == if cap <= 0 then 10000 else cap
      ensures Contents() == State(map[], [])
    {
      options := Options(if ttl <= 0 then DEFAULT_TTL else ttl, if cap <= 0 then DEFAULT_CAP else cap);
      suppressions := map[];
      persisted := [];
    }

    method Record(v: Verdict, now: int) returns (ok: bool)
      modifies this
      ensures Contents() == Recorded(options, old(Contents()), v, now)
      ensures ok <==> Accepted(options, old(suppressions), v)
    {
      if v.matchedIoC == "" {
        return false;
      }
      if v.verdict != FALSE_POSITIVE && v.verdict != CONFIRMED {
        return false;
      }
      var w := v;
      if w.timestamp == 0 {
        w := w.(timestamp := now);
      }
      if w.analyst == "" {
        return false;
      }
      var k := Key(w.matchedIoC, w.clientIP);
      if w.verdict == FALSE_POSITIVE {
        if k !in suppressions && |suppressions| >= options.cap {
          return false;
        }
        suppressions := suppressions[k := w];
      } else {
        suppressions := suppressions - {k};
      }
      persisted := persisted + [w];
      return true;
    }

    /** Read phase of Suppressed: the answer, and the expired keys met on the way. */
    method Probe(a: Alert, now: int) returns (suppressed: bool, stale: seq<string>)
      ensures suppressed <==> SilencesAlert(options.ttl, suppressions, a, now)
      ensures forall k :: k in stale ==> k in suppressions && Expired(options.ttl, suppressions[k], now)
    {
      var candidates := [Key(a.matchedIoC, a.clientIP), Key(a.matchedIoC, "")];
      suppressed, stale := false, [];
      for i := 0 to |candidates|
        invariant !suppressed
        invariant forall j :: 0 <= j < i ==> !Silences(options.ttl, suppressions, candidates[j], now)
        invariant forall k :: k in stale ==> k in suppressions && Expired(options.ttl, suppressions[k], now)
      {
        var k := candidates[i];
        if k in suppressions {
          if Expired(options.ttl, suppressions[k], now) {
            stale := stale + [k];
          } else {
            suppressed := true;
            break;
          }
        }
      }
      assert candidates[0] == Key(a.matchedIoC, a.clientIP) && candidates[1] == Key(a.matchedIoC, "");
    }

    /** Sweep phase of Suppressed, possibly after other calls have changed the map. */
    method Sweep(stale: seq<string>, now: int)
      modifies this`suppressions
      ensures suppressions == Swept(options, old(suppressions), stale, now)
    {
      for i := 0 to |stale|
        invariant suppressions == Swept(options, old(suppressions), stale[..i], now)
      {
        var k := stale[i];
        assert stale[..i + 1] == stale[..i] + [k];
        if k in suppressions && Expired(options.ttl, suppressions[k], now) {
          suppressions := suppressions - {k};
        }
      }
      assert stale[..|stale|] == stale;
    }

    method Suppressed(a: Alert, now: int) returns (suppressed: bool)
      modifies this`suppressions
      ensures suppressed <==> SilencesAlert(options.ttl, old(suppressions), a, now)
      ensures exists stale :: suppressions == Swept(options, old(suppressions), stale, now)
      ensures forall k ::
                Silences(options.ttl, suppressions, k, now) <==> Silences(options.ttl, old(suppressions), k, now)
    {
      var stale: seq<string>;
      suppressed, stale := Probe(a, now);
      if |stale| > 0 {
        Sweep(stale, now);
      } else {
        assert suppressions == Swept(options, old(suppressions), stale, now);
      }
    }

    method ApplyLoaded(v: Verdict, now: int)
      modifies this`suppressions
      ensures suppressions == Loaded(options, old(suppressions), v, now)
    {
      if v.verdict == FALSE_POSITIVE {
        if Expired(options.ttl, v, now) || |suppressions| >= options.cap {
          return;
        }
        suppressions := suppressions[Key(v.matchedIoC, v.clientIP) := v];
      } else {
        suppressions := suppressions - {Key(v.matchedIoC, v.clientIP)};
      }
    }

    /** Replays the query's rows, one per indicator and client, in whatever order they arrive. */
    method LoadInto(rows: seq<Verdict>, now: int) returns (loaded: nat)
      modifies this`suppressions
      ensures suppressions == Replayed(options, old(suppressions), rows, now)
      ensures loaded == |rows|
    {
      loaded := 0;
      for i := 0 to |rows|
        invariant suppressions == Replayed(options, old(suppressions), rows[..i], now)
        invariant loaded == i
      {
        assert rows[..i + 1][..i] == rows[..i];
        ApplyLoaded(rows[i], now);
        loaded := loaded + 1;
      }
      assert rows[..|rows|] == rows;
    }
  }

  function Replayed(o: Options, m: Suppressions, rows: seq<Verdict>, now: int): Suppressions {
    if rows == [] then m
    else Loaded(o, Replayed(o, m, rows[..|rows| - 1], now), rows[|rows| - 1], now)
  }

  // ----- the log it refines -----

  /** The last accepted verdict for a key. */
  function LastFor(log: seq<Verdict>, k: string): Option<Verdict> {
    if log == [] then None
    else if KeyOf(log[|log| - 1]) == k then Some(log[|log| - 1])
    else LastFor(log[..|log| - 1], k)
  }

  /** The simple form: the last verdict says false positive and is no older than the TTL. */
  predicate LogSilences(ttl: int, log: seq<Verdict>, k: string, now: int) {
    var last := LastFor(log, k);
    last.Some? && last.value.verdict == FALSE_POSITIVE && !Expired(ttl, last.value, now)
  }

  predicate LogSuppresses(ttl: int, log: seq<Verdict>, a: Alert, now: int) {
    LogSilences(ttl, log, Key(a.matchedIoC, a.clientIP), now) || LogSilences(ttl, log, Key(a.matchedIoC, ""), now)
  }

  /** What the map holds for a key agrees with the log, except for entries already out of date. */
  ghost predicate Agrees(ttl: int, m: Suppressions, last: Option<Verdict>, k: string, now: int) {
    if last.None? || last.value.verdict != FALSE_POSITIVE then k !in m
    else if k in m then m[k].timestamp == last.value.timestamp
    else Expired(ttl, last.value, now)
  }

  ghost predicate Refines(ttl: int, m: Suppressions, log: seq<Verdict>, now: int) {
    forall k :: Agrees(ttl, m, LastFor(log, k), k, now)
  }

  lemma RefinementAnswers(ttl: int, m: Suppressions, log: seq<Verdict>, then_: int, now: int, k: string)
    requires Refines(ttl, m, log, then_) && then_ <= now
    ensures Silences(ttl, m, k, now) <==> LogSilences(ttl, log, k, now)
  {
    assert Agrees(ttl, m, LastFor(log, k), k, then_);
  }

  // ----- every interleaving of calls -----

  /** Atomic steps of any number of concurrent callers. A sweep may carry any keys,
      collected by a probe at any earlier moment. */
  datatype Step = Record(verdict: Verdict) | Sweep(stale: seq<string>)

  datatype Timed = Timed(step: Step, at: int)

  function Next(o: Options, st: State, t: Timed): State {
    match t.step
    case Record(v) => Recorded(o, st, v, t.at)
    case Sweep(stale) => st.(suppressions := Swept(o, st.suppressions, stale, t.at))
  }

  function Run(o: Options, run: seq<Timed>): State {
    if run == [] then State(map[], []) else Next(o, Run(o, run[..|run| - 1]), run[|run| - 1])
  }

  predicate ClockMonotone(run: seq<Timed>) {
    forall i, j :: 0 <= i < j < |run| ==> run[i].at <= run[j].at
  }

  lemma RecordAgrees(o: Options, st: State, v: Verdict, at: int, then_: int, k: string, st': State)
    requires Agrees(o.ttl, st.suppressions, LastFor(st.log, k), k, then_) && then_ <= at
    requires st' == Recorded(o, st, v, at)
    ensures Agrees(o.ttl, st'.suppressions, LastFor(st'.log, k), k, at)
  {
    if st'.log != st.log {
      assert st'.log[..|st.log|] == st.log;
    }
  }

  lemma SweepAgrees(o: Options, m: Suppressions, last: Option<Verdict>, stale: seq<string>,
                    at: int, then_: int, k: string)
    requires Agrees(o.ttl, m, last, k, then_) && then_ <= at
    ensures Agrees(o.ttl, Swept(o, m, stale, at), last, k, at)
  {
  }

  lemma NextWithinCap(o: Options, st: State, t: Timed)
    requires |st.suppressions| <= o.cap
    ensures |Next(o, st, t).suppressions| <= o.cap
  {
    if t.step.Sweep? {
      SubsetSize(Next(o, st, t).suppressions.Keys, st.suppressions.Keys);
    }
  }

  lemma NextRefines(o: Options, st: State, t: Timed, then_: int)
    requires Refines(o.ttl, st.suppressions, st.log, then_) && then_ <= t.at
    requires |st.suppressions| <= o.cap
    ensures Refines(o.ttl, Next(o, st, t).suppressions, Next(o, st, t).log, t.at)
    ensures |Next(o, st, t).suppressions| <= o.cap
  {
    var st' := Next(o, st, t);
    forall k
      ensures Agrees(o.ttl, st'.suppressions, LastFor(st'.log, k), k, t.at)
    {
      match t.step
      case Record(v) => RecordAgrees(o, st, v, t.at, then_, k, st');
      case Sweep(stale) => SweepAgrees(o, st.suppressions, LastFor(st.log, k), stale, t.at, then_, k);
    }
    NextWithinCap(o, st, t);
  }

  lemma SubsetSize<T>(a: set<T>, b: set<T>)
    requires a <= b
    ensures |a| <= |b|
  {
    assert b == a + (b - a);
  }

  /** The cap holds and the map refines the log after every interleaving of records and sweeps. */
  lemma {:induction false} RunRefines(o: Options, run: seq<Timed>, now: int)
    requires ClockMonotone(run) && forall i :: 0 <= i < |run| ==> run[i].at <= now
    ensures Refines(o.ttl, Run(o, run).suppressions, Run(o, run).log, now)
    ensures |Run(o, run).suppressions| <= o.cap
  {
    if run != [] {
      var n := |run| - 1;
      RunRefines(o, run[..n], run[n].at);
      NextRefines(o, Run(o, run[..n]), run[n], run[n].at);
      var st := Run(o, run);
      forall k
        ensures Agrees(o.ttl, st.suppressions, LastFor(st.log, k), k, now)
      {
        assert Agrees(o.ttl, st.suppressions, LastFor(st.log, k), k, run[n].at);
      }
    }
  }

  /** The map answers exactly as the log does. */
  lemma SuppressedRefinesLog(o: Options, run: seq<Timed>, a: Alert, now: int)
    requires ClockMonotone(run) && forall i :: 0 <= i < |run| ==> run[i].at <= now
    ensures var st := Run(o, run);
            SilencesAlert(o.ttl, st.suppressions, a, now) <==> LogSuppresses(o.ttl, st.log, a, now)
  {
    RunRefines(o, run, now);
    var st := Run(o, run);
    RefinementAnswers(o.ttl, st.suppressions, st.log, now, now, Key(a.matchedIoC, a.clientIP));
    RefinementAnswers(o.ttl, st.suppressions, st.log, now, now, Key(a.matchedIoC, ""));
  }

  /** A verdict accepted between a probe and its sweep survives the sweep. */
  lemma RecordSurvivesSweep(o: Options, st: State, v: Verdict, at: int, stale: seq<string>, later: int)
    requires Accepted(o, st.suppressions, v) && v.verdict == FALSE_POSITIVE
    requires !Expired(o.ttl, Stamped(v, at), later)
    ensures var st' := Next(o, Next(o, st, Timed(Record(v), at)), Timed(Sweep(stale), later));
            KeyOf(v) in st'.suppressions && st'.suppressions[KeyOf(v)] == Stamped(v, at)
  {
  }
}
