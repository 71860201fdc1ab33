// The sensor poller (poller.go): tails a ClickHouse table with a second-granular
// cursor and the set of keys already seen in the cursor's second.
module Poller {
  import opened Basics

  /** A table row. `id` is its identity; a row that does not parse has no usable key. */
  datatype Row = Row(id: nat, ts: int, key: string, valid: bool)

  /** The cursor, the keys seen in its second, and everything emitted so far. */
  datatype State = State(cursor: int, seen: set<string>, emitted: seq<Row>)

  predicate SortedByTime(rows: seq<Row>) {
    forall i, j :: 0 <= i < j < |rows| ==> rows[i].ts <= rows[j].ts
  }

  /** What `WHERE timestamp >= cursor ORDER BY timestamp LIMIT n` may return: ties come in any order. */
  ghost predicate Answer(table: set<Row>, cursor: int, limit: nat, rows: seq<Row>) {
    && NoDuplicates(rows) && SortedByTime(rows) && |rows| <= limit
    && (forall r :: r in rows ==> r in table && r.ts >= cursor)
    && (forall r :: r in table && r.ts >= cursor && r !in rows ==>
          |rows| == limit && forall q :: q in rows ==> q.ts <= r.ts)
  }

  // ----- one poll -----

  datatype Progress = Progress(maxTS: int, latest: set<string>, out: seq<Row>)

  predicate Skipped(st: State, r: Row) {
    !r.valid || (r.ts == st.cursor && r.key in st.seen)
  }

  function Advance(p: Progress, r: Row): Progress {
    var top := if r.ts > p.maxTS then r.ts else p.maxTS;
    var latest := if r.ts > p.maxTS then {} else p.latest;
    Progress(top, if r.ts == top then latest + {r.key} else latest, p.out + [r])
  }

  function Scanned(st: State, rows: seq<Row>): Progress {
    if rows == [] then Progress(st.cursor, {}, [])
    else
      var p, r := Scanned(st, rows[..|rows| - 1]), rows[|rows| - 1];
      if Skipped(st, r) then p else Advance(p, r)
  }

  function Polled(st: State, rows: seq<Row>): State {
    var p := Scanned(st, rows);
    if p.maxTS > st.cursor then State(p.maxTS, p.latest, st.emitted + p.out)
    else State(st.cursor, st.seen + p.latest, st.emitted + p.out)
  }

  /** A poll whose stream breaks after some rows: they were emitted, nothing else changed. */
  function Broken(st: State, part: seq<Row>): State {
    st.(emitted := st.emitted + Scanned(st, part).out)
  }

  class Poller {
    var cursor: int
    var seen: set<string>
    var emitted: seq<Row>

    ghost function Contents(): State
      reads this
    {
      State(cursor, seen, emitted)
    }

    constructor (now: int)
      ensures Contents() == State(now, {}, [])
    {
      cursor, seen, emitted := now, {}, [];
    }

    /** Handles the rows of one query in order; `broken` says whether the stream ended in an error. */
    method Poll(rows: seq<Row>, broken: bool) returns (ok: bool)
      modifies this
      ensures ok == !broken
      ensures Contents() == if broken then Broken(old(Contents()), rows) else Polled(old(Contents()), rows)
    {
      var maxTS := cursor;
      var latest: set<string> := {};
      ghost var st := Contents();
      for i := 0 to |rows|
        invariant cursor == st.cursor && seen == st.seen
        invariant var p := Scanned(st, rows[..i]);
                  maxTS == p.maxTS && latest == p.latest && emitted == st.emitted + p.out
      {
        var r := rows[i];
        assert rows[..i + 1][..i] == rows[..i];
        if !r.valid {
          continue;
        }
        if r.ts == cursor && r.key in seen {
          continue;
        }
        if r.ts > maxTS {
          maxTS := r.ts;
          latest := {};
        }
        if r.ts == maxTS {
          latest := latest + {r.key};
        }
        emitted := emitted + [r];
      }
      assert rows[..|rows|] == rows;
      if broken {
        return false;
      }
      if maxTS > cursor {
        cursor := maxTS;
        seen := latest;
      } else {
        seen := seen + latest;
      }
      return true;
    }
  }

  // ----- what a scan emits -----

  predicate UniqueKeys(table: set<Row>) {
    forall r, q :: r in table && q in table && r.valid && q.valid && r.ts == q.ts && r.key == q.key ==> r == q
  }

  /** Facts about the scan of rows that are all at or after the cursor. */
  ghost predicate ScanFacts(st: State, rows: seq<Row>, p: Progress) {
    && p.maxTS >= st.cursor
    && (forall r :: r in p.out <==> r in rows && !Skipped(st, r))
    && (forall r :: r in p.out ==> r.ts <= p.maxTS)
    && (p.maxTS > st.cursor ==> exists r :: r in p.out && r.ts == p.maxTS)
    && (forall k :: k in p.latest <==> exists r :: r in p.out && r.ts == p.maxTS && r.key == k)
  }

  lemma AdvanceFacts(st: State, rows: seq<Row>, p: Progress, r: Row)
    requires ScanFacts(st, rows, p) && !Skipped(st, r) && r.ts >= st.cursor
    ensures ScanFacts(st, rows + [r], Advance(p, r))
  {
    var p' := Advance(p, r);
    assert r in p'.out;
    assert forall q :: q in p'.out <==> q in p.out || q == r;
    assert forall q :: q in rows + [r] <==> q in rows || q == r;
    forall k
      ensures k in p'.latest <==> exists q :: q in p'.out && q.ts == p'.maxTS && q.key == k
    {
      if k in p'.latest && k != r.key {
        var q :| q in p.out && q.ts == p.maxTS && q.key == k;
        assert q in p'.out;
      }
    }
    if p'.maxTS > st.cursor && r.ts <= p.maxTS {
      var q :| q in p.out && q.ts == p.maxTS;
      assert q in p'.out;
    }
  }

  lemma SkipFacts(st: State, rows: seq<Row>, p: Progress, r: Row)
    requires ScanFacts(st, rows, p) && Skipped(st, r)
    ensures ScanFacts(st, rows + [r], p)
  {
    assert forall q :: q in rows + [r] <==> q in rows || q == r;
  }

  lemma {:induction false} ScanEmits(st: State, rows: seq<Row>)
    requires forall r :: r in rows ==> r.ts >= st.cursor
    ensures ScanFacts(st, rows, Scanned(st, rows))
  {
    if rows != [] {
      var before, r := rows[..|rows| - 1], rows[|rows| - 1];
      assert rows == before + [r];
      ScanEmits(st, before);
      assert r in rows;
      if Skipped(st, r) {
        SkipFacts(st, before, Scanned(st, before), r);
      } else {
        AdvanceFacts(st, before, Scanned(st, before), r);
      }
    }
  }

  lemma {:induction false} ScanDistinct(st: State, rows: seq<Row>)
    requires NoDuplicates(rows)
    ensures NoDuplicates(Scanned(st, rows).out)
    ensures forall r :: r in Scanned(st, rows).out ==> r in rows
  {
    if rows != [] {
      var before, r := rows[..|rows| - 1], rows[|rows| - 1];
      assert rows == before + [r];
      ScanDistinct(st, before);
      assert r !in before;
    }
  }
}
