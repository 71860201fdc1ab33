// Which rows of a feed end up in one item of the indicator store, and what becomes of them.
module IocIdentity {
  import opened Basics
  import opened Text
  import opened Folds
  import opened IocStore

  /** The same kind, and the same value up to case. */
  predicate SameIndicator(i: Indicator, j: Indicator) {
    i.kind == j.kind && SameText(i.value, j.value)
  }

  /** The first separator tells where a joined pair was joined. */
  lemma FirstSeparator(a: string, b: string, c: string, d: string, sep: char)
    requires a + [sep] + b == c + [sep] + d && sep !in a && sep !in c
    ensures a == c && b == d
  {
    var s := a + [sep] + b;
    assert s[|a|] == sep && s[|c|] == sep;
    assert forall i :: 0 <= i < |a| ==> s[i] == a[i];
    assert forall i :: 0 <= i < |c| ==> s[i] == c[i];
    assert |a| == |c|;
    assert a == s[..|a|] && c == s[..|c|];
    assert b == s[|a| + 1..] && d == s[|c| + 1..];
  }

  /** Two indicators share a key exactly when they are the same; kinds have no colon in them. */
  lemma KeyIff(i: Indicator, j: Indicator)
    requires ':' !in i.kind && ':' !in j.kind
    ensures Key(i) == Key(j) <==> SameIndicator(i, j)
  {
    ToLowerIff(i.value, j.value);
    if Key(i) == Key(j) {
      assert Key(i) == i.kind + [':'] + ToLower(i.value);
      assert Key(j) == j.kind + [':'] + ToLower(j.value);
      FirstSeparator(i.kind, ToLower(i.value), j.kind, ToLower(j.value), ':');
    }
  }

  // ----- what an item is made of -----

  /** The accepted rows of a feed, in their validated form. */
  function AcceptedRows(validate: Validator, feed: seq<Indicator>): seq<Indicator> {
    if feed == [] then []
    else
      var rest, valid := AcceptedRows(validate, feed[..|feed| - 1]), validate(feed[|feed| - 1]);
      if valid.None? then rest else rest + [valid.value]
  }

  /** Those of the rows that are the same indicator as `v`. */
  function RowsLike(rows: seq<Indicator>, v: Indicator): seq<Indicator> {
    if rows == [] then []
    else RowsLike(rows[..|rows| - 1], v) + (if SameIndicator(rows[|rows| - 1], v) then [rows[|rows| - 1]] else [])
  }

  function RowsWithKey(rows: seq<Indicator>, k: string): seq<Indicator> {
    if rows == [] then []
    else RowsWithKey(rows[..|rows| - 1], k) + (if Key(rows[|rows| - 1]) == k then [rows[|rows| - 1]] else [])
  }

  /** The first row with the others merged into it, one after another. */
  function MergedAll(rows: seq<Indicator>): Indicator
    requires rows != []
  {
    if |rows| == 1 then rows[0] else Merged(MergedAll(rows[..|rows| - 1]), rows[|rows| - 1])
  }

  lemma MergedSnoc(rows: seq<Indicator>, v: Indicator)
    ensures MergedAll(rows + [v]) == if rows == [] then v else Merged(MergedAll(rows), v)
  {
    assert (rows + [v])[..|rows|] == rows;
  }

  lemma RowsSnoc(rows: seq<Indicator>, v: Indicator, k: string)
    ensures RowsWithKey(rows + [v], k) == RowsWithKey(rows, k) + (if Key(v) == k then [v] else [])
  {
    assert (rows + [v])[..|rows|] == rows;
  }

  lemma {:induction false} KeyRows(rows: seq<Indicator>, k: string)
    ensures RowsWithKey(rows, k) != [] <==> exists v :: v in rows && Key(v) == k
    ensures forall v :: v in RowsWithKey(rows, k) ==> v in rows && Key(v) == k
  {
    if rows != [] {
      var n := |rows| - 1;
      KeyRows(rows[..n], k);
      assert rows == rows[..n] + [rows[n]];
      if v :| v in rows && Key(v) == k {
        assert v in rows[..n] || v == rows[n];
      }
    }
  }

  /** The item at `k` is what the rows with that key make. */
  predicate ItemOf(items: Items, rows: seq<Indicator>, k: string) {
    if RowsWithKey(rows, k) == [] then k !in items
    else k in items && items[k] == MergedAll(RowsWithKey(rows, k))
  }

  lemma ItemMerged(items: Items, rows: seq<Indicator>, like: seq<Indicator>, v: Indicator, k: string, items': Items)
    requires k == Key(v) && like == RowsWithKey(rows, k)
    requires if like == [] then k !in items else k in items && items[k] == MergedAll(like)
    requires k in items' && items'[k] == if k in items then Merged(items[k], v) else v
    ensures ItemOf(items', rows + [v], k)
  {
    RowsSnoc(rows, v, k);
    MergedSnoc(like, v);
  }

  lemma ItemStep(items: Items, rows: seq<Indicator>, v: Indicator, k: string, items': Items)
    requires ItemOf(items, rows, k)
    requires items' == items[Key(v) := if Key(v) in items then Merged(items[Key(v)], v) else v]
    ensures ItemOf(items', rows + [v], k)
  {
    if k == Key(v) {
      ItemMerged(items, rows, RowsWithKey(rows, k), v, k, items');
    } else {
      RowsSnoc(rows, v, k);
      assert RowsWithKey(rows, k) + [] == RowsWithKey(rows, k);
    }
  }

  lemma {:induction false} ItemsOfFeed(validate: Validator, feed: seq<Indicator>, k: string)
    ensures ItemOf(Ingested(validate, map[], feed), AcceptedRows(validate, feed), k)
  {
    if feed != [] {
      var n := |feed| - 1;
      ItemsOfFeed(validate, feed[..n], k);
      assert feed == feed[..n] + [feed[n]];
      FoldSnoc(Step(validate), map[], feed[..n], feed[n]);
      var valid := validate(feed[n]);
      if valid.Some? {
        ItemStep(Ingested(validate, map[], feed[..n]), AcceptedRows(validate, feed[..n]), valid.value, k,
                 Ingested(validate, map[], feed));
      }
    }
  }

  lemma {:induction false} LikeIsKey(rows: seq<Indicator>, v: Indicator)
    requires ':' !in v.kind && forall r :: r in rows ==> ':' !in r.kind
    ensures RowsLike(rows, v) == RowsWithKey(rows, Key(v))
  {
    if rows != [] {
      var n := |rows| - 1;
      assert rows[n] in rows;
      KeyIff(rows[n], v);
      LikeIsKey(rows[..n], v);
    }
  }

  lemma {:induction false} MergedKeeps(rows: seq<Indicator>)
    requires rows != []
    ensures MergedAll(rows).kind == rows[0].kind && MergedAll(rows).value == rows[0].value
  {
    if |rows| > 1 {
      MergedKeeps(rows[..|rows| - 1]);
    }
  }

  lemma {:induction false} RowsLikeFirst(rows: seq<Indicator>, v: Indicator)
    ensures forall r :: r in RowsLike(rows, v) ==> r in rows && SameIndicator(r, v)
  {
    if rows != [] {
      var n := |rows| - 1;
      RowsLikeFirst(rows[..n], v);
      assert rows == rows[..n] + [rows[n]];
    }
  }

  /** After any feed: each accepted row is represented by an item of its own kind and value, that item is made of
      the accepted rows that are the same indicator and of no others, and there is no other item. */
  lemma ItemsAreTheirRows(validate: Validator, feed: seq<Indicator>)
    requires forall v :: v in AcceptedRows(validate, feed) ==> ':' !in v.kind
    ensures var items, rows := Ingested(validate, map[], feed), AcceptedRows(validate, feed);
            && (forall v :: v in rows ==>
                  && Key(v) in items && SameIndicator(items[Key(v)], v)
                  && RowsLike(rows, v) != [] && items[Key(v)] == MergedAll(RowsLike(rows, v)))
            && (forall k :: k in items ==> exists v :: v in rows && Key(v) == k)
  {
    var items, rows := Ingested(validate, map[], feed), AcceptedRows(validate, feed);
    forall v | v in rows
      ensures Key(v) in items && SameIndicator(items[Key(v)], v)
      ensures RowsLike(rows, v) != [] && items[Key(v)] == MergedAll(RowsLike(rows, v))
    {
      ItemsOfFeed(validate, feed, Key(v));
      KeyRows(rows, Key(v));
      LikeIsKey(rows, v);
      RowsLikeFirst(rows, v);
      MergedKeeps(RowsLike(rows, v));
      assert RowsLike(rows, v)[0] in RowsLike(rows, v);
    }
    forall k | k in items
      ensures exists v :: v in rows && Key(v) == k
    {
      ItemsOfFeed(validate, feed, k);
      KeyRows(rows, k);
    }
  }

  /** Feeds one after another are one long feed. */
  lemma FeedsConcat(validate: Validator, items: Items, feed: seq<Indicator>, next: seq<Indicator>)
    ensures Ingested(validate, Ingested(validate, items, feed), next) == Ingested(validate, items, feed + next)
  {
    FoldConcat(Step(validate), items, feed, next);
  }
}
