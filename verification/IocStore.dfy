// The indicator store of threat-intel-sync (indicator.go, store.go). Validation
// of a feed row is a parameter: everything holds for every validator.
module IocStore {
  import opened Basics
  import opened Folds

  datatype Indicator = Indicator(
    kind: string, value: string, source: string, threat: string, confidence: int,
    firstSeen: int, lastSeen: int, tags: seq<string>, reference: string)

  type Items = map<string, Indicator>

  type Validator = Indicator -> Option<Indicator>

  function Key(i: Indicator): string {
    i.kind + ":" + ToLower(i.value)
  }

  predicate OccursAt(hay: string, needle: string, at: int) {
    0 <= at <= |hay| - |needle| && hay[at..at + |needle|] == needle
  }

  /** strings.Contains. */
  predicate Contains(hay: string, needle: string) {
    exists at :: 0 <= at <= |hay| && OccursAt(hay, needle, at)
  }

  /** The tags of b that a lacks, in order; repeats inside b stay. */
  function Extra(a: seq<string>, b: seq<string>): seq<string> {
    if b == [] then []
    else Extra(a, b[..|b| - 1]) + (if b[|b| - 1] in a then [] else [b[|b| - 1]])
  }

  /** The earlier of two dates, where 0 means "never dated". */
  function Earlier(a: int, b: int): int {
    if b != 0 && (a == 0 || b < a) then b else a
  }

  function Max(a: int, b: int): int {
    if b > a then b else a
  }

  function Merged(i: Indicator, other: Indicator): Indicator {
    Indicator(
      i.kind, i.value,
      if Contains(i.source, other.source) then i.source else i.source + "," + other.source,
      if i.threat == "" && other.threat != "" then other.threat else i.threat,
      Max(i.confidence, other.confidence),
      Earlier(i.firstSeen, other.firstSeen),
      Max(i.lastSeen, other.lastSeen),
      i.tags + Extra(i.tags, other.tags),
      if i.reference == "" && other.reference != "" then other.reference else i.reference)
  }

  function Upserted(validate: Validator, items: Items, i: Indicator): Items {
    match validate(i)
    case None => items
    case Some(v) => items[Key(v) := if Key(v) in items then Merged(items[Key(v)], v) else v]
  }

  function Step(validate: Validator): (Items, Indicator) -> Items {
    (items: Items, i: Indicator) => Upserted(validate, items, i)
  }

  /** The store after a whole feed. */
  function Ingested(validate: Validator, items: Items, feed: seq<Indicator>): Items {
    Fold(Step(validate), items, feed)
  }

  /** How many indicators of a feed are refused. */
  function Refused(validate: Validator, feed: seq<Indicator>): nat {
    if feed == [] then 0
    else Refused(validate, feed[..|feed| - 1]) + (if validate(feed[|feed| - 1]).None? then 1 else 0)
  }

  /** The date that decides whether an indicator is stale. */
  function Stamp(i: Indicator): int {
    if i.lastSeen == 0 then i.firstSeen else i.lastSeen
  }

  predicate Stale(i: Indicator, cutoff: int) {
    Stamp(i) != 0 && Stamp(i) < cutoff
  }

  method MergeTags(a: seq<string>, b: seq<string>) returns (merged: seq<string>)
    ensures merged == a + Extra(a, b)
  {
    var seen := set t | t in a;
    merged := a;
    for i := 0 to |b|
      invariant merged == a + Extra(a, b[..i])
    {
      assert b[..i + 1][..i] == b[..i];
      if b[i] !in seen {
        merged := merged + [b[i]];
      }
    }
    assert b[..|b|] == b;
  }

  method Merge(i: Indicator, other: Indicator) returns (r: Indicator)
    ensures r == Merged(i, other)
  {
    r := i;
    if other.confidence > r.confidence {
      r := r.(confidence := other.confidence);
    }
    if other.firstSeen != 0 && (r.firstSeen == 0 || other.firstSeen < r.firstSeen) {
      r := r.(firstSeen := other.firstSeen);
    }
    if other.lastSeen > r.lastSeen {
      r := r.(lastSeen := other.lastSeen);
    }
    if r.threat == "" && other.threat != "" {
      r := r.(threat := other.threat);
    }
    if r.reference == "" && other.reference != "" {
      r := r.(reference := other.reference);
    }
    if !Contains(r.source, other.source) {
      r := r.(source := r.source + "," + other.source);
    }
    var tags := MergeTags(r.tags, other.tags);
    r := r.(tags := tags);
  }

  class Store {
    const validate: Validator
    var items: Items

    constructor (validate: Validator)
      ensures this.validate == validate && items == map[]
    {
      this.validate := validate;
      items := map[];
    }

    method UpsertAll(feed: seq<Indicator>) returns (accepted: nat, rejected: nat)
      modifies this`items
      ensures items == Ingested(validate, old(items), feed)
      ensures rejected == Refused(validate, feed) && accepted == |feed| - rejected
    {
      accepted, rejected := 0, 0;
      for i := 0 to |feed|
        invariant items == Ingested(validate, old(items), feed[..i])
        invariant rejected == Refused(validate, feed[..i]) && accepted == i - rejected
      {
        assert feed[..i + 1] == feed[..i] + [feed[i]];
        assert feed[..i + 1][..i] == feed[..i];
        FoldSnoc(Step(validate), old(items), feed[..i], feed[i]);
        var valid := validate(feed[i]);
        if valid.None? {
          rejected := rejected + 1;
          continue;
        }
        var key := Key(valid.value);
        if key in items {
          var merged := Merge(items[key], valid.value);
          items := items[key := merged];
        } else {
          items := items[key := valid.value];
        }
        accepted := accepted + 1;
      }
      assert feed[..|feed|] == feed;
    }

    method PruneBefore(cutoff: int) returns (removed: nat)
      modifies this`items
      ensures items == map k | k in old(items) && !Stale(old(items)[k], cutoff) :: old(items)[k]
      ensures removed == |old(items)| - |items|
    {
      removed := 0;
      var todo := items.Keys;
      while todo != {}
        invariant todo <= items.Keys <= old(items).Keys
        invariant forall k :: k in items ==> items[k] == old(items)[k]
        invariant forall k :: k in old(items) && k !in todo ==> (k in items <==> !Stale(old(items)[k], cutoff))
        invariant removed == |old(items)| - |items|
        decreases todo
      {
        var k :| k in todo;
        todo := todo - {k};
        var stamp := items[k].lastSeen;
        if stamp == 0 {
          stamp := items[k].firstSeen;
        }
        if stamp == 0 {
          continue;
        }
        if stamp < cutoff {
          items := items - {k};
          removed := removed + 1;
        }
      }
    }
  }

  // ----- ingesting a feed again changes nothing -----

  /** Nothing in `other` is news to `i`. */
  predicate Absorbs(i: Indicator, other: Indicator) {
    && other.confidence <= i.confidence
    && (other.firstSeen == 0 || (i.firstSeen != 0 && i.firstSeen <= other.firstSeen))
    && other.lastSeen <= i.lastSeen
    && (other.threat == "" || i.threat != "")
    && (other.reference == "" || i.reference != "")
    && Contains(i.source, other.source)
    && forall t :: t in other.tags ==> t in i.tags
  }

  lemma {:induction false} ExtraContents(a: seq<string>, b: seq<string>)
    ensures forall t :: t in Extra(a, b) <==> t in b && t !in a
    ensures (forall t :: t in b ==> t in a) ==> Extra(a, b) == []
  {
    if b != [] {
      ExtraContents(a, b[..|b| - 1]);
      assert b == b[..|b| - 1] + [b[|b| - 1]];
    }
  }

  lemma ContainsExtension(hay: string, tail: string, needle: string)
    requires Contains(hay, needle)
    ensures Contains(hay + tail, needle)
  {
    var at :| 0 <= at <= |hay| && OccursAt(hay, needle, at);
    assert (hay + tail)[at..at + |needle|] == hay[at..at + |needle|];
    assert OccursAt(hay + tail, needle, at);
  }

  lemma ContainsSuffix(head: string, needle: string)
    ensures Contains(head + needle, needle)
  {
    assert OccursAt(head + needle, needle, |head|);
  }

  /** A merge is without effect exactly when the other indicator brings nothing new. */
  lemma MergeNoOpIff(i: Indicator, other: Indicator)
    ensures Merged(i, other) == i <==> Absorbs(i, other)
  {
    ExtraContents(i.tags, other.tags);
    var m := Merged(i, other);
    assert !Contains(i.source, other.source) ==> |m.source| > |i.source|;
    if m == i {
      assert |m.tags| == |i.tags| + |Extra(i.tags, other.tags)|;
      assert Extra(i.tags, other.tags) == [];
    }
  }

  /** What has been merged is absorbed, and stays so whatever is merged later. */
  lemma MergeAbsorbs(i: Indicator, other: Indicator)
    ensures Absorbs(Merged(i, other), other)
  {
    ExtraContents(i.tags, other.tags);
    if !Contains(i.source, other.source) {
      ContainsSuffix(i.source + ",", other.source);
      assert Merged(i, other).source == i.source + "," + other.source;
    }
  }

  lemma AbsorbsKept(i: Indicator, other: Indicator, later: Indicator)
    requires Absorbs(i, other)
    ensures Absorbs(Merged(i, later), other)
  {
    if !Contains(i.source, later.source) {
      ContainsExtension(i.source, "," + later.source, other.source);
      assert i.source + ("," + later.source) == i.source + "," + later.source;
    }
  }

  lemma AbsorbsItself(i: Indicator)
    ensures Absorbs(i, i)
  {
    ContainsSuffix("", i.source);
    assert "" + i.source == i.source;
  }

  /** The feed row is invalid or already absorbed. */
  predicate Known(validate: Validator, items: Items, i: Indicator) {
    match validate(i)
    case None => true
    case Some(v) => Key(v) in items && Absorbs(items[Key(v)], v)
  }

  lemma UpsertMakesKnown(validate: Validator, items: Items, i: Indicator)
    ensures Known(validate, Upserted(validate, items, i), i)
  {
    match validate(i)
    case None =>
    case Some(v) =>
      if Key(v) in items {
        MergeAbsorbs(items[Key(v)], v);
      } else {
        AbsorbsItself(v);
      }
  }

  lemma UpsertKeepsKnown(validate: Validator, items: Items, i: Indicator, j: Indicator)
    requires Known(validate, items, i)
    ensures Known(validate, Upserted(validate, items, j), i)
  {
    if validate(i).Some? && validate(j).Some? {
      var v, w := validate(i).value, validate(j).value;
      if Key(v) == Key(w) {
        AbsorbsKept(items[Key(v)], v, w);
      }
    }
  }

  lemma {:induction false} FeedIsKnown(validate: Validator, items: Items, feed: seq<Indicator>)
    ensures forall i :: i in feed ==> Known(validate, Ingested(validate, items, feed), i)
  {
    if feed != [] {
      var n := |feed| - 1;
      var mid := Ingested(validate, items, feed[..n]);
      FeedIsKnown(validate, items, feed[..n]);
      FoldSnoc(Step(validate), items, feed[..n], feed[n]);
      assert feed == feed[..n] + [feed[n]];
      forall i | i in feed
        ensures Known(validate, Upserted(validate, mid, feed[n]), i)
      {
        if i == feed[n] {
          UpsertMakesKnown(validate, mid, i);
        } else {
          assert i in feed[..n];
          UpsertKeepsKnown(validate, mid, i, feed[n]);
        }
      }
    }
  }

  lemma {:induction false} KnownFeedIsNoOp(validate: Validator, items: Items, feed: seq<Indicator>)
    requires forall i :: i in feed ==> Known(validate, items, i)
    ensures Ingested(validate, items, feed) == items
  {
    if feed != [] {
      var n := |feed| - 1;
      assert feed == feed[..n] + [feed[n]];
      assert feed[n] in feed;
      KnownFeedIsNoOp(validate, items, feed[..n]);
      FoldSnoc(Step(validate), items, feed[..n], feed[n]);
      if validate(feed[n]).Some? {
        var v := validate(feed[n]).value;
        MergeNoOpIff(items[Key(v)], v);
        assert items[Key(v) := items[Key(v)]] == items;
      }
    }
  }

  /** Re-sync absorption: ingesting a feed twice in a row is ingesting it once, field by field. */
  lemma ResyncIsAbsorbed(validate: Validator, items: Items, feed: seq<Indicator>)
    ensures Ingested(validate, Ingested(validate, items, feed), feed) == Ingested(validate, items, feed)
  {
    FeedIsKnown(validate, items, feed);
    KnownFeedIsNoOp(validate, Ingested(validate, items, feed), feed);
  }

  // ----- what does not depend on the order of ingestion -----

  datatype Summary = Summary(confidence: int, firstSeen: int, lastSeen: int, tags: set<string>)

  type Summaries = map<string, Summary>

  function SummaryOf(i: Indicator): Summary {
    Summary(i.confidence, i.firstSeen, i.lastSeen, set t | t in i.tags)
  }

  function Summarised(items: Items): Summaries {
    map k | k in items :: SummaryOf(items[k])
  }

  function Joined(a: Summary, b: Summary): Summary {
    Summary(Max(a.confidence, b.confidence), Earlier(a.firstSeen, b.firstSeen),
        Max(a.lastSeen, b.lastSeen), a.tags + b.tags)
  }

  function Noted(validate: Validator, s: Summaries, i: Indicator): Summaries {
    match validate(i)
    case None => s
    case Some(v) => s[Key(v) := if Key(v) in s then Joined(s[Key(v)], SummaryOf(v)) else SummaryOf(v)]
  }

  function Note(validate: Validator): (Summaries, Indicator) -> Summaries {
    (s: Summaries, i: Indicator) => Noted(validate, s, i)
  }

  lemma JoinedExchange(a: Summary, b: Summary, c: Summary)
    ensures Joined(Joined(a, b), c) == Joined(Joined(a, c), b)
    ensures Joined(b, c) == Joined(c, b)
  {
  }

  lemma NoteExchangeable(validate: Validator)
    ensures Exchangeable(Note(validate))
  {
    forall s: Summaries, x, y
      ensures Note(validate)(Note(validate)(s, x), y) == Note(validate)(Note(validate)(s, y), x)
    {
      NotedExchange(validate, s, x, y);
    }
  }

  lemma NotedExchange(validate: Validator, s: Summaries, x: Indicator, y: Indicator)
    ensures Noted(validate, Noted(validate, s, x), y) == Noted(validate, Noted(validate, s, y), x)
  {
    if validate(x).Some? && validate(y).Some? {
      var v, w := validate(x).value, validate(y).value;
      if Key(v) == Key(w) && Key(v) in s {
        JoinedExchange(s[Key(v)], SummaryOf(v), SummaryOf(w));
      } else if Key(v) == Key(w) {
        JoinedExchange(SummaryOf(v), SummaryOf(v), SummaryOf(w));
      }
    }
  }

  /** Merging joins the summaries. */
  lemma MergedSummary(i: Indicator, other: Indicator)
    ensures SummaryOf(Merged(i, other)) == Joined(SummaryOf(i), SummaryOf(other))
  {
    ExtraContents(i.tags, other.tags);
  }

  lemma UpsertSummarised(validate: Validator, items: Items, i: Indicator)
    ensures Summarised(Upserted(validate, items, i)) == Noted(validate, Summarised(items), i)
  {
    if validate(i).Some? && Key(validate(i).value) in items {
      MergedSummary(items[Key(validate(i).value)], validate(i).value);
    }
  }

  lemma {:induction false} IngestSummarised(validate: Validator, items: Items, feed: seq<Indicator>)
    ensures Summarised(Ingested(validate, items, feed)) == Fold(Note(validate), Summarised(items), feed)
  {
    if feed != [] {
      var n := |feed| - 1;
      IngestSummarised(validate, items, feed[..n]);
      UpsertSummarised(validate, Ingested(validate, items, feed[..n]), feed[n]);
    }
  }

  /** Confidence, first and last sighting and the tag set of every key depend on which rows were ingested,
      not on their order. */
  lemma OrderIrrelevant(validate: Validator, items: Items, feed: seq<Indicator>, other: seq<Indicator>)
    requires multiset(feed) == multiset(other)
    ensures Summarised(Ingested(validate, items, feed)) == Summarised(Ingested(validate, items, other))
  {
    IngestSummarised(validate, items, feed);
    IngestSummarised(validate, items, other);
    NoteExchangeable(validate);
    FoldPermutation(Note(validate), Summarised(items), feed, other);
  }
}
