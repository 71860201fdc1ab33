// The IoC matcher of the detection engine (matcher.go) behind its validation gate
// (validate.go). The four string-keyed maps are one map keyed by table and string;
// address and prefix parsing, the MITRE table and the suffix list are parameters.
module Matcher {
  import opened Basics
  import opened Folds
  import opened Events

  datatype IoC = IoC(value: string, kind: string, source: string, threat: string, confidence: int,
                     tags: seq<string>, severity: string, mitreID: string, mitreName: string)

  datatype Slot = Domain(name: string) | Address(ip: string) | Prefix(cidr: string) | Hash(digest: string)

  type Table = map<Slot, IoC>

  /** What the matcher takes from the standard library and from data tables. */
  datatype Env = Env(
    publicSuffixes: set<string>,
    mitre: IoC -> (string, string),
    parseCIDR: string -> Option<(string, nat)>,   // canonical prefix and its length
    host: string -> string,                       // without a port, if there was one
    parseIP: string -> Option<string>,            // canonical address
    covers: (string, string) -> bool)             // prefix contains address

  // ----- the gate -----

  function ByteLength(s: string): nat {
    if s == [] then 0
    else ByteLength(s[1..]) + (if s[0] < '\U{0080}' then 1 else if s[0] < '\U{0800}' then 2
        else if s[0] < '\U{10000}' then 3 else 4)
  }

  predicate LabelOK(l: string) {
    l != "" && ByteLength(l) <= 63 && l[0] != '-' && l[|l| - 1] != '-'
  }

  function WithoutWildcard(d: string): string {
    if |d| >= 2 && d[0] == '*' && d[1] == '.' then d[2..] else d
  }

  predicate IllegalChar(c: char) {
    c in " \t\r\n/\\?#@:"
  }

  const MIN_DOMAIN_LABELS := 2

  function ValidateDomainIndicator(suffixes: set<string>, value: string): Option<string> {
    var d := WithoutWildcard(TrimSuffixDot(ToLower(TrimSpace(value))));
    var labels := Split(d, '.');
    if d == "" || ByteLength(d) > 253 then None
    else if exists c :: c in d && IllegalChar(c) then None
    else if |labels| < MIN_DOMAIN_LABELS then None
    else if exists l :: l in labels && !LabelOK(l) then None
    else if d in suffixes then None
    else Some(d)
  }

  // ----- adding -----

  function Enriched(env: Env, i: IoC): IoC {
    i.(severity := SeverityForConfidence(i.confidence), mitreID := env.mitre(i).0, mitreName := env.mitre(i).1)
  }

  /** Where an indicator goes and in what form; None if it is rejected. */
  function Entry(env: Env, raw: IoC): Option<(Slot, IoC)> {
    var i := Enriched(env, raw);
    if i.kind == "domain" then
      match ValidateDomainIndicator(env.publicSuffixes, i.value)
      case None => None
      case Some(d) => Some((Domain(d), i.(value := d)))
    else if i.kind == "ip" && '/' in i.value then
      match env.parseCIDR(TrimSpace(i.value))
      case None => None
      case Some((p, ones)) => if ones == 0 then None else Some((Prefix(p), i))
    else if i.kind == "ip" then
      match env.parseIP(env.host(TrimSpace(i.value)))
      case None => None
      case Some(ip) => Some((Address(ip), i.(value := ip)))
    else if i.kind in {"ja3", "tlsfp", "md5", "sha256"} then
      var key := ToLower(TrimSpace(i.value));
      if key == "" then None else Some((Hash(key), i))
    else None
  }

  function Kept(old_: Option<IoC>, i: IoC): IoC {
    if old_.None? || i.confidence >= old_.value.confidence then i else old_.value
  }

  function At(t: Table, s: Slot): Option<IoC> {
    if s in t then Some(t[s]) else None
  }

  function Stored(env: Env, t: Table, raw: IoC): Table {
    match Entry(env, raw)
    case None => t
    case Some((s, i)) => t[s := Kept(At(t, s), i)]
  }

  function Storer(env: Env): (Table, IoC) -> Table {
    (t: Table, raw: IoC) => Stored(env, t, raw)
  }

  function Added(env: Env, t: Table, iocs: seq<IoC>): Table {
    Fold(Storer(env), t, iocs)
  }

  /** How many indicators of a feed are refused. */
  function Refused(env: Env, iocs: seq<IoC>): nat {
    if iocs == [] then 0
    else Refused(env, iocs[..|iocs| - 1]) + (if Entry(env, iocs[|iocs| - 1]).None? then 1 else 0)
  }

  function QueryLabels(domain: string): seq<string> {
    Split(ToLower(TrimSuffixDot(domain)), '.')
  }

  class Matcher {
    const env: Env
    var table: Table

    constructor (env: Env)
      ensures this.env == env && table == map[]
    {
      this.env := env;
      table := map[];
    }

    /** Stores an entry unless a more confident one is there. */
    method Keep(slot: Slot, ioc: IoC)
      modifies this`table
      ensures table == old(table)[slot := Kept(At(old(table), slot), ioc)]
    {
      if slot !in table || ioc.confidence >= table[slot].confidence {
        table := table[slot := ioc];
      } else {
        assert table[slot := table[slot]] == table;
      }
    }

    method Add(iocs: seq<IoC>) returns (added: nat, rejected: nat)
      modifies this`table
      ensures table == Added(env, old(table), iocs)
      ensures rejected == Refused(env, iocs) && added == |iocs| - rejected
    {
      added, rejected := 0, 0;
      for i := 0 to |iocs|
        invariant table == Added(env, old(table), iocs[..i])
        invariant rejected == Refused(env, iocs[..i]) && added == i - rejected
      {
        assert iocs[..i + 1] == iocs[..i] + [iocs[i]];
        assert iocs[..i + 1][..i] == iocs[..i];
        FoldSnoc(Storer(env), old(table), iocs[..i], iocs[i]);
        var (id, name) := env.mitre(iocs[i]);
        var ioc := iocs[i].(severity := SeverityForConfidence(iocs[i].confidence), mitreID := id, mitreName := name);
        if ioc.kind == "domain" {
          var domain := ValidateDomainIndicator(env.publicSuffixes, ioc.value);
          if domain.None? {
            rejected := rejected + 1;
            continue;
          }
          ioc := ioc.(value := domain.value);
          Keep(Domain(domain.value), ioc);
        } else if ioc.kind == "ip" && '/' in ioc.value {
          var net := env.parseCIDR(TrimSpace(ioc.value));
          if net.None? || net.value.1 == 0 {
            rejected := rejected + 1;
            continue;
          }
          Keep(Prefix(net.value.0), ioc);
        } else if ioc.kind == "ip" {
          var parsed := env.parseIP(env.host(TrimSpace(ioc.value)));
          if parsed.None? {
            rejected := rejected + 1;
            continue;
          }
          Keep(Address(parsed.value), ioc.(value := parsed.value));
        } else if ioc.kind in {"ja3", "tlsfp", "md5", "sha256"} {
          var key := ToLower(TrimSpace(ioc.value));
          if key == "" {
            rejected := rejected + 1;
            continue;
          }
          Keep(Hash(key), ioc);
        } else {
          rejected := rejected + 1;
          continue;
        }
        added := added + 1;
      }
      assert iocs[..|iocs|] == iocs;
    }

    /** Looks a name up, then its parents, the longest first. */
    method MatchDomain(domain: string) returns (r: Option<IoC>)
      ensures r.None? ==> Unmatched(table, QueryLabels(domain))
      ensures r.Some? ==> exists i: nat :: Matched(table, QueryLabels(domain), i, r.value)
    {
      var labels := QueryLabels(domain);
      for i := 0 to |labels|
        invariant forall j :: 0 <= j < i ==> Domain(Join(labels[j..], '.')) !in table
      {
        var candidate := Domain(Join(labels[i..], '.'));
        if candidate in table {
          assert Matched(table, labels, i, table[candidate]);
          return Some(table[candidate]);
        }
      }
      return None;
    }

    /** An exact address wins; otherwise any stored prefix that contains it. */
    method MatchIP(ip: string) returns (r: Option<IoC>)
      ensures match env.parseIP(TrimSpace(ip))
              case None => r == None
              case Some(a) =>
                (Address(a) in table ==> r == Some(table[Address(a)])) &&
                (r.None? <==> Address(a) !in table && forall p :: Prefix(p) in table ==> !env.covers(p, a)) &&
                (r.Some? && Address(a) !in table ==>
                    exists p :: Prefix(p) in table && env.covers(p, a) && r == Some(table[Prefix(p)]))
    {
      var parsed := env.parseIP(TrimSpace(ip));
      if parsed.None? {
        return None;
      }
      var a := parsed.value;
      if Address(a) in table {
        return Some(table[Address(a)]);
      }
      var todo := table.Keys;
      while todo != {}
        invariant todo <= table.Keys
        invariant forall p :: Prefix(p) in table && Prefix(p) !in todo ==> !env.covers(p, a)
        decreases todo
      {
        var s :| s in todo;
        todo := todo - {s};
        if s.Prefix? && env.covers(s.cidr, a) {
          return Some(table[s]);
        }
      }
      return None;
    }
  }

  /** Position i starts the longest stored label-suffix. */
  ghost predicate FirstMatch(t: Table, labels: seq<string>, i: nat) {
    && i < |labels| && Domain(Join(labels[i..], '.')) in t
    && forall j :: 0 <= j < i ==> Domain(Join(labels[j..], '.')) !in t
  }

  predicate Unmatched(t: Table, labels: seq<string>) {
    forall i :: 0 <= i < |labels| ==> Domain(Join(labels[i..], '.')) !in t
  }

  ghost predicate Matched(t: Table, labels: seq<string>, i: nat, ioc: IoC) {
    FirstMatch(t, labels, i) && ioc == t[Domain(Join(labels[i..], '.'))]
  }

  // ----- what the gate lets through -----

  predicate SafeDomain(suffixes: set<string>, d: string) {
    |Split(d, '.')| >= MIN_DOMAIN_LABELS && (forall l :: l in Split(d, '.') ==> l != "") && d !in suffixes
  }

  predicate SafeTable(env: Env, t: Table) {
    forall s :: s in t && s.Domain? ==> SafeDomain(env.publicSuffixes, s.name)
  }

  lemma EntryIsSafe(env: Env, raw: IoC)
    ensures Entry(env, raw).Some? && Entry(env, raw).value.0.Domain? ==>
              SafeDomain(env.publicSuffixes, Entry(env, raw).value.0.name)
  {
  }

  lemma {:induction false} AddedIsSafe(env: Env, t: Table, iocs: seq<IoC>)
    requires SafeTable(env, t)
    ensures SafeTable(env, Added(env, t, iocs))
  {
    if iocs != [] {
      AddedIsSafe(env, t, iocs[..|iocs| - 1]);
      EntryIsSafe(env, iocs[|iocs| - 1]);
    }
  }

  /** `d` is made of the last labels of the query. */
  predicate LabelSuffix(d: string, labels: seq<string>) {
    var ds := Split(d, '.');
    |ds| <= |labels| && labels[|labels| - |ds|..] == ds
  }

  lemma SuffixJoin(labels: seq<string>, i: nat, d: string)
    requires i < |labels| && d == Join(labels[i..], '.') && forall l :: l in labels ==> '.' !in l
    ensures Split(d, '.') == labels[i..]
  {
    forall k | 0 <= k < |labels[i..]|
      ensures '.' !in labels[i..][k]
    {
      assert labels[i..][k] in labels;
    }
    SplitJoin(labels[i..], '.');
  }

  /** After any adds from a safe table, a name matches iff some stored domain is a label-suffix of it; the match
      is the longest one, shares at least two labels with the name, and is not a listed public suffix. */
  lemma MatchIsLongestSuffix(env: Env, t: Table, query: string, i: nat)
    requires SafeTable(env, t)
    ensures var labels := Split(query, '.');
            FirstMatch(t, labels, i) ==>
              var d := Join(labels[i..], '.');
              && LabelSuffix(d, labels) && |Split(d, '.')| >= 2 && d !in env.publicSuffixes
              && forall e :: Domain(e) in t && LabelSuffix(e, labels) ==> |Split(e, '.')| <= |Split(d, '.')|
  {
    var labels := Split(query, '.');
    SplitParts(query, '.');
    if FirstMatch(t, labels, i) {
      var d := Join(labels[i..], '.');
      SuffixJoin(labels, i, d);
      forall e | Domain(e) in t && LabelSuffix(e, labels)
        ensures |Split(e, '.')| <= |labels| - i
      {
        var j := |labels| - |Split(e, '.')|;
        JoinSplit(e, '.');
        assert Join(labels[j..], '.') == e;
      }
    }
  }

  lemma SuffixIsCandidate(query: string, e: string) returns (j: nat)
    requires LabelSuffix(e, Split(query, '.'))
    ensures j < |Split(query, '.')| && Join(Split(query, '.')[j..], '.') == e
  {
    j := |Split(query, '.')| - |Split(e, '.')|;
    JoinSplit(e, '.');
  }

  lemma LeastMatch(t: Table, labels: seq<string>, j: nat) returns (i: nat)
    requires j < |labels| && Domain(Join(labels[j..], '.')) in t
    ensures FirstMatch(t, labels, i)
  {
    i := 0;
    while Domain(Join(labels[i..], '.')) !in t
      invariant i <= j
      invariant forall m :: 0 <= m < i ==> Domain(Join(labels[m..], '.')) !in t
      decreases j - i
    {
      i := i + 1;
    }
  }

  /** The walk finds something exactly when some stored domain is a label-suffix of the name. */
  lemma MatchIff(t: Table, query: string)
    ensures (exists i: nat :: FirstMatch(t, Split(query, '.'), i))
       <==> (exists e :: Domain(e) in t && LabelSuffix(e, Split(query, '.')))
  {
    var labels := Split(query, '.');
    SplitParts(query, '.');
    if i: nat :| FirstMatch(t, labels, i) {
      SuffixJoin(labels, i, Join(labels[i..], '.'));
      assert LabelSuffix(Join(labels[i..], '.'), labels);
    }
    if e :| Domain(e) in t && LabelSuffix(e, labels) {
      var j := SuffixIsCandidate(query, e);
      var i := LeastMatch(t, labels, j);
    }
  }

  // ----- confidence and re-sync -----

  /** The accepted forms of the indicators that go to one slot, in order. */
  function EntriesFor(env: Env, iocs: seq<IoC>, s: Slot): seq<IoC> {
    if iocs == [] then []
    else
      var rest, e := EntriesFor(env, iocs[..|iocs| - 1], s), Entry(env, iocs[|iocs| - 1]);
      if e.Some? && e.value.0 == s then rest + [e.value.1] else rest
  }

  /** The strongest of them, the last among equals. */
  function Top(es: seq<IoC>): IoC
    requires es != []
  {
    if |es| == 1 then es[0] else Kept(Some(Top(es[..|es| - 1])), es[|es| - 1])
  }

  predicate Strongest(top: IoC, es: seq<IoC>) {
    top in es && forall e :: e in es ==> e.confidence <= top.confidence
  }

  lemma StrongestOfOneMore(top: IoC, es: seq<IoC>, e: IoC)
    requires Strongest(top, es)
    ensures Strongest(Kept(Some(top), e), es + [e])
  {
    forall x | x in es + [e]
      ensures x.confidence <= Kept(Some(top), e).confidence
    {
      assert x in es || x == e;
    }
    assert top in es + [e] && e in es + [e];
  }

  lemma {:induction false} TopIsStrongest(es: seq<IoC>)
    requires es != []
    ensures Strongest(Top(es), es)
  {
    var n := |es| - 1;
    if n > 0 {
      TopIsStrongest(es[..n]);
      StrongestOfOneMore(Top(es[..n]), es[..n], es[n]);
      assert es == es[..n] + [es[n]];
    }
  }

  lemma SlotStep(env: Env, t: Table, raw: IoC, s: Slot)
    ensures var e := Entry(env, raw);
            At(Stored(env, t, raw), s) ==
                if e.Some? && e.value.0 == s then Some(Kept(At(t, s), e.value.1)) else At(t, s)
  {
  }

  /** What a slot that held `old_` holds after the entries `es`. */
  function AfterEntries(old_: Option<IoC>, es: seq<IoC>): Option<IoC> {
    if es == [] || (old_.Some? && old_.value.confidence > Top(es).confidence) then old_ else Some(Top(es))
  }

  lemma AfterOneMore(old_: Option<IoC>, es: seq<IoC>, e: IoC)
    ensures AfterEntries(old_, es + [e]) == Some(Kept(AfterEntries(old_, es), e))
  {
    assert (es + [e])[..|es|] == es;
  }

  /** One slot after a feed: what was there survives only if it is stronger than everything the feed offers. */
  lemma {:induction false} SlotAfter(env: Env, t: Table, iocs: seq<IoC>, s: Slot)
    ensures At(Added(env, t, iocs), s) == AfterEntries(At(t, s), EntriesFor(env, iocs, s))
  {
    if iocs != [] {
      var n := |iocs| - 1;
      SlotAfter(env, t, iocs[..n], s);
      assert iocs == iocs[..n] + [iocs[n]];
      FoldSnoc(Storer(env), t, iocs[..n], iocs[n]);
      SlotStep(env, Added(env, t, iocs[..n]), iocs[n], s);
      var e := Entry(env, iocs[n]);
      if e.Some? {
        AfterOneMore(At(t, s), EntriesFor(env, iocs[..n], s), e.value.1);
      }
    }
  }

  /** The table of a matcher that was empty at first, after one Add for each feed. */
  function AddedAll(env: Env, feeds: seq<seq<IoC>>): Table {
    if feeds == [] then map[] else Added(env, AddedAll(env, feeds[..|feeds| - 1]), feeds[|feeds| - 1])
  }

  function Flatten(feeds: seq<seq<IoC>>): seq<IoC> {
    if feeds == [] then [] else Flatten(feeds[..|feeds| - 1]) + feeds[|feeds| - 1]
  }

  /** How the indicators are divided into feeds does not matter. */
  lemma {:induction false} AddsAreOneFeed(env: Env, feeds: seq<seq<IoC>>)
    ensures AddedAll(env, feeds) == Added(env, map[], Flatten(feeds))
  {
    if feeds != [] {
      var n := |feeds| - 1;
      AddsAreOneFeed(env, feeds[..n]);
      FoldConcat(Storer(env), map[], Flatten(feeds[..n]), feeds[n]);
    }
  }

  /** Starting from an empty matcher, after any sequence of adds: a slot is filled iff something was accepted
      for it, and then holds an accepted form of the maximum confidence accepted; and every stored domain is
      safe to match on. */
  lemma StoredIsStrongest(env: Env, feeds: seq<seq<IoC>>, s: Slot)
    ensures var es, t := EntriesFor(env, Flatten(feeds), s), AddedAll(env, feeds);
            && (s in t <==> es != [])
            && (s in t ==> t[s] in es && forall e :: e in es ==> e.confidence <= t[s].confidence)
    ensures SafeTable(env, AddedAll(env, feeds))
  {
    AddsAreOneFeed(env, feeds);
    AddedIsSafe(env, map[], Flatten(feeds));
    SlotAfter(env, map[], Flatten(feeds), s);
    if EntriesFor(env, Flatten(feeds), s) != [] {
      TopIsStrongest(EntriesFor(env, Flatten(feeds), s));
    }
  }

  lemma SameSlots(a: Table, b: Table)
    requires forall s :: At(a, s) == At(b, s)
    ensures a == b
  {
    forall s
      ensures s in a <==> s in b
      ensures s in a ==> a[s] == b[s]
    {
      assert At(a, s) == At(b, s);
    }
  }

  /** Adding the same feed again right away changes nothing, whatever was in the matcher before. */
  lemma ReAddChangesNothing(env: Env, t: Table, iocs: seq<IoC>)
    ensures Added(env, Added(env, t, iocs), iocs) == Added(env, t, iocs)
  {
    forall s
      ensures At(Added(env, Added(env, t, iocs), iocs), s) == At(Added(env, t, iocs), s)
    {
      SlotAfter(env, t, iocs, s);
      SlotAfter(env, Added(env, t, iocs), iocs, s);
    }
    SameSlots(Added(env, Added(env, t, iocs), iocs), Added(env, t, iocs));
  }
}
