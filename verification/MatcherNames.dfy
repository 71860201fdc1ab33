// What the matcher's gate accepts and what its lookups find, in terms of the names
// themselves, however they are spelled (validate.go, matcher.go).
module MatcherNames {
  import opened Basics
  import opened Text
  import opened Matcher

  // ----- joining and splitting -----

  lemma {:induction false} SplitConcat(a: string, b: string)
    ensures Split(a + "." + b, '.') == Split(a, '.') + Split(b, '.')
  {
    var s := a + "." + b;
    if a == "" {
      assert s[0] == '.' && s[1..] == b;
    } else {
      assert s[0] == a[0] && s[1..] == a[1..] + "." + b;
      SplitConcat(a[1..], b);
      assert (Split(a[1..], '.') + Split(b, '.'))[0] == Split(a[1..], '.')[0];
    }
  }

  lemma {:induction false} JoinConcat(a: seq<string>, b: seq<string>)
    requires a != [] && b != []
    ensures Join(a + b, '.') == Join(a, '.') + "." + Join(b, '.')
  {
    if |a| == 1 {
      assert (a + b)[1..] == b;
    } else {
      assert (a + b)[1..] == a[1..] + b;
      JoinConcat(a[1..], b);
    }
  }

  /** `d` is the whole name or what follows one of its dots. */
  predicate Tail(name: string, d: string) {
    name == d || (|name| > |d| && name[|name| - |d| - 1] == '.' && name[|name| - |d|..] == d)
  }

  /** The labels of `d` are the last ones of the name exactly when `d` is a tail of it. */
  lemma TailIff(name: string, d: string)
    ensures LabelSuffix(d, Split(name, '.')) <==> Tail(name, d)
  {
    if Tail(name, d) && name != d {
      var head := name[..|name| - |d| - 1];
      assert name == head + "." + d;
      SplitConcat(head, d);
    }
    if LabelSuffix(d, Split(name, '.')) {
      var labels, ds := Split(name, '.'), Split(d, '.');
      JoinSplit(name, '.');
      JoinSplit(d, '.');
      var k := |labels| - |ds|;
      assert labels == labels[..k] + ds;
      if k > 0 {
        JoinConcat(labels[..k], ds);
        assert name == Join(labels[..k], '.') + "." + d;
      } else {
        assert labels == ds;
      }
    }
  }

  // ----- queries -----

  /** The query without its last dot, if it ends in one. */
  function Undotted(query: string): string {
    if query != "" && query[|query| - 1] == '.' then query[..|query| - 1] else query
  }

  /** Up to case and one dot at its end, the query is `d` or a name under it. */
  predicate Under(query: string, d: string) {
    var q := Undotted(query);
    |q| >= |d| && SameText(q[|q| - |d|..], d) && (|q| == |d| || q[|q| - |d| - 1] == '.')
  }

  lemma DotIsFixed(c: char)
    ensures LowerChar(c) == '.' <==> c == '.'
  {
  }

  lemma ToLowerTail(q: string, n: nat)
    requires n <= |q|
    ensures |ToLower(q)| == |q| && ToLower(q)[n..] == ToLower(q[n..])
  {
    ToLowerAt(q);
    ToLowerAt(q[n..]);
  }

  /** A stored name in small letters is found for a query exactly when the query is at or under it. */
  lemma UnderIff(query: string, d: string)
    requires Small(d)
    ensures LabelSuffix(d, QueryLabels(query)) <==> Under(query, d)
  {
    var q := Undotted(query);
    TailIff(ToLower(q), d);
    ToLowerAt(q);
    if |q| >= |d| {
      var n := |q| - |d|;
      ToLowerTail(q, n);
      LowersTo(q[n..], d);
      assert q[0..] == q && ToLower(q)[0..] == ToLower(q);
      if n > 0 {
        DotIsFixed(q[n - 1]);
      }
    }
  }

  /** The stored domains are in small letters. */
  predicate SmallTable(t: Table) {
    forall s :: s in t && s.Domain? ==> Small(s.name)
  }

  /** MatchDomain finds something exactly when the query is at or under some stored name. */
  lemma FoundIff(t: Table, query: string)
    requires SmallTable(t)
    ensures (exists i: nat :: FirstMatch(t, QueryLabels(query), i)) <==> exists d :: Domain(d) in t && Under(query, d)
  {
    MatchIff(t, ToLower(TrimSuffixDot(query)));
    if d :| Domain(d) in t && Under(query, d) {
      UnderIff(query, d);
    }
    if i: nat :| FirstMatch(t, QueryLabels(query), i) {
      var d :| Domain(d) in t && LabelSuffix(d, QueryLabels(query));
      UnderIff(query, d);
    }
  }

  /** And what it finds is the longest such name. */
  lemma FoundIsLongest(env: Env, t: Table, query: string, i: nat)
    requires SmallTable(t) && SafeTable(env, t) && FirstMatch(t, QueryLabels(query), i)
    ensures var d := Join(QueryLabels(query)[i..], '.');
            Under(query, d) && forall e :: Domain(e) in t && Under(query, e) ==> |e| <= |d|
  {
    var name := ToLower(TrimSuffixDot(query));
    var d := Join(QueryLabels(query)[i..], '.');
    MatchIsLongestSuffix(env, t, name, i);
    UnderIff(query, d);
    TailIff(name, d);
    forall e | Domain(e) in t && Under(query, e)
      ensures |e| <= |d|
    {
      UnderIff(query, e);
      TailIff(name, e);
      FewerLabels(name, d, e);
    }
  }

  lemma TailOfTail(name: string, d: string, e: string)
    requires Tail(name, d) && Tail(name, e) && |e| > |d|
    ensures e[|e| - |d|..] == d && e[|e| - |d| - 1] == '.'
  {
    var k := |name| - |e|;
    assert name[k..] == e;
    assert e[|e| - |d| - 1] == name[k + |e| - |d| - 1];
    assert name[k..][|e| - |d|..] == name[|name| - |d|..];
  }

  lemma Cut(e: string, d: string)
    requires |e| > |d| && e[|e| - |d|..] == d && e[|e| - |d| - 1] == '.'
    ensures e == e[..|e| - |d| - 1] + "." + d
  {
  }

  /** Of two tails of a name, the one with no more labels is not longer. */
  lemma FewerLabels(name: string, d: string, e: string)
    requires Tail(name, d) && Tail(name, e) && |Split(e, '.')| <= |Split(d, '.')|
    ensures |e| <= |d|
  {
    if |e| > |d| {
      TailOfTail(name, d, e);
      Cut(e, d);
      SplitConcat(e[..|e| - |d| - 1], d);
    }
  }

  // ----- the gate -----

  predicate Legal(c: char) {
    c !in {' ', '\t', '\r', '\n', '/', '\\', '?', '#', '@', ':'}
  }

  /** A label of an indicator: 1 to 63 bytes, no dot, no hyphen at either end, no character the gate refuses. */
  predicate IndicatorLabel(l: string) {
    && 1 <= ByteLength(l) <= 63 && l != "" && l[0] != '-' && l[|l| - 1] != '-'
    && forall i :: 0 <= i < |l| ==> Legal(l[i]) && l[i] != '.'
  }

  predicate IndicatorLabels(labels: seq<string>) {
    |labels| >= 2 && forall i :: 0 <= i < |labels| ==> IndicatorLabel(labels[i])
  }

  /** Two or more such labels in small letters, with dots between them, at most 253 bytes. */
  ghost predicate IndicatorName(d: string) {
    Small(d) && ByteLength(d) <= 253 && exists labels :: IndicatorLabels(labels) && Join(labels, '.') == d
  }

  /** The text is the core with a wildcard label before it and a dot behind it, where there are any. */
  predicate Dressed(text: string, star: string, core: string, dot: string) {
    && (star == "*." || (star == "" && !(|core| >= 2 && core[0] == '*' && core[1] == '.')))
    && (dot == "." || (dot == "" && (core == "" || core[|core| - 1] != '.')))
    && text == star + core + dot
  }

  /** Blanks around it, a wildcard label, a dot at the end and the case of letters do not matter. */
  ghost predicate Written(value: string, d: string) {
    exists text, star, core, dot :: Core(value, text) && Dressed(text, star, core, dot) && SameText(core, d)
  }

  lemma IllegalIff(c: char)
    ensures IllegalChar(c) <==> !Legal(c)
  {
  }

  lemma LabelsLegal(d: string)
    requires forall c :: c in d ==> !IllegalChar(c)
    ensures forall l, i :: l in Split(d, '.') && 0 <= i < |l| ==> Legal(l[i]) && l[i] != '.'
  {
    SplitParts(d, '.');
    forall l, i | l in Split(d, '.') && 0 <= i < |l|
      ensures Legal(l[i]) && l[i] != '.'
    {
      SplitWithin(d, l, i);
      IllegalIff(l[i]);
    }
  }

  lemma {:induction false} SplitWithin(d: string, l: string, i: nat)
    requires l in Split(d, '.') && i < |l|
    ensures l[i] in d && l[i] != '.'
  {
    SplitParts(d, '.');
    if d != "" {
      var rest := Split(d[1..], '.');
      if l in rest {
        SplitWithin(d[1..], l, i);
      } else if d[0] != '.' {
        assert l == [d[0]] + rest[0];
        if i > 0 {
          assert rest[0] in rest;
          SplitWithin(d[1..], rest[0], i - 1);
        }
      }
    }
  }

  lemma {:induction false} JoinLegal(labels: seq<string>)
    requires labels != [] && forall k :: 0 <= k < |labels| ==> IndicatorLabel(labels[k])
    ensures forall c :: c in Join(labels, '.') ==> Legal(c)
  {
    forall c | c in labels[0]
      ensures Legal(c)
    {
      var i :| 0 <= i < |labels[0]| && labels[0][i] == c;
    }
    if |labels| > 1 {
      JoinLegal(labels[1..]);
    }
  }

  /** The checks of the gate, after normalisation. */
  predicate Passes(d: string) {
    && d != "" && ByteLength(d) <= 253 && (forall c :: c in d ==> !IllegalChar(c))
    && |Split(d, '.')| >= 2 && forall l :: l in Split(d, '.') ==> LabelOK(l)
  }

  lemma {:induction false} ByteLengthPositive(l: string)
    ensures ByteLength(l) >= |l|
  {
    if l != "" {
      ByteLengthPositive(l[1..]);
    }
  }

  lemma PassesIff(d: string)
    ensures Passes(d) <==> ByteLength(d) <= 253 && exists labels :: IndicatorLabels(labels) && Join(labels, '.') == d
  {
    if Passes(d) {
      var labels := Split(d, '.');
      LabelsLegal(d);
      forall i | 0 <= i < |labels|
        ensures IndicatorLabel(labels[i])
      {
        assert labels[i] in labels;
        ByteLengthPositive(labels[i]);
      }
      JoinSplit(d, '.');
      assert IndicatorLabels(labels);
    }
    if ByteLength(d) <= 253 {
      if labels :| IndicatorLabels(labels) && Join(labels, '.') == d {
        JoinPasses(labels, d);
      }
    }
  }

  lemma JoinPasses(labels: seq<string>, d: string)
    requires IndicatorLabels(labels) && Join(labels, '.') == d && ByteLength(d) <= 253
    ensures Passes(d)
  {
    forall i | 0 <= i < |labels|
      ensures '.' !in labels[i]
    {
      assert IndicatorLabel(labels[i]);
    }
    SplitJoin(labels, '.');
    JoinLegal(labels);
    forall c | c in d
      ensures !IllegalChar(c)
    {
      IllegalIff(c);
    }
  }

  /** Bytes of UTF-8: one, two, three or four a character. */
  lemma {:induction false} ByteLengthAdds(s: string, c: char)
    ensures ByteLength(s + [c]) == ByteLength(s) +
            if c as int < 0x80 then 1 else if c as int < 0x800 then 2 else if c as int < 0x10000 then 3 else 4
    ensures ByteLength("") == 0
  {
    if s != "" {
      ByteLengthAdds(s[1..], c);
      assert (s + [c])[1..] == s[1..] + [c];
    } else {
      assert ([] + [c])[1..] == [];
      assert s + [c] == [c];
    }
  }

  function Normalised(value: string): string {
    WithoutWildcard(TrimSuffixDot(ToLower(TrimSpace(value))))
  }

  lemma ValidatesIff(suffixes: set<string>, value: string, d: string)
    ensures ValidateDomainIndicator(suffixes, value) == Some(d)
       <==> d == Normalised(value) && Passes(d) && d !in suffixes
  {
  }

  lemma ToLowerConcat(a: string, b: string)
    ensures ToLower(a + b) == ToLower(a) + ToLower(b)
  {
    ToLowerAt(a);
    ToLowerAt(b);
    ToLowerAt(a + b);
  }

  lemma StarIsFixed(c: char)
    ensures LowerChar(c) == '*' <==> c == '*'
    ensures LowerChar(c) == '.' <==> c == '.'
  {
  }

  lemma MarksAreFixed()
    ensures ToLower("*.") == "*." && ToLower(".") == "." && ToLower("") == ""
  {
    ToLowerAt("*.");
    ToLowerAt(".");
    ToLowerAt("");
  }

  lemma LowerDressed(star: string, core: string, dot: string)
    requires (star == "" || star == "*.") && (dot == "" || dot == ".")
    ensures ToLower(star + core + dot) == star + ToLower(core) + dot
  {
    MarksAreFixed();
    ToLowerConcat(star + core, dot);
    ToLowerConcat(star, core);
  }

  lemma DressedLower(star: string, core: string, dot: string)
    requires Dressed(star + core + dot, star, core, dot)
    ensures Dressed(star + ToLower(core) + dot, star, ToLower(core), dot)
  {
    ToLowerAt(core);
    if core != "" {
      StarIsFixed(core[|core| - 1]);
      StarIsFixed(core[0]);
      if |core| >= 2 {
        StarIsFixed(core[1]);
      }
    }
  }

  lemma StarTaken(star: string, core: string)
    requires Dressed(star + core + ".", star, core, ".")
    ensures WithoutWildcard(star + core) == core
  {
    if star == "" {
      assert star + core == core;
    } else {
      assert (star + core)[2..] == core;
    }
  }

  lemma DotTaken(star: string, core: string, dot: string)
    requires Dressed(star + core + dot, star, core, dot) && core != ""
    ensures TrimSuffixDot(star + core + dot) == star + core
  {
    var s := star + core;
    if dot == "" {
      assert s + dot == s && s[|s| - 1] == core[|core| - 1];
    } else {
      assert (s + dot)[|s|] == '.' && (s + dot)[..|s|] == s;
    }
  }

  /** A dressed text is undressed by the normalisation. */
  lemma DressedNormalised(text: string, star: string, core: string, dot: string)
    requires Dressed(text, star, core, dot) && core != ""
    ensures WithoutWildcard(TrimSuffixDot(ToLower(text))) == ToLower(core)
  {
    LowerDressed(star, core, dot);
    DressedLower(star, core, dot);
    ToLowerAt(core);
    DotTaken(star, ToLower(core), dot);
    StarTaken(star, ToLower(core));
  }

  /** Any text is its core, dressed. */
  lemma Undressed(text: string) returns (star: string, core: string, dot: string)
    ensures Dressed(text, star, core, dot)
    ensures core == "" ==> WithoutWildcard(TrimSuffixDot(ToLower(text))) == ""
  {
    dot := if text != "" && text[|text| - 1] == '.' then "." else "";
    var t := TrimSuffixDot(text);
    star := if |t| >= 2 && t[0] == '*' && t[1] == '.' then "*." else "";
    core := if star == "" then t else t[2..];
    assert text == t + dot && t == star + core;
    if core == "" {
      LowerDressed(star, core, dot);
      assert TrimSuffixDot(star + "" + dot) == if dot == "." then star else "";
    }
  }

  /** Exactly what the gate accepts, and as which name: the spellings of names of two or more sound labels that
      are not listed as public suffixes. */
  lemma GateIff(suffixes: set<string>, value: string, d: string)
    ensures ValidateDomainIndicator(suffixes, value) == Some(d)
       <==> IndicatorName(d) && d !in suffixes && Written(value, d)
  {
    ValidatesIff(suffixes, value, d);
    PassesIff(d);
    var text := TrimSpace(value);
    TrimIff(value, text);
    if d == Normalised(value) && Passes(d) {
      var star, core, dot := Undressed(text);
      DressedNormalised(text, star, core, dot);
      LowersTo(core, d);
    }
    if IndicatorName(d) && Written(value, d) {
      var t, star, core, dot :| Core(value, t) && Dressed(t, star, core, dot) && SameText(core, d);
      TrimIff(value, t);
      DressedNormalised(text, star, core, dot);
      LowersTo(core, d);
    }
  }

  /** So every stored domain is in small letters, whatever was added. */
  lemma {:induction false} StoredAreSmall(env: Env, t: Table, iocs: seq<IoC>)
    requires SmallTable(t)
    ensures SmallTable(Added(env, t, iocs))
  {
    if iocs != [] {
      var raw := iocs[|iocs| - 1];
      StoredAreSmall(env, t, iocs[..|iocs| - 1]);
      EntryIsSmall(env, raw);
    }
  }

  lemma EntryIsSmall(env: Env, raw: IoC)
    ensures Entry(env, raw).Some? && Entry(env, raw).value.0.Domain? ==> Small(Entry(env, raw).value.0.name)
  {
    if Entry(env, raw).Some? && Entry(env, raw).value.0.Domain? {
      GateIff(env.publicSuffixes, raw.value, Entry(env, raw).value.0.name);
    }
  }

  // ----- digests -----

  predicate DigestKind(kind: string) {
    kind in {"ja3", "tlsfp", "md5", "sha256"}
  }

  /** A digest is refused exactly when it is blank; two share a slot exactly when they agree up to case and outer
      blanks; and a stored one keeps its confidence, with the severity that confidence derives. */
  lemma DigestIff(env: Env, i: IoC, j: IoC)
    requires DigestKind(i.kind) && DigestKind(j.kind)
    ensures Entry(env, i).None? <==> Blank(i.value)
    ensures Entry(env, i).Some? && Entry(env, j).Some? ==>
              (Entry(env, i).value.0 == Entry(env, j).value.0 <==> SameWords(i.value, j.value))
    ensures Entry(env, i).Some? ==>
              var stored := Entry(env, i).value.1;
              && stored.confidence == i.confidence && stored.value == i.value && stored.source == i.source
              && (stored.severity == "critical" <==> i.confidence >= 90)
  {
    NormalIff(i.value, j.value);
    ToLowerAt(TrimSpace(i.value));
    BlankIff(i.value);
  }

  lemma BlankIff(s: string)
    ensures TrimSpace(s) == "" <==> Blank(s)
  {
    var a, b := TrimParts(s);
    BlankConcat(a, b);
    assert a + "" + b == a + b && s + "" + "" == s;
    if Blank(s) {
      TrimBlank(s, "", "");
    }
  }
}
