// Exactly which spellings of which names the sinkhole driver accepts, and the
// rule each of them leads to (sinkhole.go).
module Hostnames {
  import opened Basics
  import opened Text
  import opened Actions
  import opened Sinkhole

  predicate PlainChar(c: char) {
    'a' <= c <= 'z' || '0' <= c <= '9' || c == '-'
  }

  /** 1 to 63 small letters, digits and inner hyphens. */
  predicate PlainLabel(l: string) {
    1 <= |l| <= 63 && l[0] != '-' && l[|l| - 1] != '-' && forall i :: 0 <= i < |l| ==> PlainChar(l[i])
  }

  predicate PlainLabels(labels: seq<string>) {
    |labels| >= 2 && forall i :: 0 <= i < |labels| ==> PlainLabel(labels[i])
  }

  /** Two or more labels with dots between them, at most 253 characters. */
  ghost predicate PlainName(d: string) {
    |d| <= 253 && exists labels :: PlainLabels(labels) && Join(labels, '.') == d
  }

  /** The name in any case, with blanks around it and possibly one dot behind. */
  ghost predicate Spelled(domain: string, d: string) {
    exists a, core, b, dot, c :: SpelledAs(domain, a, core, b, dot, c) && SameText(core, d)
  }

  predicate SpelledAs(domain: string, a: string, core: string, b: string, dot: string, c: string) {
    Blank(a) && Blank(b) && Blank(c) && (dot == "" || dot == ".") && domain == a + core + b + dot + c
  }

  // ----- names -----

  lemma LabelIff(l: string)
    ensures Label(l) <==> PlainLabel(l)
  {
    if PlainLabel(l) {
      forall c | c in l
        ensures HostChar(c)
      {
        var i :| 0 <= i < |l| && l[i] == c;
        assert PlainChar(l[i]);
      }
    } else if Label(l) {
      forall i | 0 <= i < |l|
        ensures PlainChar(l[i])
      {
        assert l[i] in l;
      }
    }
  }

  lemma HostnameIff(d: string)
    ensures Hostname(d) <==> exists labels :: PlainLabels(labels) && Join(labels, '.') == d
  {
    if Hostname(d) {
      var labels := Split(d, '.');
      forall i | 0 <= i < |labels|
        ensures PlainLabel(labels[i])
      {
        assert labels[i] in labels;
        LabelIff(labels[i]);
      }
      JoinSplit(d, '.');
      assert PlainLabels(labels);
    }
    if labels :| PlainLabels(labels) && Join(labels, '.') == d {
      forall i | 0 <= i < |labels|
        ensures '.' !in labels[i]
      {
        assert PlainLabel(labels[i]);
      }
      SplitJoin(labels, '.');
      forall l | l in labels
        ensures Label(l)
      {
        LabelIff(l);
      }
    }
  }

  lemma PlainNameShape(d: string)
    requires PlainName(d)
    ensures d != "" && DomainChars(d) && d[|d| - 1] != '.' && Small(d)
  {
    HostnameIff(d);
    HostnameShape(d);
    forall i | 0 <= i < |d|
      ensures !('A' <= d[i] <= 'Z') && d[i] != '\U{0130}' && d[i] != '\U{212A}'
    {
      assert HostChar(d[i]) || d[i] == '.';
    }
  }

  // ----- spellings -----

  /** A spelling of a plain name has no blank and no dot at its ends. */
  lemma CoreShape(core: string, d: string)
    requires PlainName(d) && SameText(core, d)
    ensures core != "" && Tight(core) && core[|core| - 1] != '.'
  {
    PlainNameShape(d);
    var n := |core| - 1;
    assert SameLetter(core[0], d[0]) && SameLetter(core[n], d[n]);
    assert HostChar(d[n]);
    NotWhite(core[0], d[0]);
    NotWhite(core[n], d[n]);
  }

  lemma NotWhite(c: char, d: char)
    requires SameLetter(c, d) && (HostChar(d) || d == '.')
    ensures !IsSpace(c)
    ensures c == '.' ==> d == '.'
  {
    LowerCharIff(c, d);
  }

  function Stripped(domain: string): string {
    TrimSpace(TrimSuffixDot(TrimSpace(domain)))
  }

  lemma UndottedSpelling(a: string, core: string, b: string)
    requires Blank(a) && Blank(b) && core != "" && Tight(core) && core[|core| - 1] != '.'
    ensures Stripped(a + core + b) == core
  {
    TrimBlank(a, core, b);
    assert "" + core + "" == core;
    TrimBlank("", core, "");
  }

  lemma DottedSpelling(a: string, core: string, b: string, c: string)
    requires Blank(a) && Blank(b) && Blank(c) && core != "" && Tight(core)
    ensures Stripped(a + (core + b + ".") + c) == core
  {
    var s := core + b + ".";
    assert s[0] == core[0] && s[|s| - 1] == '.';
    TrimBlank(a, s, c);
    assert TrimSuffixDot(s) == "" + core + b;
    TrimBlank("", core, b);
  }

  lemma StrippedSpelling(domain: string, a: string, core: string, b: string, dot: string, c: string)
    requires SpelledAs(domain, a, core, b, dot, c) && core != "" && Tight(core) && core[|core| - 1] != '.'
    ensures Stripped(domain) == core
  {
    if dot == "" {
      assert domain == a + core + (b + c);
      BlankConcat(b, c);
      UndottedSpelling(a, core, b + c);
    } else {
      assert domain == a + (core + b + ".") + c;
      DottedSpelling(a, core, b, c);
    }
  }

  lemma Regrouped(a1: string, a2: string, core: string, b: string, dot: string, c: string)
    ensures a1 + (a2 + core + b + dot) + c == (a1 + a2) + core + b + dot + c
  {
  }

  lemma StrippedParts(domain: string) returns (a: string, b: string, dot: string, c: string)
    ensures SpelledAs(domain, a, Stripped(domain), b, dot, c)
  {
    var a1, c1 := TrimParts(domain);
    var t := TrimSpace(domain);
    var u := TrimSuffixDot(t);
    var a2, b2 := TrimParts(u);
    BlankConcat(a1, a2);
    a, b, c := a1 + a2, b2, c1;
    dot := if u == t then "" else ".";
    assert t == u + dot;
    Regrouped(a1, a2, Stripped(domain), b2, dot, c1);
  }

  /** Exactly the spellings of plain names are accepted, each as the name it spells. */
  lemma ValidateIff(domain: string, d: string)
    ensures ValidateDomain(domain) == Some(d) <==> PlainName(d) && Spelled(domain, d)
  {
    HostnameIff(d);
    if ValidateDomain(domain) == Some(d) {
      var a, b, dot, c := StrippedParts(domain);
      LowersTo(Stripped(domain), d);
      assert SpelledAs(domain, a, Stripped(domain), b, dot, c) && SameText(Stripped(domain), d);
    }
    if PlainName(d) && Spelled(domain, d) {
      var a, core, b, dot, c :| SpelledAs(domain, a, core, b, dot, c) && SameText(core, d);
      CoreShape(core, d);
      StrippedSpelling(domain, a, core, b, dot, c);
      PlainNameShape(d);
      LowersTo(core, d);
    }
  }

  // ----- what the driver does with a name -----

  /** A name that can be spelled is blocked by one rule of its own; anything else is refused. */
  lemma AppliedExactly(rules: seq<string>, domain: string)
    ensures forall d :: PlainName(d) && Spelled(domain, d) ==>
              var rule := "||" + d + "^";
              Applied(rules, domain, Net(true, true)) == (if rule in rules then rules else rules + [rule], None)
    ensures (forall d :: !(PlainName(d) && Spelled(domain, d))) ==>
              forall net :: Applied(rules, domain, net) == (rules, Some(BadDomain))
  {
    forall d
      ensures ValidateDomain(domain) == Some(d) <==> PlainName(d) && Spelled(domain, d)
    {
      ValidateIff(domain, d);
    }
    if ValidateDomain(domain).Some? {
      var d := ValidateDomain(domain).value;
      assert PlainName(d) && Spelled(domain, d);
    }
  }
}
