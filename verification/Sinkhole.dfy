// The DNS sinkhole driver (sinkhole.go): validation of the domain and the
// read-modify-write of AdGuard's rule list.
module Sinkhole {
  import opened Basics
  import opened Actions

  predicate AlphaNum(c: char) {
    'a' <= c <= 'z' || '0' <= c <= '9'
  }

  predicate HostChar(c: char) {
    AlphaNum(c) || c == '-'
  }

  /** One label of the domain pattern: 1 to 63 characters, no hyphen at either end. */
  predicate Label(l: string) {
    1 <= |l| <= 63 && AlphaNum(l[0]) && AlphaNum(l[|l| - 1]) && forall c :: c in l ==> HostChar(c)
  }

  /** The domain pattern: at least two labels. */
  predicate Hostname(d: string) {
    var labels := Split(d, '.');
    |labels| >= 2 && forall l :: l in labels ==> Label(l)
  }

  function ValidateDomain(domain: string): Option<string> {
    var d := ToLower(TrimSpace(TrimSuffixDot(TrimSpace(domain))));
    if d == "" || |d| > 253 || !Hostname(d) then None else Some(d)
  }

  function Rule(d: string): string {
    "||" + d + "^"
  }

  // ----- what a validated domain looks like -----

  predicate DomainChars(d: string) {
    forall i :: 0 <= i < |d| ==> HostChar(d[i]) || d[i] == '.'
  }

  lemma {:induction false} SplitChars(d: string)
    requires forall l :: l in Split(d, '.') ==> forall c :: c in l ==> HostChar(c)
    ensures DomainChars(d)
  {
    if d != "" {
      var rest := Split(d[1..], '.');
      if d[0] == '.' {
        forall l | l in rest
          ensures l in Split(d, '.')
        {
        }
      } else {
        var first := [d[0]] + rest[0];
        assert Split(d, '.') == [first] + rest[1..];
        assert first in Split(d, '.');
        assert d[0] in first;
        forall l | l in rest
          ensures forall c :: c in l ==> HostChar(c)
        {
          if l == rest[0] {
            forall c | c in l
              ensures HostChar(c)
            {
              assert c in first;
            }
          } else {
            assert l in rest[1..] && l in [first] + rest[1..];
          }
        }
      }
      SplitChars(d[1..]);
    }
  }

  lemma {:induction false} SplitEnd(d: string)
    requires d != ""
    ensures var parts := Split(d, '.'); d[|d| - 1] == '.' <==> parts[|parts| - 1] == ""
  {
    if |d| > 1 {
      SplitEnd(d[1..]);
      var rest := Split(d[1..], '.');
      assert d[1..][|d| - 2] == d[|d| - 1];
    } else {
      assert d[1..] == "";
    }
  }

  lemma {:induction false} LowerFixed(d: string)
    requires DomainChars(d)
    ensures ToLower(d) == d
  {
    if d != "" {
      LowerFixed(d[1..]);
    }
  }

  lemma NormalisationFixed(d: string)
    requires d != "" && DomainChars(d) && d[|d| - 1] != '.'
    ensures ToLower(TrimSpace(TrimSuffixDot(TrimSpace(d)))) == d
  {
    assert !IsSpace(d[0]) && !IsSpace(d[|d| - 1]);
    assert TrimSpace(d) == d;
    LowerFixed(d);
  }

  lemma HostnameShape(d: string)
    requires d != "" && Hostname(d)
    ensures DomainChars(d) && d[|d| - 1] != '.'
  {
    SplitChars(d);
    SplitEnd(d);
    var parts := Split(d, '.');
    assert parts[|parts| - 1] in parts;
  }

  /** A validated domain is made of lower-case letters, digits, dots and hyphens, so its rule is a single
      line without wildcards; and validating it again returns it unchanged. */
  lemma ValidatedIsPlain(domain: string)
    requires ValidateDomain(domain).Some?
    ensures DomainChars(ValidateDomain(domain).value)
    ensures forall c :: c in "\n\r*|^/ " ==> c !in ValidateDomain(domain).value
    ensures ValidateDomain(ValidateDomain(domain).value) == ValidateDomain(domain)
  {
    var d := ValidateDomain(domain).value;
    HostnameShape(d);
    NormalisationFixed(d);
    forall c | c in "\n\r*|^/ "
      ensures c !in d
    {
      assert !HostChar(c) && c != '.';
    }
  }

  lemma RuleInjective(d: string, e: string)
    ensures Rule(d) == Rule(e) <==> d == e
  {
    assert d == Rule(d)[2..|Rule(d)| - 1];
    assert e == Rule(e)[2..|Rule(e)| - 1];
  }

  // ----- the rule list -----

  /** Whether AdGuard answers the read and the write of one driver call. */
  datatype Net = Net(get: bool, set_: bool)

  function Without(rules: seq<string>, rule: string): seq<string> {
    if rules == [] then []
    else Without(rules[..|rules| - 1], rule) + (if rules[|rules| - 1] != rule then [rules[|rules| - 1]] else [])
  }

  /** The driver's effect: the new rule list and the error, if any. A failed call changes nothing. */
  function Applied(rules: seq<string>, domain: string, net: Net): (seq<string>, Option<Failure>) {
    match ValidateDomain(domain)
    case None => (rules, Some(BadDomain))
    case Some(d) =>
      if !net.get then (rules, Some(GetRules))
      else if Rule(d) in rules then (rules, None)
      else if !net.set_ then (rules, Some(SetRules))
      else (rules + [Rule(d)], None)
  }

  function Removed(rules: seq<string>, domain: string, net: Net): (seq<string>, Option<Failure>) {
    match ValidateDomain(domain)
    case None => (rules, None)
    case Some(d) =>
      if !net.get then (rules, Some(GetRules))
      else if |Without(rules, Rule(d))| == |rules| then (rules, None)
      else if !net.set_ then (rules, Some(SetRules))
      else (Without(rules, Rule(d)), None)
  }

  class SinkholeDriver {
    var rules: seq<string>  // user_rules as AdGuard stores them

    constructor (rules: seq<string>)
      ensures this.rules == rules
    {
      this.rules := rules;
    }

    method Apply(action: Action, net: Net) returns (err: Option<Failure>)
      modifies this
      ensures (rules, err) == Applied(old(rules), action.domain, net)
    {
      var valid := ValidateDomain(action.domain);
      if valid.None? {
        return Some(BadDomain);
      }
      var rule := Rule(valid.value);
      if !net.get {
        return Some(GetRules);
      }
      for i := 0 to |rules|
        invariant rules == old(rules) && rule !in rules[..i]
      {
        if rules[i] == rule {
          return None;
        }
      }
      assert rules[..|rules|] == rules;
      if !net.set_ {
        return Some(SetRules);
      }
      rules := rules + [rule];
      return None;
    }

    method Revert(action: Action, net: Net) returns (err: Option<Failure>)
      modifies this
      ensures (rules, err) == Removed(old(rules), action.domain, net)
    {
      var valid := ValidateDomain(action.domain);
      if valid.None? {
        return None;
      }
      var rule := Rule(valid.value);
      if !net.get {
        return Some(GetRules);
      }
      var filtered: seq<string> := [];
      for i := 0 to |rules|
        invariant rules == old(rules) && filtered == Without(rules[..i], rule)
      {
        assert rules[..i + 1][..i] == rules[..i];
        if rules[i] != rule {
          filtered := filtered + [rules[i]];
        }
      }
      assert rules[..|rules|] == rules;
      if |filtered| == |rules| {
        return None;
      }
      if !net.set_ {
        return Some(SetRules);
      }
      rules := filtered;
      return None;
    }
  }

  // ----- laws of the rule list -----

  lemma {:induction false} WithoutContents(rules: seq<string>, rule: string)
    ensures forall r :: r in Without(rules, rule) <==> r in rules && r != rule
    ensures |Without(rules, rule)| <= |rules|
    ensures |Without(rules, rule)| == |rules| <==> rule !in rules
    ensures rule !in rules ==> Without(rules, rule) == rules
  {
    if rules != [] {
      var n := |rules| - 1;
      WithoutContents(rules[..n], rule);
      assert rules == rules[..n] + [rules[n]];
    }
  }

  /** The rules outside a set, in order. */
  function Foreign(rules: seq<string>, own: set<string>): seq<string> {
    if rules == [] then []
    else Foreign(rules[..|rules| - 1], own) + (if rules[|rules| - 1] !in own then [rules[|rules| - 1]] else [])
  }

  lemma {:induction false} ForeignWithout(rules: seq<string>, rule: string, own: set<string>)
    requires rule in own
    ensures Foreign(Without(rules, rule), own) == Foreign(rules, own)
  {
    if rules != [] {
      var n := |rules| - 1;
      ForeignWithout(rules[..n], rule, own);
      if rules[n] != rule {
        assert (Without(rules[..n], rule) + [rules[n]])[..|Without(rules[..n], rule)|] == Without(rules[..n], rule);
      } else {
        assert Without(rules, rule) == Without(rules[..n], rule);
      }
    }
  }

  lemma ForeignAppend(rules: seq<string>, rule: string, own: set<string>)
    requires rule in own
    ensures Foreign(rules + [rule], own) == Foreign(rules, own)
  {
    assert (rules + [rule])[..|rules|] == rules;
  }

  /** After a successful apply the rule is present, after a successful revert it is absent, and no
      other rule is gained, lost or moved. */
  lemma DriverLaws(rules: seq<string>, domain: string, net: Net, d: string)
    requires ValidateDomain(domain) == Some(d)
    ensures Applied(rules, domain, net).1.None? ==> Rule(d) in Applied(rules, domain, net).0
    ensures Removed(rules, domain, net).1.None? ==> Rule(d) !in Removed(rules, domain, net).0
    ensures Applied(rules, domain, net).1.Some? ==> Applied(rules, domain, net).0 == rules
    ensures Removed(rules, domain, net).1.Some? ==> Removed(rules, domain, net).0 == rules
    ensures forall r :: r != Rule(d) ==> (r in Applied(rules, domain, net).0 <==> r in rules)
    ensures forall r :: r != Rule(d) ==> (r in Removed(rules, domain, net).0 <==> r in rules)
    ensures Foreign(Applied(rules, domain, net).0, {Rule(d)}) == Foreign(rules, {Rule(d)})
    ensures Foreign(Removed(rules, domain, net).0, {Rule(d)}) == Foreign(rules, {Rule(d)})
  {
    WithoutContents(rules, Rule(d));
    ForeignWithout(rules, Rule(d), {Rule(d)});
    ForeignAppend(rules, Rule(d), {Rule(d)});
  }
}
