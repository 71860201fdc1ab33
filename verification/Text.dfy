// What the text normalisations of the program mean, said character by character:
// when two strings agree up to case, and what is left when the blanks are gone.
module Text {
  import opened Basics

  // ----- case -----

  /** `l` is the small letter of the capital `c`; besides ASCII, two more characters have an ASCII small letter. */
  predicate CapitalOf(c: char, l: char) {
    || ('A' <= c <= 'Z' && l as int - 'a' as int == c as int - 'A' as int)
    || (c == '\U{0130}' && l == 'i')
    || (c == '\U{212A}' && l == 'k')
  }

  predicate SameLetter(c: char, d: char) {
    c == d || CapitalOf(c, d) || CapitalOf(d, c) || exists l: char :: CapitalOf(c, l) && CapitalOf(d, l)
  }

  /** The strings agree character by character, up to case. */
  predicate SameText(s: string, t: string) {
    |s| == |t| && forall i :: 0 <= i < |s| ==> SameLetter(s[i], t[i])
  }

  lemma LowerCharIff(c: char, d: char)
    ensures LowerChar(c) == LowerChar(d) <==> SameLetter(c, d)
  {
    if LowerChar(c) == LowerChar(d) && LowerChar(c) != c && LowerChar(d) != d {
      assert CapitalOf(c, LowerChar(c)) && CapitalOf(d, LowerChar(c));
    }
  }

  lemma {:induction false} ToLowerAt(s: string)
    ensures |ToLower(s)| == |s|
    ensures forall i :: 0 <= i < |s| ==> ToLower(s)[i] == LowerChar(s[i])
  {
    if s != "" {
      ToLowerAt(s[1..]);
    }
  }

  /** Lower-casing identifies exactly the strings that agree up to case. */
  lemma ToLowerIff(s: string, t: string)
    ensures ToLower(s) == ToLower(t) <==> SameText(s, t)
  {
    ToLowerAt(s);
    ToLowerAt(t);
    if ToLower(s) == ToLower(t) {
      forall i | 0 <= i < |s|
        ensures SameLetter(s[i], t[i])
      {
        assert ToLower(s)[i] == ToLower(t)[i];
        LowerCharIff(s[i], t[i]);
      }
    } else if SameText(s, t) {
      forall i | 0 <= i < |s|
        ensures ToLower(s)[i] == ToLower(t)[i]
      {
        LowerCharIff(s[i], t[i]);
      }
    }
  }

  /** No capital in it. */
  predicate Small(s: string) {
    forall i :: 0 <= i < |s| ==> !('A' <= s[i] <= 'Z') && s[i] != '\U{0130}' && s[i] != '\U{212A}'
  }

  lemma {:induction false} SmallIsFixed(s: string)
    ensures Small(s) <==> ToLower(s) == s
    ensures Small(ToLower(s))
  {
    ToLowerAt(s);
    if !Small(s) {
      var i :| 0 <= i < |s| && ('A' <= s[i] <= 'Z' || s[i] == '\U{0130}' || s[i] == '\U{212A}');
      assert ToLower(s)[i] != s[i];
    }
  }

  /** Lower-casing a spelling of a small string gives that string. */
  lemma LowersTo(s: string, t: string)
    ensures ToLower(s) == t <==> Small(t) && SameText(s, t)
  {
    SmallIsFixed(s);
    SmallIsFixed(t);
    ToLowerIff(s, t);
  }

  // ----- blanks -----

  /** The white space of Unicode, listed. */
  const WHITE := "\t\n\U{000B}\U{000C}\r \U{0085}\U{00A0}\U{1680}\U{2000}\U{2001}\U{2002}\U{2003}\U{2004}\U{2005}"
               + "\U{2006}\U{2007}\U{2008}\U{2009}\U{200A}\U{2028}\U{2029}\U{202F}\U{205F}\U{3000}"

  lemma SpaceIsWhite(c: char)
    ensures IsSpace(c) <==> c in WHITE
  {
  }

  predicate Blank(s: string) {
    forall i :: 0 <= i < |s| ==> IsSpace(s[i])
  }

  /** No white space at either end. */
  predicate Tight(s: string) {
    s != "" ==> !IsSpace(s[0]) && !IsSpace(s[|s| - 1])
  }

  lemma BlankConcat(a: string, b: string)
    requires Blank(a) && Blank(b)
    ensures Blank(a + b)
  {
  }

  lemma BlankChar(c: char)
    requires IsSpace(c)
    ensures Blank([c])
  {
  }

  lemma {:induction false} TrimLeftParts(s: string) returns (a: string)
    ensures Blank(a) && s == a + TrimLeft(s)
    ensures TrimLeft(s) != "" ==> !IsSpace(TrimLeft(s)[0])
  {
    a := "";
    if s != "" && IsSpace(s[0]) {
      var b := TrimLeftParts(s[1..]);
      BlankChar(s[0]);
      BlankConcat([s[0]], b);
      a := [s[0]] + b;
      assert s == [s[0]] + s[1..];
    }
  }

  lemma {:induction false} TrimRightParts(s: string) returns (b: string)
    ensures Blank(b) && s == TrimRight(s) + b
    ensures TrimRight(s) != "" ==> !IsSpace(TrimRight(s)[|TrimRight(s)| - 1])
  {
    b := "";
    if s != "" && IsSpace(s[|s| - 1]) {
      var n := |s| - 1;
      var c := TrimRightParts(s[..n]);
      BlankChar(s[n]);
      BlankConcat(c, [s[n]]);
      b := c + [s[n]];
      assert s == s[..n] + [s[n]];
    }
  }

  /** Trimming takes blanks off both ends and nothing else. */
  lemma TrimParts(s: string) returns (a: string, b: string)
    ensures Blank(a) && Blank(b) && Tight(TrimSpace(s)) && s == a + TrimSpace(s) + b
  {
    a := TrimLeftParts(s);
    b := TrimRightParts(TrimLeft(s));
    assert TrimSpace(s) != "" ==> TrimSpace(s)[0] == TrimLeft(s)[0];
  }

  lemma {:induction false} TrimLeftBlank(a: string, s: string)
    requires Blank(a) && (s == "" || !IsSpace(s[0]))
    ensures TrimLeft(a + s) == s
  {
    if a == "" {
      assert a + s == s;
    } else {
      assert (a + s)[1..] == a[1..] + s;
      TrimLeftBlank(a[1..], s);
    }
  }

  lemma {:induction false} TrimRightBlank(s: string, b: string)
    requires Blank(b) && (s == "" || !IsSpace(s[|s| - 1]))
    ensures TrimRight(s + b) == s
  {
    if b == "" {
      assert s + b == s;
    } else {
      var n := |b| - 1;
      assert (s + b)[..|s + b| - 1] == s + b[..n];
      assert (s + b)[|s + b| - 1] == b[n];
      TrimRightBlank(s, b[..n]);
    }
  }

  lemma TrimBlank(a: string, s: string, b: string)
    requires Blank(a) && Blank(b) && Tight(s)
    ensures TrimSpace(a + s + b) == s
  {
    if s == "" {
      assert a + s + b == (a + b) + "";
      TrimLeftBlank(a + b, "");
    } else {
      assert a + s + b == a + (s + b);
      TrimLeftBlank(a, s + b);
      TrimRightBlank(s, b);
    }
  }

  /** `core` is the string without its outer blanks. */
  ghost predicate Core(s: string, core: string) {
    Tight(core) && exists a, b :: Blank(a) && Blank(b) && Wrapped(s, a, core, b)
  }

  predicate Wrapped(s: string, a: string, core: string, b: string) {
    s == a + core + b
  }

  lemma TrimIff(s: string, core: string)
    ensures TrimSpace(s) == core <==> Core(s, core)
  {
    if Core(s, core) {
      var a, b :| Blank(a) && Blank(b) && Wrapped(s, a, core, b);
      TrimBlank(a, core, b);
    } else if TrimSpace(s) == core {
      var a, b := TrimParts(s);
      assert Wrapped(s, a, core, b);
    }
  }

  /** The strings agree up to case and outer blanks. */
  ghost predicate SameWords(s: string, t: string) {
    exists c, d :: Core(s, c) && Core(t, d) && SameText(c, d)
  }

  lemma NormalIff(s: string, t: string)
    ensures ToLower(TrimSpace(s)) == ToLower(TrimSpace(t)) <==> SameWords(s, t)
  {
    TrimIff(s, TrimSpace(s));
    TrimIff(t, TrimSpace(t));
    ToLowerIff(TrimSpace(s), TrimSpace(t));
    if SameWords(s, t) {
      var c, d :| Core(s, c) && Core(t, d) && SameText(c, d);
      TrimIff(s, c);
      TrimIff(t, d);
    }
  }

  // ----- the order of strings -----

  /** The first difference decides, and a proper beginning comes first. */
  predicate Precedes(a: string, b: string) {
    exists i :: 0 <= i <= |a| && FirstDifference(a, b, i)
  }

  predicate FirstDifference(a: string, b: string, i: nat) {
    i <= |a| && i < |b| && a[..i] == b[..i] && (i == |a| || a[i] < b[i])
  }

  lemma SharedHead(a: string, b: string, i: nat)
    requires FirstDifference(a, b, i)
    ensures i == 0 || (a != "" && b != "" && a[0] == b[0])
  {
    if i > 0 {
      assert a[..i][0] == b[..i][0];
    }
  }

  lemma {:induction false} StringLessIff(a: string, b: string)
    ensures StringLess(a, b) <==> Precedes(a, b)
  {
    if a == "" || b == "" || a[0] != b[0] {
      if StringLess(a, b) {
        assert FirstDifference(a, b, 0);
      }
      if Precedes(a, b) {
        var i :| 0 <= i <= |a| && FirstDifference(a, b, i);
        SharedHead(a, b, i);
      }
    } else {
      StringLessIff(a[1..], b[1..]);
      if Precedes(a[1..], b[1..]) {
        var i :| 0 <= i <= |a[1..]| && FirstDifference(a[1..], b[1..], i);
        assert a[..i + 1] == [a[0]] + a[1..][..i] && b[..i + 1] == [b[0]] + b[1..][..i];
        assert FirstDifference(a, b, i + 1);
      }
      if Precedes(a, b) {
        var i :| 0 <= i <= |a| && FirstDifference(a, b, i);
        assert a[1..][..i - 1] == a[..i][1..] && b[1..][..i - 1] == b[..i][1..];
        assert FirstDifference(a[1..], b[1..], i - 1);
      }
    }
  }
}
