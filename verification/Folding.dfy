/** What case folding, trimming and host normalisation mean, said without them. */
module Folding {
  import opened Text
  import opened Paths
  import opened Model

  // ---------------------------------------------------------------------------
  // ASCII case
  // ---------------------------------------------------------------------------

  const UPPER := "ABCDEFGHIJKLMNOPQRSTUVWXYZ"
  const LOWER := "abcdefghijklmnopqrstuvwxyz"

  /** The same character, or one letter in its two cases. */
  predicate SameLetter(a: char, b: char) {
    a == b || exists k :: 0 <= k < 26 && IsPairAt(a, b, k)
  }

  predicate IsPairAt(a: char, b: char, k: nat)
    requires k < 26
  {
    (a == UPPER[k] && b == LOWER[k]) || (a == LOWER[k] && b == UPPER[k])
  }

  predicate SameUpToCase(s: string, t: string) {
    |s| == |t| && forall i :: 0 <= i < |s| ==> SameLetter(s[i], t[i])
  }

  predicate HasUpper(s: string) {
    exists i :: 0 <= i < |s| && s[i] in UPPER
  }

  lemma LettersInOrder(k: nat)
    requires k < 26
    ensures UPPER[k] as int == 65 + k && LOWER[k] as int == 97 + k
  {
  }

  lemma UpperIsRange(c: char)
    ensures c in UPPER <==> 65 <= c as int <= 90
  {
    if 65 <= c as int <= 90 {
      LettersInOrder(c as int - 65);
      assert UPPER[c as int - 65] == c;
    }
    if c in UPPER {
      var k :| 0 <= k < |UPPER| && UPPER[k] == c;
      LettersInOrder(k);
    }
  }

  lemma LowerCharMeaning(c: char)
    ensures SameLetter(c, LowerChar(c)) && LowerChar(c) !in UPPER
    ensures LowerChar(c) == c <==> c !in UPPER
  {
    UpperIsRange(c);
    UpperIsRange(LowerChar(c));
    if c in UPPER {
      var k := c as int - 65;
      LettersInOrder(k);
      assert IsPairAt(c, LowerChar(c), k);
    }
  }

  lemma SameLetterIff(a: char, b: char)
    ensures SameLetter(a, b) <==> LowerChar(a) == LowerChar(b)
  {
    UpperIsRange(a);
    UpperIsRange(b);
    if a != b && SameLetter(a, b) {
      var k :| 0 <= k < 26 && IsPairAt(a, b, k);
      LettersInOrder(k);
    }
    if a != b && LowerChar(a) == LowerChar(b) {
      var k := LowerChar(a) as int - 97;
      LettersInOrder(k);
      assert IsPairAt(a, b, k);
    }
  }

  /** Folding changes the case of letters only and leaves no upper-case one. */
  lemma LowerMeaning(s: string)
    ensures SameUpToCase(s, Lower(s)) && !HasUpper(Lower(s))
  {
    forall i | 0 <= i < |s| ensures SameLetter(s[i], Lower(s)[i]) && Lower(s)[i] !in UPPER {
      LowerCharMeaning(s[i]);
    }
  }

  /** Two strings fold to one exactly when they are the same up to case. */
  lemma FoldsAlikeIff(s: string, t: string)
    ensures Lower(s) == Lower(t) <==> SameUpToCase(s, t)
  {
    if |s| == |t| {
      forall i | 0 <= i < |s| ensures SameLetter(s[i], t[i]) <==> Lower(s)[i] == Lower(t)[i] {
        SameLetterIff(s[i], t[i]);
      }
    }
  }

  lemma LowerFixesIff(s: string)
    ensures Lower(s) == s <==> !HasUpper(s)
  {
    forall i | 0 <= i < |s| ensures Lower(s)[i] == s[i] <==> s[i] !in UPPER {
      LowerCharMeaning(s[i]);
    }
  }

  // ---------------------------------------------------------------------------
  // White space
  // ---------------------------------------------------------------------------

  const WHITE := "\t\n\U{0B}\U{0C}\r \U{85}\U{A0}\U{1680}\U{2000}\U{2001}\U{2002}\U{2003}\U{2004}\U{2005}\U{2006}\U{2007}\U{2008}\U{2009}\U{200A}\U{2028}\U{2029}\U{202F}\U{205F}\U{3000}"

  lemma WhitespaceIff(c: char)
    ensures IsWhitespace(c) <==> c in WHITE
  {
  }

  predicate AllWhite(s: string) {
    forall i :: 0 <= i < |s| ==> IsWhitespace(s[i])
  }

  predicate StartsWhite(s: string) {
    s != "" && IsWhitespace(s[0])
  }

  /** The string is the core with white space around it, and none in its ends. */
  predicate Surrounds(s: string, before: string, core: string, after: string) {
    s == before + core + after && AllWhite(before) && AllWhite(after) && !StartsWhite(core) && !EndsInWhitespace(core)
  }

  lemma {:induction false} TrimStartMeaning(s: string) returns (before: string)
    ensures s == before + TrimStart(s) && AllWhite(before) && !StartsWhite(TrimStart(s))
  {
    before := "";
    if s != "" && IsWhitespace(s[0]) {
      before := TrimStartMeaning(s[1..]);
      before := [s[0]] + before;
    }
  }

  lemma TrimMeaning(s: string) returns (before: string, after: string)
    ensures Surrounds(s, before, Trim(s), after)
  {
    before := TrimStartMeaning(s);
    var t := TrimStart(s);
    after := t[|Trim(s)|..];
    assert t == Trim(s) + after;
    assert Trim(s) != "" ==> Trim(s)[0] == t[0];
  }

  lemma TrimFixesIff(s: string)
    ensures Trim(s) == s <==> !StartsWhite(s) && !EndsInWhitespace(s)
  {
    var before, after := TrimMeaning(s);
    if !StartsWhite(s) && !EndsInWhitespace(s) {
      assert TrimStart(s) == s;
    }
  }

  lemma TrimShortens(s: string)
    ensures |Trim(s)| <= |s| && (|Trim(s)| == |s| <==> Trim(s) == s)
  {
    var before, after := TrimMeaning(s);
    if |Trim(s)| == |s| {
      assert before == "" && after == "";
    }
  }

  // ---------------------------------------------------------------------------
  // Hosts
  // ---------------------------------------------------------------------------

  /** A host as it is stored: no port, no upper-case letter. */
  predicate IsLowerHost(h: string) {
    ':' !in h && !HasUpper(h)
  }

  /** The name, alone or followed by a port. */
  predicate HasName(raw: string, name: string) {
    ':' !in name && (raw == name || name + ":" <= raw)
  }

  /** The host up to case, alone or followed by a port. */
  ghost predicate Spells(raw: string, h: string) {
    exists name :: HasName(raw, name) && SameUpToCase(name, h)
  }

  lemma BeforePortIff(raw: string, name: string)
    ensures HasName(raw, name) <==> BeforePort(raw) == name
  {
    var i := IndexOf(raw, ':');
    if HasName(raw, name) && raw != name {
      var rest := raw[|name| + 1..];
      assert raw == name + [':'] + rest;
      IndexOfAppend(name, ':', rest);
    }
    if BeforePort(raw) == name {
      if i < |raw| {
        assert raw[..i + 1] == name + ":";
      }
    }
  }

  lemma NoPort(raw: string)
    ensures ':' !in BeforePort(raw) && |BeforePort(raw)| <= |raw|
    ensures BeforePort(raw) == raw <==> ':' !in raw
  {
  }

  lemma LowerKeepsColon(s: string)
    ensures ':' in Lower(s) <==> ':' in s
  {
    forall i | 0 <= i < |s| ensures Lower(s)[i] == ':' <==> s[i] == ':' {
    }
    if ':' in s {
      var i :| 0 <= i < |s| && s[i] == ':';
      assert Lower(s)[i] == ':';
    }
  }

  /** Every string spells one lower-case host, the folded part before the port. */
  lemma SpellsIff(raw: string, h: string)
    requires !HasUpper(h)
    ensures Spells(raw, h) <==> Lower(BeforePort(raw)) == h
    ensures IsLowerHost(Lower(BeforePort(raw)))
  {
    var name := BeforePort(raw);
    NoPort(raw);
    LowerMeaning(name);
    LowerKeepsColon(name);
    LowerFixesIff(h);
    FoldsAlikeIff(name, h);
    BeforePortIff(raw, name);
    if Lower(name) == h {
      assert HasName(raw, name) && SameUpToCase(name, h);
    }
    if Spells(raw, h) {
      var n :| HasName(raw, n) && SameUpToCase(n, h);
      BeforePortIff(raw, n);
    }
  }

  /** What the control plane stores a host as: what its text, without white space
      around it, spells. */
  lemma NormalizeHostIff(raw: string, before: string, core: string, after: string, h: string)
    requires Surrounds(raw, before, core, after) && !HasUpper(h)
    ensures NormalizeHost(raw) == h <==> Spells(core, h)
    ensures IsLowerHost(NormalizeHost(raw)) && !StartsWhite(NormalizeHost(raw))
  {
    TrimIsCore(raw, before, core, after);
    SpellsIff(core, h);
    LowerKeepsWhite(BeforePort(core));
  }

  lemma LowerKeepsWhite(s: string)
    ensures StartsWhite(Lower(s)) <==> StartsWhite(s)
    ensures EndsInWhitespace(Lower(s)) <==> EndsInWhitespace(s)
  {
    assert forall c: char :: IsWhitespace(LowerChar(c)) <==> IsWhitespace(c);
  }

  lemma {:induction false} TrimIsCore(s: string, before: string, core: string, after: string)
    requires Surrounds(s, before, core, after)
    ensures Trim(s) == core
    decreases |before|
  {
    if before != "" {
      assert s[0] == before[0] && s[1..] == before[1..] + core + after;
      TrimIsCore(s[1..], before[1..], core, after);
    } else if core == "" {
      WhiteTrims(after);
      assert s == after;
    } else {
      assert s[0] == core[0];
      EndTrims(core, after);
      assert s == core + after;
    }
  }

  lemma {:induction false} WhiteTrims(s: string)
    requires AllWhite(s)
    ensures Trim(s) == ""
  {
    if s != "" {
      WhiteTrims(s[1..]);
    }
  }

  lemma {:induction false} EndTrims(core: string, after: string)
    requires AllWhite(after) && !EndsInWhitespace(core)
    ensures TrimEnd(core + after) == core
  {
    if after != "" {
      var s := core + after;
      assert s[|s| - 1] == after[|after| - 1];
      assert s[..|s| - 1] == core + after[..|after| - 1];
      EndTrims(core, after[..|after| - 1]);
    } else {
      assert core + after == core;
    }
  }

  /** A host is stored as it is written exactly when it has no port, no upper-case
      letter and no white space around it. */
  lemma NormalHostIff(h: string)
    ensures NormalizeHost(h) == h <==> IsLowerHost(h) && !StartsWhite(h) && !EndsInWhitespace(h)
  {
    TrimFixesIff(h);
    TrimShortens(h);
    NoPort(Trim(h));
    LowerFixesIff(h);
    LowerMeaning(BeforePort(Trim(h)));
  }
}
