/** JavaScript measures, compares and slices strings in UTF-16 code units. For
    well-formed strings that is measuring, comparing and slicing characters. */
module CodeUnits {
  import opened Text
  import opened Manifest
  import opened EkvKeys

  lemma {:induction false} Utf16Append(a: string, b: string)
    ensures Utf16(a + b) == Utf16(a) + Utf16(b)
  {
    if a == "" {
      assert a + b == b;
    } else {
      assert (a + b)[1..] == a[1..] + b;
      Utf16Append(a[1..], b);
    }
  }

  lemma Utf16CharPrefixFree(c: char, d: char, x: seq<CodeUnit>, y: seq<CodeUnit>)
    requires Utf16Char(c) + x <= Utf16Char(d) + y
    ensures c == d && x <= y
  {
    var a, b := Utf16Char(c) + x, Utf16Char(d) + y;
    assert a[0] == b[0];
    SurrogatesMark(c);
    SurrogatesMark(d);
    assert |Utf16Char(c)| == |Utf16Char(d)|;
    if |Utf16Char(c)| == 2 {
      assert a[1] == b[1];
    }
    SameUnits(c, d);
    assert a[|Utf16Char(c)|..] == x && b[|Utf16Char(d)|..] == y;
    assert b[..|a|] == a;
    assert b[..|a|][|Utf16Char(d)|..] == y[..|x|];
  }

  /** The first unit says whether a second one follows. */
  lemma SurrogatesMark(c: char)
    ensures |Utf16Char(c)| == 2 <==> 0xD800 <= Utf16Char(c)[0] < 0xDC00
    ensures |Utf16Char(c)| == 1 || |Utf16Char(c)| == 2
  {
  }

  lemma SameUnits(c: char, d: char)
    requires Utf16Char(c) == Utf16Char(d)
    ensures c == d
  {
  }

  /** `startsWith` on code units is `startsWith` on characters. */
  lemma {:induction false} Utf16PrefixIff(p: string, s: string)
    ensures Utf16(p) <= Utf16(s) <==> p <= s
  {
    if p <= s {
      assert s == p + s[|p|..];
      Utf16Append(p, s[|p|..]);
    }
    if p != "" && Utf16(p) <= Utf16(s) {
      SurrogatesMark(p[0]);
      Utf16CharPrefixFree(p[0], s[0], Utf16(p[1..]), Utf16(s[1..]));
      Utf16PrefixIff(p[1..], s[1..]);
      assert p == [p[0]] + p[1..] && s == [s[0]] + s[1..];
    }
  }

  lemma Utf16Injective(s: string, t: string)
    requires Utf16(s) == Utf16(t)
    ensures s == t
  {
    Utf16PrefixIff(s, t);
    Utf16PrefixIff(t, s);
  }

  lemma {:induction false} LowerKeepsUnits(s: string)
    ensures |Utf16(Lower(s))| == |Utf16(s)|
  {
    if s != "" {
      assert Lower(s)[1..] == Lower(s[1..]);
      LowerKeepsUnits(s[1..]);
    }
  }

  /** The match of `matchLongestPrefix`, made in code units, is the match made in
      characters. */
  lemma MatchesInUnitsIff(p: string, path: string)
    ensures Utf16(path) == Utf16(p) || Utf16(p) + Utf16("/") <= Utf16(path) <==> Matches(p, path)
  {
    if Utf16(path) == Utf16(p) {
      Utf16Injective(path, p);
    }
    Utf16Append(p, "/");
    Utf16PrefixIff(p + "/", path);
  }

  /** Slicing a path by the code units of a (case-folded) prefix, as JavaScript
      does, is slicing it by the number of characters of that prefix. */
  lemma UnitSliceIsCharSlice(prefix: string, path: string)
    requires prefix <= Lower(path) || prefix <= path
    ensures |Utf16(prefix)| <= |Utf16(path)|
    ensures Utf16(path)[|Utf16(prefix)|..] == Utf16(path[|prefix|..])
    ensures |Utf16(path)| > |Utf16(prefix)| <==> |path| > |prefix|
  {
    SameUnitCount(prefix, path);
    UnitsFrom(path, |prefix|);
  }

  lemma UnitsFrom(s: string, n: nat)
    requires n <= |s|
    ensures |Utf16(s[..n])| <= |Utf16(s)| && Utf16(s)[|Utf16(s[..n])|..] == Utf16(s[n..])
    ensures |Utf16(s)| > |Utf16(s[..n])| <==> n < |s|
  {
    assert s == s[..n] + s[n..];
    Utf16Append(s[..n], s[n..]);
    if n < |s| {
      SurrogatesMark(s[n]);
      assert s[n..][0] == s[n];
    }
  }

  lemma SameUnitCount(prefix: string, path: string)
    requires prefix <= Lower(path) || prefix <= path
    ensures |prefix| <= |path| && |Utf16(path[..|prefix|])| == |Utf16(prefix)|
  {
    var a := path[..|prefix|];
    if prefix <= path {
      assert a == prefix;
    } else {
      assert Lower(a) == prefix;
      LowerKeepsUnits(a);
    }
  }
}
