/** Path normalisation: `normalize_path` of shared/src/model.rs and
    `normalizePath` of edgeworker/main.js, two loops that must agree. */
module Paths {
  import opened Text

  // ---------------------------------------------------------------------------
  // What a normalised path is
  // ---------------------------------------------------------------------------

  predicate EndsWithSlash(s: string) {
    s != "" && s[|s| - 1] == '/'
  }

  ghost predicate NoDoubleSlash(s: string) {
    forall i :: 0 < i < |s| ==> !(s[i - 1] == '/' && s[i] == '/')
  }

  /** A leading slash, no empty segment, no trailing slash except on the root. */
  ghost predicate IsClean(p: string) {
    && "/" <= p
    && NoDoubleSlash(p)
    && (|p| > 1 ==> !EndsWithSlash(p))
  }

  function Rooted(s: string): string {
    if "/" <= s then s else "/" + s
  }

  function DropTrailing(s: string): string {
    if |s| > 1 && EndsWithSlash(s) then s[..|s| - 1] else s
  }

  /** Every run of slashes becomes one slash, in one pass. */
  function Collapse(s: string): (r: string)
    ensures |r| <= |s|
    ensures s != "" ==> r != "" && r[0] == s[0]
  {
    if |s| < 2 then s
    else if s[0] == '/' && s[1] == '/' then Collapse(s[1..])
    else [s[0]] + Collapse(s[1..])
  }

  function Clean(s: string): string {
    DropTrailing(Collapse(Rooted(s)))
  }

  /** `str::replace("//", "/")`: left to right, without overlaps. */
  function ReplacePairs(s: string): (r: string)
    ensures |r| <= |s|
    ensures s != "" ==> r != "" && r[0] == s[0]
  {
    if |s| < 2 then s
    else if s[0] == '/' && s[1] == '/' then "/" + ReplacePairs(s[2..])
    else [s[0]] + ReplacePairs(s[1..])
  }

  lemma {:induction false} ReplacePairsShrinks(s: string)
    requires Contains(s, "//")
    ensures |ReplacePairs(s)| < |s|
  {
    if !("//" <= s) {
      ReplacePairsShrinks(s[1..]);
    }
  }

  lemma {:induction false} CollapseAfterReplace(s: string)
    ensures Collapse(ReplacePairs(s)) == Collapse(s)
    decreases |s|
  {
    if |s| < 2 {
    } else if s[0] == '/' && s[1] == '/' {
      CollapseAfterReplace(s[2..]);
      CollapseHead('/', ReplacePairs(s[2..]), s[2..]);
      assert s[1..] == ['/'] + s[2..];
    } else {
      CollapseAfterReplace(s[1..]);
      CollapseHead(s[0], ReplacePairs(s[1..]), s[1..]);
      assert s == [s[0]] + s[1..];
    }
  }

  /** Collapsing under a common head depends on the tail's collapse only. */
  lemma CollapseHead(c: char, x: string, y: string)
    requires Collapse(x) == Collapse(y)
    requires x == "" <==> y == ""
    ensures Collapse([c] + x) == Collapse([c] + y)
  {
    assert ([c] + x)[1..] == x && ([c] + y)[1..] == y;
  }

  lemma {:induction false} CollapseFixed(s: string)
    requires !Contains(s, "//")
    ensures Collapse(s) == s
  {
    if |s| >= 2 {
      assert s[0] == '/' && s[1] == '/' ==> "//" <= s;
      CollapseFixed(s[1..]);
    }
  }

  // ---------------------------------------------------------------------------
  // The two loops
  // ---------------------------------------------------------------------------

  /** The White_Space property, which `str::trim` strips. */
  predicate IsWhitespace(c: char) {
    var n := c as int;
    || 0x09 <= n <= 0x0D || n == 0x20 || n == 0x85 || n == 0xA0 || n == 0x1680
    || 0x2000 <= n <= 0x200A || n == 0x2028 || n == 0x2029 || n == 0x202F || n == 0x205F || n == 0x3000
  }

  function TrimStart(s: string): (r: string)
    ensures |r| <= |s|
    ensures r != "" ==> !IsWhitespace(r[0])
    ensures |r| == |s| <==> r == s
  {
    if s != "" && IsWhitespace(s[0]) then TrimStart(s[1..]) else s
  }

  function TrimEnd(s: string): (r: string)
    ensures |r| <= |s| && r == s[..|r|]
    ensures r != "" ==> !IsWhitespace(r[|r| - 1])
    ensures forall i :: |r| <= i < |s| ==> IsWhitespace(s[i])
  {
    if s != "" && IsWhitespace(s[|s| - 1]) then TrimEnd(s[..|s| - 1]) else s
  }

  function Trim(s: string): string {
    TrimEnd(TrimStart(s))
  }

  /** The shared loop of both versions, run on an already rooted path. */
  method CollapseLoop(s: string) returns (p: string)
    ensures p == Collapse(s)
  {
    p := s;
    while Contains(p, "//")
      invariant Collapse(p) == Collapse(s)
      decreases |p|
    {
      ReplacePairsShrinks(p);
      CollapseAfterReplace(p);
      p := ReplacePairs(p);
    }
    CollapseFixed(p);
  }

  /** shared/src/model.rs `normalize_path`. */
  method NormalizePath(raw: string) returns (p: string)
    ensures p == Clean(Trim(raw))
  {
    p := Trim(raw);
    if !("/" <= p) {
      p := "/" + p;
    }
    p := CollapseLoop(p);
    if |p| > 1 && EndsWithSlash(p) {
      p := p[..|p| - 1];
    }
  }

  /** edgeworker/main.js `normalizePath`: `p || '/'`, no trimming. */
  method NormalizePathJs(raw: string) returns (s: string)
    ensures s == Clean(raw)
  {
    s := if raw == "" then "/" else raw;
    if !("/" <= s) {
      s := "/" + s;
    }
    s := CollapseLoop(s);
    if |s| > 1 && EndsWithSlash(s) {
      s := s[..|s| - 1];
    }
  }

  // ---------------------------------------------------------------------------
  // Laws
  // ---------------------------------------------------------------------------

  lemma {:induction false} CollapseHasNoDouble(s: string)
    ensures NoDoubleSlash(Collapse(s))
  {
    if |s| >= 2 {
      CollapseHasNoDouble(s[1..]);
      var r := Collapse(s[1..]);
      if !(s[0] == '/' && s[1] == '/') {
        forall i | 0 < i < 1 + |r| ensures !(([s[0]] + r)[i - 1] == '/' && ([s[0]] + r)[i] == '/') {
          if i > 1 {
            assert !(r[i - 2] == '/' && r[i - 1] == '/');
          }
        }
      }
    }
  }

  /** Whatever comes in, a normalised path comes out. */
  lemma CleanIsClean(s: string)
    ensures IsClean(Clean(s))
  {
    var c := Collapse(Rooted(s));
    CollapseHasNoDouble(Rooted(s));
    if |c| > 1 && EndsWithSlash(c) {
      var i := |c| - 1;
      assert c[i - 1] != '/';
    }
  }

  lemma {:induction false} CollapseKeepsNoDouble(s: string)
    requires NoDoubleSlash(s)
    ensures Collapse(s) == s
  {
    if |s| >= 2 {
      assert !(s[1 - 1] == '/' && s[1] == '/');
      forall i | 0 < i < |s[1..]| ensures !(s[1..][i - 1] == '/' && s[1..][i] == '/') {
        assert !(s[(i + 1) - 1] == '/' && s[i + 1] == '/');
      }
      CollapseKeepsNoDouble(s[1..]);
    }
  }

  lemma CleanFixesClean(p: string)
    requires IsClean(p)
    ensures Clean(p) == p
  {
    CollapseKeepsNoDouble(p);
  }

  /** JavaScript normalisation is idempotent on every string. */
  lemma CleanIdempotent(s: string)
    ensures Clean(Clean(s)) == Clean(s)
  {
    CleanIsClean(s);
    CleanFixesClean(Clean(s));
  }

  lemma {:induction false} CollapseLower(s: string)
    ensures Collapse(Lower(s)) == Lower(Collapse(s))
  {
    if |s| >= 2 {
      assert Lower(s)[1..] == Lower(s[1..]);
      assert forall c: char :: LowerChar(c) == '/' <==> c == '/';
      CollapseLower(s[1..]);
      LowerAppend([s[0]], Collapse(s[1..]));
      assert Lower([s[0]]) == [LowerChar(s[0])];
    }
  }

  /** Normalising and folding case commute, so it does not matter that the admin
      API folds at store time and the EdgeWorker at lookup time. */
  lemma CleanLower(s: string)
    ensures Clean(Lower(s)) == Lower(Clean(s))
  {
    assert forall c: char :: LowerChar(c) == '/' <==> c == '/';
    assert Rooted(Lower(s)) == Lower(Rooted(s)) by {
      LowerAppend("/", s);
      assert Lower("/") == "/";
    }
    CollapseLower(Rooted(s));
    var c := Collapse(Rooted(s));
    if |c| > 1 && EndsWithSlash(c) {
      assert Lower(c[..|c| - 1]) == Lower(c)[..|c| - 1];
    }
  }

  // --- what survives: everything that is not a slash --------------------------

  function NonSlashes(s: string): nat {
    if s == "" then 0 else (if s[0] == '/' then 0 else 1) + NonSlashes(s[1..])
  }

  lemma {:induction false} NonSlashesAppend(a: string, b: string)
    ensures NonSlashes(a + b) == NonSlashes(a) + NonSlashes(b)
  {
    if a == "" {
      assert a + b == b;
    } else {
      assert (a + b)[1..] == a[1..] + b;
      NonSlashesAppend(a[1..], b);
    }
  }

  lemma {:induction false} CollapseKeepsNonSlashes(s: string)
    ensures NonSlashes(Collapse(s)) == NonSlashes(s)
  {
    if |s| >= 2 {
      CollapseKeepsNonSlashes(s[1..]);
      NonSlashesAppend([s[0]], Collapse(s[1..]));
    }
  }

  lemma CleanKeepsNonSlashes(s: string)
    ensures NonSlashes(Clean(s)) == NonSlashes(s)
  {
    var c := Collapse(Rooted(s));
    NonSlashesAppend("/", s);
    CollapseKeepsNonSlashes(Rooted(s));
    if |c| > 1 && EndsWithSlash(c) {
      assert c == c[..|c| - 1] + "/";
      NonSlashesAppend(c[..|c| - 1], "/");
    }
  }

  lemma {:induction false} TrimStartDropsNonSlashes(s: string)
    ensures NonSlashes(s) == |s| - |TrimStart(s)| + NonSlashes(TrimStart(s))
  {
    if s != "" && IsWhitespace(s[0]) {
      TrimStartDropsNonSlashes(s[1..]);
    }
  }

  lemma {:induction false} TrimEndDropsNonSlashes(s: string)
    ensures NonSlashes(s) == |s| - |TrimEnd(s)| + NonSlashes(TrimEnd(s))
  {
    if s != "" && IsWhitespace(s[|s| - 1]) {
      TrimEndDropsNonSlashes(s[..|s| - 1]);
      assert s == s[..|s| - 1] + [s[|s| - 1]];
      NonSlashesAppend(s[..|s| - 1], [s[|s| - 1]]);
    }
  }

  /** The control plane and the edge normalise a raw path alike exactly when it
      has no surrounding white space: the Rust version trims, JavaScript does not. */
  lemma NormalizersAgreeIff(raw: string)
    ensures Clean(Trim(raw)) == Clean(raw) <==> Trim(raw) == raw
  {
    CleanKeepsNonSlashes(raw);
    CleanKeepsNonSlashes(Trim(raw));
    TrimStartDropsNonSlashes(raw);
    TrimEndDropsNonSlashes(TrimStart(raw));
    if Clean(Trim(raw)) == Clean(raw) {
      assert |Trim(raw)| == |TrimStart(raw)| == |raw|;
    }
  }

  /** The path without its trailing slashes. */
  function WithoutTrailingSlashes(s: string): (r: string)
    ensures |r| <= |s| && r == s[..|r|]
    ensures !EndsWithSlash(r)
  {
    if EndsWithSlash(s) then WithoutTrailingSlashes(s[..|s| - 1]) else s
  }

  predicate EndsInWhitespace(s: string) {
    s != "" && IsWhitespace(s[|s| - 1])
  }

  /** Collapse keeps the last character, and a trailing slash run becomes one slash. */
  lemma {:induction false} CollapseLast(s: string)
    requires s != ""
    ensures Collapse(s)[|Collapse(s)| - 1] == s[|s| - 1]
  {
    if |s| >= 2 {
      CollapseLast(s[1..]);
    }
  }

  /** Appending a slash adds one to the collapse unless the string ends in one. */
  lemma {:induction false} CollapsePush(s: string)
    requires s != ""
    ensures Collapse(s + "/") == if EndsWithSlash(s) then Collapse(s) else Collapse(s) + "/"
  {
    var t := s + "/";
    if |s| == 1 {
      assert t[1..] == "/";
    } else {
      assert t[1..] == s[1..] + "/";
      CollapsePush(s[1..]);
    }
  }

  lemma CollapseTrailing(s: string)
    requires s != ""
    ensures DropTrailing(Collapse(s + "/")) == DropTrailing(Collapse(s))
  {
    CollapsePush(s);
    CollapseLast(s);
  }

  lemma {:induction false} CleanIgnoresTrailingSlashes(s: string)
    ensures Clean(s) == Clean(WithoutTrailingSlashes(s))
  {
    if EndsWithSlash(s) {
      var s' := s[..|s| - 1];
      assert s == s' + "/";
      CleanIgnoresTrailingSlashes(s');
      if s' == "" {
        assert Clean("/") == "/" == Clean("");
      } else {
        assert Rooted(s) == Rooted(s') + "/";
        CollapseTrailing(Rooted(s'));
      }
    }
  }

  lemma CleanLast(w: string)
    requires !EndsWithSlash(w)
    ensures EndsInWhitespace(Clean(w)) <==> EndsInWhitespace(w)
  {
    if w == "" {
      assert Clean(w) == "/";
    } else {
      CollapseLast(Rooted(w));
    }
  }

  lemma TrimRooted(p: string)
    requires "/" <= p
    ensures Trim(p) == p <==> !EndsInWhitespace(p)
  {
    assert TrimStart(p) == p;
  }

  /** Rust normalisation is idempotent on exactly those inputs whose last
      non-slash character, after trimming, is not white space. */
  lemma NormalizeIdempotentIff(raw: string)
    ensures var p := Clean(Trim(raw));
      Clean(Trim(p)) == p <==> !EndsInWhitespace(WithoutTrailingSlashes(Trim(raw)))
  {
    var p := Clean(Trim(raw));
    CleanIgnoresTrailingSlashes(Trim(raw));
    CleanLast(WithoutTrailingSlashes(Trim(raw)));
    CleanIsClean(Trim(raw));
    CleanFixesClean(p);
    NormalizersAgreeIff(p);
    TrimRooted(p);
  }

  /** A concrete path on which a second normalisation changes the result. */
  lemma NormalizeNotIdempotent()
    ensures Clean(Trim("/a /")) == "/a " && Clean(Trim("/a ")) == "/a"
  {
    assert TrimStart("/a /") == "/a /" && TrimEnd("/a /") == "/a /";
    assert TrimStart("/a ") == "/a ";
    assert "/a "[..2] == "/a";
    assert TrimEnd("/a") == "/a";
    assert TrimEnd("/a ") == "/a";
    assert Rooted("/a /") == "/a /" && Rooted("/a") == "/a";
    CollapseFixedByHand();
  }

  lemma CollapseFixedByHand()
    ensures Collapse("/a /") == "/a /" && Collapse("/a") == "/a"
  {
    CollapseKeepsNoDouble("/a /");
    CollapseKeepsNoDouble("/a");
  }
}
