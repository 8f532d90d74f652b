/** The per-host prefix manifest: `build_prefix_manifest` of shared/src/ekv.rs
    and the first-match scan of edgeworker/main.js. */
module Manifest {
  import opened Text
  import opened Model

  type Entry = EkvPrefixEntry

  predicate IsListed(r: Redirect) {
    r.matchType == Prefix && r.enabled
  }

  /** filter + map, in the order the rules come in. */
  function Project(rules: seq<Redirect>): (es: seq<Entry>)
    ensures forall e :: e in es <==> exists i :: 0 <= i < |rules| && IsListed(rules[i]) && e == ToEntry(rules[i])
  {
    if rules == [] then [] else
    var init, last := rules[..|rules| - 1], rules[|rules| - 1];
    var es := Project(init);
    assert forall i :: 0 <= i < |init| ==> init[i] == rules[i];
    if IsListed(last) then es + [ToEntry(last)] else es
  }

  /** Stable insertion: after every entry that does not have to follow `e`. */
  function Insert(es: seq<Entry>, e: Entry): (r: seq<Entry>)
    ensures |r| == |es| + 1
    ensures forall x :: x in r <==> x == e || x in es
  {
    if es == [] then [e]
    else if Precedes(e.p, es[0].p) then [e] + es
    else [es[0]] + Insert(es[1..], e)
  }

  /** `sort_by(len desc, then path)`. */
  function Sort(es: seq<Entry>): (r: seq<Entry>)
    ensures |r| == |es|
    ensures forall x :: x in r <==> x in es
  {
    if es == [] then [] else
    var r := Insert(Sort(es[..|es| - 1]), es[|es| - 1]);
    assert es == es[..|es| - 1] + [es[|es| - 1]];
    r
  }

  method BuildPrefixManifest(rules: seq<Redirect>) returns (entries: seq<Entry>)
    ensures entries == Sort(Project(rules))
  {
    entries := [];
    ghost var unsorted := [];
    for i := 0 to |rules|
      invariant unsorted == Project(rules[..i])
      invariant entries == Sort(unsorted)
    {
      assert rules[..i + 1][..i] == rules[..i];
      if IsListed(rules[i]) {
        var e := ToEntry(rules[i]);
        entries := InsertSorted(entries, e);
        unsorted := unsorted + [e];
        assert unsorted[..|unsorted| - 1] == Project(rules[..i]);
      }
    }
    assert rules[..|rules|] == rules;
  }

  method InsertSorted(es: seq<Entry>, e: Entry) returns (r: seq<Entry>)
    ensures r == Insert(es, e)
  {
    var i := 0;
    while i < |es| && !Precedes(e.p, es[i].p)
      invariant 0 <= i <= |es|
      invariant Insert(es, e) == es[..i] + Insert(es[i..], e)
    {
      InsertLater(es, e, i);
      i := i + 1;
    }
    InsertHere(es, e, i);
    r := es[..i] + [e] + es[i..];
  }

  lemma {:induction false} InsertLater(es: seq<Entry>, e: Entry, i: nat)
    requires i < |es| && !Precedes(e.p, es[i].p)
    ensures es[..i] + Insert(es[i..], e) == es[..i + 1] + Insert(es[i + 1..], e)
  {
    assert es[i..][1..] == es[i + 1..];
    assert Insert(es[i..], e) == [es[i]] + Insert(es[i + 1..], e);
  }

  lemma {:induction false} InsertHere(es: seq<Entry>, e: Entry, i: nat)
    requires i <= |es| && (i < |es| ==> Precedes(e.p, es[i].p))
    ensures es[..i] + Insert(es[i..], e) == es[..i] + [e] + es[i..]
  {
    assert Insert(es[i..], e) == [e] + es[i..];
  }

  // ---------------------------------------------------------------------------
  // A manifest is determined by the set of its entries
  // ---------------------------------------------------------------------------

  ghost predicate LongestFirst(es: seq<Entry>) {
    forall i, j :: 0 <= i < j < |es| ==> Precedes(es[i].p, es[j].p)
  }

  ghost predicate DistinctPaths(es: seq<Entry>) {
    forall i, j :: 0 <= i < j < |es| ==> es[i].p != es[j].p
  }

  lemma {:induction false} InsertKeepsOrder(es: seq<Entry>, e: Entry)
    requires LongestFirst(es)
    requires forall x :: x in es ==> x.p != e.p
    ensures LongestFirst(Insert(es, e))
  {
    if es != [] {
      var head, tail := es[0], es[1..];
      assert forall j :: 0 <= j < |tail| ==> tail[j] == es[j + 1];
      if Precedes(e.p, head.p) {
        forall j | 0 <= j < |es| ensures Precedes(e.p, es[j].p) {
          if j > 0 {
            PrecedesTransitive(e.p, head.p, es[j].p);
          }
        }
      } else {
        PrecedesTotal(e.p, head.p);
        InsertKeepsOrder(tail, e);
        var r := Insert(tail, e);
        forall j | 0 <= j < |r| ensures Precedes(head.p, r[j].p) {
          assert r[j] in r;
        }
      }
    }
  }

  lemma {:induction false} SortIsLongestFirst(es: seq<Entry>)
    requires DistinctPaths(es)
    ensures LongestFirst(Sort(es))
  {
    if es != [] {
      var init := es[..|es| - 1];
      SortIsLongestFirst(init);
      InsertKeepsOrder(Sort(init), es[|es| - 1]);
    }
  }

  /** Two longest-first lists with the same entries are the same list. */
  lemma {:induction false} LongestFirstUnique(a: seq<Entry>, b: seq<Entry>)
    requires LongestFirst(a) && LongestFirst(b)
    requires forall x :: x in a <==> x in b
    ensures a == b
  {
    SameEmptiness(a, b);
    if a != [] {
      HeadsAgree(a, b);
      TailEntries(a);
      TailEntries(b);
      LongestFirstUnique(a[1..], b[1..]);
      assert a == [a[0]] + a[1..] && b == [b[0]] + b[1..];
    }
  }

  lemma SameEmptiness(a: seq<Entry>, b: seq<Entry>)
    requires forall x :: x in a <==> x in b
    ensures a == [] <==> b == []
  {
    if a != [] {
      assert a[0] in b;
    }
    if b != [] {
      assert b[0] in a;
    }
  }

  lemma HeadsAgree(a: seq<Entry>, b: seq<Entry>)
    requires LongestFirst(a) && LongestFirst(b) && a != [] && b != []
    requires forall x :: x in a <==> x in b
    ensures a[0] == b[0]
  {
    assert a[0] in b && b[0] in a;
    var i :| 0 <= i < |b| && b[i] == a[0];
    var j :| 0 <= j < |a| && a[j] == b[0];
    if i > 0 && j > 0 {
      PrecedesTransitive(a[0].p, b[0].p, a[0].p);
      PrecedesIrreflexive(a[0].p);
    }
  }

  lemma TailEntries(a: seq<Entry>)
    requires LongestFirst(a) && a != []
    ensures LongestFirst(a[1..])
    ensures forall x :: x in a[1..] <==> x in a && x != a[0]
  {
    forall i | 1 <= i < |a| ensures a[i] != a[0] {
      PrecedesIrreflexive(a[0].p);
    }
    assert forall x :: x in a[1..] ==> x in a;
    forall x | x in a && x != a[0] ensures x in a[1..] {
      var i :| 0 <= i < |a| && a[i] == x;
      assert a[1..][i - 1] == x;
    }
  }

  // ---------------------------------------------------------------------------
  // Matching
  // ---------------------------------------------------------------------------

  /** `path === p` or `path` continues `p` at a segment boundary. */
  predicate Matches(p: string, path: string) {
    path == p || p + "/" <= path
  }

  /** A path matches its own prefixes at the boundaries of segments. */
  lemma MatchesIff(p: string, path: string)
    ensures Matches(p, path) <==> exists rest :: path == p + rest && (rest == "" || rest[0] == '/')
  {
    if path == p {
      assert path == p + "";
    } else if p + "/" <= path {
      assert path == p + path[|p|..];
    }
    if rest :| path == p + rest && (rest == "" || rest[0] == '/') {
      assert rest != "" ==> path[..|p| + 1] == p + "/";
    }
  }

  method MatchLongestPrefix(prefixes: seq<Entry>, path: string) returns (rule: Option<Entry>)
    ensures rule == FirstMatch(prefixes, path)
  {
    for i := 0 to |prefixes|
      invariant FirstMatch(prefixes[i..], path) == FirstMatch(prefixes, path)
    {
      if path == prefixes[i].p || prefixes[i].p + "/" <= path {
        return Some(prefixes[i]);
      }
      assert prefixes[i..][1..] == prefixes[i + 1..];
    }
    assert prefixes[|prefixes|..] == [];
    rule := None;
  }

  function FirstMatch(es: seq<Entry>, path: string): (r: Option<Entry>)
    ensures r.Some? ==> r.value in es && Matches(r.value.p, path)
    ensures r.None? ==> forall e :: e in es ==> !Matches(e.p, path)
  {
    if es == [] then None
    else if Matches(es[0].p, path) then Some(es[0])
    else FirstMatch(es[1..], path)
  }

  /** Two paths that match one request at the same length are the same path. */
  lemma MatchesOfEqualLength(p: string, q: string, path: string)
    requires Matches(p, path) && Matches(q, path)
    requires |p| == |q|
    ensures p == q
  {
    assert p == path[..|p|] && q == path[..|q|];
  }

  lemma LongerBytes(p: string, q: string)
    requires p <= q && |p| < |q|
    ensures ByteLen(p) < ByteLen(q)
  {
    assert q == p + q[|p|..];
    Utf8Append(p, q[|p|..]);
  }

  /** In a longest-first list the first match is the longest. */
  lemma {:induction false} FirstMatchIsLongest(es: seq<Entry>, path: string)
    requires LongestFirst(es)
    ensures var m := FirstMatch(es, path);
      m.Some? ==> forall e :: e in es && Matches(e.p, path) ==> |e.p| <= |m.value.p|
  {
    if es != [] {
      if Matches(es[0].p, path) {
        forall e | e in es && Matches(e.p, path) ensures |e.p| <= |es[0].p| {
          assert e.p == path[..|e.p|] && es[0].p == path[..|es[0].p|];
          if |e.p| > |es[0].p| {
            var j :| 0 <= j < |es| && es[j] == e;
            ExtensionPrecedes(e.p, es[0].p);
            PrecedesTransitive(e.p, es[0].p, e.p);
            PrecedesIrreflexive(e.p);
          }
        }
      } else {
        TailEntries(es);
        FirstMatchIsLongest(es[1..], path);
      }
    }
  }
}
