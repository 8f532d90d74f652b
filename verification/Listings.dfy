/** Enumerations of sets: `keys_with_prefix` promises no order, so everything
    that scans the store is stated for every duplicate-free listing. */
module Listings {

  ghost predicate Distinct<T(!new)>(l: seq<T>) {
    forall i, j :: 0 <= i < j < |l| ==> l[i] != l[j]
  }

  ghost predicate Lists<T(!new)>(l: seq<T>, s: set<T>) {
    Distinct(l) && forall x :: x in l <==> x in s
  }

  /** Some order, as the store happens to return it. */
  method Enumerate<T(!new, ==)>(s: set<T>) returns (l: seq<T>)
    ensures Lists(l, s)
  {
    l := [];
    var rest := s;
    while rest != {}
      invariant rest <= s
      invariant Lists(l, s - rest)
      decreases rest
    {
      var x :| x in rest;
      l, rest := l + [x], rest - {x};
    }
  }

  lemma {:induction false} ListingExists<T(!new)>(s: set<T>)
    ensures exists l :: Lists(l, s)
    decreases s
  {
    if s == {} {
      assert Lists([], s);
    } else {
      var x :| x in s;
      ListingExists(s - {x});
      var l :| Lists(l, s - {x});
      assert Lists(l + [x], s);
    }
  }

  ghost function SomeListing<T(!new)>(s: set<T>): (l: seq<T>)
    ensures Lists(l, s)
  {
    ListingExists(s);
    var l :| Lists(l, s);
    l
  }

  /** A listing is as long as its set is large. */
  lemma {:induction false} ListingLength<T(!new)>(l: seq<T>, s: set<T>)
    requires Lists(l, s)
    ensures |l| == |s|
    decreases |l|
  {
    if l == [] {
      assert s == {};
    } else {
      var x, init := l[|l| - 1], l[..|l| - 1];
      assert x in l;
      assert l == init + [x];
      ListingLength(init, s - {x});
    }
  }

  lemma DistinctPrefix<T(!new)>(l: seq<T>, n: nat)
    requires Distinct(l) && n <= |l|
    ensures Distinct(l[..n]) && Distinct(l[n..])
    ensures forall x :: x in l[..n] ==> x !in l[n..]
  {
  }
}
