/** Eventual consistency: once mutations and failures stop, draining empties the
    queue at the promised rate and leaves EdgeKV equal to its projection. */
module Convergence {
  import opened Model
  import opened EdgeStore
  import opened Keys
  import opened Listings
  import opened Protocol
  import opened Accounting
  import opened Coverage

  function Min(a: nat, b: nat): nat {
    if a < b then a else b
  }

  /** One drain, when the store lists the markers in the given order. */
  ghost function DrainOnce(s: State, net: Net, budget: nat, listing: seq<Target>): State {
    Drain(s, net, listing[..Min(budget, |listing|)]).s
  }

  ghost function DrainMany(s: State, net: Net, budget: nat, listings: seq<seq<Target>>): State
    decreases |listings|
  {
    if listings == [] then s
    else DrainMany(DrainOnce(s, net, budget, listings[0]), net, budget, listings[1..])
  }

  /** Each listing is an order of the markers pending when its turn comes. */
  ghost predicate InTurn(s: State, net: Net, budget: nat, listings: seq<seq<Target>>)
    decreases |listings|
  {
    listings == [] ||
    (Lists(listings[0], s.pending.Keys) && InTurn(DrainOnce(s, net, budget, listings[0]), net, budget, listings[1..]))
  }

  /** No pending delete of an exact rule that exists; manifests and host records
      cannot be spoilt this way. */
  ghost predicate Settled(s: State, u: Unit) {
    u.ExactUnit? ==>
      var k := RuleKey(u.host, Exact, u.path);
      !(k in s.kv.rules && DeleteRule(k) in s.pending)
  }

  /** What a drain run starts from and keeps. */
  ghost predicate Ready(s: State) {
    WellKept(s) && s.configured
  }

  /** One drain takes exactly min(budget, pending) markers off the queue. */
  lemma DrainOnceShrinks(s: State, net: Net, budget: nat, listing: seq<Target>)
    requires Ready(s) && Faultless(net) && Lists(listing, s.pending.Keys)
    ensures var s' := DrainOnce(s, net, budget, listing);
      Ready(s') && s'.kv == s.kv && |s'.pending| == |s.pending| - Min(budget, |s.pending|)
  {
    var taken := TakenMarkers(s, budget, listing);
    DrainAccounting(s, net, taken);
    FaultlessDrain(s, net, taken);
    DrainKeepsOrder(s, net, taken);
  }

  lemma TakenMarkers(s: State, budget: nat, listing: seq<Target>) returns (taken: seq<Target>)
    requires WellKept(s) && Lists(listing, s.pending.Keys)
    ensures taken == listing[..Min(budget, |listing|)]
    ensures Distinct(taken) && |taken| == Min(budget, |s.pending|)
    ensures forall t :: t in taken ==> t in s.pending && IsRetriable(t)
  {
    taken := listing[..Min(budget, |listing|)];
    ListingLength(listing, s.pending.Keys);
    DistinctPrefix(listing, Min(budget, |listing|));
    forall t | t in taken ensures t in s.pending {
      assert t in listing;
    }
  }

  lemma DrainOnceKeeps(s: State, net: Net, budget: nat, listing: seq<Target>, u: Unit)
    requires Ready(s) && Faultless(net) && Lists(listing, s.pending.Keys)
    requires Covered(s, u) && Settled(s, u)
    ensures var s' := DrainOnce(s, net, budget, listing); Covered(s', u) && Settled(s', u)
  {
    var taken := TakenMarkers(s, budget, listing);
    DrainAccounting(s, net, taken);
    DrainKeepsCoverage(s, net, taken, u);
  }

  lemma {:induction false} QueueEmpties(s: State, net: Net, budget: nat, listings: seq<seq<Target>>)
    requires Ready(s) && Faultless(net) && InTurn(s, net, budget, listings)
    requires |listings| * budget >= |s.pending|
    ensures var s' := DrainMany(s, net, budget, listings); s'.pending == map[] && s'.kv == s.kv
    decreases |listings|
  {
    if listings == [] {
      assert |s.pending.Keys| == 0;
      assert s.pending == map[];
    } else {
      DrainOnceShrinks(s, net, budget, listings[0]);
      RateStep(|listings|, budget, |s.pending|);
      QueueEmpties(DrainOnce(s, net, budget, listings[0]), net, budget, listings[1..]);
    }
  }

  lemma {:induction false} StaysCovered(s: State, net: Net, budget: nat, listings: seq<seq<Target>>, u: Unit)
    requires Ready(s) && Faultless(net) && InTurn(s, net, budget, listings)
    requires Covered(s, u) && Settled(s, u)
    ensures Covered(DrainMany(s, net, budget, listings), u)
    decreases |listings|
  {
    if listings != [] {
      DrainOnceShrinks(s, net, budget, listings[0]);
      DrainOnceKeeps(s, net, budget, listings[0], u);
      StaysCovered(DrainOnce(s, net, budget, listings[0]), net, budget, listings[1..], u);
    }
  }

  /** ceil(pending / budget) drains empty the queue, whatever order the store
      lists the markers in, and then every unit that was covered is in sync. */
  lemma Converges(s: State, net: Net, budget: nat, listings: seq<seq<Target>>)
    requires Ready(s) && Faultless(net) && InTurn(s, net, budget, listings)
    requires |listings| * budget >= |s.pending|
    ensures var s' := DrainMany(s, net, budget, listings);
      && s'.pending == map[] && s'.kv == s.kv
      && forall u :: Covered(s, u) && Settled(s, u) ==> InSync(s', u)
  {
    var s' := DrainMany(s, net, budget, listings);
    QueueEmpties(s, net, budget, listings);
    forall u | Covered(s, u) && Settled(s, u) ensures InSync(s', u) {
      StaysCovered(s, net, budget, listings, u);
      assert !Marked(s', u);
    }
  }

  lemma RateStep(n: nat, budget: nat, p: nat)
    requires n >= 1 && n * budget >= p
    ensures (n - 1) * budget >= p - Min(budget, p)
  {
    assert (n - 1) * budget == n * budget - budget;
  }

  /** Such a sequence of drains exists, of any length. */
  lemma {:induction false} DrainsExist(s: State, net: Net, budget: nat, n: nat)
    ensures exists listings :: |listings| == n && InTurn(s, net, budget, listings)
    decreases n
  {
    if n == 0 {
      assert InTurn(s, net, budget, []);
    } else {
      var first := SomeListing(s.pending.Keys);
      var s' := DrainOnce(s, net, budget, first);
      DrainsExist(s', net, budget, n - 1);
      var rest :| |rest| == n - 1 && InTurn(s', net, budget, rest);
      assert ([first] + rest)[1..] == rest;
      assert InTurn(s, net, budget, [first] + rest);
    }
  }
}
