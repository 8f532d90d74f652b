/** The promise of the whole system: after any careful run, once the queue is
    drained, the EdgeWorker answers as the control plane does. */
module EndToEnd {
  import opened Text
  import opened Paths
  import opened Model
  import opened EkvKeys
  import opened EdgeStore
  import opened Keys
  import opened Protocol
  import opened Coverage
  import opened Convergence
  import opened Lookup
  import opened Names
  import opened EdgeWorker
  import opened Refinement
  import opened SentinelCache
  import opened Provenance
  import opened Runs
  import opened Histories

  /** The end of a careful run over plain hosts, after enough failure-free drains,
      with EdgeKV under its item names. */
  ghost predicate Settles(net: Net, cs: seq<Command>, net': Net, budget: nat, listings: seq<seq<Target>>, host: string,
                          end: State, named: NamedItems) {
    && Quiesces(net, cs, net', budget, listings, Seen(host), end)
    && (forall c :: c in cs ==> NamesOnly(c, PLAIN_HOSTS))
    && IsNameable(host) && IsNamed(named, end.edge.items)
  }

  lemma {:induction false} DrainsKeepNames(past: Past, s: State, net: Net, budget: nat, listings: seq<seq<Target>>)
    requires WellKept(s) && Genuine(past, s) && InTurn(s, net, budget, listings)
    ensures Genuine(past, DrainMany(s, net, budget, listings))
    decreases |listings|
  {
    if listings != [] {
      var taken := TakenMarkers(s, budget, listings[0]);
      DrainGenuine(past, s, net, taken);
      DrainKeepsOrder(s, net, taken);
      DrainsKeepNames(past, DrainOnce(s, net, budget, listings[0]), net, budget, listings[1..]);
    }
  }

  lemma SettledIsHolding(net: Net, cs: seq<Command>, net': Net, budget: nat, listings: seq<seq<Target>>, host: string,
                         end: State, named: NamedItems)
    requires Settles(net, cs, net', budget, listings, host, end, named)
    ensures Holding(named, end.edge.items, host)
  {
    var past := Past(ANY_RULE, PLAIN_HOSTS);
    PlainRunIsGenuine(net, cs);
    DrainsKeepNames(past, Run(INIT, net, cs), net', budget, listings);
    GenuineIsNameable(past, end.edge.items);
  }

  /** Every careful run over plain hosts that ends with credentials present can be
      brought to such an end. */
  lemma CarefulRunsSettle(net: Net, cs: seq<Command>, net': Net, budget: nat, host: string)
    requires Admissible(INIT, net, cs) && CarefulAbout(net, cs, Seen(host))
    requires Run(INIT, net, cs).configured && Faultless(net') && budget > 0
    requires IsNameable(host) && forall c :: c in cs ==> NamesOnly(c, PLAIN_HOSTS)
    ensures exists listings, end, named :: Settles(net, cs, net', budget, listings, host, end, named)
  {
    var past := Past(ANY_RULE, PLAIN_HOSTS);
    CarefulRunsQuiesce(net, cs, net', budget, Seen(host));
    var listings, end :| Quiesces(net, cs, net', budget, listings, Seen(host), end);
    PlainRunIsGenuine(net, cs);
    DrainsKeepNames(past, Run(INIT, net, cs), net', budget, listings);
    GenuineIsNameable(past, end.edge.items);
    NamingExists(end.edge.items);
    var named :| IsNamed(named, end.edge.items);
    assert Settles(net, cs, net', budget, listings, host, end, named);
  }

  /** Take any sequence of creates, updates, deletes, imports, host changes and
      drains under any EdgeKV failures, careful about the host as the worker spells
      it, and let the queue drain. Then for every path and query for which the
      worker looks where the control plane looks, which it does for all within
      U+FFFF, the EdgeWorker, reading EdgeKV by item names only, answers as the
      control plane does, exactly when the control plane has no rule, or the host
      is enabled and the rule does not append a suffix to a target ending in two
      slashes. */
  lemma EdgeEventuallyAgrees(net: Net, cs: seq<Command>, net': Net, budget: nat, listings: seq<seq<Target>>,
                             host: string, end: State, named: NamedItems,
                             rawPath: string, query: string, answer: Option<Redirect>, response: Response)
    requires Settles(net, cs, net', budget, listings, host, end, named)
    requires host != "" && Trim(rawPath) == rawPath && !Contains(query, "ewdebug=1")
    requires IsAnswer(end.kv, host, Clean(rawPath), answer)
    requires IsResponse(end.kv, host, rawPath, query, response)
    ensures end.kv == Run(INIT, net, cs).kv
    ensures LooksAlike(end.kv, host, Clean(rawPath)) ==>
      (FreshAnswer(named, host, Clean(rawPath), query) == AsAnswer(response) <==>
        answer.None? || (end.kv.hosts[host].enabled && !Misbuilds(answer.value, Clean(rawPath))))
    ensures IsBmp(host) && IsBmp(Clean(rawPath)) ==> LooksAlike(end.kv, host, Clean(rawPath))
  {
    QuiescentIsProjected(net, cs, net', budget, listings, Seen(host), end);
    SettledIsHolding(net, cs, net', budget, listings, host, end, named);
    EdgeRefinesControlIff(end.kv, end.edge.items, named, host, rawPath, query, answer, response);
  }

  /** The same for a worker with any history of requests and a cache, once the
      host's record in EdgeKV has been what it is for five minutes. */
  lemma CachingEdgeEventuallyAgrees(net: Net, cs: seq<Command>, net': Net, budget: nat, listings: seq<seq<Target>>,
                                    host: string, end: State, named: NamedItems, world: Timeline, visits: seq<Visit>,
                                    rawPath: string, query: string, answer: Option<Redirect>, response: Response)
    requires Settles(net, cs, net', budget, listings, host, end, named)
    requires host != "" && Trim(rawPath) == rawPath && !Contains(query, "ewdebug=1")
    requires IsAnswer(end.kv, host, Clean(rawPath), answer)
    requires IsResponse(end.kv, host, rawPath, query, response)
    requires visits != [] && ClockNeverGoesBack(visits)
    requires var v := visits[|visits| - 1];
      && v.host == host && v.down == {} && world(v.at) == named
      && forall t: nat :: t <= v.at && v.at - t < 300000 ==> ReadHost(world(t), host) == ReadHost(named, host)
    ensures var v := visits[|visits| - 1];
      var l := LookUpHost(CacheAfter(world, visits[..|visits| - 1]), named, {}, host, v.at);
      LooksAlike(end.kv, host, Clean(rawPath)) ==>
      (Answered(named, {}, l.failed, l.meta, host, Clean(rawPath), query) == AsAnswer(response) <==>
        answer.None? || (end.kv.hosts[host].enabled && !Misbuilds(answer.value, Clean(rawPath))))
    ensures IsBmp(host) && IsBmp(Clean(rawPath)) ==> LooksAlike(end.kv, host, Clean(rawPath))
  {
    SettledAnswerIsFresh(world, visits, Clean(rawPath), query);
    EdgeEventuallyAgrees(net, cs, net', budget, listings, host, end, named, rawPath, query, answer, response);
  }
}
