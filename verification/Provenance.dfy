/** Where everything EdgeKV holds comes from: a rule that was stored once and
    enabled, under a host that was named once, whatever failed in between. */
module Provenance {
  import opened Text
  import opened Model
  import opened Manifest
  import opened EkvKeys
  import opened EdgeStore
  import opened Keys
  import opened Listings
  import opened Protocol
  import opened Handlers
  import opened Accounting
  import opened Coverage
  import opened Mutations
  import opened LastWriter
  import opened Imports

  /** The rules that were ever stored, and the hosts that were ever named. */
  datatype Past = Past(rules: iset<Redirect>, hosts: iset<string>)

  ghost predicate GenuineExact(past: Past, host: string, path: string, x: EkvExact) {
    exists r :: r in past.rules && r.enabled && KeyOf(r) == RuleKey(host, Exact, path) && x == ToExact(r)
  }

  ghost predicate GenuineEntry(past: Past, host: string, e: Entry) {
    exists r :: r in past.rules && IsListed(r) && r.host == host && e == ToEntry(r)
  }

  ghost predicate GenuineItem(past: Past, k: EkvKey, v: EkvValue) {
    k.host in past.hosts &&
    match k
    case Sentinel(_) => v.HostValue?
    case ExactItem(h, p) => v.ExactValue? && GenuineExact(past, h, p, v.rule)
    case Shard(h, _) => (v.Bare? || v.Head?) && forall e :: e in v.entries ==> GenuineEntry(past, h, e)
  }

  ghost predicate GenuineItems(past: Past, items: Items) {
    forall k :: k in items ==> GenuineItem(past, k, items[k])
  }

  ghost predicate GenuineKv(past: Past, kv: Kv) {
    && (forall k :: k in kv.rules ==> kv.rules[k] in past.rules && k.host in past.hosts)
    && (forall h :: h in kv.hosts ==> h in past.hosts)
  }

  ghost predicate NamesHost(past: Past, t: Target) {
    match t
    case PushRule(k) => k.host in past.hosts
    case DeleteRule(k) => k.host in past.hosts
    case PushHost(h) => h in past.hosts
    case DeleteHost(h) => h in past.hosts
    case _ => false
  }

  ghost predicate Genuine(past: Past, s: State) {
    && GenuineKv(past, s.kv) && GenuineItems(past, s.edge.items)
    && forall t :: t in s.pending ==> NamesHost(past, t)
  }

  // ---------------------------------------------------------------------------
  // Attempts
  // ---------------------------------------------------------------------------

  lemma PutGenuine(past: Past, e: Edge, net: Net, k: EkvKey, v: EkvValue)
    requires GenuineItems(past, e.items)
    ensures GenuineItem(past, k, v) ==> GenuineItems(past, Put(e, net, k, v).edge.items)
    ensures GenuineItems(past, Remove(e, net, k).edge.items)
  {
  }

  ghost predicate GenuineManifest(past: Past, host: string, m: seq<Entry>) {
    host in past.hosts && forall e :: e in m ==> GenuineEntry(past, host, e)
  }

  lemma ManifestGenuine(past: Past, kv: Kv, host: string)
    requires Coherent(kv.rules) && GenuineKv(past, kv) && host in past.hosts
    ensures GenuineManifest(past, host, ManifestOf(kv.rules, host))
  {
    ManifestFacts(kv.rules, host);
    forall e | e in ManifestOf(kv.rules, host) ensures GenuineEntry(past, host, e) {
      var k :| k in kv.rules && k.host == host && IsListed(kv.rules[k]) && e == ToEntry(kv.rules[k]);
      assert kv.rules[k] in past.rules && kv.rules[k].host == host;
    }
  }

  /** Also when the push stops between two shards. */
  lemma {:induction false} ShardsGenuine(past: Past, e: Edge, net: Net, host: string, m: seq<Entry>, s: nat)
    requires GenuineItems(past, e.items) && GenuineManifest(past, host, m)
    ensures GenuineItems(past, PutShards(e, net, host, m, s).edge.items)
    decreases ShardCount(|m|) - s
  {
    if s < ShardCount(|m|) {
      var k, v := Shard(host, s), ShardBody(m, s);
      assert forall x :: x in Chunk(m, s) ==> x in m;
      assert GenuineItem(past, k, v);
      PutGenuine(past, e, net, k, v);
      if Put(e, net, k, v).ok {
        ShardsGenuine(past, Put(e, net, k, v).edge, net, host, m, s + 1);
      }
    }
  }

  lemma PushGenuine(past: Past, e: Edge, net: Net, host: string, m: seq<Entry>)
    requires GenuineItems(past, e.items) && GenuineManifest(past, host, m)
    ensures GenuineItems(past, PushPrefixes(e, net, host, m).edge.items)
  {
    if |m| <= PREFIX_SHARD_LIMIT {
      PutGenuine(past, e, net, Shard(host, 0), Bare(m));
    } else {
      ShardsGenuine(past, e, net, host, m, 0);
    }
  }

  lemma {:induction false} RemovalGenuine(past: Past, e: Edge, net: Net, host: string, from: nat, to: nat)
    requires GenuineItems(past, e.items)
    ensures GenuineItems(past, RemoveShards(e, net, host, from, to).items)
    decreases if from < to then to - from else 0
  {
    if from < to {
      RemovalGenuine(past, Remove(e, net, Shard(host, from)).edge, net, host, from + 1, to);
    }
  }

  ghost predicate WorkNamed(past: Past, w: Work) {
    match w
    case ForManifest(h) => h in past.hosts
    case ForMarker(t) => NamesHost(past, t)
  }

  lemma AttemptGenuine(past: Past, s: State, net: Net, w: Work)
    requires WellKept(s) && GenuineKv(past, s.kv) && GenuineItems(past, s.edge.items) && WorkNamed(past, w)
    ensures GenuineItems(past, Attempt(s.kv, s.edge, net, w).edge.items)
  {
    match w {
      case ForManifest(h) =>
        ManifestGenuine(past, s.kv, h);
        PushGenuine(past, s.edge, net, h, ManifestOf(s.kv.rules, h));
      case ForMarker(t) => MarkerGenuine(past, s, net, t);
    }
  }

  lemma MarkerGenuine(past: Past, s: State, net: Net, t: Target)
    requires WellKept(s) && GenuineKv(past, s.kv) && GenuineItems(past, s.edge.items) && NamesHost(past, t)
    ensures GenuineItems(past, Attempt(s.kv, s.edge, net, ForMarker(t)).edge.items)
  {
    match t {
      case PushRule(k) =>
        if k in s.kv.rules && k.matchType == Exact {
          var r := s.kv.rules[k];
          assert KeyOf(r) == k;
          assert r.enabled ==> GenuineItem(past, ExactItem(r.host, r.path), ExactValue(ToExact(r)));
          PutGenuine(past, s.edge, net, ExactItem(r.host, r.path), ExactValue(ToExact(r)));
        } else if k in s.kv.rules {
          ManifestGenuine(past, s.kv, k.host);
          PushGenuine(past, s.edge, net, k.host, ManifestOf(s.kv.rules, k.host));
        }
      case DeleteRule(k) =>
        if k.matchType == Prefix {
          ManifestGenuine(past, s.kv, k.host);
          PushGenuine(past, s.edge, net, k.host, ManifestOf(s.kv.rules, k.host));
        }
      case PushHost(h) =>
        if h in s.kv.hosts {
          PutGenuine(past, s.edge, net, Sentinel(h), HostItem(s.kv.hosts[h]));
        } else {
          RemovalGenuine(past, Remove(s.edge, net, Sentinel(h)).edge, net, h, 0, 32);
        }
      case DeleteHost(h) => RemovalGenuine(past, Remove(s.edge, net, Sentinel(h)).edge, net, h, 0, 32);
    }
  }

  lemma NotifyGenuine(past: Past, s: State, net: Net, async: bool, t: Target)
    requires WellKept(s) && Genuine(past, s) && NamesHost(past, t)
    ensures Genuine(past, Notify(s, net, async, t))
  {
    AttemptGenuine(past, s, net, ForMarker(t));
    DropAllEffect(s.pending, [t]);
    BumpAllKeys(s.pending, [t], s.now);
  }

  // ---------------------------------------------------------------------------
  // Drains
  // ---------------------------------------------------------------------------

  lemma {:induction false} JobsGenuine(past: Past, d: Tally, net: Net, js: seq<Job>)
    requires WellKept(d.s) && GenuineKv(past, d.s.kv) && GenuineItems(past, d.s.edge.items)
    requires forall i :: 0 <= i < |js| ==> WorkNamed(past, js[i].work) && Settleable(js[i].targets, d.s.kv)
    ensures GenuineItems(past, RunJobs(d, net, js).s.edge.items)
    decreases |js|
  {
    if js != [] {
      var d' := RunJob(d, net, js[0]);
      AttemptGenuine(past, d.s, net, js[0].work);
      DropAllEffect(d.s.pending, js[0].targets);
      BumpAllKeys(d.s.pending, js[0].targets, d.s.now);
      JobsGenuine(past, d', net, js[1..]);
    }
  }

  /** Markers that may be pending over this store. */
  ghost predicate Settleable(ts: seq<Target>, kv: Kv) {
    forall t :: t in ts ==> IsRetriable(t) && !t.DeleteHost? && (t.PushHost? ==> t.host in kv.hosts)
  }

  lemma {:induction false} JobTargetsAreFlat(js: seq<Job>, i: nat)
    requires i < |js|
    ensures forall t :: t in js[i].targets ==> t in Flat(js)
  {
    if i > 0 {
      JobTargetsAreFlat(js[1..], i - 1);
    }
  }

  lemma JobIsNamed(past: Past, s: State, taken: seq<Target>, i: nat)
    requires WellKept(s) && Genuine(past, s) && forall t :: t in taken ==> t in s.pending
    requires i < |Jobs(SortedAll(taken))|
    ensures var j := Jobs(SortedAll(taken))[i]; WorkNamed(past, j.work) && Settleable(j.targets, s.kv)
  {
    var b := SortedAll(taken);
    var j := Jobs(b)[i];
    BucketsTidy(taken);
    JobsAreSound(s.kv, b, taken, i);
    JobTargetsAreFlat(Jobs(b), i);
    JobsPartition(taken);
    assert j.targets[0] in j.targets && NamesHost(past, j.targets[0]);
  }

  lemma DrainGenuine(past: Past, s: State, net: Net, taken: seq<Target>)
    requires WellKept(s) && Genuine(past, s) && Distinct(taken) && forall t :: t in taken ==> t in s.pending
    ensures Genuine(past, Drain(s, net, taken).s)
  {
    DrainAccounting(s, net, taken);
    if s.configured {
      var js := Jobs(SortedAll(taken));
      forall i | 0 <= i < |js| ensures WorkNamed(past, js[i].work) && Settleable(js[i].targets, s.kv) {
        JobIsNamed(past, s, taken, i);
      }
      JobsGenuine(past, Tally(s, 0, 0), net, js);
    }
  }

  // ---------------------------------------------------------------------------
  // Mutations
  // ---------------------------------------------------------------------------

  lemma FoldGenuine(past: Past, s: State, r: Redirect)
    requires Genuine(past, s) && r.host in past.hosts
    ensures Genuine(past, WithHosts(s, ApplyCi(s.kv.hosts, r).hosts))
  {
  }

  lemma WriteGenuine(past: Past, s: State, r: Redirect)
    requires Genuine(past, s) && r in past.rules && r.host in past.hosts
    ensures Genuine(past, Stored(s, r)) && Genuine(past, Replaced(s, r))
  {
  }

  lemma RemoveGenuine(past: Past, s: State, k: RuleKey)
    requires Genuine(past, s) && k in s.kv.rules
    ensures Genuine(past, Removed(s, k)) && NamesHost(past, DeleteRule(k))
  {
  }

  lemma CreateGenuine(past: Past, s: State, net: Net, body: Redirect, async: bool)
    requires WellKept(s) && Genuine(past, s) && NormalizeHost(body.host) in past.hosts
    requires Create(s, net, body, async).status == 201 ==> Admitted(s.kv, body) in past.rules
    ensures Genuine(past, Create(s, net, body, async).s)
  {
    if IsValid(body) {
      var r := Admitted(s.kv, body);
      var s1 := WithHosts(s, ApplyCi(s.kv.hosts, Normalized(body)).hosts);
      FoldKeepsOrder(s, Normalized(body));
      FoldGenuine(past, s, Normalized(body));
      if KeyOf(r) !in s1.kv.rules {
        var s2 := Notify(Stored(s1, r), net, async, PushRule(KeyOf(r)));
        StoreKeepsOrder(s1, r);
        WriteGenuine(past, s1, r);
        NotifyGenuine(past, Stored(s1, r), net, async, PushRule(KeyOf(r)));
        NotifyKeepsOrder(Stored(s1, r), net, async, PushRule(KeyOf(r)));
        NotifyGenuine(past, s2, net, async, PushHost(r.host));
      }
    }
  }

  lemma ReplaceFoldedGenuine(past: Past, s: State, net: Net, r: Redirect, async: bool)
    requires WellKept(s) && Genuine(past, s) && !r.caseInsensitive
    requires ReplaceFolded(s, net, r, async).status == 200 ==> ApplyCi(s.kv.hosts, r).rule in past.rules
    ensures Genuine(past, ReplaceFolded(s, net, r, async).s)
  {
    var f := ApplyCi(s.kv.hosts, r);
    assert WithHosts(s, f.hosts) == s;
    if KeyOf(f.rule) in s.kv.rules {
      ReplaceKeepsOrder(s, f.rule);
      WriteGenuine(past, s, f.rule);
      NotifyGenuine(past, Replaced(s, f.rule), net, async, PushRule(KeyOf(f.rule)));
    }
  }

  lemma DeleteGenuine(past: Past, s: State, net: Net, url: Url, async: bool)
    requires WellKept(s) && Genuine(past, s)
    ensures Genuine(past, Delete(s, net, url, async).s)
  {
    var parsed := ParseUrl(url);
    if parsed.Some? && parsed.value in s.kv.rules {
      var k := parsed.value;
      RemoveKeepsOrder(s, k);
      RemoveGenuine(past, s, k);
      NotifyKeepsOrder(Removed(s, k), net, async, DeleteRule(k));
      NotifyGenuine(past, Removed(s, k), net, async, DeleteRule(k));
      NotifyGenuine(past, Notify(Removed(s, k), net, async, DeleteRule(k)), net, async, PushHost(k.host));
    }
  }

  lemma PutHostGenuine(past: Past, s: State, net: Net, rawHost: string, body: HostMeta, async: bool)
    requires WellKept(s) && Genuine(past, s) && NormalizeHost(rawHost) in past.hosts
    ensures Genuine(past, UpdateHost(s, net, rawHost, body, async).s)
  {
    if rawHost != "" {
      var host := NormalizeHost(rawHost);
      var count := if host in s.kv.hosts then s.kv.hosts[host].ruleCount else body.ruleCount;
      var s1 := WithHosts(s, s.kv.hosts[host := body.(host := host, ruleCount := count)]);
      NotifyGenuine(past, s1, net, async, PushHost(host));
    }
  }

  // ---------------------------------------------------------------------------
  // Imports
  // ---------------------------------------------------------------------------

  lemma UpsertGenuine(past: Past, a: Progress, net: Net, async: bool, r: Redirect)
    requires WellKept(a.s) && Genuine(past, a.s) && r in past.rules && r.host in past.hosts
    ensures Genuine(past, UpsertFolded(a, net, async, r).s)
  {
    WriteGenuine(past, a.s, r);
    if KeyOf(r) !in a.s.kv.rules {
      StoreKeepsOrder(a.s, r);
      NotifyGenuine(past, Stored(a.s, r), net, async, PushRule(KeyOf(r)));
    } else {
      ReplaceKeepsOrder(a.s, r);
      NotifyGenuine(past, Replaced(a.s, r), net, async, PushRule(KeyOf(r)));
    }
  }

  lemma ImportOneGenuine(past: Past, a: Progress, net: Net, async: bool, body: Redirect)
    requires WellKept(a.s) && Genuine(past, a.s) && NormalizeHost(body.host) in past.hosts
    requires IsValid(body) ==> Admitted(a.s.kv, body) in past.rules
    ensures Genuine(past, ImportOne(a, net, async, body).s)
  {
    if IsValid(body) {
      var f := ApplyCi(a.s.kv.hosts, Normalized(body));
      FoldKeepsOrder(a.s, Normalized(body));
      FoldGenuine(past, a.s, Normalized(body));
      UpsertGenuine(past, a.(s := WithHosts(a.s, f.hosts), keys := a.keys + {KeyOf(f.rule)}), net, async, f.rule);
    }
  }

  ghost predicate NamesHosts(past: Past, rules: seq<Redirect>) {
    forall body :: body in rules ==> NormalizeHost(body.host) in past.hosts
  }

  ghost predicate WritesRules(past: Past, ws: seq<Write>) {
    forall r :: Some(r) in ws ==> r in past.rules
  }

  lemma WritesRulesSnoc(past: Past, hosts: Hosts, rules: seq<Redirect>, n: nat)
    requires n + 1 == |rules| && WritesRules(past, Writes(hosts, rules))
    ensures WritesRules(past, Writes(hosts, rules[..n]))
    ensures WriteAt(hosts, rules, n).Some? ==> WriteAt(hosts, rules, n).value in past.rules
  {
    var ws, w := Writes(hosts, rules[..n]), WriteAt(hosts, rules, n);
    assert Writes(hosts, rules) == ws + [w];
    assert w in ws + [w] && forall x :: x in ws ==> x in ws + [w];
  }

  lemma {:induction false} ImportAllGenuine(past: Past, s: State, net: Net, async: bool, rules: seq<Redirect>)
    requires WellKept(s) && Normal(s.kv.rules) && Genuine(past, s)
    requires NamesHosts(past, rules) && WritesRules(past, Writes(s.kv.hosts, rules))
    ensures Genuine(past, ImportAll(s, net, async, rules).s)
  {
    if rules != [] {
      var n := |rules| - 1;
      var init := rules[..n];
      assert rules == init + [rules[n]];
      WritesRulesSnoc(past, s.kv.hosts, rules, n);
      ImportAllGenuine(past, s, net, async, init);
      ImportStores(s, net, async, init);
      WriteInLoop(s, net, async, rules, n);
      ImportOneGenuine(past, ImportAll(s, net, async, init), net, async, rules[n]);
    }
  }

  lemma {:induction false} SweepGenuine(past: Past, w: Sweep, net: Net, async: bool, keep: set<RuleKey>, listing: seq<RuleKey>)
    requires Swept(w) && Genuine(past, w.s) && Distinct(listing) && forall k :: k in listing ==> k in w.s.kv.rules
    ensures Genuine(past, SweepAll(w, net, async, keep, listing).s)
  {
    if listing != [] {
      var init, k := listing[..|listing| - 1], listing[|listing| - 1];
      assert listing == init + [k];
      assert k in listing && k !in init;
      SweepRemoves(w, net, async, keep, init);
      SweepGenuine(past, w, net, async, keep, init);
      var v := SweepAll(w, net, async, keep, init);
      if k !in keep {
        RemoveKeepsOrder(v.s, k);
        RemoveGenuine(past, v.s, k);
        NotifyGenuine(past, Removed(v.s, k), net, async, DeleteRule(k));
      }
    }
  }

  lemma {:induction false} PushHostsGenuine(past: Past, s: State, net: Net, async: bool, hs: seq<string>)
    requires WellKept(s) && Genuine(past, s) && forall h :: h in hs ==> h in s.kv.hosts
    ensures Genuine(past, PushHosts(s, net, async, hs))
  {
    if hs != [] {
      var init, h := hs[..|hs| - 1], hs[|hs| - 1];
      assert hs == init + [h];
      PushHostsGenuine(past, s, net, async, init);
      PushHostsKeepsOrder(s, net, async, init);
      NotifyGenuine(past, PushHosts(s, net, async, init), net, async, PushHost(h));
    }
  }

  lemma ImportGenuine(past: Past, s: State, net: Net, replace: bool, async: bool, rules: seq<Redirect>, listing: seq<RuleKey>)
    requires WellKept(s) && Normal(s.kv.rules) && Genuine(past, s)
    requires NamesHosts(past, rules) && WritesRules(past, Writes(s.kv.hosts, rules))
    requires replace ==> Lists(listing, ImportAll(s, net, async, rules).s.kv.rules.Keys)
    ensures Genuine(past, Import(s, net, replace, async, rules, listing).s)
  {
    var a := ImportAll(s, net, async, rules);
    ImportStores(s, net, async, rules);
    ImportAllGenuine(past, s, net, async, rules);
    var w := Sweep(a.s, 0, a.touched);
    if replace {
      SweepGenuine(past, w, net, async, a.keys, listing);
      SweepRemoves(w, net, async, a.keys, listing);
      w := SweepAll(w, net, async, a.keys, listing);
    }
    PushHostsGenuine(past, w.s, net, async, w.touched);
  }
}
