/** Rule counts: each host record says how many rules the host has. */
module Counts {
  import opened Model
  import opened EdgeStore
  import opened Listings
  import opened Protocol
  import opened Handlers
  import opened Coverage
  import opened Mutations
  import opened Imports
  import opened Sync

  ghost predicate Counted(kv: Kv) {
    forall h :: h in kv.hosts ==> kv.hosts[h].ruleCount == |HostKeys(kv.rules, h)|
  }

  // ---------------------------------------------------------------------------
  // Counting keys
  // ---------------------------------------------------------------------------

  lemma StoreCount(rules: Rules, k: RuleKey, r: Redirect, h: string)
    ensures |HostKeys(rules[k := r], h)| == |HostKeys(rules, h)| + if h == k.host && k !in rules then 1 else 0
  {
    var keys, keys' := HostKeys(rules, h), HostKeys(rules[k := r], h);
    if h == k.host && k !in rules {
      assert keys' == keys + {k};
    } else {
      assert keys' == keys;
    }
  }

  lemma RemoveCount(rules: Rules, k: RuleKey, h: string)
    ensures |HostKeys(rules - {k}, h)| == |HostKeys(rules, h)| - if h == k.host && k in rules then 1 else 0
  {
    var keys, keys' := HostKeys(rules, h), HostKeys(rules - {k}, h);
    if h == k.host && k in rules {
      assert keys' == keys - {k};
    } else {
      assert keys' == keys;
    }
  }

  lemma UnknownHostIsEmpty(s: State, h: string)
    requires WellKept(s) && h !in s.kv.hosts
    ensures |HostKeys(s.kv.rules, h)| == 0
  {
    assert HostKeys(s.kv.rules, h) == {};
  }

  lemma HostCountBound(rules: Rules, h: string)
    ensures |HostKeys(rules, h)| <= |rules|
  {
    SubsetCount(HostKeys(rules, h), rules.Keys);
  }

  lemma SubsetCount(a: set<RuleKey>, b: set<RuleKey>)
    requires a <= b
    ensures |a| <= |b|
  {
    assert |b - a| == |b| - |a|;
  }

  // ---------------------------------------------------------------------------
  // Conservation
  // ---------------------------------------------------------------------------

  /** Storing a new rule keeps the counts right exactly while the 64-bit counter
      has room. */
  lemma StoreKeepsCountsIff(s: State, r: Redirect)
    requires WellKept(s) && Counted(s.kv) && KeyOf(r) !in s.kv.rules
    ensures Counted(Stored(s, r).kv) <==> |HostKeys(s.kv.rules, r.host)| < U64_MAX
  {
    var kv' := Stored(s, r).kv;
    if r.host !in s.kv.hosts {
      UnknownHostIsEmpty(s, r.host);
    }
    forall h ensures |HostKeys(kv'.rules, h)| == |HostKeys(s.kv.rules, h)| + if h == r.host then 1 else 0 {
      StoreCount(s.kv.rules, KeyOf(r), r, h);
    }
    assert r.host in kv'.hosts;
  }

  /** Removing a stored rule keeps the counts right; its decrement never clips. */
  lemma RemoveKeepsCounts(s: State, k: RuleKey)
    requires WellKept(s) && Counted(s.kv) && k in s.kv.rules
    ensures Counted(Removed(s, k).kv)
    ensures s.kv.hosts[k.host].ruleCount >= 1
  {
    forall h ensures |HostKeys(s.kv.rules - {k}, h)| == |HostKeys(s.kv.rules, h)| - if h == k.host then 1 else 0 {
      RemoveCount(s.kv.rules, k, h);
    }
  }

  lemma ReplaceKeepsCounts(s: State, r: Redirect)
    requires Counted(s.kv) && KeyOf(r) in s.kv.rules
    ensures Counted(Replaced(s, r).kv)
  {
    forall h ensures |HostKeys(Replaced(s, r).kv.rules, h)| == |HostKeys(s.kv.rules, h)| {
      StoreCount(s.kv.rules, KeyOf(r), r, h);
    }
  }

  lemma FoldKeepsCounts(s: State, r: Redirect)
    requires WellKept(s) && Counted(s.kv)
    ensures Counted(WithHosts(s, ApplyCi(s.kv.hosts, r).hosts).kv)
  {
    if r.host !in s.kv.hosts {
      UnknownHostIsEmpty(s, r.host);
    }
  }

  lemma CreateKeepsCounts(s: State, net: Net, body: Redirect, async: bool)
    requires WellKept(s) && Counted(s.kv) && |s.kv.rules| < U64_MAX
    ensures Counted(Create(s, net, body, async).s.kv)
  {
    if IsValid(body) {
      FoldKeepsOrder(s, Normalized(body));
      FoldKeepsCounts(s, Normalized(body));
      var s1 := WithHosts(s, ApplyCi(s.kv.hosts, Normalized(body)).hosts);
      var r := Admitted(s.kv, body);
      if KeyOf(r) !in s1.kv.rules {
        HostCountBound(s.kv.rules, r.host);
        StoreKeepsCountsIff(s1, r);
      }
    }
  }

  lemma {:induction false} UpdateKeepsCounts(s: State, net: Net, url: Url, body: Redirect, async: bool)
    requires WellKept(s) && Counted(s.kv)
    ensures Counted(Update(s, net, url, body, async).s.kv)
  {
    var r := Normalized(body).(caseInsensitive := false);
    var f := ApplyCi(s.kv.hosts, r);
    assert WithHosts(s, f.hosts) == s;
    if KeyOf(f.rule) in s.kv.rules {
      ReplaceKeepsCounts(s, f.rule);
    }
  }

  lemma DeleteKeepsCounts(s: State, net: Net, url: Url, async: bool)
    requires WellKept(s) && Counted(s.kv)
    ensures Counted(Delete(s, net, url, async).s.kv)
  {
    var parsed := ParseUrl(url);
    if parsed.Some? && parsed.value in s.kv.rules {
      RemoveKeepsCounts(s, parsed.value);
    }
  }

  /** PUT of a host record trusts the body's count when the host is new: the
      counts stay right exactly when the host is known or the count sent is 0. */
  lemma {:induction false} UpdateHostKeepsCountsIff(s: State, net: Net, rawHost: string, body: HostMeta, async: bool)
    requires WellKept(s) && Counted(s.kv) && rawHost != ""
    ensures Counted(UpdateHost(s, net, rawHost, body, async).s.kv) <==>
      NormalizeHost(rawHost) in s.kv.hosts || body.ruleCount == 0
  {
    var host := NormalizeHost(rawHost);
    var s' := UpdateHost(s, net, rawHost, body, async).s;
    assert s'.kv.rules == s.kv.rules && host in s'.kv.hosts;
    if host !in s.kv.hosts {
      UnknownHostIsEmpty(s, host);
    }
  }

  lemma {:induction false} ImportOneKeepsCounts(a: Progress, net: Net, async: bool, body: Redirect)
    requires Sane(a) && Counted(a.s.kv) && |a.s.kv.rules| < U64_MAX
    ensures Counted(ImportOne(a, net, async, body).s.kv)
    ensures |ImportOne(a, net, async, body).s.kv.rules| <= |a.s.kv.rules| + 1
  {
    if IsValid(body) {
      var f := ApplyCi(a.s.kv.hosts, Normalized(body));
      FoldKeepsOrder(a.s, Normalized(body));
      FoldKeepsCounts(a.s, Normalized(body));
      UpsertKeepsCounts(a.(s := WithHosts(a.s, f.hosts), keys := a.keys + {KeyOf(f.rule)}), net, async, f.rule);
    }
  }

  lemma {:induction false} UpsertKeepsCounts(a: Progress, net: Net, async: bool, r: Redirect)
    requires WellKept(a.s) && Counted(a.s.kv) && |a.s.kv.rules| < U64_MAX
    ensures Counted(UpsertFolded(a, net, async, r).s.kv)
    ensures |UpsertFolded(a, net, async, r).s.kv.rules| <= |a.s.kv.rules| + 1
  {
    if KeyOf(r) !in a.s.kv.rules {
      HostCountBound(a.s.kv.rules, r.host);
      StoreKeepsCountsIff(a.s, r);
    } else {
      ReplaceKeepsCounts(a.s, r);
    }
  }

  lemma {:induction false} ImportAllKeepsCounts(s: State, net: Net, async: bool, rules: seq<Redirect>)
    requires WellKept(s) && Normal(s.kv.rules) && Counted(s.kv) && |s.kv.rules| + |rules| <= U64_MAX
    ensures var a := ImportAll(s, net, async, rules); Counted(a.s.kv) && |a.s.kv.rules| <= |s.kv.rules| + |rules|
  {
    if rules != [] {
      var init := rules[..|rules| - 1];
      ImportAllKeepsCounts(s, net, async, init);
      ImportStores(s, net, async, init);
      ImportOneKeepsCounts(ImportAll(s, net, async, init), net, async, rules[|rules| - 1]);
    }
  }

  lemma {:induction false} SweepKeepsCounts(w: Sweep, net: Net, async: bool, keep: set<RuleKey>, listing: seq<RuleKey>)
    requires Swept(w) && Distinct(listing) && forall k :: k in listing ==> k in w.s.kv.rules
    requires Counted(w.s.kv)
    ensures Counted(SweepAll(w, net, async, keep, listing).s.kv)
  {
    if listing != [] {
      var init, k := listing[..|listing| - 1], listing[|listing| - 1];
      assert listing == init + [k];
      assert k in listing && k !in init;
      SweepRemoves(w, net, async, keep, init);
      SweepKeepsCounts(w, net, async, keep, init);
      if k !in keep {
        RemoveKeepsCounts(SweepAll(w, net, async, keep, init).s, k);
      }
    }
  }

  lemma ImportKeepsCounts(s: State, net: Net, replace: bool, async: bool, rules: seq<Redirect>, listing: seq<RuleKey>)
    requires WellKept(s) && Normal(s.kv.rules) && Counted(s.kv) && |s.kv.rules| + |rules| <= U64_MAX
    requires replace ==> Lists(listing, ImportAll(s, net, async, rules).s.kv.rules.Keys)
    ensures Counted(Import(s, net, replace, async, rules, listing).s.kv)
  {
    var a := ImportAll(s, net, async, rules);
    ImportAllKeepsCounts(s, net, async, rules);
    ImportStores(s, net, async, rules);
    var w := Sweep(a.s, 0, a.touched);
    if replace {
      SweepKeepsCounts(w, net, async, a.keys, listing);
      SweepRemoves(w, net, async, a.keys, listing);
      w := SweepAll(w, net, async, a.keys, listing);
    }
    PushHostsKeepsOrder(w.s, net, async, w.touched);
  }

  // ---------------------------------------------------------------------------
  // stats
  // ---------------------------------------------------------------------------

  /** The rules of the hosts listed so far. */
  function KeysOfHosts(rules: Rules, hosts: seq<string>): set<RuleKey> {
    set k | k in rules && k.host in hosts
  }

  lemma NextHost(rules: Rules, hosts: seq<string>, n: nat)
    requires Distinct(hosts) && n < |hosts|
    ensures |KeysOfHosts(rules, hosts[..n + 1])| == |KeysOfHosts(rules, hosts[..n])| + |HostKeys(rules, hosts[n])|
  {
    var a, b := KeysOfHosts(rules, hosts[..n]), HostKeys(rules, hosts[n]);
    assert hosts[..n + 1] == hosts[..n] + [hosts[n]];
    assert KeysOfHosts(rules, hosts[..n + 1]) == a + b;
    assert a !! b;
  }

  /** `stats` sums host records instead of reading rules; with right counts that
      is the number of stored rules, and the `disabled` figure, a difference of
      unsigned numbers, does not wrap. */
  method Stats(b: Backend) returns (total: nat, enabled: nat, disabled: int, uniqueHosts: nat, pending: nat)
    requires Counted(b.Stored()) && forall k :: k in b.rules ==> k.host in b.hosts
    ensures total == |b.rules| && uniqueHosts == |b.hosts| && pending == |b.pending|
    ensures 0 <= disabled && enabled + disabled == total
    ensures enabled == |EnabledKeys(b.Stored())|
  {
    var hosts := Enumerate(b.hosts.Keys);
    total, enabled, uniqueHosts := 0, 0, 0;
    for i := 0 to |hosts|
      invariant total == |KeysOfHosts(b.rules, hosts[..i])| && uniqueHosts == i
      invariant enabled == |EnabledOf(b.Stored(), hosts[..i])| && enabled <= total
    {
      assert hosts[i] in b.hosts;
      NextHost(b.rules, hosts, i);
      NextEnabled(b.Stored(), hosts, i);
      uniqueHosts := uniqueHosts + 1;
      total := total + b.hosts[hosts[i]].ruleCount;
      if b.hosts[hosts[i]].enabled {
        enabled := enabled + b.hosts[hosts[i]].ruleCount;
      }
    }
    ListingLength(hosts, b.hosts.Keys);
    assert hosts[..|hosts|] == hosts;
    assert KeysOfHosts(b.rules, hosts) == b.rules.Keys;
    assert EnabledOf(b.Stored(), hosts) == EnabledKeys(b.Stored());
    disabled := total - enabled;
    pending := |b.pending|;
  }

  /** The rules whose host is enabled, which is what `stats` calls enabled. */
  function EnabledKeys(kv: Kv): set<RuleKey> {
    set k | k in kv.rules && k.host in kv.hosts && kv.hosts[k.host].enabled
  }

  function EnabledOf(kv: Kv, hosts: seq<string>): set<RuleKey> {
    set k | k in kv.rules && k.host in hosts && k.host in kv.hosts && kv.hosts[k.host].enabled
  }

  lemma NextEnabled(kv: Kv, hosts: seq<string>, n: nat)
    requires Distinct(hosts) && n < |hosts| && hosts[n] in kv.hosts
    ensures |EnabledOf(kv, hosts[..n + 1])| == |EnabledOf(kv, hosts[..n])|
      + if kv.hosts[hosts[n]].enabled then |HostKeys(kv.rules, hosts[n])| else 0
  {
    var a, b := EnabledOf(kv, hosts[..n]), HostKeys(kv.rules, hosts[n]);
    assert hosts[..n + 1] == hosts[..n] + [hosts[n]];
    if kv.hosts[hosts[n]].enabled {
      assert EnabledOf(kv, hosts[..n + 1]) == a + b;
      assert a !! b;
    } else {
      assert EnabledOf(kv, hosts[..n + 1]) == a;
    }
  }
}
