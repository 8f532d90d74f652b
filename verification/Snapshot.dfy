/** Publishing the catalog and seeding an empty store from it,
    admin-api/src/snapshot.rs. */
module Snapshot {
  import opened Text
  import opened Model
  import opened Listings
  import opened Protocol
  import opened Coverage
  import opened Sync

  datatype Catalog = Catalog(rules: seq<Redirect>, hosts: seq<HostMeta>)

  // ---------------------------------------------------------------------------
  // Publishing
  // ---------------------------------------------------------------------------

  predicate RuleBefore(a: Redirect, b: Redirect) {
    StringLess(a.host, b.host) || (a.host == b.host && StringLess(a.path, b.path))
  }

  predicate RulesSorted(rs: seq<Redirect>) {
    forall i, j :: 0 <= i < j < |rs| ==> !RuleBefore(rs[j], rs[i])
  }

  predicate HostsSorted(hs: seq<HostMeta>) {
    forall i, j :: 0 <= i < j < |hs| ==> !StringLess(hs[j].host, hs[i].host)
  }

  function InsertRule(rs: seq<Redirect>, r: Redirect): (out: seq<Redirect>)
    ensures |out| == |rs| + 1
    ensures forall x :: x in out <==> x == r || x in rs
  {
    if rs == [] then [r]
    else if RuleBefore(r, rs[0]) then [r] + rs
    else [rs[0]] + InsertRule(rs[1..], r)
  }

  function InsertHost(hs: seq<HostMeta>, h: HostMeta): (out: seq<HostMeta>)
    ensures |out| == |hs| + 1
    ensures forall x :: x in out <==> x == h || x in hs
  {
    if hs == [] then [h]
    else if StringLess(h.host, hs[0].host) then [h] + hs
    else [hs[0]] + InsertHost(hs[1..], h)
  }

  lemma RuleBeforeTransitive(a: Redirect, b: Redirect, c: Redirect)
    requires RuleBefore(a, b) && RuleBefore(b, c)
    ensures RuleBefore(a, c)
  {
    if StringLess(a.host, b.host) && StringLess(b.host, c.host) {
      BytesLessTransitive(Utf8(a.host), Utf8(b.host), Utf8(c.host));
    }
    if StringLess(a.path, b.path) && StringLess(b.path, c.path) {
      BytesLessTransitive(Utf8(a.path), Utf8(b.path), Utf8(c.path));
    }
  }

  lemma {:induction false} InsertRuleSorts(rs: seq<Redirect>, r: Redirect)
    requires RulesSorted(rs)
    ensures RulesSorted(InsertRule(rs, r))
  {
    var out := InsertRule(rs, r);
    if rs != [] && RuleBefore(r, rs[0]) {
      forall j | 1 <= j < |out| ensures !RuleBefore(out[j], r) {
        assert out[j] == rs[j - 1];
        if RuleBefore(rs[j - 1], r) {
          RuleBeforeTransitive(rs[j - 1], r, rs[0]);
          RuleBeforeIrreflexive(rs[0]);
        }
      }
    } else if rs != [] {
      InsertRuleSorts(rs[1..], r);
      forall j | 1 <= j < |out| ensures !RuleBefore(out[j], rs[0]) {
        assert out[j] in InsertRule(rs[1..], r);
      }
    }
  }

  lemma RuleBeforeIrreflexive(a: Redirect)
    ensures !RuleBefore(a, a)
  {
    BytesLessIrreflexive(Utf8(a.host));
    BytesLessIrreflexive(Utf8(a.path));
  }

  lemma {:induction false} InsertHostSorts(hs: seq<HostMeta>, h: HostMeta)
    requires HostsSorted(hs)
    ensures HostsSorted(InsertHost(hs, h))
  {
    var out := InsertHost(hs, h);
    if hs != [] && StringLess(h.host, hs[0].host) {
      forall j | 1 <= j < |out| ensures !StringLess(out[j].host, h.host) {
        assert out[j] == hs[j - 1];
        if StringLess(hs[j - 1].host, h.host) {
          BytesLessTransitive(Utf8(hs[j - 1].host), Utf8(h.host), Utf8(hs[0].host));
          BytesLessIrreflexive(Utf8(hs[0].host));
        }
      }
    } else if hs != [] {
      InsertHostSorts(hs[1..], h);
      forall j | 1 <= j < |out| ensures !StringLess(out[j].host, hs[0].host) {
        assert out[j] in InsertHost(hs[1..], h);
      }
    }
  }

  /** The catalog lists each stored rule and host record, and nothing else. */
  ghost predicate IsCatalogOf(kv: Kv, c: Catalog) {
    && |c.rules| == |kv.rules| && |c.hosts| == |kv.hosts|
    && (forall r :: r in c.rules <==> exists k :: k in kv.rules && kv.rules[k] == r)
    && (forall m :: m in c.hosts <==> exists h :: h in kv.hosts && kv.hosts[h] == m)
  }

  method PublishSnapshot(b: Backend) returns (catalog: Catalog)
    ensures IsCatalogOf(b.Stored(), catalog)
    ensures RulesSorted(catalog.rules) && HostsSorted(catalog.hosts)
  {
    var keys := Enumerate(b.rules.Keys);
    var rules: seq<Redirect> := [];
    for i := 0 to |keys|
      invariant |rules| == i && RulesSorted(rules)
      invariant forall r :: r in rules <==> exists j :: 0 <= j < i && keys[j] in b.rules && b.rules[keys[j]] == r
    {
      assert keys[i] in keys;
      InsertRuleSorts(rules, b.rules[keys[i]]);
      rules := InsertRule(rules, b.rules[keys[i]]);
    }
    var names := Enumerate(b.hosts.Keys);
    var hosts: seq<HostMeta> := [];
    for i := 0 to |names|
      invariant |hosts| == i && HostsSorted(hosts)
      invariant forall m :: m in hosts <==> exists j :: 0 <= j < i && names[j] in b.hosts && b.hosts[names[j]] == m
    {
      assert names[i] in names;
      InsertHostSorts(hosts, b.hosts[names[i]]);
      hosts := InsertHost(hosts, b.hosts[names[i]]);
    }
    ListingLength(keys, b.rules.Keys);
    ListingLength(names, b.hosts.Keys);
    assert forall k :: k in b.rules ==> k in keys;
    assert forall h :: h in b.hosts ==> h in names;
    catalog := Catalog(rules, hosts);
  }

  // ---------------------------------------------------------------------------
  // Seeding
  // ---------------------------------------------------------------------------

  function RestoreRules(rules: Rules, rs: seq<Redirect>): Rules {
    if rs == [] then rules else
    var r := rs[|rs| - 1];
    RestoreRules(rules, rs[..|rs| - 1])[KeyOf(r) := r]
  }

  function RestoreHosts(hosts: Hosts, hs: seq<HostMeta>): Hosts {
    if hs == [] then hosts else
    var h := hs[|hs| - 1];
    RestoreHosts(hosts, hs[..|hs| - 1])[h.host := h]
  }

  /** What the object store answered. */
  datatype ObjectRead = Found(catalog: Catalog) | Malformed | Absent | Unreachable

  method EnsureSeeded(b: Backend, seeded: bool, stored: ObjectRead) returns (seeded': bool)
    modifies b`rules, b`hosts
    ensures Kv(b.rules, b.hosts) ==
      if !seeded && old(b.rules) == map[] && stored.Found?
      then Kv(RestoreRules(map[], stored.catalog.rules), RestoreHosts(old(b.hosts), stored.catalog.hosts))
      else old(b.Stored())
    ensures seeded' <==> seeded || old(b.rules) != map[] || !stored.Unreachable?
  {
    if seeded || b.rules != map[] {
      return true;
    }
    match stored {
      case Found(catalog) =>
        var rules, hosts := catalog.rules, catalog.hosts;
        for i := 0 to |rules|
          invariant b.rules == RestoreRules(map[], rules[..i]) && b.hosts == old(b.hosts)
        {
          assert rules[..i + 1][..i] == rules[..i];
          b.rules := b.rules[KeyOf(rules[i]) := rules[i]];
        }
        assert rules[..|rules|] == rules;
        for i := 0 to |hosts|
          invariant b.rules == RestoreRules(map[], rules) && b.hosts == RestoreHosts(old(b.hosts), hosts[..i])
        {
          assert hosts[..i + 1][..i] == hosts[..i];
          b.hosts := b.hosts[hosts[i].host := hosts[i]];
        }
        assert hosts[..|hosts|] == hosts;
        seeded' := true;
      case Malformed => seeded' := true;
      case Absent => seeded' := true;
      case Unreachable => seeded' := false;
    }
  }

  // ---------------------------------------------------------------------------
  // Round trip
  // ---------------------------------------------------------------------------

  lemma {:induction false} RestoredRules(source: Rules, rs: seq<Redirect>)
    requires Coherent(source) && forall r :: r in rs ==> exists k :: k in source && source[k] == r
    ensures var out := RestoreRules(map[], rs);
      && (forall k :: k in out ==> k in source && out[k] == source[k])
      && (forall r :: r in rs ==> KeyOf(r) in out)
  {
    if rs != [] {
      var init, r := rs[..|rs| - 1], rs[|rs| - 1];
      assert rs == init + [r];
      assert r in rs && forall x :: x in init ==> x in rs;
      RestoredRules(source, init);
      var k :| k in source && source[k] == r;
      assert KeyOf(r) == k;
    }
  }

  lemma {:induction false} RestoredHosts(source: Hosts, hs: seq<HostMeta>)
    requires forall h :: h in source ==> source[h].host == h
    requires forall m :: m in hs ==> exists h :: h in source && source[h] == m
    ensures var out := RestoreHosts(map[], hs);
      && (forall h :: h in out ==> h in source && out[h] == source[h])
      && (forall m :: m in hs ==> m.host in out)
  {
    if hs != [] {
      var init, m := hs[..|hs| - 1], hs[|hs| - 1];
      assert hs == init + [m];
      assert m in hs && forall x :: x in init ==> x in hs;
      RestoredHosts(source, init);
      var h :| h in source && source[h] == m;
      assert m.host == h;
    }
  }

  /** Because rules and host records sit under their own keys, seeding an empty
      store from a catalog restores exactly the stores it was published from. */
  lemma SnapshotRoundTrip(s: State, c: Catalog)
    requires WellKept(s) && IsCatalogOf(s.kv, c)
    ensures RestoreRules(map[], c.rules) == s.kv.rules && RestoreHosts(map[], c.hosts) == s.kv.hosts
  {
    RestoredRules(s.kv.rules, c.rules);
    RestoredHosts(s.kv.hosts, c.hosts);
    forall k | k in s.kv.rules ensures k in RestoreRules(map[], c.rules) {
      assert s.kv.rules[k] in c.rules;
      assert KeyOf(s.kv.rules[k]) == k;
    }
    forall h | h in s.kv.hosts ensures h in RestoreHosts(map[], c.hosts) {
      assert s.kv.hosts[h] in c.hosts;
    }
  }
}
