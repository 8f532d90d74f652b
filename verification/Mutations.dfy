/** What each mutation of the rules does to coverage. */
module Mutations {
  import opened Text
  import opened Model
  import opened EdgeStore
  import opened Keys
  import opened Protocol
  import opened Handlers
  import opened Coverage

  // ---------------------------------------------------------------------------
  // Writing the store
  // ---------------------------------------------------------------------------

  /** The stores agree but for one rule and the record of its host. */
  ghost predicate DifferAt(a: Kv, b: Kv, k: RuleKey) {
    && (forall x :: x != k ==> (x in a.rules <==> x in b.rules) && (x in a.rules ==> a.rules[x] == b.rules[x]))
    && (forall h :: h != k.host ==> (h in a.hosts <==> h in b.hosts) && (h in a.hosts ==> a.hosts[h] == b.hosts[h]))
  }

  /** Writing one rule and its host's record disturbs two units at most. */
  lemma {:induction false} WriteKeepsOthers(s: State, kv: Kv, k: RuleKey, u: Unit)
    requires Coherent(s.kv.rules) && Coherent(kv.rules) && DifferAt(s.kv, kv, k)
    requires u != UnitOfKey(k) && u != SentinelUnit(k.host)
    requires Covered(s, u)
    ensures Covered(s.(kv := kv), u)
  {
    var s' := s.(kv := kv);
    if u.ManifestUnit? {
      ManifestFrame(s.kv.rules, kv.rules, u.host);
    }
    assert Wanted(s.kv, u) == Wanted(kv, u);
    if Marked(s, u) {
      var t :| t in s.pending && Repairs(s.kv, t, u);
      assert Repairs(s'.kv, t, u);
    }
  }

  /** Writing a host record disturbs its sentinel only. */
  lemma HostWriteKeepsOthers(s: State, hosts: Hosts, host: string, u: Unit)
    requires forall h :: h != host ==> (h in s.kv.hosts <==> h in hosts) && (h in hosts ==> s.kv.hosts[h] == hosts[h])
    requires u != SentinelUnit(host) && Covered(s, u)
    ensures Covered(WithHosts(s, hosts), u)
  {
    var s' := WithHosts(s, hosts);
    assert Wanted(s.kv, u) == Wanted(s'.kv, u);
    if Marked(s, u) {
      var t :| t in s.pending && Repairs(s.kv, t, u);
      assert Repairs(s'.kv, t, u);
    }
  }

  lemma FoldKeepsOrder(s: State, r: Redirect)
    requires WellKept(s)
    ensures WellKept(WithHosts(s, ApplyCi(s.kv.hosts, r).hosts))
    ensures ApplyCi(s.kv.hosts, r).rule.host == r.host
  {
  }

  lemma StoreKeepsOrder(s: State, r: Redirect)
    requires WellKept(s)
    ensures WellKept(Stored(s, r)) && KeyOf(r) in Stored(s, r).kv.rules && r.host in Stored(s, r).kv.hosts
  {
  }

  lemma ReplaceKeepsOrder(s: State, r: Redirect)
    requires WellKept(s) && KeyOf(r) in s.kv.rules
    ensures WellKept(Replaced(s, r)) && DifferAt(s.kv, Replaced(s, r).kv, KeyOf(r))
  {
  }

  lemma RemoveKeepsOrder(s: State, k: RuleKey)
    requires WellKept(s) && k in s.kv.rules
    ensures WellKept(Removed(s, k)) && DifferAt(s.kv, Removed(s, k).kv, k) && k.host in Removed(s, k).kv.hosts
  {
  }

  /** Storing a rule and announcing it: every unit but the sentinel is covered if
      it was, and the rule's own unit is covered even if it was not. */
  lemma AddCovers(s: State, net: Net, async: bool, r: Redirect, u: Unit)
    requires WellKept(s) && Covered(s, u) && u != SentinelUnit(r.host)
    ensures Covered(Notify(Stored(s, r), net, async, PushRule(KeyOf(r))), u)
  {
    StoreKeepsOrder(s, r);
    var s1 := Stored(s, r);
    if u != UnitOfKey(KeyOf(r)) {
      WriteKeepsOthers(s, s1.kv, KeyOf(r), u);
    }
    NotifyKeepsCoverage(s1, net, async, PushRule(KeyOf(r)), u);
  }

  lemma ReplaceCovers(s: State, net: Net, async: bool, r: Redirect, u: Unit)
    requires WellKept(s) && KeyOf(r) in s.kv.rules && Covered(s, u)
    ensures Covered(Notify(Replaced(s, r), net, async, PushRule(KeyOf(r))), u)
  {
    ReplaceKeepsOrder(s, r);
    var s1 := Replaced(s, r);
    if u == SentinelUnit(r.host) {
      SentinelIgnoresRules(s, s1, u);
    } else if u != UnitOfKey(KeyOf(r)) {
      WriteKeepsOthers(s, s1.kv, KeyOf(r), u);
    }
    NotifyKeepsCoverage(s1, net, async, PushRule(KeyOf(r)), u);
  }

  lemma SentinelIgnoresRules(s: State, s1: State, u: Unit)
    requires u.SentinelUnit? && Covered(s, u)
    requires s1.kv.hosts == s.kv.hosts && s1.edge == s.edge && s1.pending == s.pending
    ensures Covered(s1, u)
  {
    if Marked(s, u) {
      assert PushHost(u.host) in s1.pending && Repairs(s1.kv, PushHost(u.host), u);
    }
  }

  lemma RemoveCovers(s: State, net: Net, async: bool, k: RuleKey, u: Unit)
    requires WellKept(s) && k in s.kv.rules && Covered(s, u) && u != SentinelUnit(k.host)
    ensures Covered(Notify(Removed(s, k), net, async, DeleteRule(k)), u)
  {
    RemoveKeepsOrder(s, k);
    var s1 := Removed(s, k);
    if u != UnitOfKey(k) {
      WriteKeepsOthers(s, s1.kv, k, u);
    }
    NotifyKeepsCoverage(s1, net, async, DeleteRule(k), u);
  }

  // ---------------------------------------------------------------------------
  // Single-rule mutations
  // ---------------------------------------------------------------------------

  function Admitted(kv: Kv, body: Redirect): Redirect {
    ApplyCi(kv.hosts, Normalized(body)).rule
  }

  /** The body flips its host to case-insensitive although its rule is stored
      already, and no marker of the host is pending: a create writes the flag, but
      nothing announces it. */
  predicate WastesFlip(s: State, body: Redirect) {
    && IsValid(body) && Flips(s.kv.hosts, Normalized(body)) && KeyOf(Admitted(s.kv, body)) in s.kv.rules
    && PushHost(NormalizeHost(body.host)) !in s.pending
  }

  lemma FoldCovers(s: State, body: Redirect, u: Unit)
    requires WellKept(s) && Covered(s, u)
    requires u == SentinelUnit(NormalizeHost(body.host)) && Flips(s.kv.hosts, Normalized(body)) ==>
      PushHost(u.host) in s.pending
    ensures Covered(WithHosts(s, ApplyCi(s.kv.hosts, Normalized(body)).hosts), u)
  {
    var hosts := ApplyCi(s.kv.hosts, Normalized(body)).hosts;
    if !Flips(s.kv.hosts, Normalized(body)) {
      assert WithHosts(s, hosts) == s;
    } else if u == SentinelUnit(NormalizeHost(body.host)) {
      assert Repairs(WithHosts(s, hosts).kv, PushHost(u.host), u);
    } else {
      HostWriteKeepsOthers(s, hosts, NormalizeHost(body.host), u);
    }
  }

  lemma CreateKeepsOrder(s: State, net: Net, body: Redirect, async: bool)
    requires WellKept(s)
    ensures WellKept(Create(s, net, body, async).s)
  {
    if IsValid(body) {
      var r := Admitted(s.kv, body);
      FoldKeepsOrder(s, Normalized(body));
      var s1 := WithHosts(s, ApplyCi(s.kv.hosts, Normalized(body)).hosts);
      if KeyOf(r) !in s1.kv.rules {
        StoreKeepsOrder(s1, r);
        NotifyKeepsOrder(Stored(s1, r), net, async, PushRule(KeyOf(r)));
        NotifyKeepsOrder(Notify(Stored(s1, r), net, async, PushRule(KeyOf(r))), net, async, PushHost(r.host));
      }
    }
  }

  lemma {:induction false} CreateCovers(s: State, net: Net, body: Redirect, async: bool, u: Unit)
    requires WellKept(s) && Covered(s, u)
    requires u == SentinelUnit(NormalizeHost(body.host)) ==> !WastesFlip(s, body)
    ensures Covered(Create(s, net, body, async).s, u)
  {
    if IsValid(body) {
      var r := Admitted(s.kv, body);
      FoldKeepsOrder(s, Normalized(body));
      var s1 := WithHosts(s, ApplyCi(s.kv.hosts, Normalized(body)).hosts);
      if KeyOf(r) in s1.kv.rules {
        FoldCovers(s, body, u);
      } else {
        StoreKeepsOrder(s1, r);
        NotifyKeepsOrder(Stored(s1, r), net, async, PushRule(KeyOf(r)));
        var s2 := Notify(Stored(s1, r), net, async, PushRule(KeyOf(r)));
        if u != SentinelUnit(r.host) {
          FoldCovers(s, body, u);
          AddCovers(s1, net, async, r, u);
        }
        NotifyKeepsCoverage(s2, net, async, PushHost(r.host), u);
      }
    }
  }

  /** A rejected create has still written the flipped flag. A create keeps a
      covered unit covered exactly when the unit is not the sentinel of a host
      whose flip it wastes. */
  lemma {:induction false} CreateCoversIff(s: State, net: Net, body: Redirect, async: bool, u: Unit)
    requires WellKept(s) && Covered(s, u)
    ensures Covered(Create(s, net, body, async).s, u) <==>
      !(u == SentinelUnit(NormalizeHost(body.host)) && WastesFlip(s, body))
  {
    if u == SentinelUnit(NormalizeHost(body.host)) && WastesFlip(s, body) {
      var s1 := Create(s, net, body, async).s;
      assert s1.pending == s.pending && s1.edge == s.edge;
      assert !Marked(s1, u) && !Marked(s, u);
      assert Wanted(s1.kv, u) != Wanted(s.kv, u);
    } else {
      CreateCovers(s, net, body, async, u);
    }
  }

  lemma ReplaceFoldedCovers(s: State, net: Net, r: Redirect, async: bool, u: Unit)
    requires WellKept(s) && Covered(s, u) && !r.caseInsensitive
    ensures WellKept(ReplaceFolded(s, net, r, async).s) && Covered(ReplaceFolded(s, net, r, async).s, u)
  {
    var f := ApplyCi(s.kv.hosts, r);
    assert WithHosts(s, f.hosts) == s;
    if KeyOf(f.rule) in s.kv.rules {
      ReplaceCovers(s, net, async, f.rule, u);
      ReplaceKeepsOrder(s, f.rule);
      NotifyKeepsOrder(Replaced(s, f.rule), net, async, PushRule(KeyOf(f.rule)));
    }
  }

  lemma UpdateCovers(s: State, net: Net, url: Url, body: Redirect, async: bool, u: Unit)
    requires WellKept(s) && Covered(s, u)
    ensures WellKept(Update(s, net, url, body, async).s) && Covered(Update(s, net, url, body, async).s, u)
  {
    ReplaceFoldedCovers(s, net, Normalized(body).(caseInsensitive := false), async, u);
  }

  lemma DeleteCovers(s: State, net: Net, url: Url, async: bool, u: Unit)
    requires WellKept(s) && Covered(s, u)
    ensures WellKept(Delete(s, net, url, async).s) && Covered(Delete(s, net, url, async).s, u)
  {
    var parsed := ParseUrl(url);
    if parsed.Some? && parsed.value in s.kv.rules {
      var k := parsed.value;
      RemoveKeepsOrder(s, k);
      NotifyKeepsOrder(Removed(s, k), net, async, DeleteRule(k));
      var s2 := Notify(Removed(s, k), net, async, DeleteRule(k));
      if u != SentinelUnit(k.host) {
        RemoveCovers(s, net, async, k, u);
      }
      NotifyKeepsOrder(s2, net, async, PushHost(k.host));
      NotifyKeepsCoverage(s2, net, async, PushHost(k.host), u);
    }
  }

  /** The store after a host update, before anything is pushed. */
  function Recorded(s: State, host: string, body: HostMeta): State {
    var count := if host in s.kv.hosts then s.kv.hosts[host].ruleCount else body.ruleCount;
    WithHosts(s, s.kv.hosts[host := body.(host := host, ruleCount := count)])
  }

  lemma RecordKeepsOrder(s: State, host: string, body: HostMeta)
    requires WellKept(s)
    ensures WellKept(Recorded(s, host, body))
  {
  }

  lemma {:induction false} UpdateHostCovers(s: State, net: Net, rawHost: string, body: HostMeta, async: bool, u: Unit)
    requires WellKept(s) && Covered(s, u)
    ensures WellKept(UpdateHost(s, net, rawHost, body, async).s) && Covered(UpdateHost(s, net, rawHost, body, async).s, u)
  {
    if rawHost != "" {
      var host := NormalizeHost(rawHost);
      var s1 := Recorded(s, host, body);
      if u != SentinelUnit(host) {
        HostWriteKeepsOthers(s, s1.kv.hosts, host, u);
      }
      RecordKeepsOrder(s, host, body);
      NotifyKeepsOrder(s1, net, async, PushHost(host));
      NotifyKeepsCoverage(s1, net, async, PushHost(host), u);
    }
  }

  // ---------------------------------------------------------------------------
  // Creating and deleting
  // ---------------------------------------------------------------------------

  /** What a create leaves in the store, whatever EdgeKV does: a new valid rule is
      stored in normal form under its own key, and nothing else changes but its
      host's record; any other body leaves the rules alone. */
  lemma {:induction false} CreateStores(s: State, net: Net, body: Redirect, async: bool)
    ensures var p, r := Create(s, net, body, async), Admitted(s.kv, body);
      && (p.status == 201 <==> IsValid(body) && KeyOf(r) !in s.kv.rules)
      && (p.status == 201 ==> p.s.kv == Stored(WithHosts(s, ApplyCi(s.kv.hosts, Normalized(body)).hosts), r).kv)
      && (p.status != 201 ==> p.s.kv.rules == s.kv.rules && p.s.pending == s.pending && p.s.edge == s.edge)
  {
  }

  /** Deleting the rule just created restores the rule map, the count of its host
      and every other host record, under any failures of either push. */
  lemma {:induction false} DeleteUndoesCreate(s: State, net: Net, body: Redirect, async: bool, url: Url, async': bool)
    requires WellKept(s) && Create(s, net, body, async).status == 201
    requires ParseUrl(url) == Some(KeyOf(Admitted(s.kv, body)))
    requires HostOr(s.kv.hosts, NormalizeHost(body.host)).ruleCount < U64_MAX
    ensures var p, h := Delete(Create(s, net, body, async).s, net, url, async'), NormalizeHost(body.host);
      && p.status == 200 && p.s.kv.rules == s.kv.rules
      && (forall x :: x != h ==> (x in p.s.kv.hosts <==> x in s.kv.hosts) && (x in s.kv.hosts ==> p.s.kv.hosts[x] == s.kv.hosts[x]))
      && h in p.s.kv.hosts && p.s.kv.hosts[h].ruleCount == HostOr(s.kv.hosts, h).ruleCount
      && p.s.kv.hosts[h].enabled == HostOr(s.kv.hosts, h).enabled
  {
    CreateStores(s, net, body, async);
    var r := Admitted(s.kv, body);
    DeleteRemoves(Create(s, net, body, async).s, net, url, async', KeyOf(r));
    RemoveUndoesStore(WithHosts(s, ApplyCi(s.kv.hosts, Normalized(body)).hosts), r);
  }

  lemma {:induction false} DeleteRemoves(s: State, net: Net, url: Url, async: bool, k: RuleKey)
    requires ParseUrl(url) == Some(k) && k in s.kv.rules
    ensures var p := Delete(s, net, url, async); p.status == 200 && p.s.kv == Removed(s, k).kv
  {
  }

  lemma {:induction false} RemoveUndoesStore(s: State, r: Redirect)
    requires KeyOf(r) !in s.kv.rules && HostOr(s.kv.hosts, r.host).ruleCount < U64_MAX
    ensures var kv := Removed(Stored(s, r), KeyOf(r)).kv;
      kv.rules == s.kv.rules && kv.hosts == s.kv.hosts[r.host := HostOr(s.kv.hosts, r.host)]
  {
    assert Stored(s, r).kv.rules - {KeyOf(r)} == s.kv.rules;
  }

  /** DELETE does not fold the path of its URL, as POST folds the path of its body.
      Sent with the path the rule was created with, it finds a rule exactly when
      folding left that path alone, or an unfolded rule was stored before. */
  lemma {:induction false} DeleteByCreatedPathIff(s: State, net: Net, body: Redirect, async: bool, url: Url, async': bool)
    requires Create(s, net, body, async).status == 201
    requires ParseUrl(url) == Some(KeyOf(Normalized(body)))
    ensures Delete(Create(s, net, body, async).s, net, url, async').status == 200 <==>
      Admitted(s.kv, body).path == NormalizePathFn(body.path) || KeyOf(Normalized(body)) in s.kv.rules
  {
    CreateStores(s, net, body, async);
  }
}
