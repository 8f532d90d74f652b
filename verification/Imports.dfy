/** Bulk import: what it stores, what it reports, and what it leaves covered. */
module Imports {
  import opened Text
  import opened Paths
  import opened Model
  import opened EdgeStore
  import opened Keys
  import opened Listings
  import opened Protocol
  import opened Handlers
  import opened Coverage
  import opened Mutations
  import opened LastWriter

  // ---------------------------------------------------------------------------
  // Stored rules are in normal form
  // ---------------------------------------------------------------------------

  ghost predicate IsNormal(k: RuleKey, r: Redirect) {
    IsClean(k.path) && ':' !in k.host && !r.caseInsensitive
  }

  ghost predicate Normal(rules: Rules) {
    forall k :: k in rules ==> IsNormal(k, rules[k])
  }

  lemma AdmittedIsNormal(kv: Kv, body: Redirect)
    ensures var r := Admitted(kv, body); IsNormal(KeyOf(r), r) && r.host == NormalizeHost(body.host)
  {
    var path := NormalizePathFn(body.path);
    NormalizedHostHasNoColon(body.host);
    CleanIsClean(Trim(body.path));
    CleanFixesClean(path);
    CleanLower(path);
    CleanIsClean(Lower(path));
  }

  // ---------------------------------------------------------------------------
  // Which keys an import writes
  // ---------------------------------------------------------------------------

  /** The host is case-insensitive once these entries have been met. */
  ghost predicate FoldedBy(hosts: Hosts, rules: seq<Redirect>, host: string) {
    || !HostOr(hosts, host).caseSensitive
    || exists j :: 0 <= j < |rules| && AsksToFold(rules[j], host)
  }

  predicate AsksToFold(body: Redirect, host: string) {
    IsValid(body) && body.caseInsensitive && NormalizeHost(body.host) == host
  }

  /** The rule a valid entry turns into, if its host is case-insensitive or not. */
  function AsRule(body: Redirect, fold: bool): Redirect {
    var r := Normalized(body);
    r.(caseInsensitive := false, path := if fold then Lower(r.path) else r.path)
  }

  /** The rule entry `i` is stored as: folded by the entries up to itself. */
  ghost function RuleAt(hosts: Hosts, rules: seq<Redirect>, i: nat): Redirect
    requires i < |rules|
  {
    AsRule(rules[i], FoldedBy(hosts, rules[..i + 1], NormalizeHost(rules[i].host)))
  }

  lemma AdmittedAsRule(kv: Kv, body: Redirect)
    requires IsValid(body)
    ensures Admitted(kv, body) == AsRule(body, FoldedBy(kv.hosts, [body], NormalizeHost(body.host)))
  {
    var host := NormalizeHost(body.host);
    assert AsksToFold(body, host) ==> AsksToFold([body][0], host);
  }

  /** Only flags decide folding, and an import only ever sets them. */
  lemma {:induction false} ImportFlags(s: State, net: Net, async: bool, rules: seq<Redirect>, host: string)
    ensures !HostOr(ImportAll(s, net, async, rules).s.kv.hosts, host).caseSensitive <==> FoldedBy(s.kv.hosts, rules, host)
  {
    if rules != [] {
      var init, body := rules[..|rules| - 1], rules[|rules| - 1];
      assert rules == init + [body];
      ImportFlags(s, net, async, init, host);
      var a := ImportAll(s, net, async, init);
      OneFlag(a, net, async, body, host);
      if AsksToFold(body, host) {
        assert AsksToFold(rules[|rules| - 1], host);
      }
      if j :| 0 <= j < |init| && AsksToFold(init[j], host) {
        assert AsksToFold(rules[j], host);
      }
    }
  }

  lemma {:induction false} UpsertHosts(a: Progress, net: Net, async: bool, r: Redirect)
    ensures var hosts := UpsertFolded(a, net, async, r).s.kv.hosts;
      hosts == a.s.kv.hosts || hosts == CountUp(a.s.kv.hosts, r.host)
  {
  }

  lemma {:induction false} OneFlag(a: Progress, net: Net, async: bool, body: Redirect, host: string)
    ensures !HostOr(ImportOne(a, net, async, body).s.kv.hosts, host).caseSensitive
      <==> !HostOr(a.s.kv.hosts, host).caseSensitive || AsksToFold(body, host)
  {
    if IsValid(body) {
      var f := ApplyCi(a.s.kv.hosts, Normalized(body));
      FoldFlags(a.s.kv.hosts, Normalized(body), host);
      UpsertHosts(a.(s := WithHosts(a.s, f.hosts), keys := a.keys + {KeyOf(f.rule)}), net, async, f.rule);
      CountKeepsFlags(f.hosts, f.rule.host, host);
    }
  }

  lemma FoldFlags(hosts: Hosts, r: Redirect, host: string)
    ensures !HostOr(ApplyCi(hosts, r).hosts, host).caseSensitive
      <==> !HostOr(hosts, host).caseSensitive || (r.caseInsensitive && r.host == host)
  {
  }

  lemma CountKeepsFlags(hosts: Hosts, counted: string, host: string)
    ensures HostOr(CountUp(hosts, counted), host).caseSensitive == HostOr(hosts, host).caseSensitive
  {
  }

  /** The rule the loop sees at entry `i` is the one described by `RuleAt`. */
  lemma AdmittedInLoop(s: State, net: Net, async: bool, rules: seq<Redirect>, i: nat)
    requires i < |rules| && IsValid(rules[i])
    ensures Admitted(ImportAll(s, net, async, rules[..i]).s.kv, rules[i]) == RuleAt(s.kv.hosts, rules, i)
  {
    var a, host := ImportAll(s, net, async, rules[..i]), NormalizeHost(rules[i].host);
    ImportFlags(s, net, async, rules[..i], host);
    AdmittedAsRule(a.s.kv, rules[i]);
    FoldedBySnoc(s.kv.hosts, rules[..i], rules[i], host);
    assert rules[..i + 1] == rules[..i] + [rules[i]];
    assert FoldedBy(a.s.kv.hosts, [rules[i]], host) <==>
      !HostOr(a.s.kv.hosts, host).caseSensitive || AsksToFold(rules[i], host) by {
      assert [rules[i]][0] == rules[i];
    }
  }

  lemma FoldedBySnoc(hosts: Hosts, rules: seq<Redirect>, body: Redirect, host: string)
    ensures FoldedBy(hosts, rules + [body], host) <==> FoldedBy(hosts, rules, host) || AsksToFold(body, host)
  {
    var all := rules + [body];
    assert all[|rules|] == body;
    if j :| 0 <= j < |rules| && AsksToFold(rules[j], host) {
      assert AsksToFold(all[j], host);
    }
  }

  // ---------------------------------------------------------------------------
  // What an import stores
  // ---------------------------------------------------------------------------

  /** Writing an entry is always an update of the rule map at its key, also when
      the entry is reported unchanged: nothing but the key and the compared fields
      is left to differ. */
  lemma {:induction false} UpsertWrites(a: Progress, net: Net, async: bool, body: Redirect)
    requires WellKept(a.s) && Normal(a.s.kv.rules) && IsValid(body)
    ensures var r, a' := Admitted(a.s.kv, body), ImportOne(a, net, async, body);
      && a'.s.kv.rules == a.s.kv.rules[KeyOf(r) := r]
      && a'.keys == a.keys + {KeyOf(r)}
  {
    var f := ApplyCi(a.s.kv.hosts, Normalized(body));
    AdmittedIsNormal(a.s.kv, body);
    UpsertFoldedWrites(a.(s := WithHosts(a.s, f.hosts), keys := a.keys + {KeyOf(f.rule)}), net, async, f.rule);
  }

  lemma {:induction false} UpsertFoldedWrites(a: Progress, net: Net, async: bool, r: Redirect)
    requires Coherent(a.s.kv.rules) && Normal(a.s.kv.rules) && !r.caseInsensitive
    ensures var a' := UpsertFolded(a, net, async, r);
      a'.s.kv.rules == a.s.kv.rules[KeyOf(r) := r] && a'.keys == a.keys
  {
    var k := KeyOf(r);
    if k in a.s.kv.rules && ContentEq(a.s.kv.rules[k], r) {
      assert KeyOf(a.s.kv.rules[k]) == k && IsNormal(k, a.s.kv.rules[k]);
      ContentAndKeyDecide(a.s.kv.rules[k], r);
      assert a.s.kv.rules[k := r] == a.s.kv.rules;
    }
  }

  lemma ContentAndKeyDecide(a: Redirect, b: Redirect)
    requires ContentEq(a, b) && KeyOf(a) == KeyOf(b) && a.caseInsensitive == b.caseInsensitive
    ensures a == b
  {
  }

  /** What the entries write, in order; an invalid one writes nothing. */
  ghost function Writes(hosts: Hosts, rules: seq<Redirect>): (ws: seq<Write>)
    ensures |ws| == |rules|
  {
    if rules == [] then [] else Writes(hosts, rules[..|rules| - 1]) + [WriteAt(hosts, rules, |rules| - 1)]
  }

  ghost function WriteAt(hosts: Hosts, rules: seq<Redirect>, i: nat): Write
    requires i < |rules|
  {
    if IsValid(rules[i]) then Some(RuleAt(hosts, rules, i)) else None
  }

  lemma {:induction false} WritesIndexed(hosts: Hosts, rules: seq<Redirect>, i: nat)
    requires i < |rules|
    ensures Writes(hosts, rules)[i] == WriteAt(hosts, rules, i)
  {
    if i < |rules| - 1 {
      WritesIndexed(hosts, rules[..|rules| - 1], i);
      assert rules[..|rules| - 1][..i + 1] == rules[..i + 1];
    }
  }

  ghost predicate Sane(a: Progress) {
    && WellKept(a.s) && Normal(a.s.kv.rules)
    && (forall h :: h in a.touched ==> h in a.s.kv.hosts)
    && (forall k :: k in a.keys ==> k in a.s.kv.rules)
  }

  lemma TouchAdds(hs: seq<string>, h: string)
    ensures forall x :: x in Touch(hs, h) <==> x in hs || x == h
  {
    var i := TouchIndex(hs, h);
    assert hs == hs[..i] + hs[i..];
  }

  lemma {:induction false} ImportOneSane(a: Progress, net: Net, async: bool, body: Redirect)
    requires Sane(a)
    ensures Sane(ImportOne(a, net, async, body))
  {
    if IsValid(body) {
      var f := ApplyCi(a.s.kv.hosts, Normalized(body));
      AdmittedIsNormal(a.s.kv, body);
      FoldKeepsOrder(a.s, Normalized(body));
      UpsertSane(a.(s := WithHosts(a.s, f.hosts)), net, async, f.rule);
    }
  }

  lemma {:induction false} UpsertSane(a: Progress, net: Net, async: bool, r: Redirect)
    requires Sane(a) && IsNormal(KeyOf(r), r)
    ensures Sane(UpsertFolded(a.(keys := a.keys + {KeyOf(r)}), net, async, r))
  {
    var a1 := a.(keys := a.keys + {KeyOf(r)});
    UpsertFoldedWrites(a1, net, async, r);
    NormalWrite(a.s.kv.rules, r);
    UpsertKeepsOrder(a1, net, async, r);
  }

  lemma NormalWrite(rules: Rules, r: Redirect)
    requires Normal(rules) && IsNormal(KeyOf(r), r)
    ensures Normal(rules[KeyOf(r) := r])
  {
  }

  lemma {:induction false} UpsertKeepsOrder(a: Progress, net: Net, async: bool, r: Redirect)
    requires WellKept(a.s) && forall h :: h in a.touched ==> h in a.s.kv.hosts
    ensures var a' := UpsertFolded(a, net, async, r);
      WellKept(a'.s) && forall h :: h in a'.touched ==> h in a'.s.kv.hosts
  {
    TouchAdds(a.touched, r.host);
    if KeyOf(r) !in a.s.kv.rules {
      StoreKeepsOrder(a.s, r);
      NotifyKeepsOrder(Stored(a.s, r), net, async, PushRule(KeyOf(r)));
    } else {
      ReplaceKeepsOrder(a.s, r);
      NotifyKeepsOrder(Replaced(a.s, r), net, async, PushRule(KeyOf(r)));
    }
  }

  /** The key of some valid entry, as the loop folds it. */
  ghost predicate IsPayloadKey(hosts: Hosts, rules: seq<Redirect>, k: RuleKey) {
    Named(Writes(hosts, rules), k)
  }

  /** The upsert loop carries out exactly the writes of the entries, the last one
      to a key winning, and collects exactly the keys of the valid ones. */
  lemma {:induction false} ImportStores(s: State, net: Net, async: bool, rules: seq<Redirect>)
    requires WellKept(s) && Normal(s.kv.rules)
    ensures var a := ImportAll(s, net, async, rules);
      && Sane(a)
      && a.s.kv.rules == Overwrite(s.kv.rules, Writes(s.kv.hosts, rules))
      && (forall k :: k in a.keys <==> IsPayloadKey(s.kv.hosts, rules, k))
  {
    if rules != [] {
      var n := |rules| - 1;
      var a := ImportAll(s, net, async, rules[..n]);
      ImportStores(s, net, async, rules[..n]);
      ImportOneSane(a, net, async, rules[n]);
      ImportOneStores(a, net, async, rules[n]);
      WriteInLoop(s, net, async, rules, n);
      var ws, w := Writes(s.kv.hosts, rules[..n]), WriteAt(s.kv.hosts, rules, n);
      OverwriteSnoc(s.kv.rules, ws, w);
      forall k ensures Named(ws + [w], k) <==> Named(ws, k) || Sets(w, k) {
        NamedSnoc(ws, w, k);
      }
    }
  }

  function WriteOf(kv: Kv, body: Redirect): Write {
    if IsValid(body) then Some(Admitted(kv, body)) else None
  }

  lemma WriteInLoop(s: State, net: Net, async: bool, rules: seq<Redirect>, i: nat)
    requires i < |rules|
    ensures WriteOf(ImportAll(s, net, async, rules[..i]).s.kv, rules[i]) == WriteAt(s.kv.hosts, rules, i)
  {
    if IsValid(rules[i]) {
      AdmittedInLoop(s, net, async, rules, i);
    }
  }

  lemma {:induction false} ImportOneStores(a: Progress, net: Net, async: bool, body: Redirect)
    requires WellKept(a.s) && Normal(a.s.kv.rules)
    ensures var a', w := ImportOne(a, net, async, body), WriteOf(a.s.kv, body);
      && a'.s.kv.rules == Overwritten(a.s.kv.rules, w)
      && forall k :: k in a'.keys <==> k in a.keys || Sets(w, k)
  {
    if IsValid(body) {
      UpsertWrites(a, net, async, body);
    }
  }

  // ---------------------------------------------------------------------------
  // Accounting
  // ---------------------------------------------------------------------------

  lemma {:induction false} OneEntryCounts(a: Progress, net: Net, async: bool, body: Redirect)
    ensures var a' := ImportOne(a, net, async, body);
      a'.added + a'.updated + a'.untouched + a'.errors == a.added + a.updated + a.untouched + a.errors + 1
  {
  }

  lemma {:induction false} EntriesCount(s: State, net: Net, async: bool, rules: seq<Redirect>)
    ensures var a := ImportAll(s, net, async, rules);
      a.added + a.updated + a.untouched + a.errors == |rules|
  {
    if rules != [] {
      EntriesCount(s, net, async, rules[..|rules| - 1]);
      OneEntryCounts(ImportAll(s, net, async, rules[..|rules| - 1]), net, async, rules[|rules| - 1]);
    }
  }

  /** Import accounting: every entry of the payload is reported exactly once. */
  lemma ImportAccounting(s: State, net: Net, replace: bool, async: bool, rules: seq<Redirect>, listing: seq<RuleKey>)
    ensures var p := Import(s, net, replace, async, rules, listing);
      p.added + p.updated + p.untouched + p.errors == |rules|
  {
    EntriesCount(s, net, async, rules);
  }

  // ---------------------------------------------------------------------------
  // Replace mode
  // ---------------------------------------------------------------------------

  /** A sweep over stored keys removes exactly those not kept, and counts them. */
  lemma {:induction false} SweepRemoves(w: Sweep, net: Net, async: bool, keep: set<RuleKey>, listing: seq<RuleKey>)
    requires Swept(w) && Distinct(listing) && forall k :: k in listing ==> k in w.s.kv.rules
    ensures var w' := SweepAll(w, net, async, keep, listing);
      && Swept(w')
      && (forall k :: k in w'.s.kv.rules <==> k in w.s.kv.rules && (k in listing ==> k in keep))
      && (forall k :: k in w'.s.kv.rules ==> w'.s.kv.rules[k] == w.s.kv.rules[k])
      && |w'.s.kv.rules| + w'.deleted == |w.s.kv.rules| + w.deleted
  {
    if listing != [] {
      var init, k := listing[..|listing| - 1], listing[|listing| - 1];
      assert listing == init + [k];
      assert k in listing && k !in init;
      SweepRemoves(w, net, async, keep, init);
      SweepOneRemoves(SweepAll(w, net, async, keep, init), net, async, keep, k);
    }
  }

  ghost predicate Swept(w: Sweep) {
    WellKept(w.s) && forall h :: h in w.touched ==> h in w.s.kv.hosts
  }

  lemma SweepOneRemoves(v: Sweep, net: Net, async: bool, keep: set<RuleKey>, k: RuleKey)
    requires Swept(v) && k in v.s.kv.rules
    ensures var v' := SweepOne(v, net, async, keep, k);
      && Swept(v')
      && v'.s.kv.rules == (if k in keep then v.s.kv.rules else v.s.kv.rules - {k})
      && |v'.s.kv.rules| + v'.deleted == |v.s.kv.rules| + v.deleted
  {
    if k !in keep {
      RemoveKeepsOrder(v.s, k);
      NotifyKeepsOrder(Removed(v.s, k), net, async, DeleteRule(k));
      TouchAdds(v.touched, k.host);
      assert |v.s.kv.rules.Keys - {k}| == |v.s.kv.rules.Keys| - 1;
      assert (v.s.kv.rules - {k}).Keys == v.s.kv.rules.Keys - {k};
    }
  }

  lemma {:induction false} PushHostsKeepsOrder(s: State, net: Net, async: bool, hs: seq<string>)
    requires WellKept(s) && forall h :: h in hs ==> h in s.kv.hosts
    ensures WellKept(PushHosts(s, net, async, hs)) && PushHosts(s, net, async, hs).kv == s.kv
    ensures var s' := PushHosts(s, net, async, hs);
      s'.now == s.now && s'.configured == s.configured
      && forall t: Target :: !t.PushHost? ==> (t in s'.pending <==> t in s.pending)
  {
    if hs != [] {
      var init, h := hs[..|hs| - 1], hs[|hs| - 1];
      assert hs == init + [h];
      PushHostsKeepsOrder(s, net, async, init);
      NotifyKeepsOrder(PushHosts(s, net, async, init), net, async, PushHost(h));
    }
  }

  // ---------------------------------------------------------------------------
  // Order
  // ---------------------------------------------------------------------------

  lemma ImportKeepsOrder(s: State, net: Net, replace: bool, async: bool, rules: seq<Redirect>, listing: seq<RuleKey>)
    requires WellKept(s) && Normal(s.kv.rules)
    requires replace ==> Lists(listing, ImportAll(s, net, async, rules).s.kv.rules.Keys)
    ensures var p := Import(s, net, replace, async, rules, listing); WellKept(p.s) && Normal(p.s.kv.rules)
  {
    var a := ImportAll(s, net, async, rules);
    ImportStores(s, net, async, rules);
    var w := Sweep(a.s, 0, a.touched);
    if replace {
      SweepRemoves(w, net, async, a.keys, listing);
      w := SweepAll(w, net, async, a.keys, listing);
    }
    PushHostsKeepsOrder(w.s, net, async, w.touched);
  }
}
