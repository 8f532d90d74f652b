/** Whole runs: any sequence of mutations and drains, with any failures. */
module Runs {
  import opened Text
  import opened Model
  import opened Manifest
  import opened EkvKeys
  import opened EdgeStore
  import opened Keys
  import opened Listings
  import opened Protocol
  import opened Handlers
  import opened Accounting
  import opened Coverage
  import opened Convergence
  import opened Mutations
  import opened Imports
  import opened ImportCoverage
  import opened Counts
  import opened Refinement
  import opened Snapshot

  /** What can happen to the system. Orders in which the store happens to list
      its keys are part of the command; credentials come and go. */
  datatype Command =
    | CreateRule(body: Redirect, async: bool)
    | UpdateRule(url: Url, body: Redirect, async: bool)
    | RemoveRule(url: Url, async: bool)
    | ImportRules(rules: seq<Redirect>, replace: bool, async: bool, order: seq<RuleKey>)
    | PutHost(rawHost: string, record: HostMeta, async: bool)
    | DrainQueue(budget: nat, markers: seq<Target>)
    | SetClock(now: nat)
    | SetCredentials(present: bool)

  ghost function Step(s: State, net: Net, c: Command): State {
    match c
    case CreateRule(body, async) => Create(s, net, body, async).s
    case UpdateRule(url, body, async) => Update(s, net, url, body, async).s
    case RemoveRule(url, async) => Delete(s, net, url, async).s
    case ImportRules(rules, replace, async, order) => Import(s, net, replace, async, rules, order).s
    case PutHost(rawHost, record, async) => UpdateHost(s, net, rawHost, record, async).s
    case DrainQueue(budget, markers) => DrainOnce(s, net, budget, markers)
    case SetClock(now) => s.(now := now)
    case SetCredentials(present) => s.(configured := present)
  }

  /** The orders named by the command are orders of what is stored. */
  ghost predicate Possible(s: State, net: Net, c: Command) {
    match c
    case ImportRules(rules, replace, async, order) =>
      replace ==> Lists(order, ImportAll(s, net, async, rules).s.kv.rules.Keys)
    case DrainQueue(budget, markers) => Lists(markers, s.pending.Keys)
    case _ => true
  }

  ghost function Run(s: State, net: Net, cs: seq<Command>): State
    decreases |cs|
  {
    if cs == [] then s else Run(Step(s, net, cs[0]), net, cs[1..])
  }

  ghost predicate Admissible(s: State, net: Net, cs: seq<Command>)
    decreases |cs|
  {
    cs == [] || (Possible(s, net, cs[0]) && Admissible(Step(s, net, cs[0]), net, cs[1..]))
  }

  const INIT := State(Kv(map[], map[]), map[], Edge(map[], 0), 0, true)

  // ---------------------------------------------------------------------------
  // What every step keeps
  // ---------------------------------------------------------------------------

  ghost predicate Kept(s: State) {
    WellKept(s) && Normal(s.kv.rules)
  }

  lemma {:induction false} StepKeeps(s: State, net: Net, c: Command)
    requires Kept(s) && Possible(s, net, c)
    ensures Kept(Step(s, net, c))
  {
    match c {
      case CreateRule(body, async) =>
        CreateKeeps(s, net, body, async);
      case UpdateRule(url, body, async) =>
        UpdateKeeps(s, net, url, body, async);
      case RemoveRule(url, async) =>
        DeleteKeeps(s, net, url, async);
      case ImportRules(rules, replace, async, order) =>
        ImportKeepsOrder(s, net, replace, async, rules, order);
      case PutHost(rawHost, record, async) =>
        PutHostKeeps(s, net, rawHost, record, async);
      case DrainQueue(budget, markers) =>
        DrainKeeps(s, net, budget, markers);
      case SetClock(_) =>
      case SetCredentials(_) =>
    }
  }

  lemma {:induction false} CreateKeeps(s: State, net: Net, body: Redirect, async: bool)
    requires Kept(s)
    ensures Kept(Create(s, net, body, async).s)
  {
    var r := Admitted(s.kv, body);
    CreateKeepsOrder(s, net, body, async);
    CreateStores(s, net, body, async);
    AdmittedIsNormal(s.kv, body);
    NormalWrite(s.kv.rules, r);
  }

  lemma {:induction false} DrainKeeps(s: State, net: Net, budget: nat, markers: seq<Target>)
    requires Kept(s) && Lists(markers, s.pending.Keys)
    ensures Kept(DrainOnce(s, net, budget, markers))
  {
    var taken := TakenMarkers(s, budget, markers);
    DrainKeepsOrder(s, net, taken);
    DrainAccounting(s, net, taken);
  }

  lemma UpdateKeeps(s: State, net: Net, url: Url, body: Redirect, async: bool)
    requires Kept(s)
    ensures Kept(Update(s, net, url, body, async).s)
  {
    ReplaceFoldedKeeps(s, net, body.(caseInsensitive := false), async);
    assert Normalized(body.(caseInsensitive := false)) == Normalized(body).(caseInsensitive := false);
  }

  lemma ReplaceFoldedKeeps(s: State, net: Net, body: Redirect, async: bool)
    requires Kept(s) && !body.caseInsensitive
    ensures Kept(ReplaceFolded(s, net, Normalized(body), async).s)
  {
    var f := ApplyCi(s.kv.hosts, Normalized(body));
    assert WithHosts(s, f.hosts) == s;
    AdmittedIsNormal(s.kv, body);
    if KeyOf(f.rule) in s.kv.rules {
      ReplaceKeepsOrder(s, f.rule);
      NotifyKeepsOrder(Replaced(s, f.rule), net, async, PushRule(KeyOf(f.rule)));
    }
  }

  lemma DeleteKeeps(s: State, net: Net, url: Url, async: bool)
    requires Kept(s)
    ensures Kept(Delete(s, net, url, async).s)
  {
    var parsed := ParseUrl(url);
    if parsed.Some? && parsed.value in s.kv.rules {
      var k := parsed.value;
      RemoveKeepsOrder(s, k);
      NotifyKeepsOrder(Removed(s, k), net, async, DeleteRule(k));
      NotifyKeepsOrder(Notify(Removed(s, k), net, async, DeleteRule(k)), net, async, PushHost(k.host));
    }
  }

  lemma PutHostKeeps(s: State, net: Net, rawHost: string, record: HostMeta, async: bool)
    requires Kept(s)
    ensures Kept(UpdateHost(s, net, rawHost, record, async).s)
  {
    if rawHost != "" {
      var host := NormalizeHost(rawHost);
      var count := if host in s.kv.hosts then s.kv.hosts[host].ruleCount else record.ruleCount;
      NotifyKeepsOrder(WithHosts(s, s.kv.hosts[host := record.(host := host, ruleCount := count)]), net, async, PushHost(host));
    }
  }

  /** A flag of the unit's host is written that nothing announces. */
  ghost predicate WastesFlipOf(s: State, c: Command, u: Unit) {
    match c
    case CreateRule(body, _) => u == SentinelUnit(NormalizeHost(body.host)) && WastesFlip(s, body)
    case ImportRules(rules, replace, _, _) => u.SentinelUnit? && ImportWastesFlip(s, replace, rules, u.host)
    case _ => false
  }

  /** The steps after which a unit may be left uncovered: a drain taking the
      delete marker of an exact rule that exists, and a wasted flip. */
  ghost predicate Harms(s: State, c: Command, u: Unit) {
    match c
    case DrainQueue(budget, markers) => Revived(s.kv, markers[..Min(budget, |markers|)], u)
    case _ => WastesFlipOf(s, c, u)
  }

  lemma {:induction false} StepCovers(s: State, net: Net, c: Command, u: Unit)
    requires Kept(s) && Possible(s, net, c) && Covered(s, u) && !Harms(s, c, u)
    ensures Covered(Step(s, net, c), u)
  {
    match c {
      case CreateRule(body, async) => CreateCoversIff(s, net, body, async, u);
      case UpdateRule(url, body, async) => UpdateCovers(s, net, url, body, async, u);
      case RemoveRule(url, async) => DeleteCovers(s, net, url, async, u);
      case ImportRules(rules, replace, async, order) => ImportCoversIff(s, net, replace, async, rules, order, u);
      case PutHost(rawHost, record, async) => UpdateHostCovers(s, net, rawHost, record, async, u);
      case DrainQueue(budget, markers) =>
        var taken := TakenMarkers(s, budget, markers);
        DrainKeepsCoverage(s, net, taken, u);
      case SetClock(now) => FieldsDoNotMatter(s, s.(now := now), u);
      case SetCredentials(present) => FieldsDoNotMatter(s, s.(configured := present), u);
    }
  }

  lemma FieldsDoNotMatter(s: State, s': State, u: Unit)
    requires Covered(s, u) && s'.kv == s.kv && s'.pending == s.pending && s'.edge == s.edge
    ensures Covered(s', u)
  {
    if Marked(s, u) {
      var t :| t in s.pending && Repairs(s.kv, t, u);
      assert t in s'.pending && Repairs(s'.kv, t, u);
    }
  }

  lemma InitIsCovered(u: Unit)
    ensures Kept(INIT) && InSync(INIT, u)
  {
    if u.ManifestUnit? {
      ManifestFacts(map[], u.host);
      LongestFirstUnique(ManifestOf(map[], u.host), []);
      assert ReadManifest(map[], {}, u.host) == [];
    }
  }

  // ---------------------------------------------------------------------------
  // Manifests: coverage over every run
  // ---------------------------------------------------------------------------

  /** From any kept state, along any run, a covered manifest stays covered. */
  lemma {:induction false} ManifestStaysCovered(s: State, net: Net, cs: seq<Command>, host: string)
    requires Kept(s) && Admissible(s, net, cs) && Covered(s, ManifestUnit(host))
    ensures Kept(Run(s, net, cs)) && Covered(Run(s, net, cs), ManifestUnit(host))
    decreases |cs|
  {
    if cs != [] {
      StepKeeps(s, net, cs[0]);
      StepCovers(s, net, cs[0], ManifestUnit(host));
      ManifestStaysCovered(Step(s, net, cs[0]), net, cs[1..], host);
    }
  }

  /** After any sequence of mutations and drains, with any EdgeKV failures in
      between, half-written shards included: what the EdgeWorker reassembles for a
      host is the manifest of its current rules, or a marker is pending whose
      retry rebuilds it. */
  lemma ManifestsAlwaysCovered(net: Net, cs: seq<Command>, host: string)
    requires Admissible(INIT, net, cs)
    ensures var s := Run(INIT, net, cs);
      || ReadManifest(s.edge.items, {}, host) == ManifestOf(s.kv.rules, host)
      || exists t :: t in s.pending && (t.PushRule? || t.DeleteRule?) && t.key.matchType == Prefix && t.key.host == host
  {
    InitIsCovered(ManifestUnit(host));
    ManifestStaysCovered(INIT, net, cs, host);
    var s := Run(INIT, net, cs);
    if Marked(s, ManifestUnit(host)) {
      var t :| t in s.pending && Repairs(s.kv, t, ManifestUnit(host));
      assert (t.PushRule? || t.DeleteRule?) && t.key.matchType == Prefix && t.key.host == host;
    }
  }

  // ---------------------------------------------------------------------------
  // Exact items and sentinels: coverage over guarded runs
  // ---------------------------------------------------------------------------

  /** The unit's rule is stored by this step while its delete marker is pending. */
  ghost predicate Revives(s: State, net: Net, c: Command, u: Unit) {
    u.ExactUnit? &&
    var k := RuleKey(u.host, Exact, u.path);
    DeleteRule(k) in s.pending && k in Step(s, net, c).kv.rules
  }

  /** No step re-creates the unit's rule under its delete marker, and none
      wastes a flip of the unit's host. */
  ghost predicate Careful(s: State, net: Net, cs: seq<Command>, u: Unit)
    decreases |cs|
  {
    cs == [] || (!Revives(s, net, cs[0], u) && !WastesFlipOf(s, cs[0], u) && Careful(Step(s, net, cs[0]), net, cs[1..], u))
  }

  /** A delete marker that appears belongs to a rule that is gone. */
  lemma NewDeleteMarkers(s: State, net: Net, c: Command, k: RuleKey)
    requires Kept(s) && Possible(s, net, c)
    requires DeleteRule(k) in Step(s, net, c).pending && DeleteRule(k) !in s.pending
    ensures k !in Step(s, net, c).kv.rules
  {
    match c {
      case CreateRule(body, async) => CreateAddsNoDeletes(s, net, body, async, k);
      case UpdateRule(url, body, async) => UpdateAddsNoDeletes(s, net, url, body, async, k);
      case RemoveRule(url, async) => DeleteAddsItsOwn(s, net, url, async, k);
      case ImportRules(rules, replace, async, order) => ImportAddsItsOwn(s, net, replace, async, rules, order, k);
      case PutHost(rawHost, record, async) => PutHostAddsNoDeletes(s, net, rawHost, record, async, k);
      case DrainQueue(budget, markers) =>
        var taken := TakenMarkers(s, budget, markers);
        DrainAccounting(s, net, taken);
      case SetClock(_) =>
      case SetCredentials(_) =>
    }
  }

  lemma {:induction false} CreateAddsNoDeletes(s: State, net: Net, body: Redirect, async: bool, k: RuleKey)
    ensures DeleteRule(k) in Create(s, net, body, async).s.pending ==> DeleteRule(k) in s.pending
  {
    if IsValid(body) {
      var r := Admitted(s.kv, body);
      var s1 := Stored(WithHosts(s, ApplyCi(s.kv.hosts, Normalized(body)).hosts), r);
      NotifyAdds(s1, net, async, PushRule(KeyOf(r)));
      NotifyAdds(Notify(s1, net, async, PushRule(KeyOf(r))), net, async, PushHost(r.host));
    }
  }

  lemma UpdateAddsNoDeletes(s: State, net: Net, url: Url, body: Redirect, async: bool, k: RuleKey)
    requires Kept(s)
    ensures DeleteRule(k) in Update(s, net, url, body, async).s.pending ==> DeleteRule(k) in s.pending
  {
    var f := ApplyCi(s.kv.hosts, Normalized(body).(caseInsensitive := false));
    assert WithHosts(s, f.hosts) == s;
    if KeyOf(f.rule) in s.kv.rules {
      ReplaceKeepsOrder(s, f.rule);
      NotifyKeepsOrder(Replaced(s, f.rule), net, async, PushRule(KeyOf(f.rule)));
    }
  }

  lemma {:induction false} DeleteAddsItsOwn(s: State, net: Net, url: Url, async: bool, k: RuleKey)
    requires Kept(s)
    ensures var s' := Delete(s, net, url, async).s;
      DeleteRule(k) in s'.pending ==> DeleteRule(k) in s.pending || k !in s'.kv.rules
  {
    var parsed := ParseUrl(url);
    if parsed.Some? && parsed.value in s.kv.rules {
      var d := parsed.value;
      NotifyAdds(Removed(s, d), net, async, DeleteRule(d));
      NotifyAdds(Notify(Removed(s, d), net, async, DeleteRule(d)), net, async, PushHost(d.host));
    }
  }

  lemma PutHostAddsNoDeletes(s: State, net: Net, rawHost: string, record: HostMeta, async: bool, k: RuleKey)
    requires Kept(s)
    ensures DeleteRule(k) in UpdateHost(s, net, rawHost, record, async).s.pending ==> DeleteRule(k) in s.pending
  {
    if rawHost != "" {
      var host := NormalizeHost(rawHost);
      var count := if host in s.kv.hosts then s.kv.hosts[host].ruleCount else record.ruleCount;
      NotifyKeepsOrder(WithHosts(s, s.kv.hosts[host := record.(host := host, ruleCount := count)]), net, async, PushHost(host));
    }
  }

  lemma {:induction false} UpsertsAddNoDeletes(s: State, net: Net, async: bool, rules: seq<Redirect>, k: RuleKey)
    ensures DeleteRule(k) in ImportAll(s, net, async, rules).s.pending ==> DeleteRule(k) in s.pending
  {
    if rules != [] {
      var a, body := ImportAll(s, net, async, rules[..|rules| - 1]), rules[|rules| - 1];
      UpsertsAddNoDeletes(s, net, async, rules[..|rules| - 1], k);
      if IsValid(body) {
        var f := ApplyCi(a.s.kv.hosts, Normalized(body));
        UpsertAddsNoDeletes(a.(s := WithHosts(a.s, f.hosts), keys := a.keys + {KeyOf(f.rule)}), net, async, f.rule, k);
      }
    }
  }

  lemma {:induction false} UpsertAddsNoDeletes(a: Progress, net: Net, async: bool, r: Redirect, k: RuleKey)
    ensures DeleteRule(k) in UpsertFolded(a, net, async, r).s.pending ==> DeleteRule(k) in a.s.pending
  {
    NotifyAdds(Stored(a.s, r), net, async, PushRule(KeyOf(r)));
    NotifyAdds(Replaced(a.s, r), net, async, PushRule(KeyOf(r)));
  }

  lemma {:induction false} SweepAddsItsOwn(w: Sweep, net: Net, async: bool, keep: set<RuleKey>, listing: seq<RuleKey>, k: RuleKey)
    requires Swept(w) && Distinct(listing) && forall x :: x in listing ==> x in w.s.kv.rules
    ensures var w' := SweepAll(w, net, async, keep, listing);
      DeleteRule(k) in w'.s.pending ==> DeleteRule(k) in w.s.pending || k !in w'.s.kv.rules
  {
    if listing != [] {
      var init, x := listing[..|listing| - 1], listing[|listing| - 1];
      assert listing == init + [x];
      assert x in listing && x !in init;
      SweepRemoves(w, net, async, keep, init);
      SweepAddsItsOwn(w, net, async, keep, init, k);
      var v := SweepAll(w, net, async, keep, init);
      if x !in keep {
        RemoveKeepsOrder(v.s, x);
        NotifyKeepsOrder(Removed(v.s, x), net, async, DeleteRule(x));
      }
    }
  }

  lemma ImportAddsItsOwn(s: State, net: Net, replace: bool, async: bool, rules: seq<Redirect>, order: seq<RuleKey>, k: RuleKey)
    requires Kept(s)
    requires replace ==> Lists(order, ImportAll(s, net, async, rules).s.kv.rules.Keys)
    ensures var s' := Import(s, net, replace, async, rules, order).s;
      DeleteRule(k) in s'.pending ==> DeleteRule(k) in s.pending || k !in s'.kv.rules
  {
    var a := ImportAll(s, net, async, rules);
    ImportStores(s, net, async, rules);
    UpsertsAddNoDeletes(s, net, async, rules, k);
    var w := Sweep(a.s, 0, a.touched);
    if replace {
      SweepAddsItsOwn(w, net, async, a.keys, order, k);
      SweepRemoves(w, net, async, a.keys, order);
      w := SweepAll(w, net, async, a.keys, order);
    }
    PushHostsKeepsOrder(w.s, net, async, w.touched);
  }

  /** Along a careful run a unit stays covered, and no pending delete marker ever
      names a stored exact rule. */
  lemma {:induction false} CarefulRunsCover(s: State, net: Net, cs: seq<Command>, u: Unit)
    requires Kept(s) && Admissible(s, net, cs) && Careful(s, net, cs, u)
    requires Covered(s, u) && Settled(s, u)
    ensures var s' := Run(s, net, cs); Kept(s') && Covered(s', u) && Settled(s', u)
    decreases |cs|
  {
    if cs != [] {
      var s1 := Step(s, net, cs[0]);
      StepKeeps(s, net, cs[0]);
      if cs[0].DrainQueue? && u.ExactUnit? {
        var taken := TakenMarkers(s, cs[0].budget, cs[0].markers);
        assert !Revived(s.kv, taken, u);
      }
      StepCovers(s, net, cs[0], u);
      if u.ExactUnit? {
        var k := RuleKey(u.host, Exact, u.path);
        if DeleteRule(k) in s1.pending && DeleteRule(k) !in s.pending {
          NewDeleteMarkers(s, net, cs[0], k);
        }
      }
      CarefulRunsCover(s1, net, cs[1..], u);
    }
  }

  /** Exact-item coverage. In a run that never re-creates the rule while its
      delete marker is pending: if the rule is stored, EdgeKV holds its projection
      (nothing, if it is disabled) or its push marker is pending; if it is not,
      EdgeKV holds nothing there or its delete marker is pending. */
  lemma ExactItemsCovered(net: Net, cs: seq<Command>, host: string, path: string)
    requires Admissible(INIT, net, cs) && Careful(INIT, net, cs, ExactUnit(host, path))
    ensures var s, k := Run(INIT, net, cs), RuleKey(host, Exact, path);
      var held := Item(s.edge.items, ExactItem(host, path));
      && (DeleteRule(k) in s.pending ==> k !in s.kv.rules)
      && (k in s.kv.rules ==>
            || PushRule(k) in s.pending
            || held == (if s.kv.rules[k].enabled then Some(ExactValue(ToExact(s.kv.rules[k]))) else None))
      && (k !in s.kv.rules ==> DeleteRule(k) in s.pending || held == None)
  {
    var u := ExactUnit(host, path);
    InitIsCovered(u);
    CarefulRunsCover(INIT, net, cs, u);
  }

  // ---------------------------------------------------------------------------
  // Rule counts
  // ---------------------------------------------------------------------------

  /** A host record sent for an unknown host carries count 0, and the store never
      outgrows the 64-bit counter. */
  ghost predicate CountSafe(s: State, c: Command) {
    match c
    case CreateRule(_, _) => |s.kv.rules| < U64_MAX
    case ImportRules(rules, _, _, _) => |s.kv.rules| + |rules| <= U64_MAX
    case PutHost(rawHost, record, _) => NormalizeHost(rawHost) in s.kv.hosts || record.ruleCount == 0
    case _ => true
  }

  ghost predicate AllCountSafe(s: State, net: Net, cs: seq<Command>)
    decreases |cs|
  {
    cs == [] || (CountSafe(s, cs[0]) && AllCountSafe(Step(s, net, cs[0]), net, cs[1..]))
  }

  lemma StepKeepsCounts(s: State, net: Net, c: Command)
    requires Kept(s) && Counted(s.kv) && Possible(s, net, c) && CountSafe(s, c)
    ensures Counted(Step(s, net, c).kv)
  {
    match c {
      case CreateRule(body, async) => CreateKeepsCounts(s, net, body, async);
      case UpdateRule(url, body, async) => UpdateKeepsCounts(s, net, url, body, async);
      case RemoveRule(url, async) => DeleteKeepsCounts(s, net, url, async);
      case ImportRules(rules, replace, async, order) => ImportKeepsCounts(s, net, replace, async, rules, order);
      case PutHost(rawHost, record, async) =>
        if rawHost != "" { UpdateHostKeepsCountsIff(s, net, rawHost, record, async); }
      case DrainQueue(budget, markers) =>
        var taken := TakenMarkers(s, budget, markers);
        DrainAccounting(s, net, taken);
      case SetClock(_) =>
      case SetCredentials(_) =>
    }
  }

  lemma {:induction false} CountsKept(s: State, net: Net, cs: seq<Command>)
    requires Kept(s) && Counted(s.kv) && Admissible(s, net, cs) && AllCountSafe(s, net, cs)
    ensures Counted(Run(s, net, cs).kv)
    decreases |cs|
  {
    if cs != [] {
      StepKeeps(s, net, cs[0]);
      StepKeepsCounts(s, net, cs[0]);
      CountsKept(Step(s, net, cs[0]), net, cs[1..]);
    }
  }

  /** In every run each host's `rule_count` is the number of its stored rules. */
  lemma RuleCountsConserved(net: Net, cs: seq<Command>, host: string)
    requires Admissible(INIT, net, cs) && AllCountSafe(INIT, net, cs)
    ensures var kv := Run(INIT, net, cs).kv;
      if host in kv.hosts then kv.hosts[host].ruleCount == |HostKeys(kv.rules, host)| else HostKeys(kv.rules, host) == {}
  {
    InitIsCovered(ManifestUnit(host));
    CountsKept(INIT, net, cs);
    ManifestStaysCovered(INIT, net, cs, host);
  }

  /** In every run rules and host records sit under their own keys, so the
      catalog published at its end restores both. */
  lemma RunsCanBeRestored(net: Net, cs: seq<Command>, c: Catalog)
    requires Admissible(INIT, net, cs) && IsCatalogOf(Run(INIT, net, cs).kv, c)
    ensures var kv := Run(INIT, net, cs).kv;
      && Coherent(kv.rules)
      && RestoreRules(map[], c.rules) == kv.rules && RestoreHosts(map[], c.hosts) == kv.hosts
  {
    InitIsCovered(ManifestUnit(""));
    ManifestStaysCovered(INIT, net, cs, "");
    SnapshotRoundTrip(Run(INIT, net, cs), c);
  }

  // ---------------------------------------------------------------------------
  // Quiescence
  // ---------------------------------------------------------------------------

  ghost predicate CarefulAbout(net: Net, cs: seq<Command>, host: string) {
    && Careful(INIT, net, cs, SentinelUnit(host))
    && forall p :: Careful(INIT, net, cs, ExactUnit(host, p))
  }

  /** A run careful about the host, then enough drains without failures. */
  ghost predicate Quiesces(net: Net, cs: seq<Command>, net': Net, budget: nat, listings: seq<seq<Target>>, host: string, end: State) {
    var s := Run(INIT, net, cs);
    && Admissible(INIT, net, cs) && CarefulAbout(net, cs, host)
    && s.configured && Faultless(net')
    && InTurn(s, net', budget, listings) && |listings| * budget >= |s.pending|
    && end == DrainMany(s, net', budget, listings)
  }

  /** Every careful run that ends with credentials present can be brought to such
      an end, with any positive budget. */
  lemma CarefulRunsQuiesce(net: Net, cs: seq<Command>, net': Net, budget: nat, host: string)
    requires Admissible(INIT, net, cs) && CarefulAbout(net, cs, host)
    requires Run(INIT, net, cs).configured && Faultless(net') && budget > 0
    ensures exists listings, end :: Quiesces(net, cs, net', budget, listings, host, end)
  {
    var s := Run(INIT, net, cs);
    DrainsExist(s, net', budget, |s.pending|);
    var listings :| |listings| == |s.pending| && InTurn(s, net', budget, listings);
    Enough(|s.pending|, budget);
    assert Quiesces(net, cs, net', budget, listings, host, DrainMany(s, net', budget, listings));
  }

  lemma Enough(n: nat, budget: nat)
    requires budget > 0
    ensures n * budget >= n
  {
  }

  /** Then the queue is empty and EdgeKV is the projection of the store. */
  lemma QuiescentIsProjected(net: Net, cs: seq<Command>, net': Net, budget: nat, listings: seq<seq<Target>>,
                             host: string, end: State)
    requires Quiesces(net, cs, net', budget, listings, host, end)
    ensures end.pending == map[] && end.kv == Run(INIT, net, cs).kv
    ensures WellFormed(end.kv) && Projected(end.kv, end.edge.items, host)
  {
    var s := Run(INIT, net, cs);
    InitIsCovered(ManifestUnit(host));
    InitIsCovered(SentinelUnit(host));
    ManifestStaysCovered(INIT, net, cs, host);
    CarefulRunsCover(INIT, net, cs, SentinelUnit(host));
    Converges(s, net', budget, listings);
    assert InSync(end, SentinelUnit(host)) && InSync(end, ManifestUnit(host));
    forall p ensures Reading(end.edge.items, ExactUnit(host, p)) == Wanted(end.kv, ExactUnit(host, p)) {
      InitIsCovered(ExactUnit(host, p));
      CarefulRunsCover(INIT, net, cs, ExactUnit(host, p));
      assert InSync(end, ExactUnit(host, p));
    }
  }
}
