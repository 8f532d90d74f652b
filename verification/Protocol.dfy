/** The write-through and reconcile protocol of shared/src/sync.rs as functions
    on states: what each push, and each drain of the pending markers, does to
    the rules' two copies for a given fate of every EdgeKV request. */
module Protocol {
  import opened Text
  import opened Model
  import opened Manifest
  import opened EkvKeys
  import opened EdgeStore
  import opened Keys
  import opened Listings

  type Rules = map<RuleKey, Redirect>
  type Hosts = map<string, HostMeta>

  /** A pending marker; its key in the store is its target. */
  datatype Marker = Marker(queuedAt: nat, attempts: nat)
  type Pending = map<Target, Marker>

  datatype Kv = Kv(rules: Rules, hosts: Hosts)
  datatype State = State(kv: Kv, pending: Pending, edge: Edge, now: nat, configured: bool)

  /** Every rule is stored under the key its own fields spell. */
  ghost predicate Coherent(rules: Rules) {
    forall k :: k in rules ==> KeyOf(rules[k]) == k
  }

  function HostKeys(rules: Rules, host: string): set<RuleKey> {
    set k | k in rules && k.host == host
  }

  // ---------------------------------------------------------------------------
  // build_manifest_for_host
  // ---------------------------------------------------------------------------

  function Fetch(rules: Rules, keys: seq<RuleKey>): seq<Redirect> {
    if keys == [] then [] else
    var last := keys[|keys| - 1];
    Fetch(rules, keys[..|keys| - 1]) + if last in rules then [rules[last]] else []
  }

  ghost function ManifestOf(rules: Rules, host: string): seq<Entry> {
    Sort(Project(Fetch(rules, SomeListing(HostKeys(rules, host)))))
  }

  /** What the manifest of a host is to hold. */
  ghost predicate IsEntryOf(rules: Rules, host: string, e: Entry) {
    exists k :: k in rules && k.host == host && IsListed(rules[k]) && e == ToEntry(rules[k])
  }

  lemma {:induction false} FetchedRules(rules: Rules, keys: seq<RuleKey>)
    requires Coherent(rules) && forall k :: k in keys ==> k in rules
    ensures |Fetch(rules, keys)| == |keys|
    ensures forall i :: 0 <= i < |keys| ==> Fetch(rules, keys)[i] == rules[keys[i]]
  {
    if keys != [] {
      var init := keys[..|keys| - 1];
      assert keys == init + [keys[|keys| - 1]];
      FetchedRules(rules, init);
    }
  }

  /** The listed entries of some keys, by the keys they come from. */
  ghost predicate IsEntryAt(rules: Rules, keys: seq<RuleKey>, e: Entry) {
    exists k :: k in keys && k in rules && IsListed(rules[k]) && e == ToEntry(rules[k])
  }

  lemma {:induction false} ProjectedEntries(rules: Rules, keys: seq<RuleKey>)
    requires Coherent(rules) && forall k :: k in keys ==> k in rules
    ensures forall e :: e in Project(Fetch(rules, keys)) <==> IsEntryAt(rules, keys, e)
  {
    FetchedRules(rules, keys);
    var fetched := Fetch(rules, keys);
    forall e | IsEntryAt(rules, keys, e) ensures e in Project(fetched) {
      var k :| k in keys && k in rules && IsListed(rules[k]) && e == ToEntry(rules[k]);
      var i :| 0 <= i < |keys| && keys[i] == k;
      assert fetched[i] == rules[k];
    }
    forall e | e in Project(fetched) ensures IsEntryAt(rules, keys, e) {
      var i :| 0 <= i < |fetched| && IsListed(fetched[i]) && e == ToEntry(fetched[i]);
      assert keys[i] in keys && fetched[i] == rules[keys[i]];
    }
  }

  /** Distinct prefix rules of one host have distinct paths. */
  lemma {:induction false} ProjectedPaths(rules: Rules, host: string, keys: seq<RuleKey>)
    requires Coherent(rules) && Distinct(keys)
    requires forall k :: k in keys ==> k in rules && k.host == host
    ensures DistinctPaths(Project(Fetch(rules, keys)))
  {
    if keys != [] {
      var init, last := keys[..|keys| - 1], keys[|keys| - 1];
      assert keys == init + [last];
      assert last in keys && last !in init;
      ProjectedPaths(rules, host, init);
      PathIsNew(rules, host, init, last);
      ProjectSnoc(Fetch(rules, init), rules[last]);
      assert Fetch(rules, keys) == Fetch(rules, init) + [rules[last]];
    }
  }

  lemma PathIsNew(rules: Rules, host: string, keys: seq<RuleKey>, last: RuleKey)
    requires Coherent(rules) && last !in keys
    requires forall k :: k in keys || k == last ==> k in rules && k.host == host
    ensures IsListed(rules[last]) ==> forall e :: e in Project(Fetch(rules, keys)) ==> e.p != rules[last].path
  {
    ProjectedEntries(rules, keys);
    forall e | e in Project(Fetch(rules, keys)) && IsListed(rules[last]) ensures e.p != rules[last].path {
      var k :| k in keys && k in rules && IsListed(rules[k]) && e == ToEntry(rules[k]);
      assert KeyOf(rules[k]) == k && KeyOf(rules[last]) == last;
    }
  }

  lemma ProjectSnoc(rs: seq<Redirect>, r: Redirect)
    ensures Project(rs + [r]) == Project(rs) + if IsListed(r) then [ToEntry(r)] else []
  {
    assert (rs + [r])[..|rs|] == rs;
  }

  /** The manifest does not depend on the order the store enumerates its keys in:
      any listing of the host's keys builds the same one, longest first, with one
      entry for each enabled prefix rule of the host and no other. */
  lemma ManifestFromAnyListing(rules: Rules, host: string, keys: seq<RuleKey>)
    requires Coherent(rules) && Lists(keys, HostKeys(rules, host))
    ensures Sort(Project(Fetch(rules, keys))) == ManifestOf(rules, host)
    ensures LongestFirst(ManifestOf(rules, host))
    ensures forall e :: e in ManifestOf(rules, host) <==> IsEntryOf(rules, host, e)
  {
    var other := SomeListing(HostKeys(rules, host));
    ListedEntries(rules, host, keys);
    ListedEntries(rules, host, other);
    SortIsLongestFirst(Project(Fetch(rules, keys)));
    SortIsLongestFirst(Project(Fetch(rules, other)));
    LongestFirstUnique(Sort(Project(Fetch(rules, keys))), ManifestOf(rules, host));
  }

  lemma ListedEntries(rules: Rules, host: string, keys: seq<RuleKey>)
    requires Coherent(rules) && Lists(keys, HostKeys(rules, host))
    ensures DistinctPaths(Project(Fetch(rules, keys)))
    ensures forall e :: e in Project(Fetch(rules, keys)) <==> IsEntryOf(rules, host, e)
  {
    forall k | k in keys ensures k in rules && k.host == host {
      assert k in HostKeys(rules, host);
    }
    ProjectedPaths(rules, host, keys);
    ProjectedEntries(rules, keys);
    forall e ensures IsEntryOf(rules, host, e) <==> IsEntryAt(rules, keys, e) {
      if IsEntryOf(rules, host, e) {
        var k :| k in rules && k.host == host && IsListed(rules[k]) && e == ToEntry(rules[k]);
        assert k in HostKeys(rules, host);
        assert k in keys;
      }
    }
  }

  lemma ManifestFacts(rules: Rules, host: string)
    requires Coherent(rules)
    ensures LongestFirst(ManifestOf(rules, host))
    ensures forall e :: e in ManifestOf(rules, host) <==> IsEntryOf(rules, host, e)
  {
    ManifestFromAnyListing(rules, host, SomeListing(HostKeys(rules, host)));
  }

  /** Two rule stores that agree on a host's prefix rules have the same manifest for it. */
  lemma ManifestFrame(a: Rules, b: Rules, host: string)
    requires Coherent(a) && Coherent(b)
    requires forall k: RuleKey :: k.host == host && k.matchType == Prefix ==>
      (k in a <==> k in b) && (k in a ==> a[k] == b[k])
    ensures ManifestOf(a, host) == ManifestOf(b, host)
  {
    ManifestFacts(a, host);
    ManifestFacts(b, host);
    forall e | IsEntryOf(a, host, e) ensures IsEntryOf(b, host, e) {
      var k :| k in a && k.host == host && IsListed(a[k]) && e == ToEntry(a[k]);
      assert KeyOf(a[k]) == k;
    }
    forall e | IsEntryOf(b, host, e) ensures IsEntryOf(a, host, e) {
      var k :| k in b && k.host == host && IsListed(b[k]) && e == ToEntry(b[k]);
      assert KeyOf(b[k]) == k;
    }
    LongestFirstUnique(ManifestOf(a, host), ManifestOf(b, host));
  }

  // ---------------------------------------------------------------------------
  // One attempt against EdgeKV
  // ---------------------------------------------------------------------------

  /** A marker retried by itself, or the whole manifest of a host. */
  datatype Work = ForMarker(target: Target) | ForManifest(host: string)

  ghost function Attempt(kv: Kv, e: Edge, net: Net, w: Work): Tried {
    match w
    case ForManifest(h) => PushPrefixes(e, net, h, ManifestOf(kv.rules, h))
    case ForMarker(PushRule(k)) => TryPushRule(kv, e, net, k)
    case ForMarker(PushHost(h)) => TryPushHost(kv, e, net, h)
    case ForMarker(DeleteRule(k)) => TryDeleteRule(kv, e, net, k)
    case ForMarker(DeleteHost(h)) => RemoveHost(e, net, h)
    case ForMarker(_) => Tried(e, false)
  }

  ghost function TryPushRule(kv: Kv, e: Edge, net: Net, k: RuleKey): Tried {
    if k !in kv.rules then Tried(e, true) else
    var r := kv.rules[k];
    match k.matchType
    case Exact =>
      if r.enabled then Put(e, net, ExactItem(r.host, r.path), ExactValue(ToExact(r)))
      else Remove(e, net, ExactItem(r.host, r.path))
    case Prefix => PushPrefixes(e, net, k.host, ManifestOf(kv.rules, k.host))
  }

  function HostItem(m: HostMeta): EkvValue {
    HostValue(m.enabled, m.caseSensitive, m.ruleCount)
  }

  function TryPushHost(kv: Kv, e: Edge, net: Net, host: string): Tried {
    if host in kv.hosts then Put(e, net, Sentinel(kv.hosts[host].host), HostItem(kv.hosts[host]))
    else RemoveHost(e, net, host)
  }

  ghost function TryDeleteRule(kv: Kv, e: Edge, net: Net, k: RuleKey): Tried {
    match k.matchType
    case Exact => Remove(e, net, ExactItem(k.host, k.path))
    case Prefix => PushPrefixes(e, net, k.host, ManifestOf(kv.rules, k.host))
  }

  // ---------------------------------------------------------------------------
  // Marker bookkeeping
  // ---------------------------------------------------------------------------

  function Bump(p: Pending, t: Target, now: nat): Pending {
    p[t := if t in p then Marker(p[t].queuedAt, p[t].attempts + 1) else Marker(now, 1)]
  }

  function BumpAll(p: Pending, ts: seq<Target>, now: nat): Pending
    decreases |ts|
  {
    if ts == [] then p else BumpAll(Bump(p, ts[0], now), ts[1..], now)
  }

  function DropAll(p: Pending, ts: seq<Target>): Pending
    decreases |ts|
  {
    if ts == [] then p else DropAll(p - {ts[0]}, ts[1..])
  }

  /** After an attempt: success drops the markers it served, failure bumps them. */
  function Settle(s: State, ts: seq<Target>, tried: Tried): State {
    s.(edge := tried.edge,
       pending := if tried.ok then DropAll(s.pending, ts) else BumpAll(s.pending, ts, s.now))
  }

  function Queue(s: State, t: Target): State {
    s.(pending := s.pending[t := Marker(s.now, 0)])
  }

  ghost function PushInline(s: State, net: Net, t: Target): State {
    if s.configured then Settle(s, [t], Attempt(s.kv, s.edge, net, ForMarker(t))) else Queue(s, t)
  }

  /** Inline push, or `?async=1`. */
  ghost function Notify(s: State, net: Net, async: bool, t: Target): State {
    if async then Queue(s, t) else PushInline(s, net, t)
  }

  // ---------------------------------------------------------------------------
  // drain_pending
  // ---------------------------------------------------------------------------

  /** A BTreeMap from host to the markers under it, as an association list. */
  datatype Group = Group(host: string, targets: seq<Target>)

  function AddTo(gs: seq<Group>, host: string, t: Target): seq<Group> {
    if gs == [] then [Group(host, [t])]
    else if gs[0].host == host then [Group(host, gs[0].targets + [t])] + gs[1..]
    else if StringLess(host, gs[0].host) then [Group(host, [t])] + gs
    else [gs[0]] + AddTo(gs[1..], host, t)
  }

  datatype Buckets = Buckets(
    exact: seq<Target>, prefix: seq<Group>, meta: seq<Group>, deletes: seq<Target>, unknown: seq<Target>)

  const NO_BUCKETS := Buckets([], [], [], [], [])

  function Sorted(b: Buckets, t: Target): Buckets {
    match t
    case PushRule(k) =>
      if k.matchType == Exact then b.(exact := b.exact + [t]) else b.(prefix := AddTo(b.prefix, k.host, t))
    case PushHost(h) => b.(meta := AddTo(b.meta, h, t))
    case Unknown(_) => b.(unknown := b.unknown + [t])
    case _ => b.(deletes := b.deletes + [t])
  }

  function SortedAll(ts: seq<Target>): Buckets {
    if ts == [] then NO_BUCKETS else Sorted(SortedAll(ts[..|ts| - 1]), ts[|ts| - 1])
  }

  /** One EdgeKV operation and the markers that hang on it. */
  datatype Job = Job(targets: seq<Target>, work: Work)

  function Singles(ts: seq<Target>): seq<Job> {
    seq(|ts|, i requires 0 <= i < |ts| => Job([ts[i]], ForMarker(ts[i])))
  }

  function ManifestJobs(gs: seq<Group>): seq<Job> {
    seq(|gs|, i requires 0 <= i < |gs| => Job(gs[i].targets, ForManifest(gs[i].host)))
  }

  function MetaJobs(gs: seq<Group>): seq<Job> {
    seq(|gs|, i requires 0 <= i < |gs| => Job(gs[i].targets, ForMarker(PushHost(gs[i].host))))
  }

  function Jobs(b: Buckets): seq<Job> {
    Singles(b.exact) + ManifestJobs(b.prefix) + MetaJobs(b.meta) + Singles(b.deletes) + Singles(b.unknown)
  }

  datatype Tally = Tally(s: State, drained: nat, errors: nat)

  ghost function RunJob(d: Tally, net: Net, j: Job): Tally {
    var tried := Attempt(d.s.kv, d.s.edge, net, j.work);
    var s := Settle(d.s, j.targets, tried);
    if tried.ok then Tally(s, d.drained + |j.targets|, d.errors) else Tally(s, d.drained, d.errors + |j.targets|)
  }

  ghost function RunJobs(d: Tally, net: Net, js: seq<Job>): Tally
    decreases |js|
  {
    if js == [] then d else RunJobs(RunJob(d, net, js[0]), net, js[1..])
  }

  lemma {:induction false} RunJobsAppend(d: Tally, net: Net, a: seq<Job>, b: seq<Job>)
    ensures RunJobs(d, net, a + b) == RunJobs(RunJobs(d, net, a), net, b)
    decreases |a|
  {
    if a == [] {
      assert a + b == b;
    } else {
      assert (a + b)[1..] == a[1..] + b;
      RunJobsAppend(RunJob(d, net, a[0]), net, a[1..], b);
    }
  }

  /** `taken` is the part of the marker listing within the budget. */
  ghost function Drain(s: State, net: Net, taken: seq<Target>): Tally {
    if s.configured then RunJobs(Tally(s, 0, 0), net, Jobs(SortedAll(taken)))
    else Tally(s.(pending := BumpAll(s.pending, taken, s.now)), 0, |taken|)
  }
}
