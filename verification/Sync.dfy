/** shared/src/sync.rs as it runs: methods that write the key-value store and
    EdgeKV step by step, each tied to its function in `Protocol`. */
module Sync {
  import opened Model
  import opened Manifest
  import opened EkvKeys
  import opened EdgeStore
  import opened Keys
  import opened Listings
  import opened Protocol

  /** The control plane's store: rules, host records and pending markers. */
  class Backend {
    var rules: Rules
    var hosts: Hosts
    var pending: Pending
    var now: nat

    ghost function Stored(): Kv
      reads this
    {
      Kv(rules, hosts)
    }

    constructor ()
      ensures rules == map[] && hosts == map[] && pending == map[] && now == 0
    {
      rules, hosts, pending, now := map[], map[], map[], 0;
    }
  }

  ghost function View(b: Backend, e: EdgeKv): State
    reads b, e
  {
    State(b.Stored(), b.pending, e.View(), b.now, e.configured)
  }

  method BuildManifestForHost(b: Backend, host: string) returns (manifest: seq<Entry>)
    requires Coherent(b.rules)
    ensures manifest == ManifestOf(b.rules, host)
  {
    var keys := Enumerate(HostKeys(b.rules, host));
    var rules := [];
    for i := 0 to |keys|
      invariant rules == Fetch(b.rules, keys[..i])
    {
      assert keys[..i + 1][..i] == keys[..i];
      if keys[i] in b.rules {
        rules := rules + [b.rules[keys[i]]];
      }
    }
    assert keys[..|keys|] == keys;
    ManifestFromAnyListing(b.rules, host, keys);
    manifest := BuildPrefixManifest(rules);
  }

  method PushHostManifest(b: Backend, e: EdgeKv, host: string) returns (ok: bool)
    requires Coherent(b.rules)
    modifies e`items, e`ops
    ensures Tried(e.View(), ok) == Attempt(b.Stored(), old(e.View()), e.net, ForManifest(host))
  {
    var manifest := BuildManifestForHost(b, host);
    ok := e.PushManifest(host, manifest);
  }

  method TryPush(b: Backend, e: EdgeKv, k: RuleKey) returns (ok: bool)
    requires Coherent(b.rules)
    modifies e`items, e`ops
    ensures Tried(e.View(), ok) == Attempt(b.Stored(), old(e.View()), e.net, ForMarker(PushRule(k)))
  {
    if k !in b.rules {
      return true;
    }
    var rule := b.rules[k];
    match k.matchType {
      case Exact =>
        if rule.enabled {
          ok := e.PutItem(ExactItem(rule.host, rule.path), ExactValue(ToExact(rule)));
        } else {
          ok := e.DeleteItem(ExactItem(rule.host, rule.path));
        }
      case Prefix =>
        ok := PushHostManifest(b, e, k.host);
    }
  }

  method TryPushMeta(b: Backend, e: EdgeKv, host: string) returns (ok: bool)
    modifies e`items, e`ops
    ensures Tried(e.View(), ok) == Attempt(b.Stored(), old(e.View()), e.net, ForMarker(PushHost(host)))
  {
    if host !in b.hosts {
      ok := e.DeleteHostItems(host);
      return;
    }
    var meta := b.hosts[host];
    ok := e.PutItem(Sentinel(meta.host), HostValue(meta.enabled, meta.caseSensitive, meta.ruleCount));
  }

  method TryDelete(b: Backend, e: EdgeKv, k: RuleKey) returns (ok: bool)
    requires Coherent(b.rules)
    modifies e`items, e`ops
    ensures Tried(e.View(), ok) == Attempt(b.Stored(), old(e.View()), e.net, ForMarker(DeleteRule(k)))
  {
    match k.matchType {
      case Exact => ok := e.DeleteItem(ExactItem(k.host, k.path));
      case Prefix => ok := PushHostManifest(b, e, k.host);
    }
  }

  // ---------------------------------------------------------------------------
  // Marker bookkeeping
  // ---------------------------------------------------------------------------

  method QueueMarker(b: Backend, t: Target)
    modifies b`pending
    ensures b.pending == old(b.pending)[t := Marker(b.now, 0)]
  {
    b.pending := b.pending[t := Marker(b.now, 0)];
  }

  method BumpMarker(b: Backend, t: Target)
    modifies b`pending
    ensures b.pending == Bump(old(b.pending), t, b.now)
  {
    var queuedAt, attempts := b.now, 0;
    if t in b.pending {
      queuedAt, attempts := b.pending[t].queuedAt, b.pending[t].attempts;
    }
    b.pending := b.pending[t := Marker(queuedAt, attempts + 1)];
  }

  method Record(b: Backend, t: Target, ok: bool)
    modifies b`pending
    ensures b.pending == if ok then DropAll(old(b.pending), [t]) else BumpAll(old(b.pending), [t], b.now)
  {
    if ok {
      b.pending := b.pending - {t};
    } else {
      BumpMarker(b, t);
    }
  }

  // ---------------------------------------------------------------------------
  // Inline write-through
  // ---------------------------------------------------------------------------

  method PushRuleInline(b: Backend, e: EdgeKv, k: RuleKey)
    requires Coherent(b.rules)
    modifies b`pending, e`items, e`ops
    ensures View(b, e) == PushInline(old(View(b, e)), e.net, PushRule(k))
  {
    if !e.configured {
      QueueMarker(b, PushRule(k));
      return;
    }
    var ok := TryPush(b, e, k);
    Record(b, PushRule(k), ok);
  }

  method PushHostInline(b: Backend, e: EdgeKv, host: string)
    modifies b`pending, e`items, e`ops
    ensures View(b, e) == PushInline(old(View(b, e)), e.net, PushHost(host))
  {
    if !e.configured {
      QueueMarker(b, PushHost(host));
      return;
    }
    var ok := TryPushMeta(b, e, host);
    Record(b, PushHost(host), ok);
  }

  method PushDeleteRuleInline(b: Backend, e: EdgeKv, k: RuleKey)
    requires Coherent(b.rules)
    modifies b`pending, e`items, e`ops
    ensures View(b, e) == PushInline(old(View(b, e)), e.net, DeleteRule(k))
  {
    if !e.configured {
      QueueMarker(b, DeleteRule(k));
      return;
    }
    var ok := TryDelete(b, e, k);
    Record(b, DeleteRule(k), ok);
  }

  // ---------------------------------------------------------------------------
  // Reconcile drain
  // ---------------------------------------------------------------------------

  /** Deletes or bumps the markers of one job and counts them. */
  method Conclude(b: Backend, ts: seq<Target>, ok: bool, drained0: nat, errors0: nat) returns (drained: nat, errors: nat)
    modifies b`pending
    ensures b.pending == if ok then DropAll(old(b.pending), ts) else BumpAll(old(b.pending), ts, b.now)
    ensures if ok then drained == drained0 + |ts| && errors == errors0
            else drained == drained0 && errors == errors0 + |ts|
  {
    drained, errors := drained0, errors0;
    for i := 0 to |ts|
      invariant ok ==> DropAll(b.pending, ts[i..]) == DropAll(old(b.pending), ts)
      invariant !ok ==> BumpAll(b.pending, ts[i..], b.now) == BumpAll(old(b.pending), ts, b.now)
      invariant if ok then drained == drained0 + i && errors == errors0
                else drained == drained0 && errors == errors0 + i
    {
      assert ts[i..][1..] == ts[i + 1..];
      if ok {
        drained := drained + 1;
        b.pending := b.pending - {ts[i]};
      } else {
        errors := errors + 1;
        BumpMarker(b, ts[i]);
      }
    }
  }

  /** Sorts the taken markers into the five buckets. */
  method FillBuckets(markers: seq<Target>) returns (b: Buckets)
    ensures b == SortedAll(markers)
  {
    b := NO_BUCKETS;
    for i := 0 to |markers|
      invariant b == SortedAll(markers[..i])
    {
      assert markers[..i + 1][..i] == markers[..i];
      b := Sorted(b, markers[i]);
    }
    assert markers[..|markers|] == markers;
  }

  /** Carries out one job. */
  method Perform(b: Backend, e: EdgeKv, j: Job, drained0: nat, errors0: nat) returns (drained: nat, errors: nat)
    requires Coherent(b.rules)
    modifies b`pending, e`items, e`ops
    ensures Tally(View(b, e), drained, errors) == RunJob(Tally(old(View(b, e)), drained0, errors0), e.net, j)
  {
    var ok;
    match j.work {
      case ForManifest(h) => ok := PushHostManifest(b, e, h);
      case ForMarker(PushRule(k)) => ok := TryPush(b, e, k);
      case ForMarker(PushHost(h)) => ok := TryPushMeta(b, e, h);
      case ForMarker(DeleteRule(k)) => ok := TryDelete(b, e, k);
      case ForMarker(DeleteHost(h)) => ok := e.DeleteHostItems(h);
      case ForMarker(_) => ok := false;
    }
    drained, errors := Conclude(b, j.targets, ok, drained0, errors0);
  }

  /** One phase of the drain. */
  method PerformAll(b: Backend, e: EdgeKv, jobs: seq<Job>, drained0: nat, errors0: nat) returns (drained: nat, errors: nat)
    requires Coherent(b.rules)
    modifies b`pending, e`items, e`ops
    ensures Tally(View(b, e), drained, errors) == RunJobs(Tally(old(View(b, e)), drained0, errors0), e.net, jobs)
  {
    drained, errors := drained0, errors0;
    for i := 0 to |jobs|
      invariant b.rules == old(b.rules) && b.hosts == old(b.hosts)
      invariant RunJobs(Tally(View(b, e), drained, errors), e.net, jobs[i..])
             == RunJobs(Tally(old(View(b, e)), drained0, errors0), e.net, jobs)
    {
      assert jobs[i..][1..] == jobs[i + 1..];
      drained, errors := Perform(b, e, jobs[i], drained, errors);
    }
    assert jobs[|jobs|..] == [];
  }

  /** One pass over the queue: at most `budget` of the markers the store lists,
      exact pushes first, then one manifest per host, host records, deletes. */
  method DrainPending(b: Backend, e: EdgeKv, budget: nat)
      returns (drained: nat, errors: nat, ghost listing: seq<Target>, ghost taken: seq<Target>)
    requires Coherent(b.rules)
    modifies b`pending, e`items, e`ops
    ensures Lists(listing, old(b.pending.Keys))
    ensures taken == listing[..if budget < |listing| then budget else |listing|]
    ensures Tally(View(b, e), drained, errors) == Drain(old(View(b, e)), e.net, taken)
  {
    var all := Enumerate(b.pending.Keys);
    var markers := all[..if budget < |all| then budget else |all|];
    listing, taken := all, markers;
    drained, errors := 0, 0;
    if !e.configured {
      drained, errors := Conclude(b, markers, false, 0, 0);
      return;
    }
    var buckets := FillBuckets(markers);
    drained, errors := DrainBuckets(b, e, buckets);
  }

  method DrainBuckets(b: Backend, e: EdgeKv, buckets: Buckets) returns (drained: nat, errors: nat)
    requires Coherent(b.rules)
    modifies b`pending, e`items, e`ops
    ensures Tally(View(b, e), drained, errors) == RunJobs(Tally(old(View(b, e)), 0, 0), e.net, Jobs(buckets))
  {
    var exact, prefix, meta := Singles(buckets.exact), ManifestJobs(buckets.prefix), MetaJobs(buckets.meta);
    var deletes, unknown := Singles(buckets.deletes), Singles(buckets.unknown);
    ghost var d0 := Tally(View(b, e), 0, 0);
    RunJobsAppend(d0, e.net, exact, prefix);
    RunJobsAppend(d0, e.net, exact + prefix, meta);
    RunJobsAppend(d0, e.net, exact + prefix + meta, deletes);
    RunJobsAppend(d0, e.net, exact + prefix + meta + deletes, unknown);
    drained, errors := PerformAll(b, e, exact, 0, 0);
    drained, errors := PerformAll(b, e, prefix, drained, errors);
    drained, errors := PerformAll(b, e, meta, drained, errors);
    drained, errors := PerformAll(b, e, deletes, drained, errors);
    drained, errors := PerformAll(b, e, unknown, drained, errors);
  }
}
