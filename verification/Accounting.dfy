/** What a drain does to the queue: every taken marker is either dropped or kept
    with one more attempt, and the two counters say how many of each. */
module Accounting {
  import opened Text
  import opened Model
  import opened EdgeStore
  import opened Keys
  import opened Listings
  import opened Protocol

  function Flat(js: seq<Job>): seq<Target> {
    if js == [] then [] else js[0].targets + Flat(js[1..])
  }

  function FlatGroups(gs: seq<Group>): seq<Target> {
    if gs == [] then [] else gs[0].targets + FlatGroups(gs[1..])
  }

  // ---------------------------------------------------------------------------
  // Bucketing loses nothing
  // ---------------------------------------------------------------------------

  lemma {:induction false} FlatAppend(a: seq<Job>, b: seq<Job>)
    ensures Flat(a + b) == Flat(a) + Flat(b)
  {
    if a == [] {
      assert a + b == b;
    } else {
      assert (a + b)[1..] == a[1..] + b;
      FlatAppend(a[1..], b);
    }
  }

  lemma {:induction false} FlatSingles(ts: seq<Target>)
    ensures Flat(Singles(ts)) == ts
  {
    if ts != [] {
      assert Singles(ts)[1..] == Singles(ts[1..]);
      FlatSingles(ts[1..]);
    }
  }

  lemma {:induction false} FlatGroupJobs(gs: seq<Group>)
    ensures Flat(ManifestJobs(gs)) == FlatGroups(gs)
    ensures Flat(MetaJobs(gs)) == FlatGroups(gs)
  {
    if gs != [] {
      assert ManifestJobs(gs)[1..] == ManifestJobs(gs[1..]);
      assert MetaJobs(gs)[1..] == MetaJobs(gs[1..]);
      FlatGroupJobs(gs[1..]);
    }
  }

  function Count(ts: seq<Target>, x: Target): nat {
    if ts == [] then 0 else (if ts[0] == x then 1 else 0) + Count(ts[1..], x)
  }

  lemma {:induction false} CountAppend(a: seq<Target>, b: seq<Target>, x: Target)
    ensures Count(a + b, x) == Count(a, x) + Count(b, x)
  {
    if a == [] {
      assert a + b == b;
    } else {
      assert (a + b)[1..] == a[1..] + b;
      CountAppend(a[1..], b, x);
    }
  }

  lemma {:induction false} CountAddTo(gs: seq<Group>, host: string, t: Target, x: Target)
    ensures Count(FlatGroups(AddTo(gs, host, t)), x) == Count(FlatGroups(gs), x) + Count([t], x)
    ensures |FlatGroups(AddTo(gs, host, t))| == |FlatGroups(gs)| + 1
  {
    var r := AddTo(gs, host, t);
    assert FlatGroups(r) == r[0].targets + FlatGroups(r[1..]);
    CountAppend(r[0].targets, FlatGroups(r[1..]), x);
    if gs == [] {
      assert FlatGroups(r[1..]) == [];
    } else {
      CountAppend(gs[0].targets, FlatGroups(gs[1..]), x);
      if gs[0].host == host {
        CountAppend(gs[0].targets, [t], x);
        assert r[1..] == gs[1..];
      } else if StringLess(host, gs[0].host) {
        assert r[1..] == gs;
      } else {
        assert r[1..] == AddTo(gs[1..], host, t);
        CountAddTo(gs[1..], host, t, x);
      }
    }
  }

  function FlatBuckets(b: Buckets): seq<Target> {
    b.exact + FlatGroups(b.prefix) + FlatGroups(b.meta) + b.deletes + b.unknown
  }

  lemma FlatJobs(b: Buckets)
    ensures Flat(Jobs(b)) == FlatBuckets(b)
  {
    var e, p, m, d, u := Singles(b.exact), ManifestJobs(b.prefix), MetaJobs(b.meta), Singles(b.deletes), Singles(b.unknown);
    FlatAppend(e + p + m + d, u);
    FlatAppend(e + p + m, d);
    FlatAppend(e + p, m);
    FlatAppend(e, p);
    FlatSingles(b.exact);
    FlatGroupJobs(b.prefix);
    FlatGroupJobs(b.meta);
    FlatSingles(b.deletes);
    FlatSingles(b.unknown);
  }

  function BucketCounts(b: Buckets, x: Target): nat {
    Count(b.exact, x) + Count(FlatGroups(b.prefix), x) + Count(FlatGroups(b.meta), x) + Count(b.deletes, x) + Count(b.unknown, x)
  }

  function BucketSizes(b: Buckets): nat {
    |b.exact| + |FlatGroups(b.prefix)| + |FlatGroups(b.meta)| + |b.deletes| + |b.unknown|
  }

  lemma {:induction false} BucketCount(b: Buckets, x: Target)
    ensures Count(FlatBuckets(b), x) == BucketCounts(b, x)
    ensures |FlatBuckets(b)| == BucketSizes(b)
  {
    var p, m := FlatGroups(b.prefix), FlatGroups(b.meta);
    CountAppend(b.exact + p + m + b.deletes, b.unknown, x);
    CountAppend(b.exact + p + m, b.deletes, x);
    CountAppend(b.exact + p, m, x);
    CountAppend(b.exact, p, x);
  }

  lemma {:induction false} SortedCounts(b: Buckets, t: Target, x: Target)
    ensures BucketCounts(Sorted(b, t), x) == BucketCounts(b, x) + Count([t], x)
    ensures BucketSizes(Sorted(b, t)) == BucketSizes(b) + 1
  {
    match t {
      case PushRule(k) =>
        if k.matchType == Exact {
          CountAppend(b.exact, [t], x);
        } else {
          CountAddTo(b.prefix, k.host, t, x);
        }
      case PushHost(h) => CountAddTo(b.meta, h, t, x);
      case Unknown(_) => CountAppend(b.unknown, [t], x);
      case _ => CountAppend(b.deletes, [t], x);
    }
  }

  lemma {:induction false} SortedAddsOne(b: Buckets, t: Target, x: Target)
    ensures Count(FlatBuckets(Sorted(b, t)), x) == Count(FlatBuckets(b), x) + Count([t], x)
    ensures |FlatBuckets(Sorted(b, t))| == |FlatBuckets(b)| + 1
  {
    BucketCount(b, x);
    BucketCount(Sorted(b, t), x);
    SortedCounts(b, t, x);
  }

  lemma {:induction false} BucketsKeepMarkers(ts: seq<Target>, x: Target)
    ensures Count(FlatBuckets(SortedAll(ts)), x) == Count(ts, x)
    ensures |FlatBuckets(SortedAll(ts))| == |ts|
  {
    if ts != [] {
      var init, t := ts[..|ts| - 1], ts[|ts| - 1];
      BucketsKeepMarkers(init, x);
      SortedAddsOne(SortedAll(init), t, x);
      assert ts == init + [t];
      CountAppend(init, [t], x);
    }
  }

  lemma {:induction false} CountMeaning(l: seq<Target>, x: Target)
    ensures x in l <==> Count(l, x) > 0
  {
    if l != [] {
      CountMeaning(l[1..], x);
      assert x in l <==> x == l[0] || x in l[1..];
    }
  }

  lemma {:induction false} DistinctCounts(l: seq<Target>, x: Target)
    requires Distinct(l)
    ensures Count(l, x) <= 1
  {
    if l != [] {
      var head, tail := l[0], l[1..];
      assert forall j :: 0 <= j < |tail| ==> tail[j] == l[j + 1];
      DistinctCounts(tail, x);
      CountMeaning(tail, head);
    }
  }

  lemma {:induction false} CountsDistinct(l: seq<Target>)
    requires forall x :: Count(l, x) <= 1
    ensures Distinct(l)
  {
    if l != [] {
      var head, tail := l[0], l[1..];
      CountMeaning(tail, head);
      assert Count(l, head) <= 1;
      forall x ensures Count(tail, x) <= 1 {
        assert Count(l, x) <= 1;
      }
      CountsDistinct(tail);
      forall i, j | 0 <= i < j < |l| ensures l[i] != l[j] {
        assert l[j] == tail[j - 1];
        assert i > 0 ==> l[i] == tail[i - 1];
      }
    }
  }

  /** Every taken marker lands in exactly one bucket, once. */
  lemma JobsPartition(taken: seq<Target>)
    ensures var flat := Flat(Jobs(SortedAll(taken)));
      && |flat| == |taken|
      && (forall t :: t in flat <==> t in taken)
      && (Distinct(taken) ==> Distinct(flat))
  {
    var flat := Flat(Jobs(SortedAll(taken)));
    FlatJobs(SortedAll(taken));
    BucketsKeepMarkers(taken, Unknown(""));
    forall t ensures Count(flat, t) == Count(taken, t) && (t in flat <==> t in taken) {
      BucketsKeepMarkers(taken, t);
      CountMeaning(flat, t);
      CountMeaning(taken, t);
    }
    if Distinct(taken) {
      forall t ensures Count(flat, t) <= 1 {
        DistinctCounts(taken, t);
      }
      CountsDistinct(flat);
    }
  }

  // ---------------------------------------------------------------------------
  // Counting
  // ---------------------------------------------------------------------------

  /** A marker's record after a failed attempt. */
  function Retried(m: Marker): Marker {
    Marker(m.queuedAt, m.attempts + 1)
  }

  lemma {:induction false} DropAllEffect(p: Pending, ts: seq<Target>)
    ensures DropAll(p, ts) == map t | t in p && t !in ts :: p[t]
    decreases |ts|
  {
    if ts != [] {
      DropAllEffect(p - {ts[0]}, ts[1..]);
    }
  }

  lemma {:induction false} BumpAllEffect(p: Pending, ts: seq<Target>, now: nat)
    requires Distinct(ts)
    ensures BumpAll(p, ts, now).Keys == p.Keys + set t | t in ts
    ensures forall t :: t in p && t !in ts ==> BumpAll(p, ts, now)[t] == p[t]
    ensures forall t :: t in p && t in ts ==> BumpAll(p, ts, now)[t] == Retried(p[t])
    decreases |ts|
  {
    if ts != [] {
      BumpAllEffect(Bump(p, ts[0], now), ts[1..], now);
    }
  }

  /** Keys of the queue after a job, duplicates or not. */
  lemma {:induction false} BumpAllKeys(p: Pending, ts: seq<Target>, now: nat)
    ensures BumpAll(p, ts, now).Keys == p.Keys + set t | t in ts
    decreases |ts|
  {
    if ts != [] {
      BumpAllKeys(Bump(p, ts[0], now), ts[1..], now);
    }
  }

  /** The relation between the queue before and after `ts` have been served. */
  ghost predicate Served(before: Pending, after: Pending, ts: seq<Target>) {
    && after.Keys <= before.Keys
    && (forall t :: t in before && t !in ts ==> t in after && after[t] == before[t])
    && (forall t :: t in before && t in ts && t in after ==> after[t] == Retried(before[t]))
  }

  lemma {:induction false} JobServes(d: Tally, net: Net, j: Job)
    requires Distinct(j.targets) && forall t :: t in j.targets ==> t in d.s.pending
    ensures var d' := RunJob(d, net, j);
      && d'.s.(edge := d.s.edge, pending := d.s.pending) == d.s
      && Served(d.s.pending, d'.s.pending, j.targets)
      && d'.drained + d'.errors == d.drained + d.errors + |j.targets|
      && d'.drained >= d.drained
      && |d'.s.pending| + (d'.drained - d.drained) == |d.s.pending|
  {
    DropAllServes(d.s.pending, j.targets);
    BumpAllServes(d.s.pending, j.targets, d.s.now);
  }

  lemma {:induction false} DropAllServes(p: Pending, ts: seq<Target>)
    requires Distinct(ts) && forall t :: t in ts ==> t in p
    ensures Served(p, DropAll(p, ts), ts) && |DropAll(p, ts)| == |p| - |ts|
  {
    DropAllEffect(p, ts);
    var S := set t | t in ts;
    ListingLength(ts, S);
    assert DropAll(p, ts).Keys == p.Keys - S;
    assert |p.Keys - S| == |p.Keys| - |S|;
  }

  lemma {:induction false} BumpAllServes(p: Pending, ts: seq<Target>, now: nat)
    requires Distinct(ts) && forall t :: t in ts ==> t in p
    ensures Served(p, BumpAll(p, ts, now), ts) && |BumpAll(p, ts, now)| == |p|
  {
    BumpAllEffect(p, ts, now);
    assert BumpAll(p, ts, now).Keys == p.Keys;
  }

  lemma {:induction false} JobsServe(d: Tally, net: Net, js: seq<Job>)
    requires Distinct(Flat(js)) && forall t :: t in Flat(js) ==> t in d.s.pending
    ensures var d' := RunJobs(d, net, js);
      && d'.s.(edge := d.s.edge, pending := d.s.pending) == d.s
      && Served(d.s.pending, d'.s.pending, Flat(js))
      && d'.drained + d'.errors == d.drained + d.errors + |Flat(js)|
      && d'.drained >= d.drained
      && |d'.s.pending| + (d'.drained - d.drained) == |d.s.pending|
    decreases |js|
  {
    if js != [] {
      var first, rest := js[0].targets, Flat(js[1..]);
      SplitDistinct(first, rest);
      JobServes(d, net, js[0]);
      JobsServe(RunJob(d, net, js[0]), net, js[1..]);
    }
  }

  lemma SplitDistinct(a: seq<Target>, b: seq<Target>)
    requires Distinct(a + b)
    ensures Distinct(a) && Distinct(b) && forall t :: t in a ==> t !in b
  {
    var l := a + b;
    assert forall i :: 0 <= i < |b| ==> l[|a| + i] == b[i];
    forall i, j | 0 <= i < j < |a| ensures a[i] != a[j] {
      assert l[i] == a[i] && l[j] == a[j];
    }
    forall t | t in a ensures t !in b {
      var i :| 0 <= i < |a| && a[i] == t;
      assert l[i] == t;
    }
  }

  /** Drain accounting, for every pattern of failures. The counters add up to the
      markers taken; `drained` is how many markers left the queue; a marker that
      failed keeps its queueing time and gains an attempt; a marker that was not
      taken is untouched; and the rules are untouched. */
  lemma DrainAccounting(s: State, net: Net, taken: seq<Target>)
    requires Distinct(taken) && forall t :: t in taken ==> t in s.pending
    ensures var d := Drain(s, net, taken);
      && d.drained + d.errors == |taken|
      && |d.s.pending| + d.drained == |s.pending|
      && Served(s.pending, d.s.pending, taken)
      && d.s.kv == s.kv && d.s.now == s.now && d.s.configured == s.configured
  {
    JobsPartition(taken);
    if s.configured {
      JobsServe(Tally(s, 0, 0), net, Jobs(SortedAll(taken)));
    } else {
      BumpAllEffect(s.pending, taken, s.now);
      assert Drain(s, net, taken).s.pending.Keys == s.pending.Keys;
    }
  }

  // ---------------------------------------------------------------------------
  // Which markers leave
  // ---------------------------------------------------------------------------

  /** The operation of job `i`, when its turn comes, is acknowledged. */
  ghost predicate Acknowledged(d: Tally, net: Net, js: seq<Job>, i: nat)
    requires i < |js|
  {
    var before := RunJobs(d, net, js[..i]).s;
    Attempt(before.kv, before.edge, net, js[i].work).ok
  }

  lemma {:induction false} AcknowledgedLater(d: Tally, net: Net, js: seq<Job>, i: nat)
    requires 0 < i < |js|
    ensures Acknowledged(d, net, js, i) <==> Acknowledged(RunJob(d, net, js[0]), net, js[1..], i - 1)
  {
    assert js[..i][0] == js[0] && js[..i][1..] == js[1..][..i - 1];
  }

  lemma {:induction false} MarkerLeavesIff(d: Tally, net: Net, js: seq<Job>, i: nat, t: Target)
    requires Distinct(Flat(js)) && forall x :: x in Flat(js) ==> x in d.s.pending
    requires i < |js| && t in js[i].targets
    ensures t in Flat(js)
    ensures t !in RunJobs(d, net, js).s.pending <==> Acknowledged(d, net, js, i)
    decreases |js|
  {
    var first, rest := js[0].targets, Flat(js[1..]);
    var d' := RunJob(d, net, js[0]);
    SplitDistinct(first, rest);
    JobServes(d, net, js[0]);
    JobsServe(d', net, js[1..]);
    if i == 0 {
      DropAllEffect(d.s.pending, first);
      BumpAllKeys(d.s.pending, first, d.s.now);
      assert js[..0] == [];
    } else {
      AcknowledgedLater(d, net, js, i);
      MarkerLeavesIff(d', net, js[1..], i - 1, t);
    }
  }

  lemma {:induction false} FlatHasJob(js: seq<Job>, t: Target) returns (i: nat)
    requires t in Flat(js)
    ensures i < |js| && t in js[i].targets
  {
    if t in js[0].targets {
      i := 0;
    } else {
      i := FlatHasJob(js[1..], t);
      i := i + 1;
    }
  }

  /** A drain removes a taken marker exactly when the operation of its job is
      acknowledged, and every taken marker has a job; without credentials it
      removes none. */
  lemma DrainRemovesIff(s: State, net: Net, taken: seq<Target>, t: Target)
    requires Distinct(taken) && (forall x :: x in taken ==> x in s.pending) && t in taken
    ensures var s', js := Drain(s, net, taken).s, Jobs(SortedAll(taken));
      && (exists i :: 0 <= i < |js| && t in js[i].targets)
      && (forall i :: 0 <= i < |js| && t in js[i].targets ==>
           (t !in s'.pending <==> s.configured && Acknowledged(Tally(s, 0, 0), net, js, i)))
  {
    var js := Jobs(SortedAll(taken));
    JobsPartition(taken);
    var j := FlatHasJob(js, t);
    forall i | 0 <= i < |js| && t in js[i].targets
      ensures t !in Drain(s, net, taken).s.pending <==> s.configured && Acknowledged(Tally(s, 0, 0), net, js, i)
    {
      if s.configured {
        MarkerLeavesIff(Tally(s, 0, 0), net, js, i, t);
      } else {
        BumpAllKeys(s.pending, taken, s.now);
      }
    }
  }

  // ---------------------------------------------------------------------------
  // Without failures
  // ---------------------------------------------------------------------------

  /** The markers the system writes. */
  predicate IsRetriable(t: Target) {
    !t.BadDelete? && !t.Unknown?
  }

  lemma FaultlessAttempt(kv: Kv, e: Edge, net: Net, w: Work)
    requires Faultless(net)
    requires w.ForMarker? ==> IsRetriable(w.target)
    ensures Attempt(kv, e, net, w).ok
  {
    match w {
      case ForManifest(h) => FaultlessShards(e, net, h, ManifestOf(kv.rules, h), 0);
      case ForMarker(PushRule(k)) => FaultlessShards(e, net, k.host, ManifestOf(kv.rules, k.host), 0);
      case ForMarker(DeleteRule(k)) => FaultlessShards(e, net, k.host, ManifestOf(kv.rules, k.host), 0);
      case ForMarker(_) =>
    }
  }

  lemma {:induction false} FaultlessJobs(d: Tally, net: Net, js: seq<Job>)
    requires Faultless(net)
    requires forall i :: 0 <= i < |js| && js[i].work.ForMarker? ==> IsRetriable(js[i].work.target)
    ensures RunJobs(d, net, js).errors == d.errors
    ensures RunJobs(d, net, js).s.kv == d.s.kv
    decreases |js|
  {
    if js != [] {
      FaultlessAttempt(d.s.kv, d.s.edge, net, js[0].work);
      FaultlessJobs(RunJob(d, net, js[0]), net, js[1..]);
    }
  }

  lemma {:induction false} RetriableBuckets(ts: seq<Target>)
    requires forall t :: t in ts ==> IsRetriable(t)
    ensures var b := SortedAll(ts);
      && b.unknown == []
      && (forall t :: t in b.exact ==> t in ts) && (forall t :: t in b.deletes ==> t in ts)
  {
    if ts != [] {
      var init, last := ts[..|ts| - 1], ts[|ts| - 1];
      assert ts == init + [last];
      assert last in ts;
      RetriableBuckets(init);
    }
  }

  /** When EdgeKV answers and credentials are present, a drain removes exactly
      the markers it took. */
  lemma FaultlessDrain(s: State, net: Net, taken: seq<Target>)
    requires Faultless(net) && s.configured
    requires Distinct(taken) && forall t :: t in taken ==> t in s.pending && IsRetriable(t)
    ensures var d := Drain(s, net, taken);
      && d.drained == |taken| && d.errors == 0
      && d.s.pending == map t | t in s.pending && t !in taken :: s.pending[t]
  {
    var b := SortedAll(taken);
    RetriableBuckets(taken);
    FaultlessJobs(Tally(s, 0, 0), net, Jobs(b));
    DrainAccounting(s, net, taken);
    var d := Drain(s, net, taken);
    var S := set t | t in taken;
    ListingLength(taken, S);
    assert |s.pending.Keys - S| == |s.pending.Keys| - |S|;
    assert s.pending.Keys - S <= d.s.pending.Keys;
    SubsetOfEqualSize(s.pending.Keys - S, d.s.pending.Keys);
  }

  lemma SubsetOfEqualSize(a: set<Target>, b: set<Target>)
    requires a <= b && |a| == |b|
    ensures a == b
  {
    assert |b - a| == |b| - |a|;
  }
}
