/** EdgeKV as the control plane writes it and the EdgeWorker reads it: single
    puts and deletes that may fail, and the sharded prefix manifest on top of
    them (shared/src/ekv.rs, edgeworker/main.js). */
module EdgeStore {
  import opened Text
  import opened Model
  import opened Manifest
  import opened EkvKeys

  datatype EkvValue =
    | HostValue(enabled: bool, caseSensitive: bool, ruleCount: nat)
    | ExactValue(rule: EkvExact)
    | Bare(entries: seq<Entry>)
    | Head(n: nat, entries: seq<Entry>)

  /** What becomes of one request to EdgeKV: done and acknowledged, not done, or
      done although the caller sees an error. */
  datatype Outcome = Acked | Refused | Unacked

  /** The fate of every request, by its sequence number. Quantifying over all
      networks quantifies over all patterns of failures. */
  type Net = nat -> Outcome

  ghost predicate Faultless(net: Net) {
    forall i :: net(i) == Acked
  }

  type Items = map<EkvKey, EkvValue>

  datatype Edge = Edge(items: Items, ops: nat)
  datatype Tried = Tried(edge: Edge, ok: bool)

  function Put(e: Edge, net: Net, k: EkvKey, v: EkvValue): Tried {
    var items := if net(e.ops) == Refused then e.items else e.items[k := v];
    Tried(Edge(items, e.ops + 1), net(e.ops) == Acked)
  }

  function Remove(e: Edge, net: Net, k: EkvKey): Tried {
    var items := if net(e.ops) == Refused then e.items else e.items - {k};
    Tried(Edge(items, e.ops + 1), net(e.ops) == Acked)
  }

  function Item(items: Items, k: EkvKey): Option<EkvValue> {
    if k in items then Some(items[k]) else None
  }

  /** One request: it takes effect unless it is refused, and is reported as done
      only if it is acknowledged; other items are left alone. */
  lemma RequestIs(e: Edge, net: Net, k: EkvKey, v: EkvValue, other: EkvKey)
    ensures var put, removed := Put(e, net, k, v), Remove(e, net, k);
      && put.edge.ops == e.ops + 1 && removed.edge.ops == e.ops + 1
      && (put.ok <==> net(e.ops).Acked?) && (removed.ok <==> net(e.ops).Acked?)
      && Item(put.edge.items, k) == (if net(e.ops).Refused? then Item(e.items, k) else Some(v))
      && Item(removed.edge.items, k) == (if net(e.ops).Refused? then Item(e.items, k) else None)
      && (other != k ==> Item(put.edge.items, other) == Item(e.items, other) == Item(removed.edge.items, other))
  {
  }

  // ---------------------------------------------------------------------------
  // Pushing a manifest
  // ---------------------------------------------------------------------------

  const PREFIX_SHARD_LIMIT: nat := 2500

  function ShardCount(total: nat): nat {
    (total + PREFIX_SHARD_LIMIT - 1) / PREFIX_SHARD_LIMIT
  }

  function ShardStart(m: seq<Entry>, s: nat): (lo: nat)
    ensures lo <= |m|
  {
    if s * PREFIX_SHARD_LIMIT <= |m| then s * PREFIX_SHARD_LIMIT else |m|
  }

  function Chunk(m: seq<Entry>, s: nat): seq<Entry> {
    m[ShardStart(m, s)..ShardStart(m, s + 1)]
  }

  function ShardBody(m: seq<Entry>, s: nat): EkvValue {
    if s == 0 then Head(ShardCount(|m|), Chunk(m, 0)) else Bare(Chunk(m, s))
  }

  /** Shards `s` and up, stopping at the first error. */
  function PutShards(e: Edge, net: Net, host: string, m: seq<Entry>, s: nat): Tried
    decreases ShardCount(|m|) - s
  {
    if s >= ShardCount(|m|) then Tried(e, true) else
    var t := Put(e, net, Shard(host, s), ShardBody(m, s));
    if t.ok then PutShards(t.edge, net, host, m, s + 1) else t
  }

  function PushPrefixes(e: Edge, net: Net, host: string, m: seq<Entry>): Tried {
    if |m| <= PREFIX_SHARD_LIMIT then Put(e, net, Shard(host, 0), Bare(m))
    else PutShards(e, net, host, m, 0)
  }

  /** Best effort: errors are ignored. */
  function RemoveShards(e: Edge, net: Net, host: string, from: nat, to: nat): Edge
    decreases to - from
  {
    if from >= to then e else RemoveShards(Remove(e, net, Shard(host, from)).edge, net, host, from + 1, to)
  }

  function RemoveHost(e: Edge, net: Net, host: string): Tried {
    var t := Remove(e, net, Sentinel(host));
    if t.ok then Tried(RemoveShards(t.edge, net, host, 0, 32), true) else t
  }

  /** The remote store; `configured` tells whether credentials are present. */
  class EdgeKv {
    const net: Net
    var items: Items
    var ops: nat
    var configured: bool

    ghost function View(): Edge
      reads this
    {
      Edge(items, ops)
    }

    constructor (net: Net)
      ensures this.net == net && View() == Edge(map[], 0) && configured
    {
      this.net := net;
      items, ops, configured := map[], 0, true;
    }

    method PutItem(k: EkvKey, v: EkvValue) returns (ok: bool)
      modifies this`items, this`ops
      ensures Tried(View(), ok) == Put(old(View()), net, k, v)
    {
      if net(ops) != Refused {
        items := items[k := v];
      }
      ok := net(ops) == Acked;
      ops := ops + 1;
    }

    method DeleteItem(k: EkvKey) returns (ok: bool)
      modifies this`items, this`ops
      ensures Tried(View(), ok) == Remove(old(View()), net, k)
    {
      if net(ops) != Refused {
        items := items - {k};
      }
      ok := net(ops) == Acked;
      ops := ops + 1;
    }

    method PushManifest(host: string, manifest: seq<Entry>) returns (ok: bool)
      modifies this`items, this`ops
      ensures Tried(View(), ok) == PushPrefixes(old(View()), net, host, manifest)
    {
      var total := |manifest|;
      if total <= PREFIX_SHARD_LIMIT {
        ok := PutItem(Shard(host, 0), Bare(manifest));
        return;
      }
      var shards := ShardCount(total);
      for s := 0 to shards
        invariant PutShards(View(), net, host, manifest, s) == PutShards(old(View()), net, host, manifest, 0)
      {
        var chunk := Chunk(manifest, s);
        var body := if s == 0 then Head(shards, chunk) else Bare(chunk);
        ok := PutItem(Shard(host, s), body);
        if !ok {
          return;
        }
      }
      ok := true;
    }

    method DeleteHostItems(host: string) returns (ok: bool)
      modifies this`items, this`ops
      ensures Tried(View(), ok) == RemoveHost(old(View()), net, host)
    {
      ok := DeleteItem(Sentinel(host));
      if ok {
        ghost var start := View();
        for s := 0 to 32
          invariant RemoveShards(View(), net, host, s, 32) == RemoveShards(start, net, host, 0, 32)
        {
          var _ := DeleteItem(Shard(host, s));
        }
      }
    }
  }

  // ---------------------------------------------------------------------------
  // Reading a manifest
  // ---------------------------------------------------------------------------

  datatype HeadRead = HeadRead(entries: seq<Entry>, count: nat)

  /** A bare array, a wrapped first shard, or anything else read as empty. */
  function HeadOf(v: Option<EkvValue>): HeadRead {
    match v
    case Some(Bare(es)) => HeadRead(es, 1)
    case Some(Head(n, es)) => HeadRead(es, if n > 1 then n else 1)
    case _ => HeadRead([], 1)
  }

  function ReadHead(items: Items, host: string): HeadRead {
    HeadOf(Item(items, Shard(host, 0)))
  }

  /** Shards `s` up to `n`; a missing or unreadable one contributes nothing. */
  function ReadShards(items: Items, down: set<EkvKey>, host: string, s: nat, n: nat): seq<Entry>
    decreases n - s
  {
    if s >= n then [] else
    var k := Shard(host, s);
    var more := if k !in down && k in items && items[k].Bare? then items[k].entries else [];
    more + ReadShards(items, down, host, s + 1, n)
  }

  /** The entries the EdgeWorker sees when the items in `down` cannot be read. */
  function ReadManifest(items: Items, down: set<EkvKey>, host: string): seq<Entry> {
    var head := ReadHead(items, host);
    head.entries + ReadShards(items, down, host, 1, head.count)
  }

  // ---------------------------------------------------------------------------
  // Round trip
  // ---------------------------------------------------------------------------

  /** A multi-shard manifest is cut into non-empty chunks within the limit. */
  lemma ChunksPartition(m: seq<Entry>, s: nat)
    requires s < ShardCount(|m|)
    ensures 0 < |Chunk(m, s)| <= PREFIX_SHARD_LIMIT
    ensures Chunk(m, s) + m[ShardStart(m, s + 1)..] == m[ShardStart(m, s)..]
    ensures ShardStart(m, 0) == 0 && ShardStart(m, ShardCount(|m|)) == |m|
  {
  }

  lemma {:induction false} PutShardsWrites(e: Edge, net: Net, host: string, m: seq<Entry>, s: nat)
    ensures var t := PutShards(e, net, host, m, s);
      && (forall k: EkvKey :: !(k.Shard? && k.host == host && s <= k.n) ==> Item(t.edge.items, k) == Item(e.items, k))
      && (t.ok ==> forall i :: s <= i < ShardCount(|m|) ==>
           Item(t.edge.items, Shard(host, i)) == Some(ShardBody(m, i)))
    decreases ShardCount(|m|) - s
  {
    if s < ShardCount(|m|) {
      var t := Put(e, net, Shard(host, s), ShardBody(m, s));
      if t.ok {
        PutShardsWrites(t.edge, net, host, m, s + 1);
      }
    }
  }

  lemma {:induction false} ReadWrittenShards(items: Items, host: string, m: seq<Entry>, s: nat)
    requires 1 <= s <= ShardCount(|m|)
    requires forall i :: s <= i < ShardCount(|m|) ==> Item(items, Shard(host, i)) == Some(ShardBody(m, i))
    ensures ReadShards(items, {}, host, s, ShardCount(|m|)) == m[ShardStart(m, s)..]
    decreases ShardCount(|m|) - s
  {
    if s < ShardCount(|m|) {
      ReadWrittenShards(items, host, m, s + 1);
      ChunksPartition(m, s);
      assert Item(items, Shard(host, s)) == Some(ShardBody(m, s));
    }
  }

  /** Whatever EdgeKV held before, orphan shards of a larger manifest included, a
      push that reports success leaves the EdgeWorker reading exactly the pushed
      manifest; and no push, failed or not, touches anything else. */
  lemma PushRoundTrip(e: Edge, net: Net, host: string, m: seq<Entry>)
    ensures var t := PushPrefixes(e, net, host, m);
      && (t.ok ==> ReadManifest(t.edge.items, {}, host) == m)
      && (forall k: EkvKey :: !(k.Shard? && k.host == host) ==> Item(t.edge.items, k) == Item(e.items, k))
  {
    var t := PushPrefixes(e, net, host, m);
    if |m| <= PREFIX_SHARD_LIMIT {
      assert t.ok ==> ReadHead(t.edge.items, host) == HeadRead(m, 1);
      assert t.ok ==> ReadShards(t.edge.items, {}, host, 1, 1) == [];
    } else {
      PutShardsWrites(e, net, host, m, 0);
      if t.ok {
        var items := t.edge.items;
        assert Item(items, Shard(host, 0)) == Some(ShardBody(m, 0));
        ReadWrittenShards(items, host, m, 1);
        ChunksPartition(m, 0);
      }
    }
  }

  /** What a push writes: up to 2500 entries one bare array; otherwise the count of
      shards with the first 2500 entries, and an array of the next 2500, or of those
      left, in every further one. */
  lemma PushLayout(e: Edge, net: Net, host: string, m: seq<Entry>)
    requires PushPrefixes(e, net, host, m).ok
    ensures var items := PushPrefixes(e, net, host, m).edge.items;
      var n := if |m| % 2500 == 0 then |m| / 2500 else |m| / 2500 + 1;
      && (|m| <= 2500 ==> Item(items, Shard(host, 0)) == Some(Bare(m)))
      && (|m| > 2500 ==> Item(items, Shard(host, 0)) == Some(Head(n, m[..2500])))
      && (forall i :: 1 <= i < n && i < |m| / 2500 ==> Item(items, Shard(host, i)) == Some(Bare(m[2500 * i..2500 * i + 2500])))
      && (n > 1 && |m| % 2500 != 0 ==> Item(items, Shard(host, n - 1)) == Some(Bare(m[2500 * (n - 1)..])))
  {
    if |m| > 2500 {
      PutShardsWrites(e, net, host, m, 0);
      var n := if |m| % 2500 == 0 then |m| / 2500 else |m| / 2500 + 1;
      assert ShardCount(|m|) == n;
      assert ShardBody(m, 0) == Head(n, m[..2500]);
      forall i | 1 <= i < n && i < |m| / 2500 ensures ShardBody(m, i) == Bare(m[2500 * i..2500 * i + 2500]) {
      }
      assert |m| % 2500 != 0 ==> ShardBody(m, n - 1) == Bare(m[2500 * (n - 1)..]);
    }
  }

  /** A multi-shard push sends its shards in turn and stops after the first request
      that is not acknowledged. */
  lemma {:induction false} PushStops(e: Edge, net: Net, host: string, m: seq<Entry>, s: nat, j: nat)
    requires s <= j < ShardCount(|m|)
    requires forall x: nat :: e.ops <= x < e.ops + j - s ==> net(x).Acked?
    requires !net(e.ops + j - s).Acked?
    ensures var t := PutShards(e, net, host, m, s);
      && !t.ok && t.edge.ops == e.ops + j - s + 1
      && (forall i :: s <= i < j ==> Item(t.edge.items, Shard(host, i)) == Some(ShardBody(m, i)))
      && (forall i: nat :: i < s || i > j ==> Item(t.edge.items, Shard(host, i)) == Item(e.items, Shard(host, i)))
    decreases j - s
  {
    if s < j {
      var t := Put(e, net, Shard(host, s), ShardBody(m, s));
      PushStops(t.edge, net, host, m, s + 1, j);
    }
  }

  /** Removing a host's items: its sentinel, and then its first 32 shards, whatever
      becomes of the single requests; with every request answered they are gone,
      and nothing else is touched. */
  lemma RemoveHostRemoves(e: Edge, net: Net, host: string, k: EkvKey)
    ensures var t := RemoveHost(e, net, host);
      && (k.host != host || k.ExactItem? || (k.Shard? && k.n >= 32) ==> Item(t.edge.items, k) == Item(e.items, k))
      && (Faultless(net) ==> t.ok)
      && (Faultless(net) && k.host == host && (k.Sentinel? || (k.Shard? && k.n < 32)) ==> k !in t.edge.items)
  {
    var t := Remove(e, net, Sentinel(host));
    if t.ok {
      ShardsGo(t.edge, net, host, 0, 32, k);
    }
  }

  lemma {:induction false} ShardsGo(e: Edge, net: Net, host: string, from: nat, to: nat, k: EkvKey)
    ensures var items := RemoveShards(e, net, host, from, to).items;
      && (!(k.Shard? && k.host == host && from <= k.n < to) ==> Item(items, k) == Item(e.items, k))
      && (k !in e.items ==> k !in items)
      && (Faultless(net) && k.Shard? && k.host == host && from <= k.n < to ==> k !in items)
    decreases if from < to then to - from else 0
  {
    if from < to {
      ShardsGo(Remove(e, net, Shard(host, from)).edge, net, host, from + 1, to, k);
    }
  }

  /** Only the shards of a host decide what is read as its manifest. */
  lemma {:induction false} ReadShardsFrame(a: Items, b: Items, down: set<EkvKey>, host: string, s: nat, n: nat)
    requires forall i: nat :: Item(a, Shard(host, i)) == Item(b, Shard(host, i))
    ensures ReadShards(a, down, host, s, n) == ReadShards(b, down, host, s, n)
    decreases n - s
  {
    if s < n {
      assert Item(a, Shard(host, s)) == Item(b, Shard(host, s));
      ReadShardsFrame(a, b, down, host, s + 1, n);
    }
  }

  lemma ReadManifestFrame(a: Items, b: Items, down: set<EkvKey>, host: string)
    requires forall i: nat :: Item(a, Shard(host, i)) == Item(b, Shard(host, i))
    ensures ReadManifest(a, down, host) == ReadManifest(b, down, host)
  {
    assert Item(a, Shard(host, 0)) == Item(b, Shard(host, 0));
    ReadShardsFrame(a, b, down, host, 1, ReadHead(a, host).count);
  }

  /** Without failures a push succeeds. */
  lemma {:induction false} FaultlessShards(e: Edge, net: Net, host: string, m: seq<Entry>, s: nat)
    requires Faultless(net)
    ensures PutShards(e, net, host, m, s).ok
    decreases ShardCount(|m|) - s
  {
    if s < ShardCount(|m|) {
      FaultlessShards(Put(e, net, Shard(host, s), ShardBody(m, s)).edge, net, host, m, s + 1);
    }
  }

  // ---------------------------------------------------------------------------
  // Degraded reads
  // ---------------------------------------------------------------------------

  /** Losing shards loses entries but neither invents nor reorders any. */
  lemma {:induction false} DegradedShards(items: Items, down: set<EkvKey>, host: string, s: nat, n: nat)
    requires LongestFirst(ReadShards(items, {}, host, s, n))
    ensures LongestFirst(ReadShards(items, down, host, s, n))
    ensures forall x :: x in ReadShards(items, down, host, s, n) ==> x in ReadShards(items, {}, host, s, n)
    decreases n - s
  {
    if s < n {
      var k := Shard(host, s);
      var more := if k in items && items[k].Bare? then items[k].entries else [];
      var full, part := ReadShards(items, {}, host, s + 1, n), ReadShards(items, down, host, s + 1, n);
      LongestFirstSplits(more, full);
      DegradedShards(items, down, host, s + 1, n);
      LongestFirstJoins(more, full, part);
    }
  }

  lemma LongestFirstSplits(a: seq<Entry>, b: seq<Entry>)
    requires LongestFirst(a + b)
    ensures LongestFirst(a) && LongestFirst(b)
    ensures forall x, y :: x in a && y in b ==> Precedes(x.p, y.p)
  {
    var s := a + b;
    forall i, j | 0 <= i < j < |a| ensures Precedes(a[i].p, a[j].p) {
      assert s[i] == a[i] && s[j] == a[j];
    }
    forall i, j | 0 <= i < j < |b| ensures Precedes(b[i].p, b[j].p) {
      assert s[|a| + i] == b[i] && s[|a| + j] == b[j];
    }
    forall x, y | x in a && y in b ensures Precedes(x.p, y.p) {
      var i :| 0 <= i < |a| && a[i] == x;
      var j :| 0 <= j < |b| && b[j] == y;
      assert s[i] == x && s[|a| + j] == y;
    }
  }

  lemma LongestFirstJoins(a: seq<Entry>, b: seq<Entry>, c: seq<Entry>)
    requires LongestFirst(a) && LongestFirst(c)
    requires forall x, y :: x in a && y in b ==> Precedes(x.p, y.p)
    requires forall y :: y in c ==> y in b
    ensures LongestFirst(a + c)
  {
  }

  /** Losing any of the later shards, the scan still answers with a listed entry
      that matches, never longer than the true longest match; and it answers with
      the true one unless the shard holding it is the one that was lost. */
  lemma DegradedScan(items: Items, down: set<EkvKey>, host: string, path: string)
    requires LongestFirst(ReadManifest(items, {}, host))
    ensures var full, part := ReadManifest(items, {}, host), ReadManifest(items, down, host);
      var best, got := FirstMatch(full, path), FirstMatch(part, path);
      && (got.Some? ==> got.value in full && Matches(got.value.p, path))
      && (got.Some? ==> best.Some? && |got.value.p| <= |best.value.p|)
      && (best.Some? && best.value in part ==> got == best)
  {
    var head := ReadHead(items, host);
    var full, part := ReadManifest(items, {}, host), ReadManifest(items, down, host);
    var rest := ReadShards(items, {}, host, 1, head.count);
    LongestFirstSplits(head.entries, rest);
    DegradedShards(items, down, host, 1, head.count);
    LongestFirstJoins(head.entries, rest, ReadShards(items, down, host, 1, head.count));
    FirstMatchIsLongest(full, path);
    FirstMatchIsLongest(part, path);
    var best, got := FirstMatch(full, path), FirstMatch(part, path);
    if best.Some? && best.value in part {
      MatchesOfEqualLength(best.value.p, got.value.p, path);
      SamePathSameEntry(full, best.value, got.value);
    }
  }

  lemma SamePathSameEntry(es: seq<Entry>, a: Entry, b: Entry)
    requires LongestFirst(es) && a in es && b in es && a.p == b.p
    ensures a == b
  {
    var i :| 0 <= i < |es| && es[i] == a;
    var j :| 0 <= j < |es| && es[j] == b;
    PrecedesIrreflexive(a.p);
  }
}
