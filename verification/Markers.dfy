/** What one announcement does to its marker and to nothing else. */
module Markers {
  import opened Text
  import opened EdgeStore
  import opened Keys
  import opened Listings
  import opened Protocol
  import opened Accounting
  import opened Model
  import opened EkvKeys
  import opened Handlers
  import opened Mutations

  ghost predicate OnlyMarker(a: Pending, b: Pending, t: Target) {
    forall x :: x != t ==> (x in a <==> x in b) && (x in a ==> a[x] == b[x])
  }

  /** With `?async=1`, or without credentials, the marker is queued anew, no request
      is sent, and nothing else changes. */
  lemma QueuedIs(s: State, net: Net, async: bool, t: Target)
    requires async || !s.configured
    ensures var s' := Notify(s, net, async, t);
      && s'.kv == s.kv && s'.edge == s.edge
      && t in s'.pending && s'.pending[t].queuedAt == s.now && s'.pending[t].attempts == 0
      && OnlyMarker(s.pending, s'.pending, t)
  {
  }

  /** Otherwise the push is tried: acknowledged, its marker is gone; if not, the
      marker counts one attempt more and keeps its time, or is queued now with one
      attempt if there was none. */
  lemma TriedIs(s: State, net: Net, t: Target)
    requires s.configured
    ensures var s', tried := Notify(s, net, false, t), Attempt(s.kv, s.edge, net, ForMarker(t));
      && s'.kv == s.kv && s'.edge == tried.edge && OnlyMarker(s.pending, s'.pending, t)
      && (tried.ok ==> t !in s'.pending)
      && (!tried.ok ==>
           && t in s'.pending
           && s'.pending[t].queuedAt == (if t in s.pending then s.pending[t].queuedAt else s.now)
           && s'.pending[t].attempts == (if t in s.pending then s.pending[t].attempts else 0) + 1)
  {
    DropAllEffect(s.pending, [t]);
    assert [t][1..] == [];
    assert BumpAll(s.pending, [t], s.now) == Bump(s.pending, t, s.now);
  }

  /** A marker that cannot be read is never served: it stays in the queue. */
  lemma UnreadableStays(s: State, net: Net, taken: seq<Target>, t: Target)
    requires Distinct(taken) && (forall x :: x in taken ==> x in s.pending) && t in taken
    requires t.Unknown? || t.BadDelete?
    ensures t in Drain(s, net, taken).s.pending
  {
    var js := Jobs(SortedAll(taken));
    DrainRemovesIff(s, net, taken, t);
    var i :| 0 <= i < |js| && t in js[i].targets;
    UnreadableJob(taken, i, t);
  }

  /** Its job is the retry of that marker. */
  lemma UnreadableJob(taken: seq<Target>, i: nat, t: Target)
    requires i < |Jobs(SortedAll(taken))| && t in Jobs(SortedAll(taken))[i].targets
    requires t.Unknown? || t.BadDelete?
    ensures Jobs(SortedAll(taken))[i].work == ForMarker(t)
  {
    GroupsAreReadable(taken);
    JobShape(SortedAll(taken), i);
  }

  /** A job retries its only marker, or serves markers that can be read. */
  lemma JobShape(b: Buckets, i: nat)
    requires Readable(b.prefix) && Readable(b.meta) && i < |Jobs(b)|
    ensures var j := Jobs(b)[i];
      (exists x :: j == Job([x], ForMarker(x))) || (forall t :: t in j.targets ==> t.PushRule? || t.PushHost?)
  {
    var e, p, m, d := |b.exact|, |b.prefix|, |b.meta|, |b.deletes|;
    if i < e {
      assert Jobs(b)[i] == Job([b.exact[i]], ForMarker(b.exact[i]));
    } else if i < e + p {
      assert Jobs(b)[i].targets == b.prefix[i - e].targets && b.prefix[i - e] in b.prefix;
    } else if i < e + p + m {
      assert Jobs(b)[i].targets == b.meta[i - e - p].targets && b.meta[i - e - p] in b.meta;
    } else if i < e + p + m + d {
      assert Jobs(b)[i] == Job([b.deletes[i - e - p - m]], ForMarker(b.deletes[i - e - p - m]));
    } else {
      var x := b.unknown[i - e - p - m - d];
      assert Jobs(b)[i] == Job([x], ForMarker(x));
    }
  }

  ghost predicate Readable(gs: seq<Group>) {
    forall g :: g in gs ==> forall t :: t in g.targets ==> t.PushRule? || t.PushHost?
  }

  lemma {:induction false} GroupStaysReadable(gs: seq<Group>, host: string, t: Target)
    requires Readable(gs) && (t.PushRule? || t.PushHost?)
    ensures Readable(AddTo(gs, host, t))
  {
    if gs != [] {
      assert gs[0] in gs;
      GroupStaysReadable(gs[1..], host, t);
    }
  }

  lemma {:induction false} GroupsAreReadable(taken: seq<Target>)
    ensures Readable(SortedAll(taken).prefix) && Readable(SortedAll(taken).meta)
  {
    if taken != [] {
      var init, t := taken[..|taken| - 1], taken[|taken| - 1];
      GroupsAreReadable(init);
      match t {
        case PushRule(k) => GroupStaysReadable(SortedAll(init).prefix, k.host, t);
        case PushHost(h) => GroupStaysReadable(SortedAll(init).meta, h, t);
        case _ =>
      }
    }
  }

  // ---------------------------------------------------------------------------
  // Hosts that are gone
  // ---------------------------------------------------------------------------

  /** A push for a host without a record, as a marker for its removal, takes its
      sentinel and its first 32 shards out of EdgeKV. */
  lemma GoneHostIsRemoved(s: State, net: Net, host: string, n: nat)
    requires Faultless(net)
    ensures var gone := Attempt(s.kv, s.edge, net, ForMarker(DeleteHost(host)));
      gone.ok && Sentinel(host) !in gone.edge.items && (n < 32 ==> Shard(host, n) !in gone.edge.items)
    ensures host !in s.kv.hosts ==>
      Attempt(s.kv, s.edge, net, ForMarker(PushHost(host))) == Attempt(s.kv, s.edge, net, ForMarker(DeleteHost(host)))
  {
    RemoveHostRemoves(s.edge, net, host, Sentinel(host));
    RemoveHostRemoves(s.edge, net, host, Shard(host, n));
  }

  // ---------------------------------------------------------------------------
  // One job for a host
  // ---------------------------------------------------------------------------

  /** A BTreeMap as a list: hosts in byte order, each once. */
  ghost predicate HostsInOrder(gs: seq<Group>) {
    forall i, j :: 0 <= i < j < |gs| ==> StringLess(gs[i].host, gs[j].host)
  }

  lemma {:induction false} AddKeepsOrder(gs: seq<Group>, host: string, t: Target)
    requires HostsInOrder(gs)
    ensures HostsInOrder(AddTo(gs, host, t))
    ensures forall g :: g in AddTo(gs, host, t) ==> g.host == host || exists f :: f in gs && f.host == g.host
  {
    if gs != [] && gs[0].host != host {
      var tail := gs[1..];
      assert forall i :: 0 <= i < |tail| ==> tail[i] == gs[i + 1];
      if StringLess(host, gs[0].host) {
        NewFirst(gs, host, t);
      } else {
        OtherHostsLess(gs[0].host, host);
        AddKeepsOrder(tail, host, t);
        HeadStaysFirst(gs[0], AddTo(tail, host, t), tail, host);
      }
    }
  }

  lemma OtherHostsLess(a: string, b: string)
    requires a != b && !StringLess(b, a)
    ensures StringLess(a, b)
  {
    BytesLessTotal(Utf8(a), Utf8(b));
    if Utf8(a) == Utf8(b) {
      Utf8Injective(a, b);
    }
  }

  lemma NewFirst(gs: seq<Group>, host: string, t: Target)
    requires HostsInOrder(gs) && gs != [] && StringLess(host, gs[0].host)
    ensures HostsInOrder([Group(host, [t])] + gs)
  {
    forall j | 0 < j < |gs| ensures StringLess(host, gs[j].host) {
      BytesLessTransitive(Utf8(host), Utf8(gs[0].host), Utf8(gs[j].host));
    }
  }

  lemma HeadStaysFirst(first: Group, gs: seq<Group>, tail: seq<Group>, host: string)
    requires HostsInOrder(gs) && StringLess(first.host, host)
    requires forall f :: f in tail ==> StringLess(first.host, f.host)
    requires forall g :: g in gs ==> g.host == host || exists f :: f in tail && f.host == g.host
    ensures HostsInOrder([first] + gs)
  {
    forall j | 0 <= j < |gs| ensures StringLess(first.host, gs[j].host) {
      assert gs[j] in gs;
    }
  }

  /** A drain pushes each manifest and each host record once, in byte order of the
      hosts, however many of their markers it takes. */
  lemma {:induction false} OneJobPerHost(taken: seq<Target>)
    ensures HostsInOrder(SortedAll(taken).prefix) && HostsInOrder(SortedAll(taken).meta)
  {
    if taken != [] {
      var init, t := taken[..|taken| - 1], taken[|taken| - 1];
      OneJobPerHost(init);
      match t {
        case PushRule(k) => AddKeepsOrder(SortedAll(init).prefix, k.host, t);
        case PushHost(h) => AddKeepsOrder(SortedAll(init).meta, h, t);
        case _ =>
      }
    }
  }

  // ---------------------------------------------------------------------------
  // The order of requests
  // ---------------------------------------------------------------------------

  /** The push of a host record is one request. */
  lemma HostPushIs(s: State, net: Net, host: string)
    requires s.configured && host in s.kv.hosts
    ensures var s' := Notify(s, net, false, PushHost(host));
      && s'.kv == s.kv && s'.configured && s'.edge.ops == s.edge.ops + 1
      && (PushHost(host) in s'.pending <==> !net(s.edge.ops).Acked?)
      && OnlyMarker(s.pending, s'.pending, PushHost(host))
  {
    TriedIs(s, net, PushHost(host));
  }

  /** The push, or the deletion, of an exact rule is one request. */
  lemma ExactPushIs(s: State, net: Net, t: Target)
    requires s.configured && (t.PushRule? || t.DeleteRule?) && t.key.matchType == Exact
    requires t.PushRule? ==> t.key in s.kv.rules
    ensures var s' := Notify(s, net, false, t);
      && s'.kv == s.kv && s'.configured && s'.edge.ops == s.edge.ops + 1
      && (t in s'.pending <==> !net(s.edge.ops).Acked?)
      && OnlyMarker(s.pending, s'.pending, t)
  {
    TriedIs(s, net, t);
  }

  /** A create sends the rule, then the host: the next request but one is the
      host's. */
  lemma {:induction false} CreateRequests(s: State, net: Net, body: Redirect)
    requires s.configured && body.matchType == Exact && Create(s, net, body, false).status == 201
    ensures var s', k := Create(s, net, body, false).s, KeyOf(Admitted(s.kv, body));
      && s'.edge.ops == s.edge.ops + 2
      && (PushRule(k) in s'.pending <==> !net(s.edge.ops).Acked?)
      && (PushHost(k.host) in s'.pending <==> !net(s.edge.ops + 1).Acked?)
  {
    var r := Admitted(s.kv, body);
    var s1 := Stored(WithHosts(s, ApplyCi(s.kv.hosts, Normalized(body)).hosts), r);
    ExactPushIs(s1, net, PushRule(KeyOf(r)));
    HostPushIs(Notify(s1, net, false, PushRule(KeyOf(r))), net, r.host);
  }

  /** So does a delete. */
  lemma {:induction false} DeleteRequests(s: State, net: Net, url: Url)
    requires s.configured && Delete(s, net, url, false).status == 200 && ParseUrl(url).value.matchType == Exact
    ensures var s', k := Delete(s, net, url, false).s, ParseUrl(url).value;
      && s'.edge.ops == s.edge.ops + 2
      && (DeleteRule(k) in s'.pending <==> !net(s.edge.ops).Acked?)
      && (PushHost(k.host) in s'.pending <==> !net(s.edge.ops + 1).Acked?)
  {
    var k := ParseUrl(url).value;
    ExactPushIs(Removed(s, k), net, DeleteRule(k));
    HostPushIs(Notify(Removed(s, k), net, false, DeleteRule(k)), net, k.host);
  }

  /** The hosts an import touched are pushed one request each, in their order. */
  lemma {:induction false} HostsArePushedInTurn(s: State, net: Net, hs: seq<string>)
    requires s.configured && Distinct(hs) && forall h :: h in hs ==> h in s.kv.hosts
    ensures var s' := PushHosts(s, net, false, hs);
      && s'.kv == s.kv && s'.configured && s'.edge.ops == s.edge.ops + |hs|
      && forall i :: 0 <= i < |hs| ==> (PushHost(hs[i]) in s'.pending <==> !net(s.edge.ops + i).Acked?)
  {
    if hs != [] {
      var init, h := hs[..|hs| - 1], hs[|hs| - 1];
      assert hs == init + [h];
      HostsArePushedInTurn(s, net, init);
      HostPushIs(PushHosts(s, net, false, init), net, h);
      assert forall i :: 0 <= i < |init| ==> hs[i] == init[i] && hs[i] != h;
    }
  }
}
