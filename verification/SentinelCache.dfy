/** How stale the memoised host record of an EdgeWorker can be. */
module SentinelCache {
  import opened Text
  import opened EkvKeys
  import opened Names
  import opened EdgeWorker
  import opened Refinement

  /** EdgeKV over time, in milliseconds; it may change at any moment. */
  type Timeline = nat -> NamedItems

  datatype Visit = Visit(host: string, at: nat, down: set<string>)

  ghost predicate ClockNeverGoesBack(visits: seq<Visit>) {
    forall i, j :: 0 <= i < j < |visits| ==> visits[i].at <= visits[j].at
  }

  /** The cache of one worker instance after a number of requests. */
  ghost function CacheAfter(world: Timeline, visits: seq<Visit>): Cache {
    if visits == [] then map[] else
    var v := visits[|visits| - 1];
    LookUpHost(CacheAfter(world, visits[..|visits| - 1]), world(v.at), v.down, v.host, v.at).cache
  }

  /** Every cached record was EdgeKV's value when its lifetime began. */
  ghost predicate IsFresh(world: Timeline, cache: Cache, now: nat) {
    forall h :: h in cache ==> exists t: nat :: t <= now && WasRead(world, cache[h], h, t)
  }

  ghost predicate WasRead(world: Timeline, c: Cached, host: string, t: nat) {
    c.expMs == t + HOST_SENTINEL_TTL_MS && c.meta == ReadHost(world(t), host)
  }

  lemma {:induction false} CacheStaysFresh(world: Timeline, visits: seq<Visit>, now: nat)
    requires ClockNeverGoesBack(visits)
    requires visits != [] ==> visits[|visits| - 1].at <= now
    ensures IsFresh(world, CacheAfter(world, visits), now)
  {
    if visits != [] {
      var n := |visits| - 1;
      var init, v := visits[..n], visits[n];
      CacheStaysFresh(world, init, v.at);
      var before, after := CacheAfter(world, init), CacheAfter(world, visits);
      forall h | h in after ensures exists t: nat :: t <= now && WasRead(world, after[h], h, t) {
        if h in before && after[h] == before[h] {
          var t: nat :| t <= v.at && WasRead(world, before[h], h, t);
          assert t <= now && WasRead(world, after[h], h, t);
        } else {
          assert WasRead(world, after[h], h, v.at);
        }
      }
    }
  }

  /** The host record a request is answered by was EdgeKV's own at some moment at
      or before the request and less than five minutes earlier, unless the
      sentinel could not be read, in which case none is used. */
  lemma StalenessBound(world: Timeline, visits: seq<Visit>)
    requires visits != [] && ClockNeverGoesBack(visits)
    ensures var v := visits[|visits| - 1];
      var l := LookUpHost(CacheAfter(world, visits[..|visits| - 1]), world(v.at), v.down, v.host, v.at);
      l.failed || exists t: nat :: t <= v.at && v.at - t < 300000 && l.meta == ReadHost(world(t), v.host)
  {
    var n := |visits| - 1;
    var v := visits[n];
    var cache := CacheAfter(world, visits[..n]);
    CacheStaysFresh(world, visits[..n], v.at);
    var l := LookUpHost(cache, world(v.at), v.down, v.host, v.at);
    if v.host in cache && cache[v.host].expMs > v.at {
      var t: nat :| t <= v.at && WasRead(world, cache[v.host], v.host, t);
      assert v.at - t < 300000 && l.meta == ReadHost(world(t), v.host);
    } else if !l.failed {
      assert v.at - v.at < 300000 && l.meta == ReadHost(world(v.at), v.host);
    }
  }

  /** A record that has not changed for five minutes is the one in use. */
  lemma SettledRecordIsUsed(world: Timeline, visits: seq<Visit>)
    requires visits != [] && ClockNeverGoesBack(visits)
    requires var v := visits[|visits| - 1];
      forall t: nat :: t <= v.at && v.at - t < 300000 ==> ReadHost(world(t), v.host) == ReadHost(world(v.at), v.host)
    ensures var v := visits[|visits| - 1];
      var l := LookUpHost(CacheAfter(world, visits[..|visits| - 1]), world(v.at), v.down, v.host, v.at);
      l.failed || l.meta == ReadHost(world(v.at), v.host)
  {
    StalenessBound(world, visits);
  }

  /** So once a host's record has been settled for five minutes, a worker with
      any history answers its requests as one that caches nothing. */
  lemma SettledAnswerIsFresh(world: Timeline, visits: seq<Visit>, path: string, query: string)
    requires visits != [] && ClockNeverGoesBack(visits)
    requires var v := visits[|visits| - 1];
      && v.down == {}
      && forall t: nat :: t <= v.at && v.at - t < 300000 ==> ReadHost(world(t), v.host) == ReadHost(world(v.at), v.host)
    ensures var v := visits[|visits| - 1];
      var l := LookUpHost(CacheAfter(world, visits[..|visits| - 1]), world(v.at), v.down, v.host, v.at);
      Answered(world(v.at), v.down, l.failed, l.meta, v.host, path, query) == FreshAnswer(world(v.at), v.host, path, query)
  {
    SettledRecordIsUsed(world, visits);
  }

  /** A record that was read is used for five minutes, whatever becomes of EdgeKV,
      and read again after that. */
  lemma RecordIsKept(cache: Cache, named: NamedItems, down: set<string>, host: string, at: nat,
                     named': NamedItems, down': set<string>, later: nat)
    requires host !in cache || cache[host].expMs <= at
    requires JsName(Sentinel(host)) !in down && at <= later
    ensures var l := LookUpHost(cache, named, down, host, at);
      var l' := LookUpHost(l.cache, named', down', host, later);
      && !l.failed && l.meta == ReadHost(named, host)
      && (later - at < 300000 ==> l' == HostLookup(l.cache, false, l.meta))
      && (later - at >= 300000 && JsName(Sentinel(host)) !in down' ==> !l'.failed && l'.meta == ReadHost(named', host))
      && (later - at >= 300000 && JsName(Sentinel(host)) in down' ==> l' == HostLookup(l.cache, true, None))
  {
  }
}
