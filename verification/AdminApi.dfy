/** The request handlers of admin-api/src/handlers.rs, run against the stores. */
module AdminApi {
  import opened Text
  import opened Paths
  import opened Model
  import opened EdgeStore
  import opened Keys
  import opened Listings
  import opened Protocol
  import opened Handlers
  import opened Sync

  method FoldCase(b: Backend, r: Redirect) returns (folded: Redirect, changed: bool)
    modifies b`hosts
    ensures Folded(b.hosts, folded) == ApplyCi(old(b.hosts), r)
    ensures changed == Flips(old(b.hosts), r)
  {
    var meta := if r.host in b.hosts then b.hosts[r.host] else NewHost(r.host);
    changed := false;
    if r.caseInsensitive && meta.caseSensitive {
      meta := meta.(caseSensitive := false);
      b.hosts := b.hosts[r.host := meta];
      changed := true;
    }
    folded := r.(caseInsensitive := false);
    if !meta.caseSensitive {
      folded := folded.(path := Lower(folded.path));
    }
  }

  method EnsureHostMeta(b: Backend, host: string, delta: int)
    requires delta == 1 || delta == -1
    modifies b`hosts
    ensures b.hosts == if delta == 1 then CountUp(old(b.hosts), host) else CountDown(old(b.hosts), host)
  {
    var meta := if host in b.hosts then b.hosts[host] else NewHost(host);
    if delta >= 0 {
      meta := meta.(ruleCount := SaturatingAdd(meta.ruleCount, delta));
    } else {
      meta := meta.(ruleCount := SaturatingSub(meta.ruleCount, -delta));
    }
    b.hosts := b.hosts[host := meta];
  }

  method NormalizeRule(body: Redirect) returns (r: Redirect)
    ensures r == Normalized(body)
  {
    var path := NormalizePath(body.path);
    r := body.(host := NormalizeHost(body.host), path := path);
  }

  method AnnounceRule(b: Backend, e: EdgeKv, async: bool, k: RuleKey)
    requires Coherent(b.rules)
    modifies b`pending, e`items, e`ops
    ensures View(b, e) == Notify(old(View(b, e)), e.net, async, PushRule(k))
  {
    if async {
      QueueMarker(b, PushRule(k));
    } else {
      PushRuleInline(b, e, k);
    }
  }

  method AnnounceHost(b: Backend, e: EdgeKv, async: bool, host: string)
    modifies b`pending, e`items, e`ops
    ensures View(b, e) == Notify(old(View(b, e)), e.net, async, PushHost(host))
  {
    if async {
      QueueMarker(b, PushHost(host));
    } else {
      PushHostInline(b, e, host);
    }
  }

  method AnnounceDelete(b: Backend, e: EdgeKv, async: bool, k: RuleKey)
    requires Coherent(b.rules)
    modifies b`pending, e`items, e`ops
    ensures View(b, e) == Notify(old(View(b, e)), e.net, async, DeleteRule(k))
  {
    if async {
      QueueMarker(b, DeleteRule(k));
    } else {
      PushDeleteRuleInline(b, e, k);
    }
  }

  /** Stores, counts and announces a rule under a new key. */
  method AddRule(b: Backend, e: EdgeKv, r: Redirect, async: bool)
    requires Coherent(b.rules)
    modifies b, e`items, e`ops
    ensures View(b, e) == Notify(Handlers.Stored(old(View(b, e)), r), e.net, async, PushRule(KeyOf(r)))
    ensures Coherent(b.rules)
  {
    b.rules := b.rules[KeyOf(r) := r];
    EnsureHostMeta(b, r.host, 1);
    AnnounceRule(b, e, async, KeyOf(r));
  }

  /** Stores and announces a rule under a key it already had. */
  method OverwriteRule(b: Backend, e: EdgeKv, r: Redirect, async: bool)
    requires Coherent(b.rules)
    modifies b, e`items, e`ops
    ensures View(b, e) == Notify(Replaced(old(View(b, e)), r), e.net, async, PushRule(KeyOf(r)))
    ensures Coherent(b.rules)
  {
    b.rules := b.rules[KeyOf(r) := r];
    AnnounceRule(b, e, async, KeyOf(r));
  }

  method CreateRule(b: Backend, e: EdgeKv, body: Redirect, async: bool) returns (status: nat)
    requires Coherent(b.rules)
    modifies b, e`items, e`ops
    ensures Reply(View(b, e), status) == Create(old(View(b, e)), e.net, body, async)
    ensures Coherent(b.rules)
  {
    if !IsValid(body) {
      return 400;
    }
    var r := NormalizeRule(body);
    var flipped;
    r, flipped := FoldCase(b, r);
    var key := KeyOf(r);
    if key in b.rules {
      return 409;
    }
    AddRule(b, e, r, async);
    AnnounceHost(b, e, async, r.host);
    status := 201;
  }

  method UpdateRule(b: Backend, e: EdgeKv, url: Url, body: Redirect, async: bool) returns (status: nat)
    requires Coherent(b.rules)
    modifies b, e`items, e`ops
    ensures Reply(View(b, e), status) == Update(old(View(b, e)), e.net, url, body, async)
    ensures Coherent(b.rules)
  {
    var parsed := ParseUrl(url);
    if parsed.None? || !IsValid(body) {
      return 400;
    }
    var patch := NormalizeRule(body);
    patch := patch.(caseInsensitive := false);
    var wanted := parsed.value;
    if patch.host != wanted.host || patch.matchType != wanted.matchType || patch.path != wanted.path {
      return 400;
    }
    status := ReplaceRule(b, e, patch, async);
  }

  /** The second half of an update, once body and URL are known to agree. */
  method ReplaceRule(b: Backend, e: EdgeKv, patch: Redirect, async: bool) returns (status: nat)
    requires Coherent(b.rules)
    modifies b, e`items, e`ops
    ensures Coherent(b.rules)
    ensures Reply(View(b, e), status) == ReplaceFolded(old(View(b, e)), e.net, patch, async)
  {
    var r, flipped := FoldCase(b, patch);
    var key := RuleKey(patch.host, patch.matchType, r.path);
    if key !in b.rules {
      return 404;
    }
    OverwriteRule(b, e, r, async);
    status := 200;
  }

  method DeleteOne(b: Backend, e: EdgeKv, url: Url, async: bool) returns (status: nat)
    requires Coherent(b.rules)
    modifies b, e`items, e`ops
    ensures Reply(View(b, e), status) == Delete(old(View(b, e)), e.net, url, async)
    ensures Coherent(b.rules)
  {
    var parsed := ParseUrl(url);
    if parsed.None? {
      return 400;
    }
    var key := parsed.value;
    if key !in b.rules {
      return 404;
    }
    b.rules := b.rules - {key};
    EnsureHostMeta(b, key.host, -1);
    AnnounceDelete(b, e, async, key);
    AnnounceHost(b, e, async, key.host);
    status := 200;
  }

  method PutHost(b: Backend, e: EdgeKv, rawHost: string, body: HostMeta, async: bool) returns (status: nat)
    modifies b, e`items, e`ops
    ensures Reply(View(b, e), status) == UpdateHost(old(View(b, e)), e.net, rawHost, body, async)
    ensures b.rules == old(b.rules)
  {
    if rawHost == "" {
      return 400;
    }
    var host := NormalizeHost(rawHost);
    var patch := body.(host := host);
    if host in b.hosts {
      patch := patch.(ruleCount := b.hosts[host].ruleCount);
    }
    b.hosts := b.hosts[host := patch];
    AnnounceHost(b, e, async, host);
    status := 200;
  }

  method TouchHost(hs: seq<string>, h: string) returns (r: seq<string>)
    ensures r == Touch(hs, h)
  {
    var i := 0;
    while i < |hs| && hs[i] != h && !StringLess(h, hs[i])
      invariant 0 <= i <= |hs|
      invariant TouchIndex(hs, h) == i + TouchIndex(hs[i..], h)
    {
      assert hs[i..][1..] == hs[i + 1..];
      i := i + 1;
    }
    r := if i < |hs| && hs[i] == h then hs else hs[..i] + ([h] + hs[i..]);
  }

  /** The local variables of the upsert loop. */
  datatype Tallies = Tallies(added: nat, updated: nat, untouched: nat, errors: nat, keys: set<RuleKey>, touched: seq<string>)

  ghost function At(s: State, t: Tallies): Progress {
    Progress(s, t.added, t.updated, t.untouched, t.errors, t.keys, t.touched)
  }

  method ImportEntry(b: Backend, e: EdgeKv, t0: Tallies, async: bool, body: Redirect) returns (t: Tallies)
    requires Coherent(b.rules)
    modifies b, e`items, e`ops
    ensures At(View(b, e), t) == ImportOne(At(old(View(b, e)), t0), e.net, async, body)
    ensures Coherent(b.rules)
  {
    t := t0;
    if !IsValid(body) {
      t := t.(errors := t.errors + 1);
      return;
    }
    var r := NormalizeRule(body);
    var flipped;
    r, flipped := FoldCase(b, r);
    t := t.(keys := t.keys + {KeyOf(r)});
    t := Upsert(b, e, t, async, r);
  }

  /** Compares the stored rule, if any, and writes when it differs. */
  method Upsert(b: Backend, e: EdgeKv, t0: Tallies, async: bool, r: Redirect) returns (t: Tallies)
    requires Coherent(b.rules)
    modifies b, e`items, e`ops
    ensures At(View(b, e), t) == UpsertFolded(At(old(View(b, e)), t0), e.net, async, r)
    ensures Coherent(b.rules)
  {
    t := t0;
    if KeyOf(r) in b.rules {
      if ContentEq(b.rules[KeyOf(r)], r) {
        t := t.(untouched := t.untouched + 1);
        return;
      }
      OverwriteRule(b, e, r, async);
      t := t.(updated := t.updated + 1);
    } else {
      AddRule(b, e, r, async);
      t := t.(added := t.added + 1);
    }
    var touched := TouchHost(t.touched, r.host);
    t := t.(touched := touched);
  }

  method SweepEntry(b: Backend, e: EdgeKv, async: bool, keep: set<RuleKey>, key: RuleKey,
                    deleted0: nat, touched0: seq<string>) returns (deleted: nat, touched: seq<string>)
    requires Coherent(b.rules)
    modifies b, e`items, e`ops
    ensures Sweep(View(b, e), deleted, touched)
         == SweepOne(Sweep(old(View(b, e)), deleted0, touched0), e.net, async, keep, key)
    ensures Coherent(b.rules)
  {
    deleted, touched := deleted0, touched0;
    if key !in keep {
      b.rules := b.rules - {key};
      EnsureHostMeta(b, key.host, -1);
      AnnounceDelete(b, e, async, key);
      touched := TouchHost(touched, key.host);
      deleted := deleted + 1;
    }
  }

  method SweepStored(b: Backend, e: EdgeKv, async: bool, keep: set<RuleKey>, touched0: seq<string>)
      returns (deleted: nat, touched: seq<string>, ghost listing: seq<RuleKey>)
    requires Coherent(b.rules)
    modifies b, e`items, e`ops
    ensures Lists(listing, old(b.rules.Keys))
    ensures Sweep(View(b, e), deleted, touched)
         == SweepAll(Sweep(old(View(b, e)), 0, touched0), e.net, async, keep, listing)
    ensures Coherent(b.rules)
  {
    var all := Enumerate(b.rules.Keys);
    listing, deleted, touched := all, 0, touched0;
    ghost var start := Sweep(View(b, e), 0, touched0);
    for i := 0 to |all|
      invariant Coherent(b.rules)
      invariant Sweep(View(b, e), deleted, touched) == SweepAll(start, e.net, async, keep, all[..i])
    {
      assert all[..i + 1][..i] == all[..i];
      deleted, touched := SweepEntry(b, e, async, keep, all[i], deleted, touched);
    }
    assert all[..|all|] == all;
  }

  method RunImport(b: Backend, e: EdgeKv, replace: bool, async: bool, rules: seq<Redirect>)
      returns (t: Tallies, deleted: nat, ghost listing: seq<RuleKey>)
    requires Coherent(b.rules)
    modifies b, e`items, e`ops
    ensures Report(View(b, e), t.added, t.updated, t.untouched, deleted, t.errors)
         == Import(old(View(b, e)), e.net, replace, async, rules, listing)
    ensures replace ==> Lists(listing, ImportAll(old(View(b, e)), e.net, async, rules).s.kv.rules.Keys)
    ensures Coherent(b.rules)
  {
    t := Tallies(0, 0, 0, 0, {}, []);
    deleted, listing := 0, [];
    ghost var start := View(b, e);
    for i := 0 to |rules|
      invariant Coherent(b.rules)
      invariant At(View(b, e), t) == ImportAll(start, e.net, async, rules[..i])
    {
      assert rules[..i + 1][..i] == rules[..i];
      t := ImportEntry(b, e, t, async, rules[i]);
    }
    assert rules[..|rules|] == rules;
    var touched := t.touched;
    if replace {
      deleted, touched, listing := SweepStored(b, e, async, t.keys, touched);
    }
    PushTouched(b, e, async, touched);
  }

  method PushTouched(b: Backend, e: EdgeKv, async: bool, touched: seq<string>)
    modifies b`pending, e`items, e`ops
    ensures View(b, e) == PushHosts(old(View(b, e)), e.net, async, touched)
  {
    ghost var start := View(b, e);
    for i := 0 to |touched|
      invariant b.rules == old(b.rules) && b.hosts == old(b.hosts)
      invariant View(b, e) == PushHosts(start, e.net, async, touched[..i])
    {
      assert touched[..i + 1][..i] == touched[..i];
      AnnounceHost(b, e, async, touched[i]);
    }
    assert touched[..|touched|] == touched;
  }
}
