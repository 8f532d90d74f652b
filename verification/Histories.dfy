/** What a whole run can have left in EdgeKV, failures and half-written pushes
    included, and under which names. */
module Histories {
  import opened Text
  import opened Model
  import opened Manifest
  import opened EkvKeys
  import opened EdgeStore
  import opened Keys
  import opened Protocol
  import opened Handlers
  import opened Coverage
  import opened Convergence
  import opened Mutations
  import opened LastWriter
  import opened Imports
  import opened EdgeWorker
  import opened Refinement
  import opened Names
  import opened Provenance
  import opened Runs

  // ---------------------------------------------------------------------------
  // The past of a run
  // ---------------------------------------------------------------------------

  /** An import may store a rule and overwrite it again in one step. */
  ghost predicate ImportStored(s: State, c: Command, r: Redirect) {
    c.ImportRules? && Some(r) in Writes(s.kv.hosts, c.rules)
  }

  /** The rule was stored at some moment of the run. */
  ghost predicate EverStored(s: State, net: Net, cs: seq<Command>, r: Redirect)
    decreases |cs|
  {
    || Holds(s.kv.rules, r)
    || (cs != [] && (ImportStored(s, cs[0], r) || EverStored(Step(s, net, cs[0]), net, cs[1..], r)))
  }

  /** The hosts that a command can make known. */
  ghost predicate NamesOnly(c: Command, hosts: iset<string>) {
    match c
    case CreateRule(body, _) => NormalizeHost(body.host) in hosts
    case ImportRules(rules, _, _, _) => forall body :: body in rules ==> NormalizeHost(body.host) in hosts
    case PutHost(rawHost, _, _) => NormalizeHost(rawHost) in hosts
    case _ => true
  }

  lemma {:induction false} StepIsGenuine(past: Past, s: State, net: Net, c: Command)
    requires Kept(s) && Possible(s, net, c) && Genuine(past, s) && NamesOnly(c, past.hosts)
    requires forall r :: ImportStored(s, c, r) || Holds(Step(s, net, c).kv.rules, r) ==> r in past.rules
    ensures Genuine(past, Step(s, net, c))
  {
    match c {
      case CreateRule(body, async) =>
        CreateStores(s, net, body, async);
        assert Create(s, net, body, async).status == 201 ==> Holds(Step(s, net, c).kv.rules, Admitted(s.kv, body));
        CreateGenuine(past, s, net, body, async);
      case UpdateRule(url, body, async) =>
        UpdateIsGenuine(past, s, net, url, body, async);
      case RemoveRule(url, async) =>
        DeleteGenuine(past, s, net, url, async);
      case ImportRules(rules, replace, async, order) =>
        ImportGenuine(past, s, net, replace, async, rules, order);
      case PutHost(rawHost, record, async) =>
        PutHostGenuine(past, s, net, rawHost, record, async);
      case DrainQueue(budget, markers) =>
        var taken := TakenMarkers(s, budget, markers);
        DrainGenuine(past, s, net, taken);
      case SetClock(_) =>
      case SetCredentials(_) =>
    }
  }

  lemma {:induction false} UpdateIsGenuine(past: Past, s: State, net: Net, url: Url, body: Redirect, async: bool)
    requires WellKept(s) && Genuine(past, s)
    requires forall r :: Holds(Update(s, net, url, body, async).s.kv.rules, r) ==> r in past.rules
    ensures Genuine(past, Update(s, net, url, body, async).s)
  {
    var r := Normalized(body).(caseInsensitive := false);
    var parsed := ParseUrl(url);
    if parsed.Some? && IsValid(body) && KeyOf(r) == parsed.value {
      ReplacedIsHeld(s, net, r, async);
      ReplaceFoldedGenuine(past, s, net, r, async);
    }
  }

  lemma {:induction false} ReplacedIsHeld(s: State, net: Net, r: Redirect, async: bool)
    ensures ReplaceFolded(s, net, r, async).status == 200 ==>
      Holds(ReplaceFolded(s, net, r, async).s.kv.rules, ApplyCi(s.kv.hosts, r).rule)
  {
  }

  lemma {:induction false} RunIsGenuine(past: Past, s: State, net: Net, cs: seq<Command>)
    requires Kept(s) && Admissible(s, net, cs) && Genuine(past, s)
    requires forall c :: c in cs ==> NamesOnly(c, past.hosts)
    requires forall r :: EverStored(s, net, cs, r) ==> r in past.rules
    ensures Genuine(past, Run(s, net, cs))
    decreases |cs|
  {
    if cs != [] {
      var s1, rest := Step(s, net, cs[0]), cs[1..];
      StepKeeps(s, net, cs[0]);
      forall r | ImportStored(s, cs[0], r) || Holds(s1.kv.rules, r) ensures r in past.rules {
        assert Holds(s1.kv.rules, r) ==> EverStored(s1, net, rest, r);
        assert EverStored(s, net, cs, r);
      }
      StepIsGenuine(past, s, net, cs[0]);
      forall r | EverStored(s1, net, rest, r) ensures r in past.rules {
        assert EverStored(s, net, cs, r);
      }
      RunIsGenuine(past, s1, net, rest);
    }
  }

  ghost const ANY_HOST: iset<string> := iset h: string | true
  ghost const ANY_RULE: iset<Redirect> := iset r: Redirect | true

  ghost function PastOf(net: Net, cs: seq<Command>): Past {
    Past((iset r | EverStored(INIT, net, cs, r)), ANY_HOST)
  }

  lemma HistoryIsGenuine(net: Net, cs: seq<Command>)
    requires Admissible(INIT, net, cs)
    ensures Genuine(PastOf(net, cs), Run(INIT, net, cs))
  {
    InitIsCovered(ManifestUnit(""));
    RunIsGenuine(PastOf(net, cs), INIT, net, cs);
  }

  // ---------------------------------------------------------------------------
  // The edge never invents a rule
  // ---------------------------------------------------------------------------

  lemma {:induction false} ShardsReadGenuine(past: Past, items: Items, down: set<EkvKey>, host: string, s: nat, n: nat)
    requires GenuineItems(past, items)
    ensures forall e :: e in ReadShards(items, down, host, s, n) ==> GenuineEntry(past, host, e)
    decreases if s < n then n - s else 0
  {
    if s < n {
      ShardsReadGenuine(past, items, down, host, s + 1, n);
      var k := Shard(host, s);
      assert k in items ==> GenuineItem(past, k, items[k]);
    }
  }

  lemma ManifestReadGenuine(past: Past, items: Items, down: set<EkvKey>, host: string)
    requires GenuineItems(past, items)
    ensures forall e :: e in ReadManifest(items, down, host) ==> GenuineEntry(past, host, e)
  {
    ShardsReadGenuine(past, items, down, host, 1, ReadHead(items, host).count);
    var k := Shard(host, 0);
    assert k in items ==> GenuineItem(past, k, items[k]);
  }

  predicate Applies(r: Redirect, path: string) {
    if r.matchType == Exact then r.path == path else Matches(r.path, path)
  }

  /** The exact rule of the path as the worker spells it, or a prefix of the path. */
  predicate AppliesAsSeen(r: Redirect, path: string) {
    if r.matchType == Exact then r.path == Seen(path) else Matches(r.path, path)
  }

  lemma ServedIsGenuine(past: Past, items: Items, named: NamedItems, down: set<string>, failed: bool, meta: Option<HostRecord>,
                        host: string, path: string, query: string) returns (r: Redirect)
    requires GenuineItems(past, items) && Holding(named, items, host)
    requires Answered(named, down, failed, meta, host, path, query).Served?
    ensures r in past.rules && r.enabled && r.host == Seen(host) && AppliesAsSeen(r, FoldedPath(meta, path))
    ensures Answered(named, down, failed, meta, host, path, query) == Serve(Some(r), path, query)
  {
    var h, p := Seen(host), FoldedPath(meta, path);
    var exact := ReadExact(named, host, p);
    if exact.Some? {
      JsRead(named, items, ExactItem(host, p));
      assert GenuineItem(past, ExactItem(h, Seen(p)), items[ExactItem(h, Seen(p))]);
      r :| r in past.rules && r.enabled && KeyOf(r) == RuleKey(h, Exact, Seen(p)) && exact.value.exact == ToExact(r);
    } else {
      var lost := ManifestByName(named, items, down, host);
      var es := ReadManifest(items, lost, h);
      ManifestReadGenuine(past, items, lost, h);
      var e := FirstMatch(es, p).value;
      assert GenuineEntry(past, h, e);
      r :| r in past.rules && IsListed(r) && r.host == h && e == ToEntry(r);
    }
  }

  /** At every moment of every run over plain hosts, whatever failed before,
      half-written pushes included, whatever item names cannot be read and whichever
      host record a worker has cached: it lets a request through or serves it by a
      rule that was stored and enabled at some moment of the run, of the host and
      for the path as the worker spells them. Within U+FFFF these are the host and
      the path of the request. */
  lemma EdgeServesOnlyStoredRules(net: Net, cs: seq<Command>, named: NamedItems, down: set<string>, failed: bool,
                                  meta: Option<HostRecord>, host: string, path: string, query: string)
    requires Admissible(INIT, net, cs) && forall c :: c in cs ==> NamesOnly(c, PLAIN_HOSTS)
    requires IsNameable(host) && IsNamed(named, Run(INIT, net, cs).edge.items)
    ensures var answer := Answered(named, down, failed, meta, host, path, query);
      answer.Served? ==>
        exists r :: EverStored(INIT, net, cs, r) && r.enabled && answer == Serve(Some(r), path, query)
          && r.host == Seen(host) && AppliesAsSeen(r, FoldedPath(meta, path))
          && (IsBmp(host) && IsBmp(path) ==> r.host == host && Applies(r, FoldedPath(meta, path)))
  {
    var items := Run(INIT, net, cs).edge.items;
    HistoryIsGenuine(net, cs);
    RunsKeepNamesApart(net, cs);
    if Answered(named, down, failed, meta, host, path, query).Served? {
      var r := ServedIsGenuine(PastOf(net, cs), items, named, down, failed, meta, host, path, query);
      assert EverStored(INIT, net, cs, r);
      SeenIff(host);
      LowerIsBmp(path);
      SeenIff(FoldedPath(meta, path));
    }
  }

  // ---------------------------------------------------------------------------
  // Names
  // ---------------------------------------------------------------------------

  ghost const PLAIN_HOSTS: iset<string> := iset h: string | IsPlainHost(h)

  lemma PlainRunIsGenuine(net: Net, cs: seq<Command>)
    requires Admissible(INIT, net, cs) && forall c :: c in cs ==> NamesOnly(c, PLAIN_HOSTS)
    ensures WellKept(Run(INIT, net, cs)) && Genuine(Past(ANY_RULE, PLAIN_HOSTS), Run(INIT, net, cs))
  {
    InitIsCovered(ManifestUnit(""));
    ManifestStaysCovered(INIT, net, cs, "");
    RunIsGenuine(Past(ANY_RULE, PLAIN_HOSTS), INIT, net, cs);
  }

  lemma GenuineIsNameable(past: Past, items: Items)
    requires GenuineItems(past, items) && past.hosts == PLAIN_HOSTS
    ensures NameableItems(items)
  {
    forall k | k in items ensures IsNameable(k.host) {
      assert GenuineItem(past, k, items[k]);
    }
  }

  /** If no create, import or host update names a host `_hosts` or one with a bar,
      then in every run item names identify the items in EdgeKV, and those asked
      for, and the keys of rules and markers are read back as they were written. */
  lemma RunsKeepNamesApart(net: Net, cs: seq<Command>)
    requires Admissible(INIT, net, cs) && forall c :: c in cs ==> NamesOnly(c, PLAIN_HOSTS)
    ensures var s := Run(INIT, net, cs);
      && NameableItems(s.edge.items)
      && (forall k :: k in s.kv.rules ==> ParseRuleKey(KRule(k)) == Some(k))
      && (forall a, b :: a in s.kv.rules && b in s.kv.rules && KRule(a) == KRule(b) ==> a == b)
      && (forall t :: t in s.pending ==> Classify(TargetName(t)) == t)
      && (forall k, asked: EkvKey :: k in s.edge.items && IsNameable(asked.host) && ItemName(k) == ItemName(asked) ==> k == asked)
  {
    var s, past := Run(INIT, net, cs), Past(ANY_RULE, PLAIN_HOSTS);
    PlainRunIsGenuine(net, cs);
    GenuineIsNameable(past, s.edge.items);
    forall k | k in s.kv.rules ensures ParseRuleKey(KRule(k)) == Some(k) {
      assert s.kv.rules[k] in past.rules;
      PlainKeysAreParsed(k);
    }
    forall a, b | a in s.kv.rules && b in s.kv.rules && KRule(a) == KRule(b) ensures a == b {
      KRuleInjective(a, b);
    }
    forall t | t in s.pending ensures Classify(TargetName(t)) == t {
      assert NamesHost(past, t);
      TargetRoundTrip(t);
    }
    forall k, asked: EkvKey | k in s.edge.items && IsNameable(asked.host) && ItemName(k) == ItemName(asked) ensures k == asked {
      ItemNamesIdentify(k, asked);
    }
  }

  /** So on such runs manifest coverage holds of what a worker reads from EdgeKV by
      the item names it computes, for the host as it spells it. */
  lemma ManifestsCoveredByName(net: Net, cs: seq<Command>, host: string, named: NamedItems)
    requires Admissible(INIT, net, cs) && forall c :: c in cs ==> NamesOnly(c, PLAIN_HOSTS)
    requires IsNameable(host) && IsNamed(named, Run(INIT, net, cs).edge.items)
    ensures var s, h := Run(INIT, net, cs), Seen(host);
      || ReadNamedManifest(named, {}, host) == ManifestOf(s.kv.rules, h)
      || exists t :: t in s.pending && (t.PushRule? || t.DeleteRule?) && t.key.matchType == Prefix && t.key.host == h
    ensures IsBmp(host) ==> Seen(host) == host
  {
    RunsKeepNamesApart(net, cs);
    var lost := ManifestByName(named, Run(INIT, net, cs).edge.items, {}, host);
    ManifestsAlwaysCovered(net, cs, Seen(host));
    SeenIff(host);
  }
}
