/** Concrete inputs on which the code does not meet a property one would expect
    of it. The condition that decides each of them is proved elsewhere. */
module Witnesses {
  import opened Text
  import opened Paths
  import opened Model
  import opened EkvKeys
  import opened EdgeStore
  import opened Keys
  import opened Listings
  import opened Protocol
  import opened Handlers
  import opened Accounting
  import opened Coverage
  import opened Convergence
  import opened Mutations
  import opened Imports
  import opened ImportCoverage
  import opened Reimport
  import opened LastWriter
  import opened Counts
  import opened Lookup
  import opened EdgeWorker
  import opened Refinement
  import opened Runs
  import opened Folding
  import opened HostNames
  import opened Admission
  import opened Subjects

  // ---------------------------------------------------------------------------
  // Re-creating an exact rule
  // ---------------------------------------------------------------------------

  lemma {:induction false} NotifyAcked(s: State, net: Net, t: Target)
    requires s.configured && Faultless(net) && IsRetriable(t)
    ensures Notify(s, net, false, t).pending == s.pending - {t}
  {
    FaultlessAttempt(s.kv, s.edge, net, ForMarker(t));
    DropAllEffect(s.pending, [t]);
  }

  lemma {:induction false} CreateAcked(s: State, net: Net, body: Redirect)
    requires Kept(s) && s.configured && Faultless(net)
    requires IsValid(body) && KeyOf(Admitted(s.kv, body)) !in s.kv.rules
    ensures var r, s' := Admitted(s.kv, body), Create(s, net, body, false).s;
      && Kept(s') && s'.configured
      && s'.kv == Stored(WithHosts(s, ApplyCi(s.kv.hosts, Normalized(body)).hosts), r).kv
      && s'.pending == s.pending - {PushRule(KeyOf(r)), PushHost(r.host)}
  {
    CreateKeeps(s, net, body, false);
    var r := Admitted(s.kv, body);
    var s1 := Stored(WithHosts(s, ApplyCi(s.kv.hosts, Normalized(body)).hosts), r);
    NotifyAcked(s1, net, PushRule(KeyOf(r)));
    NotifyAcked(Notify(s1, net, false, PushRule(KeyOf(r))), net, PushHost(r.host));
  }

  /** A rule that does not ask for folding, on a host that does not fold. */
  ghost predicate IsPlainBody(kv: Kv, body: Redirect) {
    IsValid(body) && !body.caseInsensitive && HostOr(kv.hosts, NormalizeHost(body.host)).caseSensitive
  }

  lemma {:induction false} CreatePlain(s: State, net: Net, body: Redirect)
    requires Kept(s) && s.configured && Faultless(net)
    requires IsPlainBody(s.kv, body) && KeyOf(Normalized(body)) !in s.kv.rules
    ensures var k, s' := KeyOf(Normalized(body)), Create(s, net, body, false).s;
      && k == KeyOf(Admitted(s.kv, body))
      && Kept(s') && s'.configured && IsPlainBody(s'.kv, body)
      && s'.kv.rules == s.kv.rules[k := Normalized(body)]
      && s'.pending == s.pending - {PushRule(k), PushHost(k.host)}
  {
    CreateAcked(s, net, body);
  }

  /** An exact rule created while its delete marker is pending is served only
      until the next drain: with EdgeKV answering every request, the drain empties
      the queue and leaves the rule stored, enabled, and gone from EdgeKV. */
  lemma {:induction false} RecreatedRuleIsLost(s: State, net: Net, body: Redirect, listing: seq<Target>)
    requires Kept(s) && s.configured && Faultless(net)
    requires IsValid(body) && body.matchType == Exact && body.enabled
    requires KeyOf(Admitted(s.kv, body)) !in s.kv.rules && DeleteRule(KeyOf(Admitted(s.kv, body))) in s.pending
    requires Lists(listing, Create(s, net, body, false).s.pending.Keys)
    ensures var k := KeyOf(Admitted(s.kv, body));
      var end := Drain(Create(s, net, body, false).s, net, listing).s;
      && k in end.kv.rules && end.kv.rules[k].enabled && end.pending == map[]
      && Item(end.edge.items, ExactItem(k.host, k.path)) == None
      && !Covered(end, ExactUnit(k.host, k.path))
  {
    var k := KeyOf(Admitted(s.kv, body));
    CreateAcked(s, net, body);
    DrainLosesRule(Create(s, net, body, false).s, net, listing, k);
  }

  lemma {:induction false} DrainLosesRule(s: State, net: Net, listing: seq<Target>, k: RuleKey)
    requires Kept(s) && s.configured && Faultless(net) && Lists(listing, s.pending.Keys)
    requires k.matchType == Exact && k in s.kv.rules && s.kv.rules[k].enabled && DeleteRule(k) in s.pending
    ensures var end := Drain(s, net, listing).s;
      && end.kv == s.kv && end.pending == map[]
      && Item(end.edge.items, ExactItem(k.host, k.path)) == None
      && !Covered(end, ExactUnit(k.host, k.path))
  {
    assert DeleteRule(k) in s.pending.Keys && DeleteRule(k) in listing;
    FaultlessDrain(s, net, listing);
    DrainAccounting(s, net, listing);
    TakenDeleteWins(s, net, listing, k);
    var end := Drain(s, net, listing).s;
    assert forall t :: t in s.pending ==> t in s.pending.Keys && t in listing;
    assert end.pending == map[];
    assert !Marked(end, ExactUnit(k.host, k.path));
  }

  const BODY := Redirect("h", "a", "http://t", 301, Exact, false, true, true, 0, "", false)
  const KEY := RuleKey(NormalizeHost("h"), Exact, NormalizePathFn("a"))
  const URL := Url("h", "exact", "a")

  lemma TrimOfPlain(s: string)
    requires s != "" && !IsWhitespace(s[0]) && !IsWhitespace(s[|s| - 1])
    ensures Trim(s) == s
  {
  }

  lemma UrlNamesKey()
    ensures ParseUrl(URL) == Some(KEY)
    ensures NormalizePathFn("a") == "/a"
  {
    TrimOfPlain("a");
    TrimOfPlain("/a");
    assert Rooted("a") == "/a" == Rooted("/a");
    CollapseKeepsNoDouble("/a");
    assert "/" + "a" == "/a";
  }

  lemma BodyPath()
    ensures NormalizePathFn(BODY.path) == "/a" && Lower("/a") == "/a"
  {
    UrlNamesKey();
  }

  ghost const ALL_ACKED: Net := (i: nat) => Acked

  lemma {:induction false} DeleteAsync(s: State, net: Net, url: Url, k: RuleKey)
    requires Kept(s) && ParseUrl(url) == Some(k) && k in s.kv.rules
    ensures var s' := Delete(s, net, url, true).s;
      && Kept(s') && s'.configured == s.configured
      && s'.kv == Removed(s, k).kv
      && s'.pending.Keys == s.pending.Keys + {DeleteRule(k), PushHost(k.host)}
  {
    DeleteKeeps(s, net, url, true);
  }

  /** The rule is stored and enabled but not in EdgeKV, and nothing is pending
      that would put it there. */
  ghost predicate IsLost(k: RuleKey, end: State) {
    && k in end.kv.rules && end.kv.rules[k].enabled && end.pending == map[]
    && Item(end.edge.items, ExactItem(k.host, k.path)) == None
  }

  ghost predicate LosesRule(cs: seq<Command>, k: RuleKey, end: State) {
    Admissible(INIT, ALL_ACKED, cs) && end == Run(INIT, ALL_ACKED, cs) && IsLost(k, end)
  }

  /** The state after the create and the queued delete. */
  lemma {:induction false} QueuedDelete(body: Redirect, url: Url, k: RuleKey) returns (s1: State, s2: State)
    requires IsValid(body) && !body.caseInsensitive
    requires k == KeyOf(Normalized(body)) && ParseUrl(url) == Some(k)
    ensures s1 == Create(INIT, ALL_ACKED, body, false).s && s2 == Delete(s1, ALL_ACKED, url, true).s
    ensures Kept(s2) && s2.configured && IsPlainBody(s2.kv, body) && k !in s2.kv.rules
    ensures s2.pending.Keys == {DeleteRule(k), PushHost(k.host)}
  {
    InitIsCovered(SentinelUnit(k.host));
    CreatePlain(INIT, ALL_ACKED, body);
    s1 := Create(INIT, ALL_ACKED, body, false).s;
    DeleteAsync(s1, ALL_ACKED, url, k);
    s2 := Delete(s1, ALL_ACKED, url, true).s;
  }

  /** The second create, and the order in which its drain meets the queue. */
  lemma {:induction false} SecondCreate(s2: State, body: Redirect, k: RuleKey) returns (s3: State, listing: seq<Target>)
    requires IsValid(body) && body.matchType == Exact && body.enabled && k == KeyOf(Normalized(body))
    requires Kept(s2) && s2.configured && IsPlainBody(s2.kv, body) && k !in s2.kv.rules
    requires s2.pending.Keys == {DeleteRule(k), PushHost(k.host)}
    ensures s3 == Create(s2, ALL_ACKED, body, false).s
    ensures Lists(listing, s3.pending.Keys) && listing[..Min(25, |listing|)] == listing
    ensures IsLost(k, Drain(s3, ALL_ACKED, listing).s)
  {
    CreatePlain(s2, ALL_ACKED, body);
    s3 := Create(s2, ALL_ACKED, body, false).s;
    listing := ShortListing(s3.pending.Keys, DeleteRule(k));
    DrainLosesRule(s3, ALL_ACKED, listing, k);
  }

  lemma {:induction false} RecreationRunOf(body: Redirect, url: Url, k: RuleKey)
    requires IsValid(body) && body.matchType == Exact && body.enabled && !body.caseInsensitive
    requires k == KeyOf(Normalized(body)) && ParseUrl(url) == Some(k)
    ensures exists cs, end :: |cs| == 4 && LosesRule(cs, k, end)
  {
    var s1, s2 := QueuedDelete(body, url, k);
    var s3, listing := SecondCreate(s2, body, k);
    LosingRun(k, CreateRule(body, false), RemoveRule(url, true), CreateRule(body, false), DrainQueue(25, listing),
              s1, s2, s3, Drain(s3, ALL_ACKED, listing).s);
  }

  lemma {:induction false} LosingRun(k: RuleKey, c0: Command, c1: Command, c2: Command, c3: Command,
                                     s1: State, s2: State, s3: State, end: State)
    requires Possible(INIT, ALL_ACKED, c0) && Step(INIT, ALL_ACKED, c0) == s1
    requires Possible(s1, ALL_ACKED, c1) && Step(s1, ALL_ACKED, c1) == s2
    requires Possible(s2, ALL_ACKED, c2) && Step(s2, ALL_ACKED, c2) == s3
    requires Possible(s3, ALL_ACKED, c3) && Step(s3, ALL_ACKED, c3) == end
    requires IsLost(k, end)
    ensures exists cs, end :: |cs| == 4 && LosesRule(cs, k, end)
  {
    TwoSteps(s2, c2, c3, [], s3, end, end);
    TwoSteps(INIT, c0, c1, [c2, c3], s1, s2, end);
    assert [c2, c3] + [] == [c2, c3];
    assert LosesRule([c0, c1] + [c2, c3], k, end);
  }

  lemma {:induction false} TwoSteps(s: State, c: Command, d: Command, cs: seq<Command>, s1: State, s2: State, end: State)
    requires Possible(s, ALL_ACKED, c) && Step(s, ALL_ACKED, c) == s1
    requires Possible(s1, ALL_ACKED, d) && Step(s1, ALL_ACKED, d) == s2
    requires Admissible(s2, ALL_ACKED, cs) && Run(s2, ALL_ACKED, cs) == end
    ensures Admissible(s, ALL_ACKED, [c, d] + cs) && Run(s, ALL_ACKED, [c, d] + cs) == end
  {
    OneStep(s1, ALL_ACKED, d, cs, s2, end);
    OneStep(s, ALL_ACKED, c, [d] + cs, s1, end);
    assert [c] + ([d] + cs) == [c, d] + cs;
  }

  /** Four requests and no failure at all lose a redirect: create, delete with
      `?async=1`, create again, drain. */
  lemma {:induction false} RecreationRun()
    ensures exists cs, end :: |cs| == 4 && LosesRule(cs, KEY, end)
  {
    UrlNamesKey();
    RecreationRunOf(BODY, URL, KEY);
  }

  lemma ShortListing(s: set<Target>, t: Target) returns (l: seq<Target>)
    requires s <= {t}
    ensures Lists(l, s) && l[..Min(25, |l|)] == l
  {
    l := SomeListing(s);
    ListingLength(l, s);
    assert |{t} - s| == |{t}| - |s|;
  }

  lemma {:induction false} OneStep(s: State, net: Net, c: Command, cs: seq<Command>, s': State, end: State)
    requires Possible(s, net, c) && Step(s, net, c) == s'
    requires Admissible(s', net, cs) && Run(s', net, cs) == end
    ensures Admissible(s, net, [c] + cs) && Run(s, net, [c] + cs) == end
  {
    assert ([c] + cs)[1..] == cs;
  }

  // ---------------------------------------------------------------------------
  // A wasted flip
  // ---------------------------------------------------------------------------

  /** Creating a stored rule once more, asking for case-insensitivity, is answered
      409 but flips the host; EdgeKV keeps the old flag and nothing is pending. */
  lemma {:induction false} RejectedCreateFlipsHost()
    ensures var s1 := Create(INIT, ALL_ACKED, BODY, false).s;
      var again := Create(s1, ALL_ACKED, BODY.(caseInsensitive := true), false);
      again.status == 409 && again.s.pending == map[] && !Covered(again.s, SentinelUnit(NormalizeHost("h")))
  {
    BodyPath();
    RejectedFlip(BODY);
  }

  lemma {:induction false} RejectedFlip(body: Redirect)
    requires IsValid(body) && !body.caseInsensitive
    requires Lower(NormalizePathFn(body.path)) == NormalizePathFn(body.path)
    ensures var s1 := Create(INIT, ALL_ACKED, body, false).s;
      var again := Create(s1, ALL_ACKED, body.(caseInsensitive := true), false);
      again.status == 409 && again.s.pending == map[] && !Covered(again.s, SentinelUnit(NormalizeHost(body.host)))
  {
    var net, h := ALL_ACKED, NormalizeHost(body.host);
    InitIsCovered(SentinelUnit(h));
    CreatePlain(INIT, net, body);
    CreateCovers(INIT, net, body, false, SentinelUnit(h));
    var s1 := Create(INIT, net, body, false).s;
    assert s1.pending == map[];
    assert InSync(s1, SentinelUnit(h));
    var ci := body.(caseInsensitive := true);
    assert KeyOf(Admitted(s1.kv, ci)) == KeyOf(Normalized(body));
    CreateCoversIff(s1, net, ci, false, SentinelUnit(h));
  }

  /** The same by a bulk import: importing the stored rules again to make their
      host case-insensitive announces nothing if no path changes. */
  lemma {:induction false} ImportFlipIsNotAnnounced()
    ensures var s1 := Create(INIT, ALL_ACKED, BODY, false).s;
      var again := Import(s1, ALL_ACKED, false, false, [BODY.(caseInsensitive := true)], []);
      again.untouched == 1 && again.s.pending == map[] && !Covered(again.s, SentinelUnit(NormalizeHost("h")))
  {
    BodyPath();
    UnannouncedFlip(BODY);
  }

  lemma {:induction false} UnannouncedFlip(body: Redirect)
    requires IsValid(body) && !body.caseInsensitive
    requires Lower(NormalizePathFn(body.path)) == NormalizePathFn(body.path)
    ensures var s1 := Create(INIT, ALL_ACKED, body, false).s;
      var again := Import(s1, ALL_ACKED, false, false, [body.(caseInsensitive := true)], []);
      again.untouched == 1 && again.s.pending == map[] && !Covered(again.s, SentinelUnit(NormalizeHost(body.host)))
  {
    var net, u := ALL_ACKED, SentinelUnit(NormalizeHost(body.host));
    InitIsCovered(u);
    CreatePlain(INIT, net, body);
    CreateCovers(INIT, net, body, false, u);
    var s1 := Create(INIT, net, body, false).s;
    assert s1.pending == map[];
    HeldFlipIsWasted(s1, net, body.(caseInsensitive := true));
  }

  /** Importing one stored rule, to flip its host. */
  lemma {:induction false} HeldFlipIsWasted(s: State, net: Net, body: Redirect)
    requires Kept(s) && s.pending == map[] && Covered(s, SentinelUnit(NormalizeHost(body.host)))
    requires IsValid(body) && body.caseInsensitive && HostOr(s.kv.hosts, NormalizeHost(body.host)).caseSensitive
    requires Holds(s.kv.rules, Admitted(s.kv, body))
    ensures var again := Import(s, net, false, false, [body], []);
      again.untouched == 1 && again.s.pending == map[] && !Covered(again.s, SentinelUnit(NormalizeHost(body.host)))
  {
    var h := NormalizeHost(body.host);
    SingleUnchanged(s, net, body);
    AdmittedInLoop(s, net, false, [body], 0);
    assert [body][..0] == [] && AsksToFold([body][0], h);
    assert HeldAt(s.kv, [body], 0, h);
    assert ImportWastesFlip(s, false, [body], h);
    ImportCoversIff(s, net, false, false, [body], [], SentinelUnit(h));
  }

  lemma {:induction false} SingleUnchanged(s: State, net: Net, body: Redirect)
    requires IsValid(body) && Holds(s.kv.rules, Admitted(s.kv, body))
    ensures var p := Import(s, net, false, false, [body], []);
      p.untouched == 1 && p.s == WithHosts(s, ApplyCi(s.kv.hosts, Normalized(body)).hosts)
  {
    var a := Progress(s, 0, 0, 0, 0, {}, []);
    SingleEntry(s, net, body);
    UnchangedEntry(a, net, body);
  }

  lemma {:induction false} SingleEntry(s: State, net: Net, body: Redirect)
    ensures ImportAll(s, net, false, [body]) == ImportOne(Progress(s, 0, 0, 0, 0, {}, []), net, false, body)
  {
    assert [body][..0] == [];
  }

  lemma {:induction false} UnchangedEntry(a: Progress, net: Net, body: Redirect)
    requires IsValid(body) && Holds(a.s.kv.rules, Admitted(a.s.kv, body))
    ensures var a', r := ImportOne(a, net, false, body), Admitted(a.s.kv, body);
      && a'.untouched == a.untouched + 1 && a'.touched == a.touched
      && a'.s == WithHosts(a.s, ApplyCi(a.s.kv.hosts, Normalized(body)).hosts)
  {
  }

  // ---------------------------------------------------------------------------
  // Case folding of URLs
  // ---------------------------------------------------------------------------

  /** A rule created with a mixed-case path on a case-insensitive host is not found
      by a DELETE with that path. */
  lemma {:induction false} DeleteByCreatedPathFails(net: Net, async: bool)
    ensures var p := Create(INIT, net, MIXED_BODY, async);
      p.status == 201 && Delete(p.s, net, MIXED_URL, async).status == 404
  {
    CleanPathNormalizesToItself("/A");
    assert "/" + "A" == "/A" && Lower("/A")[1] == 'a' && "/A"[1] == 'A';
    MixedCaseFails(net, MIXED_BODY, MIXED_URL, async);
  }

  const MIXED_BODY := BODY.(path := "/A", caseInsensitive := true)
  const MIXED_URL := Url("h", "exact", "A")

  lemma {:induction false} MixedCaseFails(net: Net, body: Redirect, url: Url, async: bool)
    requires IsValid(body) && body.caseInsensitive && ParseUrl(url) == Some(KeyOf(Normalized(body)))
    requires Lower(NormalizePathFn(body.path)) != NormalizePathFn(body.path)
    ensures var p := Create(INIT, net, body, async);
      p.status == 201 && Delete(p.s, net, url, async).status == 404
  {
    CreateStores(INIT, net, body, async);
    DeleteByCreatedPathIff(INIT, net, body, async, url, async);
  }

  lemma {:induction false} UpdateHostAcked(s: State, net: Net, rawHost: string, record: HostMeta)
    requires Kept(s) && s.configured && Faultless(net) && rawHost != ""
    ensures var s' := UpdateHost(s, net, rawHost, record, false).s;
      && s'.kv.rules == s.kv.rules && s'.pending == s.pending - {PushHost(NormalizeHost(rawHost))}
      && NormalizeHost(rawHost) in s'.kv.hosts
      && s'.kv.hosts[NormalizeHost(rawHost)] == record.(host := NormalizeHost(rawHost), ruleCount := s'.kv.hosts[NormalizeHost(rawHost)].ruleCount)
  {
    var host := NormalizeHost(rawHost);
    var count := if host in s.kv.hosts then s.kv.hosts[host].ruleCount else record.ruleCount;
    NotifyAcked(WithHosts(s, s.kv.hosts[host := record.(host := host, ruleCount := count)]), net, PushHost(host));
  }

  // ---------------------------------------------------------------------------
  // A host named like the sentinels' namespace
  // ---------------------------------------------------------------------------

  const HOSTS_BODY := BODY.(host := "_hosts", matchType := Prefix)
  const NEW_RECORD := HostMeta("", true, true, 0)
  const MANIFEST_ITEM := Shard("_hosts", 0)
  const SENTINEL_ITEM := Sentinel("prefixes")

  /** A prefix rule of a host named `_hosts` and the record of a host named
      `prefixes` are both pushed, to one item name. */
  lemma {:induction false} HostNamedHostsCollides()
    ensures var s1 := Create(INIT, ALL_ACKED, HOSTS_BODY, false).s;
      var s2 := UpdateHost(s1, ALL_ACKED, SENTINEL_ITEM.host, NEW_RECORD, false).s;
      && MANIFEST_ITEM in s2.edge.items && SENTINEL_ITEM in s2.edge.items
      && ItemName(MANIFEST_ITEM) == ItemName(SENTINEL_ITEM)
  {
    ManifestHost();
    SentinelHost();
    BothPushed(HOSTS_BODY, SENTINEL_ITEM.host, NEW_RECORD, MANIFEST_ITEM.host, SENTINEL_ITEM.host);
    NamesClash(SENTINEL_ITEM, MANIFEST_ITEM);
  }

  lemma ManifestHost()
    ensures NormalizeHost(HOSTS_BODY.host) == MANIFEST_ITEM.host && ':' !in MANIFEST_ITEM.host
  {
    PlainHostStays("_hosts");
  }

  lemma SentinelHost()
    ensures NormalizeHost(SENTINEL_ITEM.host) == SENTINEL_ITEM.host
    ensures SENTINEL_ITEM.host != "" && ':' !in SENTINEL_ITEM.host
  {
    PlainHostStays("prefixes");
  }

  lemma NamesClash(a: EkvKey, b: EkvKey)
    requires ':' !in a.host && ':' !in b.host && Clash(a, b)
    ensures ItemName(b) == ItemName(a)
  {
    ItemNamesCollideIff(a, b);
  }

  /** A name in lower case, without a port or white space around it. */
  lemma PlainHostStays(h: string)
    requires h != "" && !IsWhitespace(h[0]) && !IsWhitespace(h[|h| - 1]) && ':' !in h
    requires forall i :: 0 <= i < |h| ==> !('A' <= h[i] <= 'Z')
    ensures NormalizeHost(h) == h
  {
    TrimOfPlain(h);
    assert BeforePort(h) == h;
    assert Lower(h) == h;
  }

  lemma {:induction false} BothPushed(body: Redirect, rawHost: string, record: HostMeta, h: string, g: string)
    requires IsValid(body) && body.matchType == Prefix && body.enabled && !body.caseInsensitive && rawHost != ""
    requires NormalizeHost(body.host) == h && NormalizeHost(rawHost) == g
    ensures var s := UpdateHost(Create(INIT, ALL_ACKED, body, false).s, ALL_ACKED, rawHost, record, false).s;
      Shard(h, 0) in s.edge.items && Sentinel(g) in s.edge.items
  {
    var s := BothAcked(body, rawHost, record);
    StaysCoveredTwice(body, rawHost, record, ManifestUnit(h));
    StaysCoveredTwice(body, rawHost, record, SentinelUnit(g));
    assert InSync(s, ManifestUnit(h)) && InSync(s, SentinelUnit(g));
    StoredPrefixIsRead(s, KeyOf(Normalized(body)));
  }

  lemma {:induction false} BothAcked(body: Redirect, rawHost: string, record: HostMeta) returns (s: State)
    requires IsValid(body) && !body.caseInsensitive && rawHost != ""
    ensures s == UpdateHost(Create(INIT, ALL_ACKED, body, false).s, ALL_ACKED, rawHost, record, false).s
    ensures s.pending == map[] && s.kv.rules == map[KeyOf(Normalized(body)) := Normalized(body)]
    ensures NormalizeHost(rawHost) in s.kv.hosts
    ensures s.kv.hosts[NormalizeHost(rawHost)].enabled == record.enabled
    ensures s.kv.hosts[NormalizeHost(rawHost)].caseSensitive == record.caseSensitive
  {
    InitIsCovered(SentinelUnit(rawHost));
    CreatePlain(INIT, ALL_ACKED, body);
    var s1 := Create(INIT, ALL_ACKED, body, false).s;
    UpdateHostAcked(s1, ALL_ACKED, rawHost, record);
    s := UpdateHost(s1, ALL_ACKED, rawHost, record, false).s;
  }

  lemma {:induction false} StaysCoveredTwice(body: Redirect, rawHost: string, record: HostMeta, u: Unit)
    requires IsPlainBody(INIT.kv, body)
    ensures Covered(UpdateHost(Create(INIT, ALL_ACKED, body, false).s, ALL_ACKED, rawHost, record, false).s, u)
  {
    InitIsCovered(u);
    CreateKeeps(INIT, ALL_ACKED, body, false);
    CreateCovers(INIT, ALL_ACKED, body, false, u);
    UpdateHostCovers(Create(INIT, ALL_ACKED, body, false).s, ALL_ACKED, rawHost, record, false, u);
  }

  lemma StoredPrefixIsRead(s: State, k: RuleKey)
    requires Coherent(s.kv.rules) && InSync(s, ManifestUnit(k.host))
    requires k in s.kv.rules && k.matchType == Prefix && s.kv.rules[k].enabled
    ensures Shard(k.host, 0) in s.edge.items
  {
    ManifestFacts(s.kv.rules, k.host);
    assert KeyOf(s.kv.rules[k]) == k;
    assert IsEntryOf(s.kv.rules, k.host, ToEntry(s.kv.rules[k]));
    assert ToEntry(s.kv.rules[k]) in ReadManifest(s.edge.items, {}, k.host);
  }

  // ---------------------------------------------------------------------------
  // Host counts, locations, paths and keys
  // ---------------------------------------------------------------------------

  /** A record for a new host brings its own count. */
  lemma {:induction false} NewHostCountIsTrusted(net: Net)
    ensures !Counted(UpdateHost(INIT, net, "h", HostMeta("", true, true, 5), true).s.kv)
  {
    InitIsCovered(SentinelUnit("h"));
    UpdateHostKeepsCountsIff(INIT, net, "h", HostMeta("", true, true, 5), true);
  }

  /** The same rule sends one request to two different places. */
  lemma {:induction false} TwoSlashTargetDiffers()
    ensures var r := Redirect("h", "/a", "http://t//", 301, Prefix, true, true, true, 0, "", false);
      EdgeLocation(AsEdgeRule(r), "/a/b", "") == "http://t//b" && ControlLocation(r, "/a/b", "") == "http://t/b"
  {
    var t := "http://t//";
    assert t[..|t| - 1] == "http://t/";
    assert "http://t/"[..8] == "http://t";
    assert WithoutTrailingSlashes("http://t") == "http://t";
    assert WithoutTrailingSlashes("http://t/") == "http://t";
    assert WithoutTrailingSlashes(t) == "http://t";
    assert "/a/b"[2..] == "/b";
  }

  lemma LeadingSpaceIsNormalizedApart()
    ensures Clean(Trim(" a")) != Clean(" a")
  {
    assert TrimStart(" a") != " a";
    Paths.NormalizersAgreeIff(" a");
  }

  /** White space before a port stays in the stored name; the resolver drops it, and
      the EdgeWorker keeps white space in front as well. */
  lemma SpacedHostIsTakenApart()
    ensures NormalizeHost("h :80") == "h " && HostIn("h :80") != "h "
    ensures NormalizeHost(" h") != NormalizeHostJs(" h")
  {
    SpacedHost();
    TrimmedByResolver("h :80", "h ");
    HostNames.NormalizersAgreeIff(" h");
  }

  lemma TrimmedByResolver(value: string, name: string)
    requires HasName(value, name) && EndsInWhitespace(name)
    ensures HostIn(value) != name
  {
    var before, after := TrimMeaning(name);
    BeforePortIff(value, name);
    LowerKeepsWhite(Trim(name));
  }

  lemma NameBeforePort(name: string, port: string)
    requires port != "" && !EndsInWhitespace(port)
    requires name != "" && !StartsWhite(name) && ':' !in name && !HasUpper(name)
    ensures NormalizeHost(name + ":" + port) == name && HasName(name + ":" + port, name)
  {
    var raw := name + ":" + port;
    NamePrecedesPort(name, port);
    UnspacedSurrounds(raw);
    assert SameUpToCase(name, name);
    NormalizeHostIff(raw, "", raw, "", name);
  }

  lemma NamePrecedesPort(name: string, port: string)
    requires name != "" && port != "" && ':' !in name
    ensures var raw := name + ":" + port;
      HasName(raw, name) && raw[0] == name[0] && raw[|raw| - 1] == port[|port| - 1]
  {
    assert (name + ":" + port)[..|name| + 1] == name + ":";
  }

  lemma UnspacedSurrounds(raw: string)
    requires !StartsWhite(raw) && !EndsInWhitespace(raw)
    ensures Surrounds(raw, "", raw, "")
  {
    assert "" + raw + "" == raw;
  }

  lemma SpacedHost()
    ensures NormalizeHost("h :80") == "h " && HasName("h :80", "h ")
  {
    assert "h " + ":" + "80" == "h :80";
    NameBeforePort("h ", "80");
  }

  const SPACED_BODY := BODY.(host := "h :80")

  /** A rule created with such a host is stored under a key that no URL made of it
      names. */
  lemma {:induction false} SpacedHostCannotBeAddressed(net: Net)
    ensures var p, k := Create(INIT, net, SPACED_BODY, true), RuleKey("h ", Exact, "/a");
      p.status == 201 && k in p.s.kv.rules && ParseUrl(UrlFor(k)) != Some(k)
  {
    SpacedHost();
    BodyPath();
    CreateReplies(INIT, net, SPACED_BODY, true);
    assert SPACED_BODY.targetUrl == "http://" + "t";
    AddressIff(RuleKey("h ", Exact, "/a"));
    assert IsWhitespace(' ');
  }

  lemma SupplementaryKeyIsEncodedApart()
    ensures EncodeUnits(Utf16("\U{1F600}")) != EncodeKey("\U{1F600}")
    ensures Decode(Encode("\U{1F600}")) != Canon("\U{1F600}")
  {
    EncodersAgreeIff("\U{1F600}");
    assert "\U{1F600}"[0] in "\U{1F600}";
    SubjectRoundTripIff("\U{1F600}");
  }

  /** The first four of its five digits are a surrogate, so the decoder loses it. */
  lemma SurrogateDigitsAreMisread()
    ensures Encode(Decode(Encode("\U{D8000}"))) != Encode("\U{D8000}")
  {
    ReencodeIsStableIff("\U{D8000}");
    assert IsMisread("\U{D8000}"[0]);
  }

  lemma BarInHostIsMisread()
    ensures ParseRuleKey(KRule(RuleKey("a|b", Exact, "/"))) != Some(RuleKey("a|b", Exact, "/"))
  {
    assert "a|b"[1] == '|';
    RuleKeyRoundTripIff(RuleKey("a|b", Exact, "/"));
  }

  lemma CleanPathNormalizesToItself(p: string)
    requires IsClean(p) && !EndsInWhitespace(p)
    ensures NormalizePathFn(p) == p
  {
    TrimRooted(p);
    CleanFixesClean(p);
  }

  /** A payload whose second entry makes the host of the first one case-insensitive
      is not idempotent if the first path is not lower case: the second run adds
      the first entry anew. */
  lemma {:induction false} LateFlipPayload(net: Net, first: Redirect, second: Redirect)
    requires IsValid(first) && IsValid(second) && NormalizeHost(first.host) == NormalizeHost(second.host)
    requires !first.caseInsensitive && second.caseInsensitive
    requires Lower(NormalizePathFn(first.path)) != NormalizePathFn(first.path)
    requires Lower(NormalizePathFn(first.path)) != Lower(NormalizePathFn(second.path))
    ensures var rules := [first, second];
      var s1 := Import(INIT, net, false, true, rules, []).s;
      var again := Import(s1, net, false, true, rules, []);
      again.untouched + again.errors != |rules|
  {
    var rules, h, hosts := [first, second], NormalizeHost(first.host), INIT.kv.hosts;
    InitIsCovered(SentinelUnit(h));
    assert AsksToFold(rules[1], h);
    LateFlipWrites(hosts, first, second);
    NotNamed(Writes(hosts, rules), KeyOf(AsRule(first, true)));
    assert FoldedBy(hosts, rules, h);
    LateFlipReadds(INIT.kv, rules, 0, KeyOf(AsRule(first, true)));
    SecondImportIff(INIT, net, true, rules, net, true);
  }

  lemma NotNamed(ws: seq<Write>, k: RuleKey)
    requires |ws| == 2 && ws[0].Some? && ws[1].Some? && KeyOf(ws[0].value) != k && KeyOf(ws[1].value) != k
    ensures !Named(ws, k)
  {
  }

  lemma {:induction false} LateFlipWrites(hosts: Hosts, first: Redirect, second: Redirect)
    requires IsValid(first) && IsValid(second) && NormalizeHost(first.host) == NormalizeHost(second.host)
    requires HostOr(hosts, NormalizeHost(first.host)).caseSensitive && !first.caseInsensitive && second.caseInsensitive
    ensures Writes(hosts, [first, second]) == [Some(AsRule(first, false)), Some(AsRule(second, true))]
  {
    var rules, h := [first, second], NormalizeHost(first.host);
    assert AsksToFold(rules[1], h);
    assert rules[..1] == [first] && !AsksToFold(first, h) && rules[..2] == rules;
    assert !FoldedBy(hosts, rules[..1], h) && FoldedBy(hosts, rules[..2], h);
    WritesIndexed(hosts, rules, 0);
    WritesIndexed(hosts, rules, 1);
  }

  lemma {:induction false} LateFlipExample(net: Net)
    ensures var rules := [BODY.(path := "/A"), BODY.(path := "/b", caseInsensitive := true)];
      var s1 := Import(INIT, net, false, true, rules, []).s;
      var again := Import(s1, net, false, true, rules, []);
      again.untouched + again.errors != |rules|
  {
    CleanPathNormalizesToItself("/A");
    CleanPathNormalizesToItself("/b");
    assert Lower("/A")[1] == 'a' && Lower("/b")[1] == 'b' && "/A"[1] == 'A';
    LateFlipPayload(net, BODY.(path := "/A"), BODY.(path := "/b", caseInsensitive := true));
  }
}
