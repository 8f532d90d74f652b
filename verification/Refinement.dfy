/** The edge refines the control plane: answering from the projection by first
    match in a sorted, sharded manifest is answering by a scan of all rules. */
module Refinement {
  import opened Text
  import opened Paths
  import opened Model
  import opened Manifest
  import opened EkvKeys
  import opened EdgeStore
  import opened Names
  import opened Protocol
  import opened Coverage
  import opened Imports
  import opened Lookup
  import opened EdgeWorker

  /** EdgeKV holds the projection of everything about one host. */
  ghost predicate Projected(kv: Kv, items: Items, host: string) {
    && Reading(items, SentinelUnit(host)) == Wanted(kv, SentinelUnit(host))
    && Reading(items, ManifestUnit(host)) == Wanted(kv, ManifestUnit(host))
    && forall p :: Reading(items, ExactUnit(host, p)) == Wanted(kv, ExactUnit(host, p))
  }

  ghost predicate WellFormed(kv: Kv) {
    Coherent(kv.rules) && Normal(kv.rules)
  }

  /** The JavaScript object a rule becomes. */
  function AsEdgeRule(r: Redirect): EdgeRule {
    if r.matchType == Exact then OfExact(ToExact(r)) else OfEntry(ToEntry(r))
  }

  function Serve(r: Option<Redirect>, path: string, query: string): Answer {
    match r
    case None => Pass
    case Some(r) => Served(r.statusCode, EdgeLocation(AsEdgeRule(r), path, query))
  }

  /** The EdgeWorker with every read succeeding and nothing cached. */
  function FreshAnswer(named: NamedItems, host: string, path: string, query: string): Answer {
    Answered(named, {}, false, ReadHost(named, host), host, path, query)
  }

  /** EdgeKV holds these items under their names, and the host has items of its
      own there. */
  ghost predicate Holding(named: NamedItems, items: Items, host: string) {
    NameableItems(items) && IsNamed(named, items) && IsNameable(host)
  }

  // ---------------------------------------------------------------------------
  // Reads by name
  // ---------------------------------------------------------------------------

  /** The shards of the host, as it is spelt, that cannot be read. */
  function ShardsDown(down: set<string>, host: string, n: nat): set<EkvKey> {
    set s: nat | s < n && JsName(Shard(host, s)) in down :: Shard(Seen(host), s)
  }

  lemma ShardByName(named: NamedItems, items: Items, down: set<string>, lost: set<EkvKey>, host: string, s: nat)
    requires Holding(named, items, host)
    requires Shard(Seen(host), s) in lost <==> JsName(Shard(host, s)) in down
    ensures var k := Shard(Seen(host), s);
      ReadNamedShard(named, down, host, s) == if k !in lost && k in items && items[k].Bare? then items[k].entries else []
  {
    JsRead(named, items, Shard(host, s));
  }

  lemma {:induction false} ShardsByName(named: NamedItems, items: Items, down: set<string>, lost: set<EkvKey>, host: string, s: nat, n: nat)
    requires Holding(named, items, host)
    requires forall i: nat :: i < n ==> (Shard(Seen(host), i) in lost <==> JsName(Shard(host, i)) in down)
    ensures ReadNamedShards(named, down, host, s, n) == ReadShards(items, lost, Seen(host), s, n)
    decreases if s < n then n - s else 0
  {
    if s < n {
      ShardsByName(named, items, down, lost, host, s + 1, n);
      ShardByName(named, items, down, lost, host, s);
    }
  }

  /** The manifest the worker reassembles is the one of the host as it spells it. */
  lemma ManifestByName(named: NamedItems, items: Items, down: set<string>, host: string) returns (lost: set<EkvKey>)
    requires Holding(named, items, host)
    ensures ReadNamedManifest(named, down, host) == ReadManifest(items, lost, Seen(host))
    ensures down == {} ==> lost == {}
  {
    JsRead(named, items, Shard(host, 0));
    var n := ReadHead(items, Seen(host)).count;
    lost := ShardsDown(down, host, n);
    ShardsByName(named, items, down, lost, host, 1, n);
  }

  // ---------------------------------------------------------------------------
  // Selection
  // ---------------------------------------------------------------------------

  /** The first match in the manifest is the longest enabled match of the scan. */
  lemma FirstMatchIsBest(rules: Rules, host: string, path: string, best: Option<Redirect>)
    requires Coherent(rules) && IsBest(rules, host, path, best)
    ensures FirstMatch(ManifestOf(rules, host), path) == match best case None => None case Some(r) => Some(ToEntry(r))
  {
    var m := ManifestOf(rules, host);
    ManifestFacts(rules, host);
    FirstMatchIsLongest(m, path);
    forall k | IsCandidate(rules, host, path, k) ensures ToEntry(rules[k]) in m && ToEntry(rules[k]).p == k.path {
      assert KeyOf(rules[k]) == k;
      assert IsEntryOf(rules, host, ToEntry(rules[k]));
    }
    if best.Some? {
      assert IsCandidate(rules, host, path, KeyOf(best.value));
      assert ToEntry(best.value) in m && Matches(ToEntry(best.value).p, path);
    }
    var got := FirstMatch(m, path);
    if got.Some? {
      var k := CandidateOf(rules, host, path, got.value);
      assert KeyOf(rules[k]) == k;
      assert IsBest(rules, host, path, Some(rules[k]));
      BestIsUnique(rules, host, path, best, Some(rules[k]));
    }
  }

  /** A matching manifest entry stands for a candidate rule. */
  lemma CandidateOf(rules: Rules, host: string, path: string, e: Entry) returns (k: RuleKey)
    requires Coherent(rules) && e in ManifestOf(rules, host) && Matches(e.p, path)
    ensures IsCandidate(rules, host, path, k) && e == ToEntry(rules[k]) && k.path == e.p
  {
    ManifestFacts(rules, host);
    k :| k in rules && k.host == host && IsListed(rules[k]) && e == ToEntry(rules[k]);
    assert KeyOf(rules[k]) == k;
  }

  function RecordOf(kv: Kv, host: string): Option<HostRecord> {
    if host in kv.hosts then Some(HostRecord(kv.hosts[host].enabled, kv.hosts[host].caseSensitive)) else None
  }

  lemma HostIsRead(kv: Kv, items: Items, named: NamedItems, host: string)
    requires Holding(named, items, host) && Projected(kv, items, Seen(host))
    ensures ReadHost(named, host) == RecordOf(kv, Seen(host))
  {
    JsRead(named, items, Sentinel(host));
    assert Reading(items, SentinelUnit(Seen(host))) == Wanted(kv, SentinelUnit(Seen(host)));
  }

  lemma ExactIsRead(kv: Kv, items: Items, named: NamedItems, host: string, path: string)
    requires Holding(named, items, host) && Projected(kv, items, Seen(host))
    ensures var k := RuleKey(Seen(host), Exact, Seen(path));
      ReadExact(named, host, path) ==
        if k in kv.rules && kv.rules[k].enabled then Some(OfExact(ToExact(kv.rules[k]))) else None
  {
    JsRead(named, items, ExactItem(host, path));
    assert Reading(items, ExactUnit(Seen(host), Seen(path))) == Wanted(kv, ExactUnit(Seen(host), Seen(path)));
  }

  /** The rule the EdgeWorker serves: that of the host as it spells it, the exact
      rule of the path as it spells it before the longest prefix of the path. */
  ghost predicate IsSelected(kv: Kv, host: string, path: string, selected: Option<Redirect>) {
    var h := Seen(host);
    var p := LookupPath(kv.hosts, h, path);
    var exact := RuleKey(h, Exact, Seen(p));
    if h !in kv.hosts || !kv.hosts[h].enabled then selected == None
    else if exact in kv.rules && kv.rules[exact].enabled then selected == Some(kv.rules[exact])
    else IsBest(kv.rules, h, p, selected)
  }

  lemma {:induction false} SelectedIsFound(kv: Kv, items: Items, named: NamedItems, host: string, path: string,
                                           selected: Option<Redirect>)
    requires WellFormed(kv) && Holding(named, items, host) && Projected(kv, items, Seen(host))
    requires Seen(host) in kv.hosts && kv.hosts[Seen(host)].enabled
    requires IsSelected(kv, host, path, selected)
    ensures Found(named, {}, host, LookupPath(kv.hosts, Seen(host), path)) ==
      match selected case None => None case Some(r) => Some(AsEdgeRule(r))
  {
    var h := Seen(host);
    var p := LookupPath(kv.hosts, h, path);
    var exact := RuleKey(h, Exact, Seen(p));
    ExactIsRead(kv, items, named, host, p);
    if exact in kv.rules && kv.rules[exact].enabled {
      assert KeyOf(kv.rules[exact]) == exact;
    } else {
      var lost := ManifestByName(named, items, {}, host);
      assert Reading(items, ManifestUnit(h)) == Wanted(kv, ManifestUnit(h));
      FirstMatchIsBest(kv.rules, h, p, selected);
    }
  }

  /** Whatever the request, the edge serves exactly the selected rule, through case
      folding, exact-before-prefix order, sharding and item names. */
  lemma {:induction false} EdgeServesSelected(kv: Kv, items: Items, named: NamedItems, host: string, path: string, query: string,
                                              selected: Option<Redirect>)
    requires WellFormed(kv) && Holding(named, items, host) && Projected(kv, items, Seen(host))
    requires IsSelected(kv, host, path, selected)
    requires !Contains(query, "ewdebug=1")
    ensures FreshAnswer(named, host, path, query) == Serve(selected, path, query)
  {
    var h := Seen(host);
    HostIsRead(kv, items, named, host);
    if h in kv.hosts && kv.hosts[h].enabled {
      SelectedIsFound(kv, items, named, host, path, selected);
      FoundIsServed(named, {}, RecordOf(kv, h), host, path, query);
    }
  }

  /** A worker that can read the items it asks for serves what it finds. */
  lemma {:induction false} FoundIsServed(named: NamedItems, down: set<string>, meta: Option<HostRecord>, host: string, path: string, query: string)
    requires meta.Some? && meta.value.enabled && !Contains(query, "ewdebug=1")
    ensures var p := FoldedPath(meta, path);
      var answer := Answered(named, down, false, meta, host, path, query);
      && (down == {} || answer != Pass ==> answer == ServeFound(Found(named, down, host, p), path, query))
  {
  }

  ghost predicate IsServedExactly(kv: Kv, host: string, path: string) {
    var k := RuleKey(host, Exact, path);
    k in kv.rules && kv.rules[k].enabled
  }

  /** The worker looks where the control plane looks: nothing in the request is
      above U+FFFF, or nothing but the path is and no exact rule is in play. */
  ghost predicate LooksAlike(kv: Kv, host: string, path: string) {
    var p := LookupPath(kv.hosts, host, path);
    IsBmp(host) && (IsBmp(path) || (!IsServedExactly(kv, host, p) && !IsServedExactly(kv, host, Seen(p))))
  }

  lemma LowerIsBmp(s: string)
    ensures IsBmp(Lower(s)) <==> IsBmp(s)
  {
    forall i | 0 <= i < |s| ensures Lower(s)[i] as int < 0x10000 <==> s[i] as int < 0x10000 {
    }
    assert forall i :: 0 <= i < |s| ==> (Lower(s)[i] as int < 0x10000 <==> s[i] as int < 0x10000);
  }

  /** The edge serves the rule the control plane selects exactly when it looks
      alike and the host is enabled, or there is nothing to serve on either side. */
  lemma {:induction false} EdgeSelectsLikeControlIff(kv: Kv, host: string, path: string, selected: Option<Redirect>, answer: Option<Redirect>)
    requires WellFormed(kv)
    requires IsSelected(kv, host, path, selected) && IsAnswer(kv, host, path, answer)
    ensures selected == answer <==>
      if LooksAlike(kv, host, path) then answer.None? || kv.hosts[host].enabled else selected.None? && answer.None?
  {
    var p := LookupPath(kv.hosts, host, path);
    LowerIsBmp(path);
    SeenIff(host);
    SeenIff(p);
    if IsBmp(host) {
      if !LooksAlike(kv, host, path) {
        ExactPathsDiffer(kv, host, p, selected, answer);
      } else {
        AlikeSelection(kv, host, path, selected, answer);
      }
    } else {
      SelectedHost(kv, host, path, selected);
      AnsweredHost(kv, host, path, answer);
    }
  }

  lemma SelectedHost(kv: Kv, host: string, path: string, selected: Option<Redirect>)
    requires WellFormed(kv) && IsSelected(kv, host, path, selected)
    ensures selected.Some? ==> selected.value.host == Seen(host) && selected.value.enabled
  {
    if selected.Some? {
      var h := Seen(host);
      var p := LookupPath(kv.hosts, h, path);
      var exact := RuleKey(h, Exact, Seen(p));
      if exact in kv.rules && kv.rules[exact].enabled {
        assert KeyOf(kv.rules[exact]) == exact;
      } else {
        assert IsCandidate(kv.rules, h, p, KeyOf(selected.value));
      }
    }
  }

  lemma AnsweredHost(kv: Kv, host: string, path: string, answer: Option<Redirect>)
    requires WellFormed(kv) && IsAnswer(kv, host, path, answer)
    ensures answer.Some? ==> answer.value.host == host
  {
    if answer.Some? {
      AnswerIsStored(kv, host, path, answer.value);
    }
  }

  /** One of two different exact paths is served; the other side serves something else. */
  lemma ExactPathsDiffer(kv: Kv, host: string, p: string, selected: Option<Redirect>, answer: Option<Redirect>)
    requires Coherent(kv.rules) && Seen(p) != p
    requires IsServedExactly(kv, host, p) || IsServedExactly(kv, host, Seen(p))
    requires host in kv.hosts ==>
      if IsServedExactly(kv, host, p) then answer == Some(kv.rules[RuleKey(host, Exact, p)]) else IsBest(kv.rules, host, p, answer)
    requires host !in kv.hosts ==> answer == None
    requires host in kv.hosts && kv.hosts[host].enabled ==>
      if IsServedExactly(kv, host, Seen(p)) then selected == Some(kv.rules[RuleKey(host, Exact, Seen(p))]) else IsBest(kv.rules, host, p, selected)
    requires !(host in kv.hosts && kv.hosts[host].enabled) ==> selected == None
    ensures selected == answer ==> selected == None
  {
    var a, b := RuleKey(host, Exact, p), RuleKey(host, Exact, Seen(p));
    assert a in kv.rules ==> KeyOf(kv.rules[a]) == a;
    assert b in kv.rules ==> KeyOf(kv.rules[b]) == b;
    if host in kv.hosts && kv.hosts[host].enabled && selected.Some? && answer.Some? {
      assert if IsServedExactly(kv, host, p) then KeyOf(answer.value) == a else IsCandidate(kv.rules, host, p, KeyOf(answer.value));
      assert if IsServedExactly(kv, host, Seen(p)) then KeyOf(selected.value) == b else IsCandidate(kv.rules, host, p, KeyOf(selected.value));
    }
  }

  lemma AlikeSelection(kv: Kv, host: string, path: string, selected: Option<Redirect>, answer: Option<Redirect>)
    requires WellFormed(kv) && LooksAlike(kv, host, path)
    requires IsSelected(kv, host, path, selected) && IsAnswer(kv, host, path, answer)
    ensures selected == if host in kv.hosts && kv.hosts[host].enabled then answer else None
    ensures answer.Some? ==> host in kv.hosts
  {
    var p := LookupPath(kv.hosts, host, path);
    LowerIsBmp(path);
    SeenIff(host);
    SeenIff(p);
    if host in kv.hosts && kv.hosts[host].enabled && !IsServedExactly(kv, host, p) {
      BestIsUnique(kv.rules, host, p, selected, answer);
    }
  }

  lemma {:induction false} SelectionExists(kv: Kv, host: string, path: string) returns (selected: Option<Redirect>)
    requires Coherent(kv.rules)
    ensures IsSelected(kv, host, path, selected)
  {
    var h := Seen(host);
    var p := LookupPath(kv.hosts, h, path);
    var exact := RuleKey(h, Exact, Seen(p));
    if h !in kv.hosts || !kv.hosts[h].enabled {
      selected := None;
    } else if exact in kv.rules && kv.rules[exact].enabled {
      selected := Some(kv.rules[exact]);
    } else {
      selected := BestExists(kv.rules, h, p);
    }
  }

  /** A stored, enabled exact rule of an enabled host is served to a request for
      its own path exactly when its host and path lie within U+FFFF. */
  lemma ExactRuleIsServedIff(kv: Kv, k: RuleKey, selected: Option<Redirect>)
    requires WellFormed(kv) && k in kv.rules && k.matchType == Exact && kv.rules[k].enabled
    requires k.host in kv.hosts && kv.hosts[k.host].enabled && LookupPath(kv.hosts, k.host, k.path) == k.path
    requires IsSelected(kv, k.host, k.path, selected)
    ensures selected == Some(kv.rules[k]) <==> IsBmp(k.host) && IsBmp(k.path)
  {
    var answer := Some(kv.rules[k]);
    assert IsAnswer(kv, k.host, k.path, answer);
    EdgeSelectsLikeControlIff(kv, k.host, k.path, selected, answer);
  }

  // ---------------------------------------------------------------------------
  // Location
  // ---------------------------------------------------------------------------

  predicate EndsWithTwoSlashes(s: string) {
    |s| >= 2 && EndsWithSlash(s) && EndsWithSlash(s[..|s| - 1])
  }

  lemma TrimsAgreeIff(t: string)
    ensures WithoutOneSlash(t) == WithoutTrailingSlashes(t) <==> !EndsWithTwoSlashes(t)
    ensures |WithoutOneSlash(t)| == |WithoutTrailingSlashes(t)| <==> !EndsWithTwoSlashes(t)
  {
  }

  lemma {:induction false} TrimKeepsMarks(t: string)
    ensures '?' in WithoutTrailingSlashes(t) <==> '?' in t
    ensures '?' in WithoutOneSlash(t) <==> '?' in t
  {
    if EndsWithSlash(t) {
      var init := t[..|t| - 1];
      assert t == init + "/";
      TrimKeepsMarks(init);
    }
  }

  /** Rust trims every trailing slash of the target, JavaScript one. The two
      locations differ exactly when a suffix is appended to a target that ends in
      two slashes. */
  lemma LocationsAgreeIff(r: Redirect, path: string, query: string)
    requires r.path != ""
    ensures EdgeLocation(AsEdgeRule(r), path, query) == ControlLocation(r, path, query) <==>
      !(AppendsSuffix(r, path) && EndsWithTwoSlashes(r.targetUrl))
  {
    if AppendsSuffix(r, path) {
      var t, suffix := r.targetUrl, path[|r.path|..];
      var a, b := WithoutOneSlash(t) + suffix, WithoutTrailingSlashes(t) + suffix;
      TrimsAgreeIff(t);
      TrimKeepsMarks(t);
      assert '?' in a <==> '?' in t || '?' in suffix;
      assert '?' in b <==> '?' in t || '?' in suffix;
      assert |a| == |b| <==> !EndsWithTwoSlashes(t);
      if EndsWithTwoSlashes(t) {
        assert |EdgeLocation(AsEdgeRule(r), path, query)| != |ControlLocation(r, path, query)|;
      }
    }
  }

  // ---------------------------------------------------------------------------
  // Edge refines control
  // ---------------------------------------------------------------------------

  function AsAnswer(response: Response): Answer {
    match response
    case Redirected(status, location) => Served(status, location)
    case _ => Pass
  }

  /** The rule appends a suffix to a target ending in two slashes. */
  predicate Misbuilds(r: Redirect, path: string) {
    AppendsSuffix(r, path) && EndsWithTwoSlashes(r.targetUrl)
  }

  lemma AnswerIsStored(kv: Kv, host: string, path: string, r: Redirect)
    requires WellFormed(kv) && IsAnswer(kv, host, path, Some(r))
    ensures KeyOf(r) in kv.rules && kv.rules[KeyOf(r)] == r && r.path != "" && r.host == host
  {
    var p := LookupPath(kv.hosts, host, path);
    var exact := RuleKey(host, Exact, p);
    if exact in kv.rules && kv.rules[exact].enabled {
      assert KeyOf(kv.rules[exact]) == exact;
    } else {
      assert IsCandidate(kv.rules, host, p, KeyOf(r));
    }
    assert IsNormal(KeyOf(r), r);
  }

  /** When EdgeKV holds the projection and can be read, and the worker looks where
      the control plane looks, they give one request the same status and location,
      or both let it through, exactly when the control plane finds no rule, or the
      host is enabled and the rule does not misbuild its location. Within U+FFFF it
      always looks there. */
  lemma EdgeRefinesControlIff(kv: Kv, items: Items, named: NamedItems, host: string, rawPath: string, query: string,
                              answer: Option<Redirect>, response: Response)
    requires WellFormed(kv) && Holding(named, items, host) && Projected(kv, items, Seen(host))
    requires host != "" && Trim(rawPath) == rawPath && !Contains(query, "ewdebug=1")
    requires IsAnswer(kv, host, Clean(rawPath), answer)
    requires IsResponse(kv, host, rawPath, query, response)
    ensures LooksAlike(kv, host, Clean(rawPath)) ==>
      (FreshAnswer(named, host, Clean(rawPath), query) == AsAnswer(response) <==>
        answer.None? || (kv.hosts[host].enabled && !Misbuilds(answer.value, Clean(rawPath))))
    ensures IsBmp(host) && IsBmp(Clean(rawPath)) ==> LooksAlike(kv, host, Clean(rawPath))
  {
    var path := Clean(rawPath);
    if LooksAlike(kv, host, path) {
      var selected := SelectionExists(kv, host, path);
      EdgeServesSelected(kv, items, named, host, path, query, selected);
      AlikeSelection(kv, host, path, selected, answer);
      ControlAnswers(kv, host, rawPath, query, answer, response);
      if answer.Some? {
        AnswerIsStored(kv, host, path, answer.value);
        LocationsAgreeIff(answer.value, path, query);
      }
    }
  }

  /** Whatever the worker looks at: both sides give one answer exactly when neither
      has a rule, or each has one and the two agree on status and location. */
  lemma EdgeAnswersLikeControlIff(kv: Kv, items: Items, named: NamedItems, host: string, rawPath: string, query: string,
                                  selected: Option<Redirect>, answer: Option<Redirect>, response: Response)
    requires WellFormed(kv) && Holding(named, items, host) && Projected(kv, items, Seen(host))
    requires host != "" && Trim(rawPath) == rawPath && !Contains(query, "ewdebug=1")
    requires IsSelected(kv, host, Clean(rawPath), selected) && IsAnswer(kv, host, Clean(rawPath), answer)
    requires IsResponse(kv, host, rawPath, query, response)
    ensures FreshAnswer(named, host, Clean(rawPath), query) == AsAnswer(response) <==>
      (selected.None? <==> answer.None?) &&
      (selected.Some? && answer.Some? ==> SameRedirect(selected.value, answer.value, Clean(rawPath), query))
  {
    EdgeServesSelected(kv, items, named, host, Clean(rawPath), query, selected);
    ControlAnswers(kv, host, rawPath, query, answer, response);
  }

  predicate SameRedirect(r: Redirect, q: Redirect, path: string, query: string) {
    r.statusCode == q.statusCode && EdgeLocation(AsEdgeRule(r), path, query) == ControlLocation(q, path, query)
  }

  lemma ControlAnswers(kv: Kv, host: string, rawPath: string, query: string, answer: Option<Redirect>, response: Response)
    requires host != "" && Trim(rawPath) == rawPath
    requires IsAnswer(kv, host, Clean(rawPath), answer) && IsResponse(kv, host, rawPath, query, response)
    ensures response == match answer
      case None => NotFound
      case Some(r) => Redirected(r.statusCode, ControlLocation(r, Clean(rawPath), query))
  {
    var path := Clean(rawPath);
    var a :| IsAnswer(kv, host, path, a) && response ==
      match a case None => NotFound case Some(r) => Redirected(r.statusCode, ControlLocation(r, path, query));
    AnswerIsUnique(kv, host, path, a, answer);
  }

  // ---------------------------------------------------------------------------
  // Unreadable items
  // ---------------------------------------------------------------------------

  /** An answer that is not wrong: the exact rule of the path as the worker spells
      it if there is one, otherwise a genuine enabled match no longer than the best. */
  ghost predicate IsSound(kv: Kv, host: string, path: string, r: Redirect) {
    if IsServedExactly(kv, host, Seen(path)) then r == kv.rules[RuleKey(host, Exact, Seen(path))]
    else
      && IsCandidate(kv.rules, host, path, KeyOf(r)) && kv.rules[KeyOf(r)] == r
      && forall best :: IsBest(kv.rules, host, path, Some(best)) ==> |r.path| <= |best.path|
  }

  /** Whatever item names cannot be read, the EdgeWorker either lets the request
      through or serves a rule that is not wrong for the host and path as it spells
      them, which is as they are within U+FFFF. */
  lemma {:induction false} DegradedReadsAreSound(kv: Kv, items: Items, named: NamedItems, down: set<string>, failed: bool,
                                                 host: string, path: string, query: string)
    requires WellFormed(kv) && Holding(named, items, host) && Projected(kv, items, Seen(host))
    requires !Contains(query, "ewdebug=1")
    ensures var answer, h := Answered(named, down, failed, ReadHost(named, host), host, path, query), Seen(host);
      answer == Pass || exists r :: IsSound(kv, h, LookupPath(kv.hosts, h, path), r) && answer == Serve(Some(r), path, query)
    ensures IsBmp(host) ==> Seen(host) == host
    ensures IsBmp(path) ==> Seen(LookupPath(kv.hosts, Seen(host), path)) == LookupPath(kv.hosts, Seen(host), path)
  {
    var h := Seen(host);
    var p := LookupPath(kv.hosts, h, path);
    SeenIff(host);
    LowerIsBmp(path);
    SeenIff(p);
    HostIsRead(kv, items, named, host);
    if Answered(named, down, failed, ReadHost(named, host), host, path, query) != Pass {
      var r := DegradedAnswer(kv, items, named, down, failed, host, path, query);
    }
  }

  lemma {:induction false} DegradedAnswer(kv: Kv, items: Items, named: NamedItems, down: set<string>, failed: bool,
                                          host: string, path: string, query: string) returns (r: Redirect)
    requires WellFormed(kv) && Holding(named, items, host) && Projected(kv, items, Seen(host))
    requires !Contains(query, "ewdebug=1")
    requires Answered(named, down, failed, ReadHost(named, host), host, path, query) != Pass
    ensures IsSound(kv, Seen(host), LookupPath(kv.hosts, Seen(host), path), r)
    ensures Answered(named, down, failed, ReadHost(named, host), host, path, query) == Serve(Some(r), path, query)
  {
    var meta := RecordOf(kv, Seen(host));
    HostIsRead(kv, items, named, host);
    FoundIsServed(named, down, meta, host, path, query);
    r := DegradedRule(kv, items, named, down, host, FoldedPath(meta, path));
  }

  /** What a worker that gets as far as a rule serves. */
  lemma {:induction false} DegradedRule(kv: Kv, items: Items, named: NamedItems, down: set<string>, host: string, path: string)
      returns (r: Redirect)
    requires WellFormed(kv) && Holding(named, items, host) && Projected(kv, items, Seen(host))
    requires Found(named, down, host, path).Some?
    ensures IsSound(kv, Seen(host), path, r)
    ensures Found(named, down, host, path) == Some(AsEdgeRule(r))
  {
    var h := Seen(host);
    ExactIsRead(kv, items, named, host, path);
    if IsServedExactly(kv, h, Seen(path)) {
      r := kv.rules[RuleKey(h, Exact, Seen(path))];
      assert KeyOf(r) == RuleKey(h, Exact, Seen(path));
    } else {
      r := DegradedScanned(kv, items, named, down, host, path);
    }
  }

  lemma {:induction false} DegradedScanned(kv: Kv, items: Items, named: NamedItems, down: set<string>, host: string, path: string)
      returns (r: Redirect)
    requires WellFormed(kv) && Holding(named, items, host) && Projected(kv, items, Seen(host))
    requires ScanManifest(named, down, host, path).Some?
    ensures IsCandidate(kv.rules, Seen(host), path, KeyOf(r)) && kv.rules[KeyOf(r)] == r
    ensures forall best :: IsBest(kv.rules, Seen(host), path, Some(best)) ==> |r.path| <= |best.path|
    ensures ScanManifest(named, down, host, path) == Some(AsEdgeRule(r))
  {
    var lost := ManifestByName(named, items, down, host);
    r := DegradedPrefix(kv, items, lost, Seen(host), path);
  }

  lemma DegradedPrefix(kv: Kv, items: Items, lost: set<EkvKey>, host: string, path: string) returns (r: Redirect)
    requires WellFormed(kv) && Projected(kv, items, host)
    requires FirstMatch(ReadManifest(items, lost, host), path).Some?
    ensures IsCandidate(kv.rules, host, path, KeyOf(r)) && kv.rules[KeyOf(r)] == r
    ensures forall best :: IsBest(kv.rules, host, path, Some(best)) ==> |r.path| <= |best.path|
    ensures FirstMatch(ReadManifest(items, lost, host), path) == Some(ToEntry(r))
  {
    assert Reading(items, ManifestUnit(host)) == Wanted(kv, ManifestUnit(host));
    ManifestFacts(kv.rules, host);
    DegradedScan(items, lost, host, path);
    var got := FirstMatch(ReadManifest(items, lost, host), path).value;
    var k := CandidateOf(kv.rules, host, path, got);
    r := kv.rules[k];
    assert KeyOf(r) == k;
  }
}
