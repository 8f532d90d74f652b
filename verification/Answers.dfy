/** Which requests a rule answers, and with what: casing, locations, debugging. */
module Answers {
  import opened Text
  import opened Paths
  import opened Model
  import opened Folding
  import opened EkvKeys
  import opened Protocol
  import opened Lookup
  import opened Names
  import opened EdgeWorker

  ghost predicate IsFoldingHost(kv: Kv, host: string) {
    host in kv.hosts && !kv.hosts[host].caseSensitive
  }

  // ---------------------------------------------------------------------------
  // Casing
  // ---------------------------------------------------------------------------

  /** On a case-insensitive host paths that differ in case only get one answer. */
  lemma CasingsGetOneAnswer(kv: Kv, host: string, p: string, q: string, answer: Option<Redirect>)
    requires IsFoldingHost(kv, host) && SameUpToCase(p, q)
    ensures IsAnswer(kv, host, p, answer) <==> IsAnswer(kv, host, q, answer)
  {
    FoldsAlikeIff(p, q);
  }

  /** There a stored, enabled exact rule with a lower-case path answers every casing
      of its path. */
  lemma ExactAnswersCasings(kv: Kv, k: RuleKey, p: string)
    requires IsFoldingHost(kv, k.host) && k in kv.rules && k.matchType == Exact && kv.rules[k].enabled
    requires !HasUpper(k.path) && SameUpToCase(p, k.path)
    ensures IsAnswer(kv, k.host, p, Some(kv.rules[k]))
  {
    FoldsAlikeIff(p, k.path);
    LowerFixesIff(k.path);
  }

  /** And a prefix rule with a lower-case path answers every casing of what it
      matches, unless a more specific rule does. */
  lemma PrefixAnswersCasings(kv: Kv, k: RuleKey, name: string, rest: string, answer: Option<Redirect>)
    requires Coherent(kv.rules)
    requires IsFoldingHost(kv, k.host) && k in kv.rules && k.matchType == Prefix && kv.rules[k].enabled
    requires !HasUpper(k.path) && SameUpToCase(name, k.path) && (rest == "" || rest[0] == '/')
    requires IsAnswer(kv, k.host, name + rest, answer)
    ensures answer.Some? && (answer.value.matchType == Prefix ==> |answer.value.path| >= |k.path|)
  {
    var p := Lower(name + rest);
    FoldsAlikeIff(name, k.path);
    LowerFixesIff(k.path);
    LowerAppend(name, rest);
    assert p == k.path + Lower(rest);
    if rest != "" {
      assert Lower(rest) == "/" + Lower(rest)[1..];
      assert p == k.path + "/" + Lower(rest)[1..];
    }
    assert IsCandidate(kv.rules, k.host, p, k);
    if RuleKey(k.host, Exact, p) in kv.rules && kv.rules[RuleKey(k.host, Exact, p)].enabled {
      assert KeyOf(kv.rules[RuleKey(k.host, Exact, p)]).matchType == Exact;
    }
  }

  /** Elsewhere the case of a path counts. */
  lemma ExactAnswersItsPathOnly(kv: Kv, host: string, p: string, r: Redirect)
    requires Coherent(kv.rules) && IsAnswer(kv, host, p, Some(r)) && r.matchType == Exact
    ensures KeyOf(r) in kv.rules && kv.rules[KeyOf(r)] == r && r.enabled && r.host == host
    ensures if IsFoldingHost(kv, host) then SameUpToCase(p, r.path) && !HasUpper(r.path) else r.path == p
  {
    var k := RuleKey(host, Exact, LookupPath(kv.hosts, host, p));
    LowerMeaning(p);
    assert k in kv.rules ==> KeyOf(kv.rules[k]) == k;
  }

  // ---------------------------------------------------------------------------
  // Locations
  // ---------------------------------------------------------------------------

  lemma {:induction false} SlashesTrim(t: string, slashes: string)
    requires !EndsWithSlash(t) && forall i :: 0 <= i < |slashes| ==> slashes[i] == '/'
    ensures WithoutTrailingSlashes(t + slashes) == t
  {
    if slashes == "" {
      assert t + slashes == t;
    } else {
      var s, init := t + slashes, slashes[..|slashes| - 1];
      assert s[..|s| - 1] == t + init && s[|s| - 1] == slashes[|slashes| - 1];
      SlashesTrim(t, init);
    }
  }

  /** Where a request for `matched + rest` goes: to the target, or to the target
      without its trailing slashes and the rest of the path, for a prefix rule that
      preserves paths; and the query follows a question mark, or an ampersand if
      there is a question mark already. */
  lemma LocationIs(r: Redirect, matched: string, rest: string, t: string, slashes: string, query: string)
    requires |matched| == |r.path| && r.targetUrl == t + slashes
    requires !EndsWithSlash(t) && forall i :: 0 <= i < |slashes| ==> slashes[i] == '/'
    ensures var base := if r.matchType == Prefix && r.preservePath && rest != "" then t + rest else r.targetUrl;
      ControlLocation(r, matched + rest, query) ==
        if !r.preserveQuery || query == "" then base
        else if '?' in base then base + "&" + query
        else base + "?" + query
  {
    SlashesTrim(t, slashes);
    assert (matched + rest)[|matched|..] == rest;
  }

  lemma SlashSplit(url: string) returns (t: string, slashes: string)
    ensures url == t + slashes && !EndsWithSlash(t) && forall i :: 0 <= i < |slashes| ==> slashes[i] == '/'
  {
    t, slashes := url, "";
    while EndsWithSlash(t)
      invariant url == t + slashes && forall i :: 0 <= i < |slashes| ==> slashes[i] == '/'
      decreases |t|
    {
      slashes := "/" + slashes;
      t := t[..|t| - 1];
    }
  }

  /** What the resolver answers: 400 without a host, 404 without a rule, and
      otherwise the rule's status and location. */
  lemma ResponseIs(kv: Kv, host: string, rawPath: string, query: string, answer: Option<Redirect>, response: Response)
    requires IsResponse(kv, host, rawPath, query, response)
    requires IsAnswer(kv, host, NormalizePathFn(rawPath), answer)
    ensures host == "" <==> response.BadRequest?
    ensures host != "" && answer.None? ==> response.NotFound?
    ensures host != "" && answer.Some? ==>
      response == Redirected(answer.value.statusCode, ControlLocation(answer.value, NormalizePathFn(rawPath), query))
  {
    var path := NormalizePathFn(rawPath);
    if host != "" {
      var a :| IsAnswer(kv, host, path, a) && response ==
        match a case None => NotFound case Some(r) => Redirected(r.statusCode, ControlLocation(r, path, query));
      AnswerIsUnique(kv, host, path, a, answer);
    }
  }

  // ---------------------------------------------------------------------------
  // Debugging, unknown and disabled hosts
  // ---------------------------------------------------------------------------

  /** A query with the debug flag is never redirected: it is answered by the debug
      page, or let through when only the manifest's head cannot be read. */
  lemma DebugNeverRedirects(named: NamedItems, down: set<string>, failed: bool, meta: Option<HostRecord>,
                            host: string, path: string, before: string, after: string)
    ensures var query := before + "ewdebug=1" + after;
      var p := FoldedPath(meta, path);
      Answered(named, down, failed, meta, host, path, query) ==
        if JsName(ExactItem(host, p)) !in down && ReadExact(named, host, p).None? && JsName(Shard(host, 0)) in down then Pass
        else Debug
  {
    ContainsIff(before + "ewdebug=1" + after, "ewdebug=1");
    var query := before + "ewdebug=1" + after;
    assert query[|before|..|before| + 9] == "ewdebug=1";
    assert OccursAt(query, "ewdebug=1", |before|);
  }

  /** Otherwise a request is let through when the host's record could not be read,
      or there is none, or it says disabled. */
  lemma UnmanagedPasses(named: NamedItems, down: set<string>, failed: bool, meta: Option<HostRecord>,
                        host: string, path: string, query: string)
    requires failed || meta.None? || !meta.value.enabled
    requires forall i: nat :: !OccursAt(query, "ewdebug=1", i)
    ensures Answered(named, down, failed, meta, host, path, query) == Pass
  {
    ContainsIff(query, "ewdebug=1");
  }
}
