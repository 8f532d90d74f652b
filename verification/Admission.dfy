/** What a request body says and a URL names, and what becomes of them: the
    replies of the single-rule operations and the rules they leave, told from the
    request alone. */
module Admission {
  import opened Text
  import opened Paths
  import opened Model
  import opened Folding
  import opened EdgeStore
  import opened Keys
  import opened Protocol
  import opened Handlers
  import opened Coverage
  import opened Mutations
  import opened Listings
  import opened LastWriter
  import opened Imports
  import opened ImportCoverage

  // ---------------------------------------------------------------------------
  // Bodies
  // ---------------------------------------------------------------------------

  ghost predicate IsAbsoluteUrl(url: string) {
    exists rest :: url == "http://" + rest || url == "https://" + rest
  }

  /** The bodies that are admitted. */
  ghost predicate IsAcceptable(body: Redirect) {
    && body.host != "" && IsAbsoluteUrl(body.targetUrl)
    && (body.statusCode == 301 || body.statusCode == 302 || body.statusCode == 307 || body.statusCode == 308)
  }

  lemma AcceptableIff(body: Redirect)
    ensures IsValid(body) <==> IsAcceptable(body)
  {
    var url := body.targetUrl;
    if "http://" <= url {
      assert url == "http://" + url[7..];
    }
    if "https://" <= url {
      assert url == "https://" + url[8..];
    }
  }

  /** The rule's path is to be folded: its host is, or it asks for it. */
  predicate IsFolded(hosts: Hosts, body: Redirect) {
    body.caseInsensitive || !HostOr(hosts, NormalizeHost(body.host)).caseSensitive
  }

  /** Where the rule of a body is stored. */
  function KeyFor(hosts: Hosts, body: Redirect): RuleKey {
    var path := NormalizePathFn(body.path);
    RuleKey(NormalizeHost(body.host), body.matchType, if IsFolded(hosts, body) then Lower(path) else path)
  }

  /** The rule under the key says what the body says. */
  ghost predicate IsStoredAs(rules: Rules, k: RuleKey, body: Redirect) {
    && k in rules && KeyOf(rules[k]) == k && !rules[k].caseInsensitive
    && rules[k].targetUrl == body.targetUrl && rules[k].statusCode == body.statusCode
    && rules[k].preservePath == body.preservePath && rules[k].preserveQuery == body.preserveQuery
    && rules[k].enabled == body.enabled && rules[k].priority == body.priority && rules[k].notes == body.notes
  }

  /** Every other rule is as it was. */
  ghost predicate OnlyAt(a: Rules, b: Rules, k: RuleKey) {
    forall x :: x != k ==> (x in a <==> x in b) && (x in a ==> a[x] == b[x])
  }

  ghost predicate OnlyHost(a: Hosts, b: Hosts, h: string) {
    forall x :: x != h ==> (x in a <==> x in b) && (x in a ==> a[x] == b[x])
  }

  // ---------------------------------------------------------------------------
  // Create
  // ---------------------------------------------------------------------------

  /** POST: 400 for a body that is not acceptable, and nothing happens; 409 for a
      rule that exists, and only the host's flag may change; otherwise 201, and the
      rule is stored as the body says, its host counted up and folded if asked. */
  lemma {:induction false} CreateReplies(s: State, net: Net, body: Redirect, async: bool)
    ensures var p, k, h := Create(s, net, body, async), KeyFor(s.kv.hosts, body), NormalizeHost(body.host);
      && p.status == (if !IsAcceptable(body) then 400 else if k in s.kv.rules then 409 else 201)
      && (p.status == 400 ==> p.s == s)
      && (p.status == 409 ==> p.s.kv.rules == s.kv.rules)
      && (p.status == 201 ==> IsStoredAs(p.s.kv.rules, k, body) && OnlyAt(s.kv.rules, p.s.kv.rules, k))
      && OnlyHost(s.kv.hosts, p.s.kv.hosts, h)
  {
    AcceptableIff(body);
    CreateStores(s, net, body, async);
  }

  /** What becomes of the host's record, whose count is 64 bits wide. */
  lemma {:induction false} CreateRecords(s: State, net: Net, body: Redirect, async: bool)
    requires IsAcceptable(body) && HostOr(s.kv.hosts, NormalizeHost(body.host)).ruleCount <= 18446744073709551615
    ensures var p, h := Create(s, net, body, async), NormalizeHost(body.host);
      var before, after := HostOr(s.kv.hosts, h), HostOr(p.s.kv.hosts, h);
      && after.caseSensitive == !IsFolded(s.kv.hosts, body)
      && after.enabled == before.enabled && after.host == before.host
      && after.ruleCount == before.ruleCount + if p.status == 201 && before.ruleCount < 18446744073709551615 then 1 else 0
  {
    AcceptableIff(body);
  }

  // ---------------------------------------------------------------------------
  // URLs
  // ---------------------------------------------------------------------------

  /** The URL of a rule: its host, the name of its type, its path without the
      leading slash. */
  function UrlFor(k: RuleKey): Url {
    Url(k.host, match k.matchType case Exact => "exact" case Prefix => "prefix", if k.path == "" then "" else k.path[1..])
  }

  /** A key that is written as it is stored. */
  ghost predicate IsAddressable(k: RuleKey) {
    && IsLowerHost(k.host) && !StartsWhite(k.host) && !EndsInWhitespace(k.host)
    && IsClean(k.path) && !EndsInWhitespace(k.path)
  }

  /** The URL of a rule names exactly that rule if and only if its host has no
      port, no upper-case letter and no white space around it, and its path is
      clean and does not end in white space. */
  lemma {:induction false} AddressIff(k: RuleKey)
    ensures ParseUrl(UrlFor(k)) == Some(k) <==> IsAddressable(k)
  {
    var p := "/" + UrlFor(k).wildcard;
    UrlIsParsed(k);
    NormalHostIff(k.host);
    RootedNormalIff(p);
    RootedPath(k);
    if !("/" <= k.path) {
      NormalIsRooted(p);
    }
  }

  /** The name of the type is read back, and host and path are brought into normal
      form. */
  lemma UrlIsParsed(k: RuleKey)
    ensures ParseUrl(UrlFor(k)) ==
      Some(RuleKey(NormalizeHost(k.host), k.matchType, NormalizePathFn("/" + UrlFor(k).wildcard)))
  {
    TypeNamesIff(UrlFor(k).matchType);
  }

  lemma RootedPath(k: RuleKey)
    ensures "/" <= k.path ==> "/" + UrlFor(k).wildcard == k.path
  {
  }

  lemma NormalIsRooted(p: string)
    ensures "/" <= NormalizePathFn(p)
  {
    CleanIsClean(Trim(p));
  }

  lemma RootedNormalIff(p: string)
    requires "/" <= p
    ensures NormalizePathFn(p) == p <==> IsClean(p) && !EndsInWhitespace(p)
  {
    TrimFixesIff(p);
    TrimShortens(p);
    assert !StartsWhite(p);
    if EndsInWhitespace(p) {
      TrimmedStaysRooted(p);
      CleanShortens(Trim(p));
    } else if IsClean(p) {
      CleanFixesClean(p);
    } else {
      CleanIsClean(p);
    }
  }

  lemma TrimmedStaysRooted(p: string)
    requires "/" <= p
    ensures "/" <= Trim(p)
  {
    assert !IsWhitespace('/');
    assert TrimStart(p) == p;
    assert |Trim(p)| > 0 && Trim(p) == p[..|Trim(p)|];
  }

  lemma CleanShortens(p: string)
    requires "/" <= p
    ensures |Clean(p)| <= |p|
  {
  }

  /** Only the literal type names are parsed. */
  lemma TypeNamesIff(name: string)
    ensures ParseMatchType(name) == Some(Exact) <==> name == "exact"
    ensures ParseMatchType(name) == Some(Prefix) <==> name == "prefix"
  {
  }

  // ---------------------------------------------------------------------------
  // Delete
  // ---------------------------------------------------------------------------

  /** The record but for the count, which is one less unless it was 0. */
  ghost predicate IsCountedDown(a: Hosts, b: Hosts, h: string) {
    var before, after := HostOr(a, h), HostOr(b, h);
    && after.enabled == before.enabled && after.caseSensitive == before.caseSensitive && after.host == before.host
    && (if before.ruleCount == 0 then after.ruleCount == 0 else after.ruleCount + 1 == before.ruleCount)
  }

  /** DELETE: 400 for a URL that names no rule and 404 for a rule that is not
      there, and nothing happens; otherwise 200, exactly that rule is gone, and only
      its host's record is written, counted down. */
  lemma {:induction false} DeleteReplies(s: State, net: Net, url: Url, async: bool)
    ensures var p, parsed := Delete(s, net, url, async), ParseUrl(url);
      && p.status == (if parsed.None? then 400 else if parsed.value !in s.kv.rules then 404 else 200)
      && (p.status != 200 ==> p.s == s)
      && (p.status == 200 ==>
           && parsed.value !in p.s.kv.rules && OnlyAt(s.kv.rules, p.s.kv.rules, parsed.value)
           && OnlyHost(s.kv.hosts, p.s.kv.hosts, parsed.value.host)
           && IsCountedDown(s.kv.hosts, p.s.kv.hosts, parsed.value.host))
    ensures ParseUrl(url).None? <==> url.matchType != "exact" && url.matchType != "prefix"
  {
  }

  /** The URL of an addressable rule deletes that rule and no other. */
  lemma {:induction false} AddressedDelete(s: State, net: Net, k: RuleKey, async: bool)
    requires IsAddressable(k)
    ensures var p := Delete(s, net, UrlFor(k), async);
      && p.status == (if k in s.kv.rules then 200 else 404)
      && k !in p.s.kv.rules && OnlyAt(s.kv.rules, p.s.kv.rules, k)
  {
    AddressIff(k);
    DeleteReplies(s, net, UrlFor(k), async);
  }

  // ---------------------------------------------------------------------------
  // Update
  // ---------------------------------------------------------------------------

  /** The key a body spells, before folding. */
  function SpeltKey(body: Redirect): RuleKey {
    RuleKey(NormalizeHost(body.host), body.matchType, NormalizePathFn(body.path))
  }

  /** PUT: 400 for a URL that names no rule, a body that is not acceptable, or two
      that disagree, 404 for a rule that is not there, and nothing happens;
      otherwise 200, and the rule under the folded key is stored as the body says. */
  lemma {:induction false} UpdateReplies(s: State, net: Net, url: Url, body: Redirect, async: bool)
    ensures var p, k := Update(s, net, url, body, async), KeyFor(s.kv.hosts, body.(caseInsensitive := false));
      && p.status == (if !IsAcceptable(body) || ParseUrl(url) != Some(SpeltKey(body)) then 400
                      else if k !in s.kv.rules then 404 else 200)
      && (p.status != 200 ==> p.s == s)
      && (p.status == 200 ==> IsStoredAs(p.s.kv.rules, k, body) && OnlyAt(s.kv.rules, p.s.kv.rules, k))
      && p.s.kv.hosts == s.kv.hosts
  {
    AcceptableIff(body);
    assert KeyOf(Normalized(body)) == SpeltKey(body);
    if IsValid(body) && ParseUrl(url) == Some(SpeltKey(body)) {
      ReplaceReplies(s, net, body.(caseInsensitive := false), async);
      assert Normalized(body.(caseInsensitive := false)) == Normalized(body).(caseInsensitive := false);
    }
  }

  lemma {:induction false} ReplaceReplies(s: State, net: Net, body: Redirect, async: bool)
    requires !body.caseInsensitive
    ensures var p, k := ReplaceFolded(s, net, Normalized(body), async), KeyFor(s.kv.hosts, body);
      && p.status == (if k !in s.kv.rules then 404 else 200)
      && (p.status != 200 ==> p.s == s)
      && (p.status == 200 ==> IsStoredAs(p.s.kv.rules, k, body) && OnlyAt(s.kv.rules, p.s.kv.rules, k))
      && p.s.kv.hosts == s.kv.hosts
  {
    var f := ApplyCi(s.kv.hosts, Normalized(body));
    assert WithHosts(s, f.hosts) == s;
    assert KeyOf(f.rule) == KeyFor(s.kv.hosts, body);
  }

  /** The URL of an addressable rule with an acceptable body of its key updates
      that rule and no other, on a host that does not fold. */
  lemma {:induction false} AddressedUpdate(s: State, net: Net, k: RuleKey, body: Redirect, async: bool)
    requires IsAddressable(k) && IsAcceptable(body) && SpeltKey(body) == k
    requires HostOr(s.kv.hosts, k.host).caseSensitive
    ensures var p := Update(s, net, UrlFor(k), body, async);
      && p.status == (if k in s.kv.rules then 200 else 404)
      && (k in s.kv.rules ==> IsStoredAs(p.s.kv.rules, k, body))
      && OnlyAt(s.kv.rules, p.s.kv.rules, k)
  {
    AddressIff(k);
    UpdateReplies(s, net, UrlFor(k), body, async);
  }

  // ---------------------------------------------------------------------------
  // Host records
  // ---------------------------------------------------------------------------

  /** PUT of a host: 400 without a host, and nothing happens; otherwise 200, and
      its record is the body's but for the name and, if it is known, the count. */
  lemma {:induction false} PutHostReplies(s: State, net: Net, rawHost: string, body: HostMeta, async: bool)
    ensures var p, h := UpdateHost(s, net, rawHost, body, async), NormalizeHost(rawHost);
      && p.status == (if rawHost == "" then 400 else 200)
      && (p.status == 400 ==> p.s == s)
      && (p.status == 200 ==>
           && h in p.s.kv.hosts && p.s.kv.hosts[h].host == h
           && p.s.kv.hosts[h].enabled == body.enabled && p.s.kv.hosts[h].caseSensitive == body.caseSensitive
           && p.s.kv.hosts[h].ruleCount == (if h in s.kv.hosts then s.kv.hosts[h].ruleCount else body.ruleCount))
      && OnlyHost(s.kv.hosts, p.s.kv.hosts, h) && p.s.kv.rules == s.kv.rules
  {
  }

  // ---------------------------------------------------------------------------
  // Imports
  // ---------------------------------------------------------------------------

  /** Entry `i` is acceptable, and no later acceptable entry has its key. */
  ghost predicate IsLastOfKey(hosts: Hosts, rules: seq<Redirect>, i: nat)
    requires i < |rules|
  {
    IsAcceptable(rules[i]) && forall j :: i < j < |rules| && IsAcceptable(rules[j]) ==>
      KeyOf(RuleAt(hosts, rules, j)) != KeyOf(RuleAt(hosts, rules, i))
  }

  /** The key of entry `i`: its host and path in normal form, the path folded if
      the host was, or any entry up to this one asks for it. */
  lemma EntryKey(hosts: Hosts, rules: seq<Redirect>, i: nat)
    requires i < |rules|
    ensures var h, path := NormalizeHost(rules[i].host), NormalizePathFn(rules[i].path);
      KeyOf(RuleAt(hosts, rules, i)) ==
        RuleKey(h, rules[i].matchType, if FoldedBy(hosts, rules[..i + 1], h) then Lower(path) else path)
  {
  }

  lemma LastIsKept(hosts: Hosts, rules: seq<Redirect>, i: nat)
    requires i < |rules| && IsLastOfKey(hosts, rules, i)
    ensures EndsAs(Writes(hosts, rules), RuleAt(hosts, rules, i))
  {
    var ws, r := Writes(hosts, rules), RuleAt(hosts, rules, i);
    AcceptableIff(rules[i]);
    WritesIndexed(hosts, rules, i);
    forall j | i < j < |ws| ensures !Sets(ws[j], KeyOf(r)) {
      WritesIndexed(hosts, rules, j);
      AcceptableIff(rules[j]);
    }
    assert IsLast(ws, i, r);
  }

  /** After an import in either mode, the last acceptable entry of a key is stored
      as it says, whatever was there before. */
  lemma {:induction false} ImportStoresBody(s: State, net: Net, replace: bool, async: bool, rules: seq<Redirect>,
                                            listing: seq<RuleKey>, i: nat)
    requires WellKept(s) && Normal(s.kv.rules)
    requires replace ==> Lists(listing, ImportAll(s, net, async, rules).s.kv.rules.Keys)
    requires i < |rules| && IsLastOfKey(s.kv.hosts, rules, i)
    ensures IsStoredAs(Import(s, net, replace, async, rules, listing).s.kv.rules, KeyOf(RuleAt(s.kv.hosts, rules, i)), rules[i])
  {
    var r, ws := RuleAt(s.kv.hosts, rules, i), Writes(s.kv.hosts, rules);
    LastIsKept(s.kv.hosts, rules, i);
    if replace {
      ReplaceModeIsExact(s, net, async, rules, listing);
    } else {
      var a := ImportAll(s, net, async, rules);
      ImportStores(s, net, async, rules);
      PushHostsKeepsOrder(a.s, net, async, a.touched);
      OverwriteIff(s.kv.rules, ws, r);
    }
    assert Holds(Import(s, net, replace, async, rules, listing).s.kv.rules, r);
  }
}
