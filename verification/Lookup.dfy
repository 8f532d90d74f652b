/** The control plane's resolver, redirect-handler/src/lib.rs: a scan of all the
    host's rules for the longest enabled match. */
module Lookup {
  import opened Text
  import opened Paths
  import opened Model
  import opened Manifest
  import opened Listings
  import opened Protocol
  import opened Sync

  // ---------------------------------------------------------------------------
  // What the right answer is
  // ---------------------------------------------------------------------------

  predicate IsCandidate(rules: Rules, host: string, path: string, k: RuleKey) {
    k in rules && k.host == host && k.matchType == Prefix && rules[k].enabled && Matches(k.path, path)
  }

  /** The longest enabled prefix rule that matches, if any does. */
  ghost predicate IsBest(rules: Rules, host: string, path: string, best: Option<Redirect>) {
    match best
    case None => forall k :: !IsCandidate(rules, host, path, k)
    case Some(r) =>
      && IsCandidate(rules, host, path, KeyOf(r)) && rules[KeyOf(r)] == r
      && forall k :: IsCandidate(rules, host, path, k) ==> |k.path| <= |r.path|
  }

  /** Two candidates of equal length are the same rule, so no tie is ever broken. */
  lemma BestIsUnique(rules: Rules, host: string, path: string, a: Option<Redirect>, b: Option<Redirect>)
    requires IsBest(rules, host, path, a) && IsBest(rules, host, path, b)
    ensures a == b
  {
    if a.Some? {
      assert IsCandidate(rules, host, path, KeyOf(a.value));
    }
    if b.Some? {
      assert IsCandidate(rules, host, path, KeyOf(b.value));
    }
    if a.Some? && b.Some? {
      MatchesOfEqualLength(a.value.path, b.value.path, path);
    }
  }

  /** A best rule, or the knowledge that there is none, exists. */
  lemma BestExists(rules: Rules, host: string, path: string) returns (best: Option<Redirect>)
    requires Coherent(rules)
    ensures IsBest(rules, host, path, best)
  {
    var keys := SomeListing(rules.Keys);
    best := BestOf(rules, host, path, keys);
    assert forall k :: k in rules ==> k in rules.Keys && k in keys;
  }

  lemma {:induction false} BestOf(rules: Rules, host: string, path: string, met: seq<RuleKey>) returns (best: Option<Redirect>)
    requires Coherent(rules)
    ensures IsBestOf(rules, host, path, met, best)
  {
    best := None;
    if met != [] {
      var init, k := met[..|met| - 1], met[|met| - 1];
      assert met == init + [k];
      best := BestOf(rules, host, path, init);
      if IsCandidate(rules, host, path, k) && (best.None? || |k.path| > |best.value.path|) {
        assert KeyOf(rules[k]) == k;
        best := Some(rules[k]);
      }
    }
  }

  function LookupPath(hosts: Hosts, host: string, path: string): string {
    if host in hosts && !hosts[host].caseSensitive then Lower(path) else path
  }

  /** Exact rules first, then the best prefix rule; nothing for an unknown host. */
  ghost predicate IsAnswer(kv: Kv, host: string, path: string, answer: Option<Redirect>) {
    var p := LookupPath(kv.hosts, host, path);
    var exact := RuleKey(host, Exact, p);
    if host !in kv.hosts then answer == None
    else if exact in kv.rules && kv.rules[exact].enabled then answer == Some(kv.rules[exact])
    else IsBest(kv.rules, host, p, answer)
  }

  lemma AnswerIsUnique(kv: Kv, host: string, path: string, a: Option<Redirect>, b: Option<Redirect>)
    requires IsAnswer(kv, host, path, a) && IsAnswer(kv, host, path, b)
    ensures a == b
  {
    var p := LookupPath(kv.hosts, host, path);
    var exact := RuleKey(host, Exact, p);
    if host in kv.hosts && !(exact in kv.rules && kv.rules[exact].enabled) {
      BestIsUnique(kv.rules, host, p, a, b);
    }
  }

  // ---------------------------------------------------------------------------
  // The scan
  // ---------------------------------------------------------------------------

  /** Best among the keys met so far. */
  ghost predicate IsBestOf(rules: Rules, host: string, path: string, met: seq<RuleKey>, best: Option<Redirect>) {
    match best
    case None => forall k :: k in met ==> !IsCandidate(rules, host, path, k)
    case Some(r) =>
      && IsCandidate(rules, host, path, KeyOf(r)) && rules[KeyOf(r)] == r && KeyOf(r) in met
      && forall k :: k in met && IsCandidate(rules, host, path, k) ==> |k.path| <= |r.path|
  }

  predicate Better(r: Redirect, best: Option<Redirect>) {
    match best
    case None => true
    case Some(b) => ByteLen(r.path) > ByteLen(b.path) || (ByteLen(r.path) == ByteLen(b.path) && r.priority > b.priority)
  }

  /** Among candidates for one path, more bytes means more characters, and the
      priority tie-break is never reached by two different rules. */
  lemma BetterIsLonger(rules: Rules, host: string, path: string, k: RuleKey, b: Redirect)
    requires Coherent(rules)
    requires IsCandidate(rules, host, path, k) && IsCandidate(rules, host, path, KeyOf(b)) && rules[KeyOf(b)] == b
    requires k != KeyOf(b)
    ensures Better(rules[k], Some(b)) <==> |k.path| > |b.path|
    ensures |k.path| != |b.path|
  {
    assert KeyOf(rules[k]) == k;
    var p, q := k.path, b.path;
    if |p| == |q| {
      MatchesOfEqualLength(p, q, path);
    }
    assert p == path[..|p|] && q == path[..|q|];
    if |p| < |q| {
      LongerBytes(p, q);
    } else if |q| < |p| {
      LongerBytes(q, p);
    }
  }

  method FindBest(b: Backend, host: string, path: string) returns (best: Option<Redirect>)
    requires Coherent(b.rules)
    ensures IsBest(b.rules, host, path, best)
  {
    var keys := Enumerate(HostKeys(b.rules, host));
    best := None;
    for i := 0 to |keys|
      invariant IsBestOf(b.rules, host, path, keys[..i], best)
    {
      var k := keys[i];
      assert k in keys;
      assert k in HostKeys(b.rules, host);
      assert keys[..i + 1] == keys[..i] + [k];
      if k.matchType == Prefix && Matches(k.path, path) {
        var r := b.rules[k];
        if r.enabled {
          if best.Some? {
            BetterIsLonger(b.rules, host, path, k, best.value);
          }
          if Better(r, best) {
            best := Some(r);
          }
        }
      }
    }
    assert keys[..|keys|] == keys;
    forall k | IsCandidate(b.rules, host, path, k) ensures k in keys {
      assert k in HostKeys(b.rules, host);
    }
  }

  method FindRule(b: Backend, host: string, path: string) returns (answer: Option<Redirect>)
    requires Coherent(b.rules)
    ensures IsAnswer(b.Stored(), host, path, answer)
  {
    if host !in b.hosts {
      return None;
    }
    var lookupPath := if b.hosts[host].caseSensitive then path else Lower(path);
    var exact := RuleKey(host, Exact, lookupPath);
    if exact in b.rules && b.rules[exact].enabled {
      return Some(b.rules[exact]);
    }
    answer := FindBest(b, host, lookupPath);
  }

  // ---------------------------------------------------------------------------
  // The host of a request
  // ---------------------------------------------------------------------------

  /** The headers that may name the host, and the full URL the platform adds. */
  datatype Headers = Headers(
    forwardedHost: Option<string>, trueClientHost: Option<string>, host: Option<string>, fullUrl: Option<string>)

  /** The name before the port, trimmed and folded. */
  function HostIn(value: string): string {
    Lower(Trim(BeforePort(value)))
  }

  function FirstHost(values: seq<Option<string>>): string {
    if values == [] then ""
    else if values[0].Some? && HostIn(values[0].value) != "" then HostIn(values[0].value)
    else FirstHost(values[1..])
  }

  /** The host of an absolute URL, unless it is a loopback name. */
  function UrlHost(url: Option<string>): string {
    if url.None? then "" else
    var after := if "http://" <= url.value then Some(url.value[7..])
                 else if "https://" <= url.value then Some(url.value[8..]) else None;
    if after.None? then "" else
    var host := HostIn(after.value[..IndexOf(after.value, '/')]);
    if host == "127.0.0.1" || host == "localhost" then "" else host
  }

  function RequestHost(headers: Headers): string {
    var named := FirstHost([headers.forwardedHost, headers.trueClientHost, headers.host]);
    if named != "" then named else UrlHost(headers.fullUrl)
  }

  method ExtractHost(headers: Headers) returns (host: string)
    ensures host == RequestHost(headers)
  {
    var values := [headers.forwardedHost, headers.trueClientHost, headers.host];
    for i := 0 to |values|
      invariant FirstHost(values[i..]) == FirstHost(values)
    {
      assert values[i..][1..] == values[i + 1..];
      if values[i].Some? {
        host := HostIn(values[i].value);
        if host != "" {
          return;
        }
      }
    }
    assert values[|values|..] == [];
    host := UrlHost(headers.fullUrl);
  }

  // ---------------------------------------------------------------------------
  // The response
  // ---------------------------------------------------------------------------

  datatype Response = BadRequest | NotFound | Redirected(status: int, location: string)

  /** The unmatched rest of the path is appended. */
  predicate AppendsSuffix(r: Redirect, path: string) {
    r.matchType == Prefix && r.preservePath && |path| > |r.path|
  }

  function WithQuery(location: string, query: string): string {
    location + (if '?' in location then "&" else "?") + query
  }

  function ControlLocation(r: Redirect, path: string, query: string): string {
    var location := if AppendsSuffix(r, path) then WithoutTrailingSlashes(r.targetUrl) + path[|r.path|..] else r.targetUrl;
    if r.preserveQuery && query != "" then WithQuery(location, query) else location
  }

  ghost predicate IsResponse(kv: Kv, host: string, rawPath: string, query: string, response: Response) {
    if host == "" then response == BadRequest else
    var path := Clean(Trim(rawPath));
    exists answer :: IsAnswer(kv, host, path, answer) && response ==
      match answer case None => NotFound case Some(r) => Redirected(r.statusCode, ControlLocation(r, path, query))
  }

  method ResolveRedirect(b: Backend, headers: Headers, rawPath: string, query: string) returns (response: Response)
    requires Coherent(b.rules)
    ensures IsResponse(b.Stored(), RequestHost(headers), rawPath, query, response)
  {
    var host := ExtractHost(headers);
    if host == "" {
      return BadRequest;
    }
    var path := NormalizePath(rawPath);
    var answer := FindRule(b, host, path);
    if answer.None? {
      return NotFound;
    }
    var r := answer.value;
    var location := r.targetUrl;
    if r.matchType == Prefix && r.preservePath && |path| > |r.path| {
      var suffix := path[|r.path|..];
      location := WithoutTrailingSlashes(location) + suffix;
    }
    if r.preserveQuery && query != "" {
      var sep := if '?' in location then "&" else "?";
      location := location + sep + query;
    }
    response := Redirected(r.statusCode, location);
  }
}
