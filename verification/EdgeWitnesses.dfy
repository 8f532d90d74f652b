/** Concrete requests that the EdgeWorker and the control plane answer differently. */
module EdgeWitnesses {
  import opened Text
  import opened Paths
  import opened Model
  import opened EkvKeys
  import opened Protocol
  import opened Handlers
  import opened Coverage
  import opened Mutations
  import opened Lookup
  import opened Names
  import opened EdgeWorker
  import opened Refinement
  import opened Provenance
  import opened Runs
  import opened Histories
  import opened Witnesses

  // ---------------------------------------------------------------------------
  // One exact rule
  // ---------------------------------------------------------------------------

  /** The only response to a request without a query, given the answer. */
  lemma OnlyResponse(kv: Kv, h: string, path: string, answer: Option<Redirect>)
    requires h != "" && Clean(Trim(path)) == path && IsAnswer(kv, h, path, answer)
    requires answer.Some? ==> answer.value.matchType == Exact
    ensures forall response :: IsResponse(kv, h, path, "", response) ==>
      response == match answer case None => NotFound case Some(r) => Redirected(r.statusCode, r.targetUrl)
  {
    forall response | IsResponse(kv, h, path, "", response)
      ensures response == match answer case None => NotFound case Some(r) => Redirected(r.statusCode, r.targetUrl)
    {
      var a :| IsAnswer(kv, h, path, a) && response ==
        match a case None => NotFound case Some(r) => Redirected(r.statusCode, ControlLocation(r, path, ""));
      AnswerIsUnique(kv, h, path, a, answer);
    }
  }

  lemma {:induction false} CreateIsNameable(body: Redirect)
    requires IsPlainBody(INIT.kv, body) && IsPlainHost(NormalizeHost(body.host))
    ensures Genuine(Past(ANY_RULE, PLAIN_HOSTS), Create(INIT, ALL_ACKED, body, false).s)
    ensures NameableItems(Create(INIT, ALL_ACKED, body, false).s.edge.items)
  {
    var past := Past(ANY_RULE, PLAIN_HOSTS);
    InitIsCovered(ManifestUnit(""));
    CreateGenuine(past, INIT, ALL_ACKED, body, false);
    GenuineIsNameable(past, Create(INIT, ALL_ACKED, body, false).s.edge.items);
  }

  /** A store of one exact rule, projected. */
  lemma {:induction false} OneRuleIsProjected(body: Redirect, h: string, q: string) returns (s: State)
    requires IsValid(body) && body.matchType == Exact && body.enabled && !body.caseInsensitive
    requires NormalizeHost(body.host) == h && NormalizePathFn(body.path) == q
    ensures s == Create(INIT, ALL_ACKED, body, false).s && s.pending == map[]
    ensures WellFormed(s.kv) && Projected(s.kv, s.edge.items, h)
    ensures s.kv.rules == map[RuleKey(h, Exact, q) := Normalized(body)]
    ensures h in s.kv.hosts && s.kv.hosts[h].enabled && s.kv.hosts[h].caseSensitive
  {
    InitIsCovered(ManifestUnit(h));
    CreateAcked(INIT, ALL_ACKED, body);
    CreatePlain(INIT, ALL_ACKED, body);
    s := Create(INIT, ALL_ACKED, body, false).s;
    forall u ensures InSync(s, u) {
      InitIsCovered(u);
      CreateCovers(INIT, ALL_ACKED, body, false, u);
      assert !Marked(s, u);
    }
    assert InSync(s, SentinelUnit(h)) && InSync(s, ManifestUnit(h));
    assert forall p :: InSync(s, ExactUnit(h, p));
  }

  /** With one exact rule stored at `q`, a request for `p` is redirected by the
      control plane exactly when it is for `q`, and by the edge exactly when it is
      for `q` as the edge spells it. */
  lemma {:induction false} OneExactRule(body: Redirect, h: string, q: string, p: string)
    requires IsValid(body) && body.matchType == Exact && body.enabled && !body.caseInsensitive
    requires NormalizeHost(body.host) == h && NormalizePathFn(body.path) == q
    requires IsPlainHost(h) && IsBmp(h) && h != "" && Clean(Trim(p)) == p && !Contains("", "ewdebug=1")
    ensures var s := Create(INIT, ALL_ACKED, body, false).s;
      && s.pending == map[]
      && (forall named :: IsNamed(named, s.edge.items) ==>
           FreshAnswer(named, h, p, "") == if Seen(p) == q then Served(body.statusCode, body.targetUrl) else Pass)
      && (forall response :: IsResponse(s.kv, h, p, "", response) ==>
           response == if p == q then Redirected(body.statusCode, body.targetUrl) else NotFound)
  {
    var s := OneRuleIsProjected(body, h, q);
    OneRuleAnswer(s.kv, h, q, p, Normalized(body));
    CreateIsNameable(body);
    forall named | IsNamed(named, s.edge.items)
      ensures FreshAnswer(named, h, p, "") == if Seen(p) == q then Served(body.statusCode, body.targetUrl) else Pass
    {
      OneRuleServed(s, named, h, q, p, Normalized(body));
    }
  }

  lemma {:induction false} OneRuleServed(s: State, named: NamedItems, h: string, q: string, p: string, r: Redirect)
    requires WellFormed(s.kv) && Projected(s.kv, s.edge.items, h) && Holding(named, s.edge.items, h)
    requires s.kv.rules == map[RuleKey(h, Exact, q) := r] && r.enabled && r.matchType == Exact && IsBmp(h)
    requires h in s.kv.hosts && s.kv.hosts[h].enabled && s.kv.hosts[h].caseSensitive && !Contains("", "ewdebug=1")
    ensures FreshAnswer(named, h, p, "") == if Seen(p) == q then Served(r.statusCode, r.targetUrl) else Pass
  {
    SeenIff(h);
    OneRuleSelected(s.kv, h, q, p, r);
    ExactIsServed(r, p);
    EdgeServesSelected(s.kv, s.edge.items, named, h, p, "", if Seen(p) == q then Some(r) else None);
  }

  lemma ExactIsServed(r: Redirect, p: string)
    requires r.matchType == Exact
    ensures Serve(Some(r), p, "") == Served(r.statusCode, r.targetUrl)
  {
  }

  lemma OneRuleSelected(kv: Kv, h: string, q: string, p: string, r: Redirect)
    requires kv.rules == map[RuleKey(h, Exact, q) := r] && r.enabled && IsBmp(h)
    requires h in kv.hosts && kv.hosts[h].enabled && kv.hosts[h].caseSensitive
    ensures IsSelected(kv, h, p, if Seen(p) == q then Some(r) else None)
  {
    SeenIff(h);
  }

  lemma OneRuleAnswer(kv: Kv, h: string, q: string, p: string, r: Redirect)
    requires kv.rules == map[RuleKey(h, Exact, q) := r] && r.enabled && r.matchType == Exact
    requires h in kv.hosts && kv.hosts[h].caseSensitive && h != "" && Clean(Trim(p)) == p
    ensures forall response :: IsResponse(kv, h, p, "", response) ==>
      response == if p == q then Redirected(r.statusCode, r.targetUrl) else NotFound
  {
    var answer := if p == q then Some(r) else None;
    assert IsAnswer(kv, h, p, answer);
    OnlyResponse(kv, h, p, answer);
  }

  // ---------------------------------------------------------------------------
  // Above U+FFFF
  // ---------------------------------------------------------------------------

  const EMOJI_PATH := "/\U{1F600}"
  const REPLACED_PATH := "/\U{FFFD}\U{FFFD}"

  lemma PathsAreSeen()
    ensures Seen(EMOJI_PATH) == REPLACED_PATH
    ensures |EMOJI_PATH| == 2 && |REPLACED_PATH| == 3
  {
    SeenTwo('/', '\U{1F600}');
    assert EMOJI_PATH == ['/', '\U{1F600}'];
  }

  lemma SeenTwo(a: char, b: char)
    ensures Seen([a, b]) == SeenChar(a) + SeenChar(b)
  {
    assert [a, b][1..] == [b] && [b][1..] == "";
    assert Seen([b]) == SeenChar(b) + Seen("");
  }

  lemma PathsAreNormal()
    ensures NormalizePathFn(EMOJI_PATH) == EMOJI_PATH && NormalizePathFn(REPLACED_PATH) == REPLACED_PATH
  {
    PlainSegment(EMOJI_PATH);
    PlainSegment(REPLACED_PATH);
  }

  lemma PlainSegment(p: string)
    requires |p| > 1 && p[0] == '/' && !EndsInWhitespace(p) && forall i :: 1 <= i < |p| ==> p[i] != '/'
    ensures NormalizePathFn(p) == p
  {
    CleanPathNormalizesToItself(p);
  }

  lemma BodyHost()
    ensures NormalizeHost(BODY.host) == "h" && IsPlainHost("h") && IsBmp("h")
    ensures !Contains("", "ewdebug=1")
  {
    PlainHostStays("h");
  }

  /** A rule for a path with a character above U+FFFF: the control plane redirects,
      the edge lets the request through. */
  lemma {:induction false} SupplementaryPathIsPassed()
    ensures var s := Create(INIT, ALL_ACKED, BODY.(path := EMOJI_PATH), false).s;
      && s.pending == map[]
      && (forall named :: IsNamed(named, s.edge.items) ==> FreshAnswer(named, "h", EMOJI_PATH, "") == Pass)
      && (forall response :: IsResponse(s.kv, "h", EMOJI_PATH, "", response) ==>
           response == Redirected(BODY.statusCode, BODY.targetUrl))
  {
    PathsAreSeen();
    PathsAreNormal();
    BodyHost();
    OneExactRule(BODY.(path := EMOJI_PATH), "h", EMOJI_PATH, EMOJI_PATH);
  }

  /** A rule for two replacement characters: the edge serves it to a request for a
      path that the control plane has no rule for. */
  lemma {:induction false} SupplementaryPathIsMisserved()
    ensures var s := Create(INIT, ALL_ACKED, BODY.(path := REPLACED_PATH), false).s;
      && s.pending == map[]
      && (forall named :: IsNamed(named, s.edge.items) ==>
           FreshAnswer(named, "h", EMOJI_PATH, "") == Served(BODY.statusCode, BODY.targetUrl))
      && (forall response :: IsResponse(s.kv, "h", EMOJI_PATH, "", response) ==> response == NotFound)
  {
    PathsAreSeen();
    PathsAreNormal();
    BodyHost();
    OneExactRule(BODY.(path := REPLACED_PATH), "h", REPLACED_PATH, EMOJI_PATH);
  }

  /** EdgeKV can hold the items of either run under their names. */
  lemma {:induction false} WitnessesCanBeNamed(body: Redirect)
    requires IsPlainBody(INIT.kv, body) && IsPlainHost(NormalizeHost(body.host))
    ensures exists named :: IsNamed(named, Create(INIT, ALL_ACKED, body, false).s.edge.items)
  {
    CreateIsNameable(body);
    NamingExists(Create(INIT, ALL_ACKED, body, false).s.edge.items);
  }

  // ---------------------------------------------------------------------------
  // Disabled hosts
  // ---------------------------------------------------------------------------

  const DISABLED := HostMeta("", false, true, 0)

  /** The control plane redirects for a host that is disabled, the edge passes. */
  lemma {:induction false} DisabledHostDiffers()
    ensures var s := UpdateHost(Create(INIT, ALL_ACKED, BODY, false).s, ALL_ACKED, "h", DISABLED, false).s;
      && s.pending == map[]
      && (forall named :: IsNamed(named, s.edge.items) ==> FreshAnswer(named, "h", KEY.path, "") == Pass)
      && (forall response :: IsResponse(s.kv, "h", KEY.path, "", response) ==> response == Redirected(301, BODY.targetUrl))
  {
    UrlNamesKey();
    TrimOfPlain(KEY.path);
    BodyHost();
    DisabledDiffers(BODY, "h", DISABLED, "h", KEY.path);
  }

  lemma {:induction false} DisabledDiffers(body: Redirect, rawHost: string, record: HostMeta, h: string, path: string)
    requires IsValid(body) && body.enabled && body.matchType == Exact && !body.caseInsensitive
    requires rawHost != "" && NormalizeHost(rawHost) == NormalizeHost(body.host) == h != "" && IsPlainHost(h) && IsBmp(h)
    requires !record.enabled && record.caseSensitive && !Contains("", "ewdebug=1")
    requires NormalizePathFn(body.path) == path && Clean(Trim(path)) == path
    ensures var s := UpdateHost(Create(INIT, ALL_ACKED, body, false).s, ALL_ACKED, rawHost, record, false).s;
      && s.pending == map[]
      && (forall named :: IsNamed(named, s.edge.items) ==> FreshAnswer(named, h, path, "") == Pass)
      && (forall response :: IsResponse(s.kv, h, path, "", response) ==> response == Redirected(body.statusCode, body.targetUrl))
  {
    var s := BothAcked(body, rawHost, record);
    StaysCoveredTwice(body, rawHost, record, SentinelUnit(h));
    OneRuleAnswer(s.kv, h, path, path, Normalized(body));
    UpdateIsNameable(body, rawHost, record);
    forall named | IsNamed(named, s.edge.items) ensures FreshAnswer(named, h, path, "") == Pass {
      DisabledIsPassed(s, named, h, path);
    }
  }

  lemma DisabledIsPassed(s: State, named: NamedItems, h: string, path: string)
    requires InSync(s, SentinelUnit(h)) && h in s.kv.hosts && !s.kv.hosts[h].enabled
    requires Holding(named, s.edge.items, h) && IsBmp(h) && !Contains("", "ewdebug=1")
    ensures FreshAnswer(named, h, path, "") == Pass
  {
    SeenIff(h);
    JsRead(named, s.edge.items, Sentinel(h));
    assert ReadHost(named, h) == Some(HostRecord(false, s.kv.hosts[h].caseSensitive));
    DisabledPasses(named, ReadHost(named, h), h, path);
  }

  lemma DisabledPasses(named: NamedItems, meta: Option<HostRecord>, h: string, path: string)
    requires meta.Some? && !meta.value.enabled && !Contains("", "ewdebug=1")
    ensures Answered(named, {}, false, meta, h, path, "") == Pass
  {
  }

  lemma {:induction false} UpdateIsNameable(body: Redirect, rawHost: string, record: HostMeta)
    requires IsPlainBody(INIT.kv, body) && IsPlainHost(NormalizeHost(body.host)) && NormalizeHost(rawHost) == NormalizeHost(body.host)
    ensures NameableItems(UpdateHost(Create(INIT, ALL_ACKED, body, false).s, ALL_ACKED, rawHost, record, false).s.edge.items)
  {
    var past, s := Past(ANY_RULE, PLAIN_HOSTS), Create(INIT, ALL_ACKED, body, false).s;
    CreateIsNameable(body);
    InitIsCovered(ManifestUnit(""));
    CreateKeeps(INIT, ALL_ACKED, body, false);
    PutHostGenuine(past, s, ALL_ACKED, rawHost, record, false);
    GenuineIsNameable(past, UpdateHost(s, ALL_ACKED, rawHost, record, false).s.edge.items);
  }
}
