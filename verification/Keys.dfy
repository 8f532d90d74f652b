/** The KV key schema of shared/src/keys.rs: rule keys, and the targets of the
    pending markers. The protocol modules use the structured keys; this module
    shows that the strings carry exactly the same information. */
module Keys {
  import opened Text
  import opened Model

  const PREFIX_RULE := "rule:"
  const PREFIX_HOST := "host:"
  const PREFIX_DELETE_RULE := "DELETE_RULE:"
  const PREFIX_DELETE_HOST := "DELETE_HOST:"

  function MatchTypeName(mt: MatchType): string {
    match mt case Exact => "exact" case Prefix => "prefix"
  }

  function ParseMatchType(s: string): Option<MatchType> {
    if s == "exact" then Some(Exact) else if s == "prefix" then Some(Prefix) else None
  }

  /** A rule key without its namespace: `{host}|{match_type}|{path}`. */
  function KeyBody(k: RuleKey): string {
    k.host + ['|'] + (MatchTypeName(k.matchType) + ['|'] + k.path)
  }

  function KRule(k: RuleKey): string {
    PREFIX_RULE + KeyBody(k)
  }

  function RuleKeyPrefix(host: string): string {
    PREFIX_RULE + (host + ['|'])
  }

  // ---------------------------------------------------------------------------
  // Parsing
  // ---------------------------------------------------------------------------

  datatype Pair = Pair(left: string, right: string)

  function SplitOnce(s: string, c: char): Option<Pair> {
    var i := IndexOf(s, c);
    if i == |s| then None else Some(Pair(s[..i], s[i + 1..]))
  }

  /** `|` if there is one, otherwise `:`. */
  function Split(s: string): Option<Pair> {
    var bar := SplitOnce(s, '|');
    if bar.Some? then bar else SplitOnce(s, ':')
  }

  function ParseBody(body: string): Option<RuleKey> {
    match Split(body)
    case None => None
    case Some(first) =>
      match Split(first.right)
      case None => None
      case Some(second) =>
        match ParseMatchType(second.left)
        case None => None
        case Some(mt) => Some(RuleKey(first.left, mt, second.right))
  }

  function ParseRuleKey(key: string): Option<RuleKey> {
    if PREFIX_RULE <= key then ParseBody(key[|PREFIX_RULE|..]) else None
  }

  lemma DropPrefix(p: string, s: string)
    ensures p <= p + s && (p + s)[|p|..] == s
  {
  }

  lemma {:induction false} SplitOnceAt(a: string, c: char, b: string)
    requires c !in a
    ensures SplitOnce(a + [c] + b, c) == Some(Pair(a, b))
  {
    IndexOfAppend(a, c, b);
    var s := a + [c] + b;
    assert s[..|a|] == a && s[|a| + 1..] == b;
  }

  lemma {:induction false} CommonPrefix(p: string, a: string, b: string)
    ensures p + a <= p + b <==> a <= b
  {
    if p + a <= p + b {
      assert (p + b)[..|p + a|] == p + a;
      assert (p + b)[..|p + a|][|p|..] == b[..|a|];
      assert (p + a)[|p|..] == a;
    }
    if a <= b {
      assert p + b == p + a + b[|a|..];
    }
  }

  /** A string splits at its first bar. */
  lemma {:induction false} SplitAtBar(left: string, right: string)
    ensures var split := Split(left + ['|'] + right);
      split.Some? && (if '|' !in left then split.value == Pair(left, right) else split.value.left != left)
  {
    var s := left + ['|'] + right;
    assert s[|left|] == '|';
    if '|' !in left {
      SplitOnceAt(left, '|', right);
    } else {
      assert '|' !in s[..IndexOf(s, '|')];
    }
  }

  lemma MatchTypeRoundTrip(mt: MatchType)
    ensures ParseMatchType(MatchTypeName(mt)) == Some(mt)
    ensures '|' !in MatchTypeName(mt) && ':' !in MatchTypeName(mt)
  {
  }

  /** How a body that splits twice is parsed. */
  lemma {:induction false} ParseSplitBody(body: string, host: string, rest: string, mt: MatchType, path: string)
    requires Split(body) == Some(Pair(host, rest)) && Split(rest) == Some(Pair(MatchTypeName(mt), path))
    ensures ParseBody(body) == Some(RuleKey(host, mt, path))
  {
    MatchTypeRoundTrip(mt);
  }

  lemma {:induction false} BodySplits(k: RuleKey)
    ensures '|' !in k.host ==> ParseBody(KeyBody(k)) == Some(k)
    ensures '|' in k.host ==> ParseBody(KeyBody(k)) != Some(k)
  {
    var mt := MatchTypeName(k.matchType);
    var rest := mt + ['|'] + k.path;
    SplitAtBar(k.host, rest);
    if '|' !in k.host {
      MatchTypeRoundTrip(k.matchType);
      SplitAtBar(mt, k.path);
      ParseSplitBody(KeyBody(k), k.host, rest, k.matchType, k.path);
    } else {
      ParsedHost(KeyBody(k));
    }
  }

  lemma {:induction false} ParsedHost(body: string)
    ensures ParseBody(body).Some? ==> Split(body).Some? && ParseBody(body).value.host == Split(body).value.left
  {
  }

  /** Parsing recovers host, type and path of a rule key exactly when the host
      holds no `|`. */
  lemma {:induction false} RuleKeyRoundTripIff(k: RuleKey)
    ensures ParseRuleKey(KRule(k)) == Some(k) <==> '|' !in k.host
  {
    DropPrefix(PREFIX_RULE, KeyBody(k));
    BodySplits(k);
  }

  lemma KRuleInjective(a: RuleKey, b: RuleKey)
    requires '|' !in a.host && '|' !in b.host
    requires KRule(a) == KRule(b)
    ensures a == b
  {
    RuleKeyRoundTripIff(a);
    RuleKeyRoundTripIff(b);
  }

  /** A scan by `rule_key_prefix(host)` yields exactly the host's rules. */
  lemma {:induction false} PrefixScanIsHostScan(k: RuleKey, host: string)
    requires '|' !in k.host && '|' !in host
    ensures RuleKeyPrefix(host) <= KRule(k) <==> k.host == host
  {
    var body, tail := KeyBody(k), MatchTypeName(k.matchType) + ['|'] + k.path;
    CommonPrefix(PREFIX_RULE, host + ['|'], body);
    IndexOfAppend(k.host, '|', tail);
    if host + ['|'] <= body {
      assert body == host + ['|'] + body[|host| + 1..];
      IndexOfAppend(host, '|', body[|host| + 1..]);
      assert body[..|host|] == host && body[..|k.host|] == k.host;
    }
  }

  // ---------------------------------------------------------------------------
  // Pending-marker targets
  // ---------------------------------------------------------------------------

  /** What a pending marker asks for. `BadDelete` and `Unknown` are the strings
      the drain cannot make sense of; nothing in the system writes them. */
  datatype Target =
    | PushRule(key: RuleKey)
    | PushHost(host: string)
    | DeleteRule(key: RuleKey)
    | DeleteHost(host: string)
    | BadDelete(raw: string)
    | Unknown(raw: string)

  function TargetName(t: Target): string {
    match t
    case PushRule(k) => KRule(k)
    case PushHost(h) => PREFIX_HOST + h
    case DeleteRule(k) => PREFIX_DELETE_RULE + KRule(k)
    case DeleteHost(h) => PREFIX_DELETE_HOST + h
    case BadDelete(raw) => PREFIX_DELETE_RULE + raw
    case Unknown(raw) => raw
  }

  /** How the drain sorts a marker into its buckets. */
  function Classify(name: string): Target {
    if PREFIX_DELETE_RULE <= name then
      match ParseRuleKey(name[|PREFIX_DELETE_RULE|..])
      case Some(k) => DeleteRule(k)
      case None => BadDelete(name[|PREFIX_DELETE_RULE|..])
    else if PREFIX_DELETE_HOST <= name then
      DeleteHost(name[|PREFIX_DELETE_HOST|..])
    else if PREFIX_HOST <= name then
      PushHost(name[|PREFIX_HOST|..])
    else if PREFIX_RULE <= name then
      match ParseRuleKey(name)
      case Some(k) => PushRule(k)
      case None => Unknown(name)
    else
      Unknown(name)
  }

  /** The targets the system writes; a rule's host carries no `|`. */
  predicate IsWritten(t: Target) {
    match t
    case PushRule(k) => '|' !in k.host
    case DeleteRule(k) => '|' !in k.host
    case PushHost(_) => true
    case DeleteHost(_) => true
    case _ => false
  }

  /** Every marker the system writes is read back as what was meant. */
  lemma TargetRoundTrip(t: Target)
    requires IsWritten(t)
    ensures Classify(TargetName(t)) == t
  {
    match t {
      case PushRule(k) =>
        RuleKeyRoundTripIff(k);
        NamespacesDiffer(KeyBody(k));
      case DeleteRule(k) =>
        RuleKeyRoundTripIff(k);
        DropPrefix(PREFIX_DELETE_RULE, KRule(k));
      case PushHost(h) =>
        DropPrefix(PREFIX_HOST, h);
        NamespacesDiffer(h);
      case DeleteHost(h) =>
        DropPrefix(PREFIX_DELETE_HOST, h);
        NamespacesDiffer(h);
    }
  }

  /** What cannot be parsed: a delete of no rule is served, in vain, among the
      deletes, a push of no rule and any other name among the unknown. */
  lemma UnreadableTargets(rest: string)
    requires ParseRuleKey(rest).None?
    ensures Classify(PREFIX_DELETE_RULE + rest) == BadDelete(rest)
    ensures PREFIX_RULE <= rest ==> Classify(rest) == Unknown(rest)
    ensures !(PREFIX_RULE <= rest) && !(PREFIX_HOST <= rest) && !(PREFIX_DELETE_RULE <= rest) && !(PREFIX_DELETE_HOST <= rest) ==>
      Classify(rest) == Unknown(rest)
  {
    DropPrefix(PREFIX_DELETE_RULE, rest);
    if PREFIX_RULE <= rest {
      assert rest == PREFIX_RULE + rest[|PREFIX_RULE|..];
      NamespacesDiffer(rest[|PREFIX_RULE|..]);
    }
  }

  lemma NamespacesDiffer(s: string)
    ensures !(PREFIX_DELETE_RULE <= PREFIX_DELETE_HOST + s)
    ensures !(PREFIX_DELETE_RULE <= PREFIX_HOST + s) && !(PREFIX_DELETE_HOST <= PREFIX_HOST + s)
    ensures !(PREFIX_DELETE_RULE <= PREFIX_RULE + s) && !(PREFIX_DELETE_HOST <= PREFIX_RULE + s)
    ensures !(PREFIX_HOST <= PREFIX_RULE + s)
  {
    assert (PREFIX_DELETE_HOST + s)[7] == 'H' && PREFIX_DELETE_RULE[7] == 'R';
    assert (PREFIX_HOST + s)[0] == 'h' && (PREFIX_RULE + s)[0] == 'r';
    assert PREFIX_DELETE_RULE[0] == 'D' && PREFIX_DELETE_HOST[0] == 'D' && PREFIX_HOST[0] == 'h';
  }

  lemma TargetNamesDistinct(t: Target, u: Target)
    requires IsWritten(t) && IsWritten(u)
    requires TargetName(t) == TargetName(u)
    ensures t == u
  {
    TargetRoundTrip(t);
    TargetRoundTrip(u);
  }
}
