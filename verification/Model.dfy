/** The records of shared/src/model.rs and the admission rules applied to them. */
module Model {
  import opened Text
  import opened Paths

  datatype MatchType = Exact | Prefix

  /** Primary key of a rule. */
  datatype RuleKey = RuleKey(host: string, matchType: MatchType, path: string)

  /** A redirect rule; the two timestamps of the source are not modelled. */
  datatype Redirect = Redirect(
    host: string,
    path: string,
    targetUrl: string,
    statusCode: int,
    matchType: MatchType,
    preservePath: bool,
    preserveQuery: bool,
    enabled: bool,
    priority: int,
    notes: string,
    caseInsensitive: bool)

  datatype HostMeta = HostMeta(host: string, enabled: bool, caseSensitive: bool, ruleCount: nat)

  function KeyOf(r: Redirect): RuleKey {
    RuleKey(r.host, r.matchType, r.path)
  }

  /** HostMeta::new */
  function NewHost(host: string): HostMeta {
    HostMeta(host, true, true, 0)
  }

  // --- projections pushed to EdgeKV ------------------------------------------

  datatype EkvExact = EkvExact(t: string, s: int, pp: nat, pq: nat)
  datatype EkvPrefixEntry = EkvPrefixEntry(p: string, t: string, s: int, pp: nat, pq: nat)

  function AsU8(b: bool): nat {
    if b then 1 else 0
  }

  function ToExact(r: Redirect): EkvExact {
    EkvExact(r.targetUrl, r.statusCode, AsU8(r.preservePath), AsU8(r.preserveQuery))
  }

  function ToEntry(r: Redirect): EkvPrefixEntry {
    EkvPrefixEntry(r.path, r.targetUrl, r.statusCode, AsU8(r.preservePath), AsU8(r.preserveQuery))
  }

  // --- admission ---------------------------------------------------------------

  /** The part of a host header before the port. */
  function BeforePort(raw: string): string {
    raw[..IndexOf(raw, ':')]
  }

  function NormalizeHost(raw: string): string {
    Lower(BeforePort(Trim(raw)))
  }

  function NormalizePathFn(raw: string): string {
    Clean(Trim(raw))
  }

  lemma NormalizedHostHasNoColon(raw: string)
    ensures ':' !in NormalizeHost(raw)
  {
    var b := BeforePort(Trim(raw));
    assert forall c: char :: LowerChar(c) == ':' ==> c == ':';
    forall i | 0 <= i < |b| ensures Lower(b)[i] != ':' {
      assert b[i] in b;
    }
  }

  predicate IsValid(r: Redirect) {
    && r.host != ""
    && r.targetUrl != ""
    && ("http://" <= r.targetUrl || "https://" <= r.targetUrl)
    && r.statusCode in {301, 302, 307, 308}
  }

  /** Equality up to the fields every write changes; the key is not compared. */
  predicate ContentEq(a: Redirect, b: Redirect) {
    && a.targetUrl == b.targetUrl
    && a.statusCode == b.statusCode
    && a.matchType == b.matchType
    && a.preservePath == b.preservePath
    && a.preserveQuery == b.preserveQuery
    && a.enabled == b.enabled
    && a.priority == b.priority
    && a.notes == b.notes
  }
}
