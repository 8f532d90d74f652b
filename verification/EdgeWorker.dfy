/** The EdgeWorker, edgeworker/main.js: answers requests from EdgeKV alone. */
module EdgeWorker {
  import opened Text
  import opened Paths
  import opened Model
  import opened Folding
  import opened Manifest
  import opened EkvKeys
  import opened EdgeStore
  import opened Names

  datatype Answer = Pass | Debug | Served(status: int, location: string)

  /** What `getJson` returned for a rule: an exact item has no `p`. */
  datatype EdgeRule = OfExact(exact: EkvExact) | OfEntry(entry: Entry)

  // ---------------------------------------------------------------------------
  // Building the location
  // ---------------------------------------------------------------------------

  /** `replace(/\/$/, '')`: at most one slash. */
  function WithoutOneSlash(s: string): string {
    if EndsWithSlash(s) then s[..|s| - 1] else s
  }

  function EdgeLocation(rule: EdgeRule, path: string, query: string): string {
    var t := if rule.OfExact? then rule.exact.t else rule.entry.t;
    var pq := if rule.OfExact? then rule.exact.pq else rule.entry.pq;
    var loc :=
      if rule.OfEntry? && rule.entry.p != "" && rule.entry.pp == 1 && |path| > |rule.entry.p|
      then WithoutOneSlash(t) + path[|rule.entry.p|..] else t;
    if pq == 1 && query != "" then loc + (if '?' in loc then "&" else "?") + query else loc
  }

  method BuildLocation(rule: EdgeRule, path: string, query: string) returns (loc: string)
    ensures loc == EdgeLocation(rule, path, query)
  {
    loc := if rule.OfExact? then rule.exact.t else rule.entry.t;
    if rule.OfEntry? && rule.entry.p != "" && rule.entry.pp == 1 && |path| > |rule.entry.p| {
      var suffix := path[|rule.entry.p|..];
      loc := WithoutOneSlash(loc) + suffix;
    }
    var pq := if rule.OfExact? then rule.exact.pq else rule.entry.pq;
    if pq == 1 && query != "" {
      loc := loc + (if '?' in loc then "&" else "?") + query;
    }
  }

  // ---------------------------------------------------------------------------
  // The lookup, given the host record
  // ---------------------------------------------------------------------------

  datatype HostRecord = HostRecord(enabled: bool, caseSensitive: bool)

  function ReadHost(named: NamedItems, host: string): Option<HostRecord> {
    match JsItem(named, Sentinel(host))
    case Some(HostValue(enabled, caseSensitive, _)) => Some(HostRecord(enabled, caseSensitive))
    case _ => None
  }

  function FoldedPath(meta: Option<HostRecord>, path: string): string {
    if meta.Some? && !meta.value.caseSensitive then Lower(path) else path
  }

  function ReadExact(named: NamedItems, host: string, path: string): Option<EdgeRule> {
    match JsItem(named, ExactItem(host, path))
    case Some(ExactValue(x)) => Some(OfExact(x))
    case _ => None
  }

  /** Shards `s` up to `n`; a missing or unreadable one contributes nothing. */
  function ReadNamedShards(named: NamedItems, down: set<string>, host: string, s: nat, n: nat): seq<Entry>
    decreases n - s
  {
    if s >= n then [] else
    ReadNamedShard(named, down, host, s) + ReadNamedShards(named, down, host, s + 1, n)
  }

  function ReadNamedShard(named: NamedItems, down: set<string>, host: string, s: nat): seq<Entry> {
    var k := Shard(host, s);
    if JsName(k) in down then [] else match JsItem(named, k) case Some(Bare(es)) => es case _ => []
  }

  lemma Associates(a: seq<Entry>, b: seq<Entry>, c: seq<Entry>)
    ensures a + (b + c) == a + b + c
  {
  }

  function ReadNamedManifest(named: NamedItems, down: set<string>, host: string): seq<Entry> {
    var head := HeadOf(JsItem(named, Shard(host, 0)));
    head.entries + ReadNamedShards(named, down, host, 1, head.count)
  }

  /** The first match in whatever manifest could be read. */
  function ScanManifest(named: NamedItems, down: set<string>, host: string, path: string): Option<EdgeRule> {
    match FirstMatch(ReadNamedManifest(named, down, host), path)
    case Some(e) => Some(OfEntry(e))
    case None => None
  }

  /** The exact rule, or the first match. */
  function Found(named: NamedItems, down: set<string>, host: string, path: string): Option<EdgeRule> {
    var exact := ReadExact(named, host, path);
    if exact.Some? then exact else ScanManifest(named, down, host, path)
  }

  function ServeFound(found: Option<EdgeRule>, path: string, query: string): Answer {
    match found
    case None => Pass
    case Some(r) => Served(if r.OfExact? then r.exact.s else r.entry.s, EdgeLocation(r, path, query))
  }

  /** The answer when the item names in `down` cannot be read; `failed` says that
      the host record itself could not. `path` is normalised. */
  function Answered(named: NamedItems, down: set<string>, failed: bool, meta: Option<HostRecord>,
                    host: string, path: string, query: string): Answer {
    var debug := Contains(query, "ewdebug=1");
    if !debug && (failed || meta.None? || !meta.value.enabled) then Pass else
    var lookupPath := FoldedPath(meta, path);
    if JsName(ExactItem(host, lookupPath)) in down then (if debug then Debug else Pass) else
    if ReadExact(named, host, lookupPath).None? && JsName(Shard(host, 0)) in down then Pass
    else if debug then Debug
    else ServeFound(Found(named, down, host, lookupPath), path, query)
  }

  // ---------------------------------------------------------------------------
  // The worker
  // ---------------------------------------------------------------------------

  const HOST_SENTINEL_TTL_MS: nat := 5 * 60 * 1000

  datatype Cached = Cached(meta: Option<HostRecord>, expMs: nat)
  type Cache = map<string, Cached>

  datatype HostLookup = HostLookup(cache: Cache, failed: bool, meta: Option<HostRecord>)

  /** The memoised sentinel read at time `nowMs`. */
  function LookUpHost(cache: Cache, named: NamedItems, down: set<string>, host: string, nowMs: nat): HostLookup {
    if host in cache && cache[host].expMs > nowMs then HostLookup(cache, false, cache[host].meta)
    else if JsName(Sentinel(host)) in down then HostLookup(cache, true, None)
    else
      var meta := ReadHost(named, host);
      HostLookup(cache[host := Cached(meta, nowMs + HOST_SENTINEL_TTL_MS)], false, meta)
  }

  function NormalizeHostJs(raw: string): string {
    Lower(BeforePort(raw))
  }

  /** Which host a request is for: the one its header spells. */
  lemma JsHostIff(raw: string, h: string)
    requires !HasUpper(h)
    ensures NormalizeHostJs(raw) == h <==> Spells(raw, h)
    ensures IsLowerHost(NormalizeHostJs(raw))
  {
    SpellsIff(raw, h);
  }

  class Worker {
    var cache: Cache

    constructor ()
      ensures cache == map[]
    {
      cache := map[];
    }

    /** One read of EdgeKV, by the item name the worker computes. */
    method GetJson(named: NamedItems, down: set<string>, k: EkvKey) returns (failed: bool, value: Option<EkvValue>)
      ensures failed <==> JsName(k) in down
      ensures !failed ==> value == JsItem(named, k)
    {
      var item := EncEkvKey(Utf16(LogicalKey(k)));
      failed := item in down;
      value := if !failed && item in named then Some(named[item]) else None;
    }

    method HostMetaFor(named: NamedItems, down: set<string>, host: string, nowMs: nat)
        returns (failed: bool, meta: Option<HostRecord>)
      modifies this
      ensures HostLookup(cache, failed, meta) == LookUpHost(old(cache), named, down, host, nowMs)
    {
      failed, meta := false, None;
      if host in cache && cache[host].expMs > nowMs {
        meta := cache[host].meta;
        return;
      }
      var value;
      failed, value := GetJson(named, down, Sentinel(host));
      if !failed {
        if value.Some? && value.value.HostValue? {
          meta := Some(HostRecord(value.value.enabled, value.value.caseSensitive));
        }
        cache := cache[host := Cached(meta, nowMs + HOST_SENTINEL_TTL_MS)];
      }
    }

    /** The head and the shards it announces, in order. */
    method ReadEntries(named: NamedItems, down: set<string>, host: string) returns (failed: bool, entries: seq<Entry>)
      ensures failed <==> JsName(Shard(host, 0)) in down
      ensures !failed ==> entries == ReadNamedManifest(named, down, host)
    {
      var first;
      entries := [];
      failed, first := GetJson(named, down, Shard(host, 0));
      if failed {
        return;
      }
      var head := HeadOf(first);
      entries := head.entries;
      for s := 1 to head.count
        invariant entries + ReadNamedShards(named, down, host, s, head.count) == ReadNamedManifest(named, down, host)
      {
        var more := ReadShard(named, down, host, s);
        Associates(entries, more, ReadNamedShards(named, down, host, s + 1, head.count));
        entries := entries + more;
      }
    }

    /** A shard that is missing, unreadable or no array contributes nothing. */
    method ReadShard(named: NamedItems, down: set<string>, host: string, s: nat) returns (more: seq<Entry>)
      ensures more == ReadNamedShard(named, down, host, s)
    {
      var missed, value := GetJson(named, down, Shard(host, s));
      more := if !missed && value.Some? && value.value.Bare? then value.value.entries else [];
    }

    method MatchManifest(named: NamedItems, down: set<string>, host: string, path: string)
        returns (failed: bool, rule: Option<EdgeRule>)
      ensures failed <==> JsName(Shard(host, 0)) in down
      ensures !failed ==> rule == ScanManifest(named, down, host, path)
    {
      var entries;
      rule := None;
      failed, entries := ReadEntries(named, down, host);
      if !failed && entries != [] {
        var found := MatchLongestPrefix(entries, path);
        rule := if found.Some? then Some(OfEntry(found.value)) else None;
      }
    }

    /** From the host's record to the answer. */
    method Resolve(named: NamedItems, down: set<string>, failed: bool, meta: Option<HostRecord>,
                  host: string, path: string, query: string) returns (answer: Answer)
      ensures answer == Answered(named, down, failed, meta, host, path, query)
    {
      var debug := Contains(query, "ewdebug=1");
      if failed && !debug {
        return Pass;
      }
      if (meta.None? || !meta.value.enabled) && !debug {
        return Pass;
      }
      var lookupPath := if meta.Some? && !meta.value.caseSensitive then Lower(path) else path;
      var missed, value := GetJson(named, down, ExactItem(host, lookupPath));
      if missed {
        return if debug then Debug else Pass;
      }
      var rule := None;
      if value.Some? && value.value.ExactValue? {
        rule := Some(OfExact(value.value.rule));
      } else {
        var unread;
        unread, rule := MatchManifest(named, down, host, lookupPath);
        if unread {
          return Pass;
        }
      }
      if debug {
        return Debug;
      }
      if rule.None? {
        return Pass;
      }
      var location := BuildLocation(rule.value, path, query);
      answer := Served(if rule.value.OfExact? then rule.value.exact.s else rule.value.entry.s, location);
    }

    method OnClientRequest(named: NamedItems, down: set<string>, rawHost: string, rawPath: string, query: string, nowMs: nat)
        returns (answer: Answer)
      modifies this
      ensures var host := NormalizeHostJs(rawHost);
        var l := LookUpHost(old(cache), named, down, host, nowMs);
        cache == l.cache && answer == Answered(named, down, l.failed, l.meta, host, Clean(rawPath), query)
      ensures forall h :: IsLowerHost(h) && Spells(rawHost, h) ==>
        var l := LookUpHost(old(cache), named, down, h, nowMs);
        cache == l.cache && answer == Answered(named, down, l.failed, l.meta, h, Clean(rawPath), query)
    {
      var host := NormalizeHostJs(rawHost);
      forall h | IsLowerHost(h) && Spells(rawHost, h) ensures h == host {
        JsHostIff(rawHost, h);
      }
      var path := NormalizePathJs(rawPath);
      var failed, meta := HostMetaFor(named, down, host, nowMs);
      answer := Resolve(named, down, failed, meta, host, path, query);
    }
  }
}
