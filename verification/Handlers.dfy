/** The mutations of admin-api/src/handlers.rs as functions on states. */
module Handlers {
  import opened Text
  import opened Model
  import opened EdgeStore
  import opened Keys
  import opened Protocol

  const U64_MAX: nat := 0xFFFF_FFFF_FFFF_FFFF

  // ---------------------------------------------------------------------------
  // Host records
  // ---------------------------------------------------------------------------

  function HostOr(hosts: Hosts, host: string): HostMeta {
    if host in hosts then hosts[host] else NewHost(host)
  }

  datatype Folded = Folded(hosts: Hosts, rule: Redirect)

  /** The rule asks to make its host case-insensitive and the host is not yet. */
  predicate Flips(hosts: Hosts, r: Redirect) {
    r.caseInsensitive && HostOr(hosts, r.host).caseSensitive
  }

  /** `apply_ci`: flip the host if asked, clear the request, fold the path of a
      case-insensitive host. */
  function ApplyCi(hosts: Hosts, r: Redirect): Folded {
    var meta := HostOr(hosts, r.host);
    var flip := Flips(hosts, r);
    var hosts' := if flip then hosts[r.host := meta.(caseSensitive := false)] else hosts;
    var path := if flip || !meta.caseSensitive then Lower(r.path) else r.path;
    Folded(hosts', r.(caseInsensitive := false, path := path))
  }

  /** u64 arithmetic that stops at its limits. */
  function SaturatingAdd(n: nat, delta: nat): nat {
    if n + delta <= U64_MAX then n + delta else U64_MAX
  }

  function SaturatingSub(n: nat, delta: nat): nat {
    if n < delta then 0 else n - delta
  }

  /** `ensure_host_meta(host, +1)` and `decrement_host_meta`. */
  function CountUp(hosts: Hosts, host: string): Hosts {
    var meta := HostOr(hosts, host);
    hosts[host := meta.(ruleCount := SaturatingAdd(meta.ruleCount, 1))]
  }

  function CountDown(hosts: Hosts, host: string): Hosts {
    var meta := HostOr(hosts, host);
    hosts[host := meta.(ruleCount := SaturatingSub(meta.ruleCount, 1))]
  }

  // ---------------------------------------------------------------------------
  // Single-rule mutations
  // ---------------------------------------------------------------------------

  datatype Reply = Reply(s: State, status: nat)

  function Normalized(r: Redirect): Redirect {
    r.(host := NormalizeHost(r.host), path := NormalizePathFn(r.path))
  }

  /** The state with a rule stored and counted, before anything is pushed. */
  function Stored(s: State, r: Redirect): State {
    s.(kv := Kv(s.kv.rules[KeyOf(r) := r], CountUp(s.kv.hosts, r.host)))
  }

  function Removed(s: State, k: RuleKey): State {
    s.(kv := Kv(s.kv.rules - {k}, CountDown(s.kv.hosts, k.host)))
  }

  function Replaced(s: State, r: Redirect): State {
    s.(kv := s.kv.(rules := s.kv.rules[KeyOf(r) := r]))
  }

  function WithHosts(s: State, hosts: Hosts): State {
    s.(kv := s.kv.(hosts := hosts))
  }

  ghost function Create(s: State, net: Net, body: Redirect, async: bool): Reply {
    if !IsValid(body) then Reply(s, 400) else
    var f := ApplyCi(s.kv.hosts, Normalized(body));
    var s1 := WithHosts(s, f.hosts);
    var k := KeyOf(f.rule);
    if k in s1.kv.rules then Reply(s1, 409) else
    var s2 := Notify(Stored(s1, f.rule), net, async, PushRule(k));
    Reply(Notify(s2, net, async, PushHost(k.host)), 201)
  }

  /** `parse_composite`: host, type and path as they appear in the URL. */
  datatype Url = Url(host: string, matchType: string, wildcard: string)

  function ParseUrl(u: Url): Option<RuleKey> {
    match ParseMatchType(u.matchType)
    case None => None
    case Some(mt) => Some(RuleKey(NormalizeHost(u.host), mt, NormalizePathFn("/" + u.wildcard)))
  }

  ghost function Update(s: State, net: Net, url: Url, body: Redirect, async: bool): Reply {
    var parsed := ParseUrl(url);
    if parsed.None? || !IsValid(body) then Reply(s, 400) else
    var r := Normalized(body).(caseInsensitive := false);
    if KeyOf(r) != parsed.value then Reply(s, 400) else
    ReplaceFolded(s, net, r, async)
  }

  ghost function ReplaceFolded(s: State, net: Net, r: Redirect, async: bool): Reply {
    var f := ApplyCi(s.kv.hosts, r);
    var s1 := WithHosts(s, f.hosts);
    var k := KeyOf(f.rule);
    if k !in s1.kv.rules then Reply(s1, 404) else
    Reply(Notify(Replaced(s1, f.rule), net, async, PushRule(k)), 200)
  }

  ghost function Delete(s: State, net: Net, url: Url, async: bool): Reply {
    var parsed := ParseUrl(url);
    if parsed.None? then Reply(s, 400) else
    var k := parsed.value;
    if k !in s.kv.rules then Reply(s, 404) else
    var s1 := Notify(Removed(s, k), net, async, DeleteRule(k));
    Reply(Notify(s1, net, async, PushHost(k.host)), 200)
  }

  ghost function UpdateHost(s: State, net: Net, rawHost: string, body: HostMeta, async: bool): Reply {
    if rawHost == "" then Reply(s, 400) else
    var host := NormalizeHost(rawHost);
    var count := if host in s.kv.hosts then s.kv.hosts[host].ruleCount else body.ruleCount;
    var meta := body.(host := host, ruleCount := count);
    Reply(Notify(WithHosts(s, s.kv.hosts[host := meta]), net, async, PushHost(host)), 200)
  }

  // ---------------------------------------------------------------------------
  // Bulk import
  // ---------------------------------------------------------------------------

  /** Where a host is, or belongs, in a BTreeSet of hosts. */
  function TouchIndex(hs: seq<string>, h: string): (i: nat)
    ensures i <= |hs|
  {
    if hs == [] || hs[0] == h || StringLess(h, hs[0]) then 0 else 1 + TouchIndex(hs[1..], h)
  }

  function Touch(hs: seq<string>, h: string): seq<string> {
    var i := TouchIndex(hs, h);
    if i < |hs| && hs[i] == h then hs else hs[..i] + ([h] + hs[i..])
  }

  /** The variables of the upsert loop. */
  datatype Progress = Progress(
    s: State, added: nat, updated: nat, untouched: nat, errors: nat, keys: set<RuleKey>, touched: seq<string>)

  ghost function ImportOne(a: Progress, net: Net, async: bool, body: Redirect): Progress {
    if !IsValid(body) then a.(errors := a.errors + 1) else
    var f := ApplyCi(a.s.kv.hosts, Normalized(body));
    UpsertFolded(a.(s := WithHosts(a.s, f.hosts), keys := a.keys + {KeyOf(f.rule)}), net, async, f.rule)
  }

  ghost function UpsertFolded(a: Progress, net: Net, async: bool, r: Redirect): Progress {
    var k := KeyOf(r);
    if k !in a.s.kv.rules then
      a.(s := Notify(Stored(a.s, r), net, async, PushRule(k)), added := a.added + 1, touched := Touch(a.touched, r.host))
    else if ContentEq(a.s.kv.rules[k], r) then
      a.(untouched := a.untouched + 1)
    else
      a.(s := Notify(Replaced(a.s, r), net, async, PushRule(k)), updated := a.updated + 1, touched := Touch(a.touched, r.host))
  }

  ghost function ImportAll(s: State, net: Net, async: bool, rules: seq<Redirect>): Progress {
    if rules == [] then Progress(s, 0, 0, 0, 0, {}, []) else
    ImportOne(ImportAll(s, net, async, rules[..|rules| - 1]), net, async, rules[|rules| - 1])
  }

  /** The variables of the replace-mode sweep. */
  datatype Sweep = Sweep(s: State, deleted: nat, touched: seq<string>)

  ghost function SweepOne(w: Sweep, net: Net, async: bool, keep: set<RuleKey>, k: RuleKey): Sweep {
    if k in keep then w else
    Sweep(Notify(Removed(w.s, k), net, async, DeleteRule(k)), w.deleted + 1, Touch(w.touched, k.host))
  }

  ghost function SweepAll(w: Sweep, net: Net, async: bool, keep: set<RuleKey>, listing: seq<RuleKey>): Sweep {
    if listing == [] then w else
    SweepOne(SweepAll(w, net, async, keep, listing[..|listing| - 1]), net, async, keep, listing[|listing| - 1])
  }

  ghost function PushHosts(s: State, net: Net, async: bool, hs: seq<string>): State {
    if hs == [] then s else
    Notify(PushHosts(s, net, async, hs[..|hs| - 1]), net, async, PushHost(hs[|hs| - 1]))
  }

  datatype Report = Report(s: State, added: nat, updated: nat, untouched: nat, deleted: nat, errors: nat)

  /** `listing` is the order in which the sweep meets the stored rules. */
  ghost function Import(s: State, net: Net, replace: bool, async: bool, rules: seq<Redirect>, listing: seq<RuleKey>): Report {
    var a := ImportAll(s, net, async, rules);
    var w := if replace then SweepAll(Sweep(a.s, 0, a.touched), net, async, a.keys, listing)
             else Sweep(a.s, 0, a.touched);
    Report(PushHosts(w.s, net, async, w.touched), a.added, a.updated, a.untouched, w.deleted, a.errors)
  }
}
