/** The coverage invariant of the write-through protocol: every part of EdgeKV
    either is what the rules want it to be, or has a marker pending that will
    make it so. */
module Coverage {
  import opened Text
  import opened Model
  import opened Manifest
  import opened EkvKeys
  import opened EdgeStore
  import opened Keys
  import opened Listings
  import opened Protocol
  import opened Accounting

  /** The parts of EdgeKV the protocol keeps up to date. */
  datatype Unit = ManifestUnit(host: string) | ExactUnit(host: string, path: string) | SentinelUnit(host: string)

  datatype Held = HeldManifest(entries: seq<Entry>) | HeldItem(item: Option<EkvValue>)

  /** What an EdgeWorker reads there. */
  function Reading(items: Items, u: Unit): Held {
    match u
    case ManifestUnit(h) => HeldManifest(ReadManifest(items, {}, h))
    case ExactUnit(h, p) => HeldItem(Item(items, ExactItem(h, p)))
    case SentinelUnit(h) => HeldItem(Item(items, Sentinel(h)))
  }

  /** What the rules and host records call for. */
  ghost function Wanted(kv: Kv, u: Unit): Held {
    match u
    case ManifestUnit(h) => HeldManifest(ManifestOf(kv.rules, h))
    case ExactUnit(h, p) =>
      var k := RuleKey(h, Exact, p);
      HeldItem(if k in kv.rules && kv.rules[k].enabled then Some(ExactValue(ToExact(kv.rules[k]))) else None)
    case SentinelUnit(h) =>
      HeldItem(if h in kv.hosts then Some(HostItem(kv.hosts[h])) else None)
  }

  ghost predicate InSync(s: State, u: Unit) {
    Reading(s.edge.items, u) == Wanted(s.kv, u)
  }

  /** The marker is one whose retry brings the unit up to date. */
  predicate Repairs(kv: Kv, t: Target, u: Unit) {
    match u
    case ManifestUnit(h) => (t.PushRule? || t.DeleteRule?) && t.key.matchType == Prefix && t.key.host == h
    case ExactUnit(h, p) =>
      var k := RuleKey(h, Exact, p);
      t == if k in kv.rules then PushRule(k) else DeleteRule(k)
    case SentinelUnit(h) => t == PushHost(h)
  }

  ghost predicate Marked(s: State, u: Unit) {
    exists t :: t in s.pending && Repairs(s.kv, t, u)
  }

  ghost predicate Covered(s: State, u: Unit) {
    InSync(s, u) || Marked(s, u)
  }

  /** What coverage rests on besides: rules and hosts sit under their own keys,
      every rule's host has a record, and the queue holds only markers that the
      mutations write, host markers naming known hosts. */
  ghost predicate WellKept(s: State) {
    && Coherent(s.kv.rules)
    && (forall h :: h in s.kv.hosts ==> s.kv.hosts[h].host == h)
    && (forall k :: k in s.kv.rules ==> k.host in s.kv.hosts)
    && (forall t :: t in s.pending ==> IsRetriable(t) && !t.DeleteHost? && (t.PushHost? ==> t.host in s.kv.hosts))
  }

  // ---------------------------------------------------------------------------
  // One job
  // ---------------------------------------------------------------------------

  function UnitOfTarget(t: Target): Option<Unit> {
    match t
    case PushRule(k) => Some(UnitOfKey(k))
    case DeleteRule(k) => Some(UnitOfKey(k))
    case PushHost(h) => Some(SentinelUnit(h))
    case _ => None
  }

  function UnitOfKey(k: RuleKey): Unit {
    if k.matchType == Prefix then ManifestUnit(k.host) else ExactUnit(k.host, k.path)
  }

  function UnitOfWork(w: Work): Option<Unit> {
    match w
    case ForMarker(t) => UnitOfTarget(t)
    case ForManifest(h) => Some(ManifestUnit(h))
  }

  /** Jobs the handlers and the drain create in a well-kept state. */
  ghost predicate Sound(kv: Kv, w: Work) {
    match w
    case ForManifest(_) => true
    case ForMarker(PushRule(k)) => k.matchType == Prefix ==> k in kv.rules
    case ForMarker(PushHost(h)) => h in kv.hosts && kv.hosts[h].host == h
    case ForMarker(DeleteRule(_)) => true
    case ForMarker(DeleteHost(_)) => false
    case ForMarker(_) => true
  }

  /** An exact rule that exists again is about to be deleted from EdgeKV. */
  predicate Stale(kv: Kv, w: Work, u: Unit) {
    && u.ExactUnit?
    && w == ForMarker(DeleteRule(RuleKey(u.host, Exact, u.path)))
    && RuleKey(u.host, Exact, u.path) in kv.rules
  }

  /** The pushed rule is gone: the attempt does nothing. */
  predicate Idle(kv: Kv, w: Work) {
    w.ForMarker? && w.target.PushRule? && w.target.key !in kv.rules
  }

  /** An attempt changes at most the unit it is about, and if it succeeds brings
      it up to date, unless it is stale or idle. */
  lemma AttemptEffect(kv: Kv, e: Edge, net: Net, w: Work, u: Unit)
    requires Coherent(kv.rules) && Sound(kv, w)
    ensures var t := Attempt(kv, e, net, w);
      && (UnitOfWork(w) != Some(u) || Idle(kv, w) ==> Reading(t.edge.items, u) == Reading(e.items, u))
      && (UnitOfWork(w) == Some(u) && t.ok && !Stale(kv, w, u) && !Idle(kv, w) ==>
           Reading(t.edge.items, u) == Wanted(kv, u))
  {
    match w {
      case ForManifest(h) => ManifestEffect(kv, e, net, h, u);
      case ForMarker(PushRule(k)) =>
        if k in kv.rules {
          assert KeyOf(kv.rules[k]) == k;
          if k.matchType == Prefix { ManifestEffect(kv, e, net, k.host, u); }
          else { ItemEffect(e, net, ExactItem(k.host, k.path), ExactValue(ToExact(kv.rules[k])), u); }
        }
      case ForMarker(DeleteRule(k)) =>
        if k.matchType == Prefix { ManifestEffect(kv, e, net, k.host, u); }
        else { ItemEffect(e, net, ExactItem(k.host, k.path), HostValue(true, true, 0), u); }
      case ForMarker(PushHost(h)) => ItemEffect(e, net, Sentinel(h), HostItem(kv.hosts[h]), u);
      case ForMarker(_) =>
    }
  }

  lemma ManifestEffect(kv: Kv, e: Edge, net: Net, h: string, u: Unit)
    ensures var t := PushPrefixes(e, net, h, ManifestOf(kv.rules, h));
      && (u != ManifestUnit(h) ==> Reading(t.edge.items, u) == Reading(e.items, u))
      && (u == ManifestUnit(h) && t.ok ==> Reading(t.edge.items, u) == Wanted(kv, u))
  {
    var t := PushPrefixes(e, net, h, ManifestOf(kv.rules, h));
    PushRoundTrip(e, net, h, ManifestOf(kv.rules, h));
    if u.ManifestUnit? && u.host != h {
      forall i: nat ensures Item(t.edge.items, Shard(u.host, i)) == Item(e.items, Shard(u.host, i)) {
        var k := Shard(u.host, i);
        assert !(k.Shard? && k.host == h);
      }
      ReadManifestFrame(t.edge.items, e.items, {}, u.host);
    }
  }

  /** Writing or deleting a single item that is not a shard. */
  lemma ItemEffect(e: Edge, net: Net, k: EkvKey, v: EkvValue, u: Unit)
    requires !k.Shard?
    ensures forall t :: (t == Put(e, net, k, v) || t == Remove(e, net, k)) && !IsItemOf(k, u) ==>
      Reading(t.edge.items, u) == Reading(e.items, u)
  {
    forall t | (t == Put(e, net, k, v) || t == Remove(e, net, k)) && !IsItemOf(k, u)
      ensures Reading(t.edge.items, u) == Reading(e.items, u)
    {
      if u.ManifestUnit? {
        ReadManifestFrame(t.edge.items, e.items, {}, u.host);
      }
    }
  }

  predicate IsItemOf(k: EkvKey, u: Unit) {
    match u
    case ManifestUnit(_) => false
    case ExactUnit(h, p) => k == ExactItem(h, p)
    case SentinelUnit(h) => k == Sentinel(h)
  }

  /** The markers of a job all stand for the unit the job works on. */
  ghost predicate Matched(j: Job) {
    && j.targets != []
    && (forall t :: t in j.targets ==> UnitOfTarget(t) == UnitOfWork(j.work))
    && (j.work.ForMarker? ==> forall t :: t in j.targets ==> t == j.work.target)
    && (j.work.ForManifest? ==> forall t :: t in j.targets ==> (t.PushRule? || t.DeleteRule?) && t.key.matchType == Prefix)
  }

  /** Whatever EdgeKV does, a job keeps every unit covered that was covered,
      except an exact rule it deletes although it exists again. */
  lemma JobKeepsCoverage(d: Tally, net: Net, j: Job, u: Unit)
    requires Coherent(d.s.kv.rules) && Sound(d.s.kv, j.work) && Matched(j)
    requires Covered(d.s, u) && !Stale(d.s.kv, j.work, u)
    ensures Covered(RunJob(d, net, j).s, u)
  {
    if UnitOfWork(j.work) == Some(u) && !Idle(d.s.kv, j.work) {
      JobRestoresCoverage(d, net, j, u);
    } else {
      AttemptEffect(d.s.kv, d.s.edge, net, j.work, u);
      if Marked(d.s, u) {
        var t :| t in d.s.pending && Repairs(d.s.kv, t, u);
        assert UnitOfTarget(t) == Some(u);
        assert t !in j.targets;
        MarkerSurvives(d.s, j.targets, Attempt(d.s.kv, d.s.edge, net, j.work), t);
      }
    }
  }

  lemma MarkerSurvives(s: State, ts: seq<Target>, tried: Tried, t: Target)
    requires t in s.pending && (t !in ts || !tried.ok)
    ensures t in Settle(s, ts, tried).pending
  {
    DropAllEffect(s.pending, ts);
    BumpAllKeys(s.pending, ts, s.now);
  }

  /** A job about a unit ends with it covered even if it was not before. */
  lemma JobRestoresCoverage(d: Tally, net: Net, j: Job, u: Unit)
    requires Coherent(d.s.kv.rules) && Sound(d.s.kv, j.work) && Matched(j)
    requires UnitOfWork(j.work) == Some(u) && !Stale(d.s.kv, j.work, u) && !Idle(d.s.kv, j.work)
    ensures Covered(RunJob(d, net, j).s, u)
  {
    var s, s' := d.s, RunJob(d, net, j).s;
    AttemptEffect(s.kv, s.edge, net, j.work, u);
    BumpAllKeys(s.pending, j.targets, s.now);
    if !Attempt(s.kv, s.edge, net, j.work).ok {
      var t := j.targets[0];
      assert t in j.targets;
      assert Repairs(s.kv, t, u);
      assert t in s'.pending;
    }
  }

  // ---------------------------------------------------------------------------
  // Pushing after a mutation
  // ---------------------------------------------------------------------------

  /** A push or an enqueued marker that fits the mutation just made: a rule that
      is there, a rule that is gone, a host that is known. */
  ghost predicate Fitting(kv: Kv, t: Target) {
    match t
    case PushRule(k) => k in kv.rules
    case DeleteRule(k) => k !in kv.rules
    case PushHost(h) => h in kv.hosts && kv.hosts[h].host == h
    case _ => false
  }

  lemma NotifyKeepsCoverage(s: State, net: Net, async: bool, t: Target, u: Unit)
    requires Coherent(s.kv.rules) && Fitting(s.kv, t)
    requires UnitOfTarget(t) == Some(u) || Covered(s, u)
    ensures Covered(Notify(s, net, async, t), u)
  {
    var s' := Notify(s, net, async, t);
    if async || !s.configured {
      assert t in s'.pending;
      if UnitOfTarget(t) == Some(u) {
        assert Repairs(s'.kv, t, u);
      } else if Marked(s, u) {
        var m :| m in s.pending && Repairs(s.kv, m, u);
        assert m in s'.pending;
      }
    } else {
      var j := Job([t], ForMarker(t));
      var d := Tally(s, 0, 0);
      if UnitOfTarget(t) == Some(u) {
        JobRestoresCoverage(d, net, j, u);
      } else {
        JobKeepsCoverage(d, net, j, u);
      }
    }
  }

  lemma NotifyAdds(s: State, net: Net, async: bool, t: Target)
    ensures var s' := Notify(s, net, async, t);
      s'.kv == s.kv && s'.pending.Keys <= s.pending.Keys + {t}
  {
    DropAllEffect(s.pending, [t]);
    BumpAllKeys(s.pending, [t], s.now);
  }

  lemma NotifyKeepsOrder(s: State, net: Net, async: bool, t: Target)
    requires WellKept(s) && Fitting(s.kv, t)
    ensures WellKept(Notify(s, net, async, t))
    ensures var s' := Notify(s, net, async, t);
      && s'.kv == s.kv && s'.now == s.now && s'.configured == s.configured
      && s'.pending.Keys <= s.pending.Keys + {t} && s.pending.Keys <= s'.pending.Keys + {t}
  {
    DropAllEffect(s.pending, [t]);
    BumpAllKeys(s.pending, [t], s.now);
  }

  // ---------------------------------------------------------------------------
  // A whole drain
  // ---------------------------------------------------------------------------

  lemma {:induction false} JobsKeepCoverage(d: Tally, net: Net, js: seq<Job>, u: Unit)
    requires Coherent(d.s.kv.rules)
    requires forall i :: 0 <= i < |js| ==> Sound(d.s.kv, js[i].work) && Matched(js[i]) && !Stale(d.s.kv, js[i].work, u)
    requires Covered(d.s, u)
    ensures Covered(RunJobs(d, net, js).s, u)
    decreases |js|
  {
    if js != [] {
      JobKeepsCoverage(d, net, js[0], u);
      JobsKeepCoverage(RunJob(d, net, js[0]), net, js[1..], u);
    }
  }

  ghost predicate ManifestGroup(g: Group) {
    && g.targets != []
    && forall t :: t in g.targets ==> t.PushRule? && t.key.matchType == Prefix && t.key.host == g.host
  }

  ghost predicate MetaGroup(g: Group) {
    && g.targets != []
    && forall t :: t in g.targets ==> t == PushHost(g.host)
  }

  /** The shape of the buckets of a well-kept queue. */
  ghost predicate Tidy(b: Buckets, ts: seq<Target>) {
    && (forall t :: t in b.exact ==> t in ts && t.PushRule? && t.key.matchType == Exact)
    && (forall g :: g in b.prefix ==> ManifestGroup(g))
    && (forall g :: g in b.meta ==> MetaGroup(g) && PushHost(g.host) in ts)
    && (forall t :: t in b.deletes ==> t in ts && t.DeleteRule?)
    && b.unknown == []
  }

  lemma {:induction false} ManifestGroups(gs: seq<Group>, host: string, t: Target)
    requires forall g :: g in gs ==> ManifestGroup(g)
    requires t.PushRule? && t.key.matchType == Prefix && t.key.host == host
    ensures forall g :: g in AddTo(gs, host, t) ==> ManifestGroup(g)
  {
    if gs != [] {
      assert ManifestGroup(gs[0]);
      ManifestGroups(gs[1..], host, t);
    }
  }

  lemma {:induction false} MetaGroups(gs: seq<Group>, host: string)
    requires forall g :: g in gs ==> MetaGroup(g)
    ensures forall g :: g in AddTo(gs, host, PushHost(host)) ==> MetaGroup(g)
    ensures forall g :: g in AddTo(gs, host, PushHost(host)) ==> g.host == host || exists f :: f in gs && f.host == g.host
  {
    if gs != [] {
      assert MetaGroup(gs[0]);
      MetaGroups(gs[1..], host);
    }
  }

  lemma {:induction false} BucketsTidy(ts: seq<Target>)
    requires forall t :: t in ts ==> IsRetriable(t) && !t.DeleteHost?
    ensures Tidy(SortedAll(ts), ts)
  {
    if ts != [] {
      var init, t := ts[..|ts| - 1], ts[|ts| - 1];
      assert ts == init + [t];
      assert t in ts;
      BucketsTidy(init);
      var b := SortedAll(init);
      match t {
        case PushRule(k) => if k.matchType == Prefix { ManifestGroups(b.prefix, k.host, t); }
        case PushHost(h) => MetaGroups(b.meta, h);
        case DeleteRule(k) =>
      }
    }
  }

  lemma JobsAreSound(kv: Kv, b: Buckets, ts: seq<Target>, i: nat)
    requires Tidy(b, ts) && i < |Jobs(b)|
    requires forall t :: t in ts && t.PushHost? ==> t.host in kv.hosts && kv.hosts[t.host].host == t.host
    ensures Sound(kv, Jobs(b)[i].work) && Matched(Jobs(b)[i])
    ensures Jobs(b)[i].work.ForMarker? ==> Jobs(b)[i].work.target in ts
  {
    var j := Jobs(b)[i];
    var e, p, m, d := |b.exact|, |b.prefix|, |b.meta|, |b.deletes|;
    if i < e {
      assert j == Job([b.exact[i]], ForMarker(b.exact[i]));
      assert b.exact[i] in b.exact;
    } else if i < e + p {
      var g := b.prefix[i - e];
      assert g in b.prefix && j == Job(g.targets, ForManifest(g.host));
    } else if i < e + p + m {
      var g := b.meta[i - e - p];
      assert g in b.meta && j == Job(g.targets, ForMarker(PushHost(g.host)));
    } else {
      var t := b.deletes[i - e - p - m];
      assert t in b.deletes && j == Job([t], ForMarker(t));
    }
  }

  /** The exact rule exists, but its deletion is among the markers taken. */
  predicate Revived(kv: Kv, taken: seq<Target>, u: Unit) {
    u.ExactUnit? && RuleKey(u.host, Exact, u.path) in kv.rules && DeleteRule(RuleKey(u.host, Exact, u.path)) in taken
  }

  /** Whatever EdgeKV does, half-written shards included, a drain leaves covered
      whatever was covered, except exact rules re-created under a delete marker. */
  lemma DrainKeepsCoverage(s: State, net: Net, taken: seq<Target>, u: Unit)
    requires WellKept(s) && forall t :: t in taken ==> t in s.pending
    requires Covered(s, u) && !Revived(s.kv, taken, u)
    ensures Covered(Drain(s, net, taken).s, u)
  {
    if s.configured {
      var b := SortedAll(taken);
      BucketsTidy(taken);
      forall i | 0 <= i < |Jobs(b)|
        ensures Sound(s.kv, Jobs(b)[i].work) && Matched(Jobs(b)[i]) && !Stale(s.kv, Jobs(b)[i].work, u)
      {
        JobsAreSound(s.kv, b, taken, i);
      }
      JobsKeepCoverage(Tally(s, 0, 0), net, Jobs(b), u);
    } else {
      BumpAllKeys(s.pending, taken, s.now);
      if Marked(s, u) {
        var t :| t in s.pending && Repairs(s.kv, t, u);
        assert t in Drain(s, net, taken).s.pending;
      }
    }
  }

  lemma DrainKeepsOrder(s: State, net: Net, taken: seq<Target>)
    requires WellKept(s) && Distinct(taken) && forall t :: t in taken ==> t in s.pending
    ensures WellKept(Drain(s, net, taken).s)
  {
    DrainAccounting(s, net, taken);
  }

  // ---------------------------------------------------------------------------
  // The stale delete, exactly
  // ---------------------------------------------------------------------------

  lemma {:induction false} DeletesClear(d: Tally, net: Net, ts: seq<Target>, k: RuleKey)
    requires Faultless(net) && Coherent(d.s.kv.rules) && k.matchType == Exact
    requires forall t :: t in ts ==> t.DeleteRule?
    requires DeleteRule(k) in ts || Item(d.s.edge.items, ExactItem(k.host, k.path)) == None
    ensures Item(RunJobs(d, net, Singles(ts)).s.edge.items, ExactItem(k.host, k.path)) == None
    decreases |ts|
  {
    if ts != [] {
      var t := ts[0];
      assert t in ts;
      var j := Job([t], ForMarker(t));
      assert Singles(ts)[0] == j && Singles(ts)[1..] == Singles(ts[1..]);
      var u := ExactUnit(k.host, k.path);
      AttemptEffect(d.s.kv, d.s.edge, net, j.work, u);
      assert t == DeleteRule(k) || Reading(RunJob(d, net, j).s.edge.items, u) == Reading(d.s.edge.items, u);
      DeletesClear(RunJob(d, net, j), net, ts[1..], k);
    }
  }

  /** With EdgeKV answering, a drain that takes the delete marker of an exact
      rule ends with its item gone, whatever else it takes. */
  lemma TakenDeleteWins(s: State, net: Net, taken: seq<Target>, k: RuleKey)
    requires WellKept(s) && s.configured && Faultless(net) && k.matchType == Exact
    requires forall t :: t in taken ==> t in s.pending
    requires DeleteRule(k) in taken
    ensures Item(Drain(s, net, taken).s.edge.items, ExactItem(k.host, k.path)) == None
  {
    var b := SortedAll(taken);
    BucketsTidy(taken);
    DeleteIsBucketed(taken, DeleteRule(k));
    var before := Singles(b.exact) + ManifestJobs(b.prefix) + MetaJobs(b.meta);
    var d0 := Tally(s, 0, 0);
    assert Jobs(b) == before + Singles(b.deletes);
    RunJobsAppend(d0, net, before, Singles(b.deletes));
    KvUnchanged(d0, net, before);
    DeletesClear(RunJobs(d0, net, before), net, b.deletes, k);
  }

  lemma {:induction false} KvUnchanged(d: Tally, net: Net, js: seq<Job>)
    ensures RunJobs(d, net, js).s.kv == d.s.kv
    decreases |js|
  {
    if js != [] {
      KvUnchanged(RunJob(d, net, js[0]), net, js[1..]);
    }
  }

  lemma {:induction false} DeleteIsBucketed(ts: seq<Target>, t: Target)
    requires t in ts && t.DeleteRule?
    ensures t in SortedAll(ts).deletes
  {
    var init := ts[..|ts| - 1];
    assert ts == init + [ts[|ts| - 1]];
    if ts[|ts| - 1] != t {
      DeleteIsBucketed(init, t);
    }
  }

  /** The drain does not re-read the store before it deletes an exact item. It
      keeps an exact rule covered exactly when it does not take the delete marker
      of an enabled rule that exists, or leaves that rule's push marker behind. */
  lemma DrainKeepsExactIff(s: State, net: Net, taken: seq<Target>, k: RuleKey)
    requires WellKept(s) && s.configured && Faultless(net) && k.matchType == Exact
    requires Distinct(taken) && forall t :: t in taken ==> t in s.pending
    requires Covered(s, UnitOfKey(k))
    ensures Covered(Drain(s, net, taken).s, UnitOfKey(k)) <==>
      !(k in s.kv.rules && s.kv.rules[k].enabled && DeleteRule(k) in taken
        && (PushRule(k) in s.pending ==> PushRule(k) in taken))
  {
    var u, s' := UnitOfKey(k), Drain(s, net, taken).s;
    assert RuleKey(u.host, Exact, u.path) == k;
    FaultlessDrain(s, net, taken);
    DrainAccounting(s, net, taken);
    if k in s.kv.rules && DeleteRule(k) in taken {
      TakenDeleteWins(s, net, taken, k);
      if PushRule(k) in s'.pending {
        assert Repairs(s'.kv, PushRule(k), u);
      }
    } else {
      DrainKeepsCoverage(s, net, taken, u);
    }
  }
}
