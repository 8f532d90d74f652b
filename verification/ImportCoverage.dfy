/** What a bulk import leaves covered, and when it loses a host's sentinel. */
module ImportCoverage {
  import opened Model
  import opened EdgeStore
  import opened Keys
  import opened Listings
  import opened Protocol
  import opened Handlers
  import opened Accounting
  import opened Coverage
  import opened Mutations
  import opened LastWriter
  import opened Imports

  // ---------------------------------------------------------------------------
  // Manifests and exact items
  // ---------------------------------------------------------------------------

  lemma {:induction false} ImportOneCovers(a: Progress, net: Net, async: bool, body: Redirect, u: Unit)
    requires Sane(a) && Covered(a.s, u) && u != SentinelUnit(NormalizeHost(body.host))
    ensures Covered(ImportOne(a, net, async, body).s, u)
  {
    if IsValid(body) {
      var r := Admitted(a.s.kv, body);
      FoldKeepsOrder(a.s, Normalized(body));
      FoldCovers(a.s, body, u);
      var s1 := WithHosts(a.s, ApplyCi(a.s.kv.hosts, Normalized(body)).hosts);
      if KeyOf(r) !in s1.kv.rules {
        AddCovers(s1, net, async, r, u);
      } else {
        ReplaceCovers(s1, net, async, r, u);
      }
    }
  }

  lemma {:induction false} ImportAllCovers(s: State, net: Net, async: bool, rules: seq<Redirect>, u: Unit)
    requires WellKept(s) && Normal(s.kv.rules) && Covered(s, u) && !u.SentinelUnit?
    ensures Covered(ImportAll(s, net, async, rules).s, u)
  {
    if rules != [] {
      var init := rules[..|rules| - 1];
      ImportStores(s, net, async, init);
      ImportAllCovers(s, net, async, init, u);
      ImportOneCovers(ImportAll(s, net, async, init), net, async, rules[|rules| - 1], u);
    }
  }

  ghost predicate DropsUnit(listing: seq<RuleKey>, keep: set<RuleKey>, u: Unit) {
    exists k :: k in listing && k !in keep && UnitOfKey(k) == u
  }

  /** The sweep keeps covered units covered, and covers those it removes a rule
      of even if they were not. */
  lemma {:induction false} SweepCovers(w: Sweep, net: Net, async: bool, keep: set<RuleKey>, listing: seq<RuleKey>, u: Unit)
    requires Swept(w) && Distinct(listing) && forall k :: k in listing ==> k in w.s.kv.rules
    requires !u.SentinelUnit?
    requires Covered(w.s, u) || DropsUnit(listing, keep, u)
    ensures Covered(SweepAll(w, net, async, keep, listing).s, u)
  {
    if listing != [] {
      var init, k := listing[..|listing| - 1], listing[|listing| - 1];
      assert listing == init + [k];
      assert k in listing && k !in init;
      SweepRemoves(w, net, async, keep, init);
      var v := SweepAll(w, net, async, keep, init);
      if Covered(w.s, u) || DropsUnit(init, keep, u) {
        SweepCovers(w, net, async, keep, init, u);
      }
      if DropsUnit(listing, keep, u) {
        DropsUnitSnoc(init, k, keep, u);
      }
      SweepOneCovers(v, net, async, keep, k, u);
    }
  }

  lemma DropsUnitSnoc(listing: seq<RuleKey>, k: RuleKey, keep: set<RuleKey>, u: Unit)
    requires DropsUnit(listing + [k], keep, u)
    ensures DropsUnit(listing, keep, u) || (k !in keep && UnitOfKey(k) == u)
  {
  }

  lemma SweepOneCovers(v: Sweep, net: Net, async: bool, keep: set<RuleKey>, k: RuleKey, u: Unit)
    requires Swept(v) && k in v.s.kv.rules && !u.SentinelUnit?
    requires Covered(v.s, u) || (k !in keep && UnitOfKey(k) == u)
    ensures Covered(SweepOne(v, net, async, keep, k).s, u)
  {
    if k !in keep {
      RemoveKeepsOrder(v.s, k);
      if UnitOfKey(k) != u {
        WriteKeepsOthers(v.s, Removed(v.s, k).kv, k, u);
      }
      NotifyKeepsCoverage(Removed(v.s, k), net, async, DeleteRule(k), u);
    }
  }

  lemma {:induction false} PushHostsCovers(s: State, net: Net, async: bool, hs: seq<string>, u: Unit)
    requires WellKept(s) && forall h :: h in hs ==> h in s.kv.hosts
    requires Covered(s, u) || (u.SentinelUnit? && u.host in hs)
    ensures Covered(PushHosts(s, net, async, hs), u)
  {
    if hs != [] {
      var init, h := hs[..|hs| - 1], hs[|hs| - 1];
      assert hs == init + [h];
      PushHostsKeepsOrder(s, net, async, init);
      if Covered(s, u) || (u.SentinelUnit? && u.host in init) {
        PushHostsCovers(s, net, async, init, u);
      }
      NotifyKeepsCoverage(PushHosts(s, net, async, init), net, async, PushHost(h), u);
    }
  }

  // ---------------------------------------------------------------------------
  // Sentinels: which hosts an import announces
  // ---------------------------------------------------------------------------

  predicate IsOfHost(body: Redirect, h: string) {
    IsValid(body) && NormalizeHost(body.host) == h
  }

  /** Entry `i`, if it is a valid one of the host, is stored already as the loop
      will fold it. */
  ghost predicate HeldAt(kv: Kv, rules: seq<Redirect>, i: nat, h: string)
    requires i < |rules|
  {
    IsOfHost(rules[i], h) ==> Holds(kv.rules, RuleAt(kv.hosts, rules, i))
  }

  ghost predicate AllHeld(kv: Kv, rules: seq<Redirect>, h: string) {
    HeldUpTo(kv, rules, |rules|, h)
  }

  ghost predicate HeldUpTo(kv: Kv, rules: seq<Redirect>, n: nat, h: string)
    requires n <= |rules|
  {
    forall i: nat :: i < n ==> HeldAt(kv, rules, i, h)
  }

  /** Between the states nothing about the host changed but its flag. */
  ghost predicate Untouched(s: State, t: State, h: string) {
    && SameButFlag(s.kv.hosts, t.kv.hosts, h)
    && SameRules(s.kv.rules, t.kv.rules, h)
    && Reading(t.edge.items, SentinelUnit(h)) == Reading(s.edge.items, SentinelUnit(h))
    && (PushHost(h) in t.pending <==> PushHost(h) in s.pending)
  }

  predicate SameButFlag(a: Hosts, b: Hosts, h: string) {
    (h in a <==> h in b) && (h in a ==> b[h] == a[h].(caseSensitive := b[h].caseSensitive))
  }

  ghost predicate SameRules(a: Rules, b: Rules, h: string) {
    forall k: RuleKey :: k.host == h ==> (k in a <==> k in b) && (k in a ==> a[k] == b[k])
  }

  /** A rule's push, or any other host's, leaves a host's sentinel and marker alone. */
  lemma NotifyLeavesHost(s: State, net: Net, async: bool, t: Target, h: string)
    requires Coherent(s.kv.rules) && Fitting(s.kv, t) && t != PushHost(h)
    ensures Untouched(s, Notify(s, net, async, t), h)
    ensures Notify(s, net, async, t).kv == s.kv
  {
    if !async && s.configured {
      AttemptEffect(s.kv, s.edge, net, ForMarker(t), SentinelUnit(h));
      DropAllEffect(s.pending, [t]);
      BumpAllKeys(s.pending, [t], s.now);
    }
  }

  lemma UntouchedTrans(a: State, b: State, c: State, h: string)
    requires Untouched(a, b, h) && Untouched(b, c, h)
    ensures Untouched(a, c, h)
  {
  }

  /** Writing, removing or folding for another host. */
  lemma WritesLeaveHost(s: State, r: Redirect, k: RuleKey, h: string)
    ensures r.host != h ==> Untouched(s, Stored(s, r), h) && Untouched(s, Replaced(s, r), h)
    ensures r.host != h ==> Untouched(s, WithHosts(s, ApplyCi(s.kv.hosts, r).hosts), h)
    ensures k.host != h ==> Untouched(s, Removed(s, k), h)
  {
  }

  lemma {:induction false} OtherEntry(a: Progress, net: Net, async: bool, body: Redirect, h: string)
    requires Sane(a) && IsValid(body) && NormalizeHost(body.host) != h
    ensures var a' := ImportOne(a, net, async, body);
      (h in a'.touched <==> h in a.touched) && Untouched(a.s, a'.s, h)
  {
    var r, s1 := Admitted(a.s.kv, body), WithHosts(a.s, ApplyCi(a.s.kv.hosts, Normalized(body)).hosts);
    FoldKeepsOrder(a.s, Normalized(body));
    WritesLeaveHost(a.s, Normalized(body), KeyOf(r), h);
    UpsertLeavesHost(a.(s := s1, keys := a.keys + {KeyOf(r)}), net, async, r, h);
    UntouchedTrans(a.s, s1, ImportOne(a, net, async, body).s, h);
  }

  lemma {:induction false} UpsertLeavesHost(a: Progress, net: Net, async: bool, r: Redirect, h: string)
    requires WellKept(a.s) && r.host != h
    ensures var a' := UpsertFolded(a, net, async, r);
      (h in a'.touched <==> h in a.touched) && Untouched(a.s, a'.s, h)
  {
    var k := KeyOf(r);
    TouchAdds(a.touched, r.host);
    WritesLeaveHost(a.s, r, k, h);
    if k !in a.s.kv.rules {
      StoreKeepsOrder(a.s, r);
      NotifyLeavesHost(Stored(a.s, r), net, async, PushRule(k), h);
      UntouchedTrans(a.s, Stored(a.s, r), Notify(Stored(a.s, r), net, async, PushRule(k)), h);
    } else if !ContentEq(a.s.kv.rules[k], r) {
      ReplaceKeepsOrder(a.s, r);
      NotifyLeavesHost(Replaced(a.s, r), net, async, PushRule(k), h);
      UntouchedTrans(a.s, Replaced(a.s, r), Notify(Replaced(a.s, r), net, async, PushRule(k)), h);
    }
  }

  /** An entry of the host itself touches it exactly when it is not held. */
  lemma {:induction false} OwnEntry(a: Progress, net: Net, async: bool, body: Redirect)
    requires Sane(a) && IsValid(body)
    ensures var a', h, held := ImportOne(a, net, async, body), NormalizeHost(body.host), Holds(a.s.kv.rules, Admitted(a.s.kv, body));
      (h in a'.touched <==> h in a.touched || !held) && (held ==> Untouched(a.s, a'.s, h))
  {
    var r := Admitted(a.s.kv, body);
    AdmittedIsNormal(a.s.kv, body);
    TouchAdds(a.touched, r.host);
    if KeyOf(r) in a.s.kv.rules && ContentEq(a.s.kv.rules[KeyOf(r)], r) {
      assert IsNormal(KeyOf(r), a.s.kv.rules[KeyOf(r)]);
      ContentAndKeyDecide(a.s.kv.rules[KeyOf(r)], r);
    }
  }

  predicate IsHeld(a: Progress, body: Redirect, h: string) {
    IsOfHost(body, h) ==> Holds(a.s.kv.rules, Admitted(a.s.kv, body))
  }

  lemma EntryTouchesIff(a: Progress, net: Net, async: bool, body: Redirect, h: string)
    requires Sane(a)
    ensures var a' := ImportOne(a, net, async, body);
      && (h in a'.touched <==> h in a.touched || !IsHeld(a, body, h))
      && (IsHeld(a, body, h) ==> Untouched(a.s, a'.s, h))
  {
    if IsOfHost(body, h) {
      OwnEntry(a, net, async, body);
    } else if IsValid(body) {
      OtherEntry(a, net, async, body, h);
    }
  }

  /** As long as the host is untouched, an entry is held in the loop exactly when
      it is held before it. */
  lemma HeldInLoopIff(s: State, net: Net, async: bool, rules: seq<Redirect>, i: nat, h: string)
    requires i < |rules| && Untouched(s, ImportAll(s, net, async, rules[..i]).s, h)
    ensures IsHeld(ImportAll(s, net, async, rules[..i]), rules[i], h) <==> HeldAt(s.kv, rules, i, h)
  {
    if IsOfHost(rules[i], h) {
      AdmittedInLoop(s, net, async, rules, i);
      assert KeyOf(RuleAt(s.kv.hosts, rules, i)).host == h;
    }
  }

  lemma HeldUpToNext(kv: Kv, rules: seq<Redirect>, n: nat, h: string)
    requires n < |rules|
    ensures HeldUpTo(kv, rules, n + 1, h) <==> HeldUpTo(kv, rules, n, h) && HeldAt(kv, rules, n, h)
  {
  }

  /** The upsert loop touches a host exactly when some entry of it is not held,
      and otherwise changes nothing of it but its flag. */
  lemma {:induction false} LoopTouchesIff(s: State, net: Net, async: bool, rules: seq<Redirect>, n: nat, h: string)
    requires WellKept(s) && Normal(s.kv.rules) && n <= |rules|
    ensures var a := ImportAll(s, net, async, rules[..n]);
      && (h in a.touched <==> !HeldUpTo(s.kv, rules, n, h))
      && (HeldUpTo(s.kv, rules, n, h) ==> Untouched(s, a.s, h))
  {
    if n > 0 {
      var init, body := rules[..n - 1], rules[n - 1];
      assert rules[..n] == init + [body];
      var a := ImportAll(s, net, async, init);
      ImportStores(s, net, async, init);
      LoopTouchesIff(s, net, async, rules, n - 1, h);
      HeldUpToNext(s.kv, rules, n - 1, h);
      EntryTouchesIff(a, net, async, body, h);
      if HeldUpTo(s.kv, rules, n - 1, h) {
        HeldInLoopIff(s, net, async, rules, n - 1, h);
        if IsHeld(a, body, h) {
          UntouchedTrans(s, a.s, ImportOne(a, net, async, body).s, h);
        }
      }
    }
  }

  /** The sweep touches a host exactly when it removes a rule of it. */
  lemma {:induction false} SweepTouchesIff(w: Sweep, net: Net, async: bool, keep: set<RuleKey>, listing: seq<RuleKey>, h: string)
    requires Swept(w) && Distinct(listing) && forall k :: k in listing ==> k in w.s.kv.rules
    ensures var w', drops := SweepAll(w, net, async, keep, listing), DropsOf(listing, keep, h);
      && (h in w'.touched <==> h in w.touched || drops)
      && (!drops ==> Untouched(w.s, w'.s, h) && HostOr(w'.s.kv.hosts, h) == HostOr(w.s.kv.hosts, h))
  {
    if listing != [] {
      var init, k := listing[..|listing| - 1], listing[|listing| - 1];
      assert listing == init + [k];
      assert k in listing && k !in init;
      SweepRemoves(w, net, async, keep, init);
      SweepTouchesIff(w, net, async, keep, init, h);
      var v := SweepAll(w, net, async, keep, init);
      DropsSnoc(init, k, keep, h);
      SweepOneTouchesIff(v, net, async, keep, k, h);
      if !DropsOf(listing, keep, h) {
        UntouchedTrans(w.s, v.s, SweepOne(v, net, async, keep, k).s, h);
      }
    }
  }

  lemma {:induction false} SweepOneTouchesIff(v: Sweep, net: Net, async: bool, keep: set<RuleKey>, k: RuleKey, h: string)
    requires Swept(v) && k in v.s.kv.rules
    ensures var v', drops := SweepOne(v, net, async, keep, k), k !in keep && k.host == h;
      && (h in v'.touched <==> h in v.touched || drops)
      && (!drops ==> Untouched(v.s, v'.s, h) && HostOr(v'.s.kv.hosts, h) == HostOr(v.s.kv.hosts, h))
  {
    if k !in keep {
      var s1 := Removed(v.s, k);
      TouchAdds(v.touched, k.host);
      RemoveKeepsOrder(v.s, k);
      if k.host != h {
        WritesLeaveHost(v.s, v.s.kv.rules[k], k, h);
        NotifyLeavesHost(s1, net, async, DeleteRule(k), h);
        UntouchedTrans(v.s, s1, Notify(s1, net, async, DeleteRule(k)), h);
      } else {
        NotifyKeepsOrder(s1, net, async, DeleteRule(k));
      }
    }
  }

  lemma DropsSnoc(listing: seq<RuleKey>, k: RuleKey, keep: set<RuleKey>, h: string)
    ensures DropsOf(listing + [k], keep, h) <==> DropsOf(listing, keep, h) || (k !in keep && k.host == h)
  {
    assert k in listing + [k];
    if x :| x in listing && x !in keep && x.host == h {
      assert x in listing + [k];
    }
  }

  ghost predicate DropsOf(listing: seq<RuleKey>, keep: set<RuleKey>, h: string) {
    exists k :: k in listing && k !in keep && k.host == h
  }

  lemma {:induction false} PushHostsLeaveOthers(s: State, net: Net, async: bool, hs: seq<string>, h: string)
    requires WellKept(s) && h !in hs && forall x :: x in hs ==> x in s.kv.hosts
    ensures Untouched(s, PushHosts(s, net, async, hs), h)
  {
    if hs != [] {
      var init, x := hs[..|hs| - 1], hs[|hs| - 1];
      assert hs == init + [x];
      PushHostsKeepsOrder(s, net, async, init);
      PushHostsLeaveOthers(s, net, async, init, h);
      NotifyLeavesHost(PushHosts(s, net, async, init), net, async, PushHost(x), h);
    }
  }

  // ---------------------------------------------------------------------------
  // The whole import
  // ---------------------------------------------------------------------------

  /** Some entry flips the host, but every valid entry of it is stored already,
      nothing of it is to be swept, and no marker of it is pending: the loop writes
      the flag, but nothing announces it. */
  ghost predicate ImportWastesFlip(s: State, replace: bool, rules: seq<Redirect>, h: string) {
    && HostOr(s.kv.hosts, h).caseSensitive && FoldedBy(s.kv.hosts, rules, h)
    && AllHeld(s.kv, rules, h)
    && (replace ==> forall k :: k in s.kv.rules && k.host == h ==> IsPayloadKey(s.kv.hosts, rules, k))
    && PushHost(h) !in s.pending
  }

  /** The state before the final host pushes. */
  ghost function BeforePushes(s: State, net: Net, replace: bool, async: bool, rules: seq<Redirect>, listing: seq<RuleKey>): Sweep {
    var a := ImportAll(s, net, async, rules);
    if replace then SweepAll(Sweep(a.s, 0, a.touched), net, async, a.keys, listing) else Sweep(a.s, 0, a.touched)
  }

  /** Which hosts are announced, and what has happened to the others. */
  lemma AnnouncesIff(s: State, net: Net, replace: bool, async: bool, rules: seq<Redirect>, listing: seq<RuleKey>, h: string)
    requires WellKept(s) && Normal(s.kv.rules)
    requires replace ==> Lists(listing, ImportAll(s, net, async, rules).s.kv.rules.Keys)
    ensures var w := BeforePushes(s, net, replace, async, rules, listing);
      var quiet := AllHeld(s.kv, rules, h)
        && (replace ==> forall k :: k in s.kv.rules && k.host == h ==> IsPayloadKey(s.kv.hosts, rules, k));
      && Swept(w) && (h in w.touched <==> !quiet)
      && (quiet ==> Untouched(s, w.s, h))
      && (quiet ==> (HostOr(w.s.kv.hosts, h).caseSensitive <==> !FoldedBy(s.kv.hosts, rules, h)))
  {
    var a := ImportAll(s, net, async, rules);
    ImportStores(s, net, async, rules);
    ImportFlags(s, net, async, rules, h);
    LoopTouchesIff(s, net, async, rules, |rules|, h);
    assert rules[..|rules|] == rules;
    if replace {
      var w := Sweep(a.s, 0, a.touched);
      SweepRemoves(w, net, async, a.keys, listing);
      SweepTouchesIff(w, net, async, a.keys, listing, h);
      if AllHeld(s.kv, rules, h) {
        DropsIff(s, a, rules, listing, h);
        if !DropsOf(listing, a.keys, h) {
          UntouchedTrans(s, a.s, SweepAll(w, net, async, a.keys, listing).s, h);
        }
      }
    }
  }

  lemma DropsIff(s: State, a: Progress, rules: seq<Redirect>, listing: seq<RuleKey>, h: string)
    requires SameRules(s.kv.rules, a.s.kv.rules, h) && Lists(listing, a.s.kv.rules.Keys)
    requires forall k :: k in a.keys <==> IsPayloadKey(s.kv.hosts, rules, k)
    ensures DropsOf(listing, a.keys, h) <==>
      !(forall k :: k in s.kv.rules && k.host == h ==> IsPayloadKey(s.kv.hosts, rules, k))
  {
    assert forall k :: k in listing <==> k in a.s.kv.rules.Keys;
    if k :| k in s.kv.rules && k.host == h && !IsPayloadKey(s.kv.hosts, rules, k) {
      assert k in listing && k !in a.keys && k.host == h;
    }
  }

  /** An import in either mode keeps a covered unit covered exactly when the unit
      is not the sentinel of a host whose flip the import wastes. */
  lemma {:induction false} ImportCoversIff(s: State, net: Net, replace: bool, async: bool, rules: seq<Redirect>, listing: seq<RuleKey>, u: Unit)
    requires WellKept(s) && Normal(s.kv.rules) && Covered(s, u)
    requires replace ==> Lists(listing, ImportAll(s, net, async, rules).s.kv.rules.Keys)
    ensures Covered(Import(s, net, replace, async, rules, listing).s, u) <==>
      !(u.SentinelUnit? && ImportWastesFlip(s, replace, rules, u.host))
  {
    var w := BeforePushes(s, net, replace, async, rules, listing);
    if u.SentinelUnit? {
      AnnouncesIff(s, net, replace, async, rules, listing, u.host);
      if u.host in w.touched {
        PushHostsCovers(w.s, net, async, w.touched, u);
      } else {
        UnannouncedIff(s, net, async, rules, w, u.host);
      }
    } else {
      var a := ImportAll(s, net, async, rules);
      ImportStores(s, net, async, rules);
      ImportAllCovers(s, net, async, rules, u);
      if replace {
        SweepCovers(Sweep(a.s, 0, a.touched), net, async, a.keys, listing, u);
        SweepRemoves(Sweep(a.s, 0, a.touched), net, async, a.keys, listing);
      }
      PushHostsCovers(w.s, net, async, w.touched, u);
    }
  }

  lemma UnannouncedIff(s: State, net: Net, async: bool, rules: seq<Redirect>, w: Sweep, h: string)
    requires WellKept(s) && Covered(s, SentinelUnit(h))
    requires Swept(w) && h !in w.touched && Untouched(s, w.s, h)
    requires AllHeld(s.kv, rules, h)
    requires HostOr(w.s.kv.hosts, h).caseSensitive <==> !FoldedBy(s.kv.hosts, rules, h)
    ensures Covered(PushHosts(w.s, net, async, w.touched), SentinelUnit(h)) <==>
      !(HostOr(s.kv.hosts, h).caseSensitive && FoldedBy(s.kv.hosts, rules, h) && PushHost(h) !in s.pending)
  {
    var u, end := SentinelUnit(h), PushHosts(w.s, net, async, w.touched);
    PushHostsKeepsOrder(w.s, net, async, w.touched);
    PushHostsLeaveOthers(w.s, net, async, w.touched, h);
    UntouchedTrans(s, w.s, end, h);
    assert Marked(s, u) <==> PushHost(h) in s.pending;
    assert Marked(end, u) <==> PushHost(h) in s.pending by {
      assert forall t :: Repairs(end.kv, t, u) <==> t == PushHost(h);
    }
  }

  // ---------------------------------------------------------------------------
  // Replace mode
  // ---------------------------------------------------------------------------

  /** The stored rules that the payload does not name. */
  ghost function Dropped(kv: Kv, rules: seq<Redirect>): set<RuleKey> {
    set k | k in kv.rules && !IsPayloadKey(kv.hosts, rules, k)
  }

  /** Full-sync semantics: after a replace import, whatever EdgeKV did meanwhile,
      exactly those rules are stored that the last entry of their key describes,
      after normalisation and case folding. `deleted` counts the rules that the
      payload does not name; each of them is gone, and its item or manifest is up
      to date or has a marker pending, even if it had neither before; with
      `?async=1` or without credentials its own delete marker is. */
  lemma {:induction false} ReplaceModeIsExact(s: State, net: Net, async: bool, rules: seq<Redirect>, listing: seq<RuleKey>)
    requires WellKept(s) && Normal(s.kv.rules)
    requires Lists(listing, ImportAll(s, net, async, rules).s.kv.rules.Keys)
    ensures var p := Import(s, net, true, async, rules, listing);
      && (forall k :: k in p.s.kv.rules <==> IsPayloadKey(s.kv.hosts, rules, k))
      && (forall r :: Holds(p.s.kv.rules, r) <==> EndsAs(Writes(s.kv.hosts, rules), r))
      && p.deleted == |Dropped(s.kv, rules)|
      && (forall k :: k in Dropped(s.kv, rules) ==> Covered(p.s, UnitOfKey(k)))
      && (forall k :: k in Dropped(s.kv, rules) && (async || !s.configured) ==> DeleteRule(k) in p.s.pending)
  {
    var a, ws := ImportAll(s, net, async, rules), Writes(s.kv.hosts, rules);
    ImportStores(s, net, async, rules);
    LoopKeepsCredentials(s, net, async, rules);
    DroppedIsSwept(s.kv, rules, a.keys);
    SweepIsExact(a, net, async, listing);
    forall k | k in Dropped(s.kv, rules)
      ensures Covered(Finished(a, net, async, listing), UnitOfKey(k))
      ensures async || !s.configured ==> DeleteRule(k) in Finished(a, net, async, listing).pending
    {
      SweptIsNotified(a, net, async, listing, k);
    }
    forall r ensures Holds(Finished(a, net, async, listing).kv.rules, r) <==> EndsAs(ws, r) {
      KeptIff(s.kv.rules, ws, a.keys, r);
    }
  }

  lemma DroppedIsSwept(kv: Kv, rules: seq<Redirect>, keys: set<RuleKey>)
    requires forall k :: k in keys <==> IsPayloadKey(kv.hosts, rules, k)
    ensures Dropped(kv, rules) == Overwrite(kv.rules, Writes(kv.hosts, rules)).Keys - keys
  {
    forall k ensures k in Dropped(kv, rules) <==> k in Overwrite(kv.rules, Writes(kv.hosts, rules)) && k !in keys {
      OverwriteKeys(kv.rules, Writes(kv.hosts, rules), k);
    }
  }

  /** Of what the writes leave, those under their own keys are kept. */
  lemma KeptIff(rules: Rules, ws: seq<Write>, keys: set<RuleKey>, r: Redirect)
    requires forall k :: k in keys <==> Named(ws, k)
    ensures Holds(Overwrite(rules, ws), r) && KeyOf(r) in keys <==> EndsAs(ws, r)
  {
    OverwriteIff(rules, ws, r);
    if EndsAs(ws, r) {
      EndsAsIsNamed(ws, r);
    }
  }

  /** The sweep and the final pushes, from wherever the upsert loop ended. */
  ghost function AfterSweep(a: Progress, net: Net, async: bool, listing: seq<RuleKey>): Sweep {
    SweepAll(Sweep(a.s, 0, a.touched), net, async, a.keys, listing)
  }

  ghost function Finished(a: Progress, net: Net, async: bool, listing: seq<RuleKey>): State {
    var w := AfterSweep(a, net, async, listing);
    PushHosts(w.s, net, async, w.touched)
  }

  lemma {:induction false} SweepIsExact(a: Progress, net: Net, async: bool, listing: seq<RuleKey>)
    requires Sane(a) && Lists(listing, a.s.kv.rules.Keys)
    ensures var w := AfterSweep(a, net, async, listing);
      && Swept(w) && Finished(a, net, async, listing).kv == w.s.kv
      && w.s.kv.rules.Keys == a.keys
      && (forall k :: k in a.keys ==> k in a.s.kv.rules && w.s.kv.rules[k] == a.s.kv.rules[k])
      && w.deleted == |a.s.kv.rules.Keys - a.keys|
  {
    var w' := AfterSweep(a, net, async, listing);
    SweepLeavesKept(a, net, async, listing);
    PushHostsKeepsOrder(w'.s, net, async, w'.touched);
    RemovedSize(a.s.kv.rules, w'.s.kv.rules, a.keys);
  }

  lemma {:induction false} SweepLeavesKept(a: Progress, net: Net, async: bool, listing: seq<RuleKey>)
    requires Sane(a) && Lists(listing, a.s.kv.rules.Keys)
    ensures var w := AfterSweep(a, net, async, listing);
      && Swept(w) && w.s.kv.rules.Keys == a.keys
      && (forall k :: k in a.keys ==> w.s.kv.rules[k] == a.s.kv.rules[k])
      && w.deleted == |a.s.kv.rules| - |w.s.kv.rules|
  {
    SweepRemoves(Sweep(a.s, 0, a.touched), net, async, a.keys, listing);
    assert forall k :: k in listing <==> k in a.s.kv.rules.Keys;
    assert AfterSweep(a, net, async, listing).s.kv.rules.Keys == a.keys;
  }

  lemma RemovedSize(before: Rules, after: Rules, keys: set<RuleKey>)
    requires after.Keys == keys && keys <= before.Keys
    ensures |before.Keys - keys| == |before| - |after|
  {
    assert before.Keys == keys + (before.Keys - keys);
  }

  /** The delete of a swept rule is pushed or queued, and stays so to the end. */
  lemma {:induction false} SweptIsNotified(a: Progress, net: Net, async: bool, listing: seq<RuleKey>, k: RuleKey)
    requires Sane(a) && Lists(listing, a.s.kv.rules.Keys) && k in a.s.kv.rules && k !in a.keys
    ensures Covered(Finished(a, net, async, listing), UnitOfKey(k))
    ensures async || !a.s.configured ==> DeleteRule(k) in Finished(a, net, async, listing).pending
  {
    var w, w' := Sweep(a.s, 0, a.touched), AfterSweep(a, net, async, listing);
    assert k in a.s.kv.rules.Keys && k in listing;
    SweepIsExact(a, net, async, listing);
    SweepCovers(w, net, async, a.keys, listing, UnitOfKey(k));
    PushHostsCovers(w'.s, net, async, w'.touched, UnitOfKey(k));
    if async || !a.s.configured {
      SweepQueues(w, net, async, a.keys, listing, k);
      PushHostsKeepsOrder(w'.s, net, async, w'.touched);
    }
  }

  lemma {:induction false} LoopKeepsCredentials(s: State, net: Net, async: bool, rules: seq<Redirect>)
    ensures ImportAll(s, net, async, rules).s.configured == s.configured
  {
    if rules != [] {
      var init := rules[..|rules| - 1];
      LoopKeepsCredentials(s, net, async, init);
      EntryKeepsCredentials(ImportAll(s, net, async, init), net, async, rules[|rules| - 1]);
    }
  }

  lemma {:induction false} EntryKeepsCredentials(a: Progress, net: Net, async: bool, body: Redirect)
    ensures ImportOne(a, net, async, body).s.configured == a.s.configured
  {
    if IsValid(body) {
      var f := ApplyCi(a.s.kv.hosts, Normalized(body));
      UpsertKeepsCredentials(a.(s := WithHosts(a.s, f.hosts), keys := a.keys + {KeyOf(f.rule)}), net, async, f.rule);
    }
  }

  lemma {:induction false} UpsertKeepsCredentials(a: Progress, net: Net, async: bool, r: Redirect)
    ensures UpsertFolded(a, net, async, r).s.configured == a.s.configured
  {
  }

  lemma {:induction false} SweepQueues(w: Sweep, net: Net, async: bool, keep: set<RuleKey>, listing: seq<RuleKey>, k: RuleKey)
    requires async || !w.s.configured
    ensures var w' := SweepAll(w, net, async, keep, listing);
      && w'.s.configured == w.s.configured
      && (k in listing && k !in keep ==> DeleteRule(k) in w'.s.pending)
      && w.s.pending.Keys <= w'.s.pending.Keys
  {
    if listing != [] {
      var init, x := listing[..|listing| - 1], listing[|listing| - 1];
      assert listing == init + [x];
      SweepQueues(w, net, async, keep, init, k);
    }
  }
}
