/** What the figures of an import's report count, told from the store and the
    payload before it. */
module ImportReport {
  import opened Text
  import opened Model
  import opened EdgeStore
  import opened Listings
  import opened Protocol
  import opened Handlers
  import opened Coverage
  import opened Mutations
  import opened LastWriter
  import opened Imports
  import opened ImportCoverage
  import opened Admission

  datatype Kind = Rejected | New | Held | Changed

  /** The rules stored when the loop meets entry `i`. */
  ghost function RulesBefore(kv: Kv, rules: seq<Redirect>, i: nat): Rules
    requires i <= |rules|
  {
    Overwrite(kv.rules, Writes(kv.hosts, rules[..i]))
  }

  /** What entry `i` is to the loop: not acceptable, for a key nothing is stored
      under, saying what is stored there, or saying something else. */
  ghost function KindOf(kv: Kv, rules: seq<Redirect>, i: nat): Kind
    requires i < |rules|
  {
    var r := RuleAt(kv.hosts, rules, i);
    if !IsAcceptable(rules[i]) then Rejected
    else if KeyOf(r) !in RulesBefore(kv, rules, i) then New
    else if IsStoredAs(RulesBefore(kv, rules, i), KeyOf(r), rules[i]) then Held
    else Changed
  }

  ghost function Kinds(kv: Kv, rules: seq<Redirect>): (kinds: seq<Kind>)
    ensures |kinds| == |rules|
  {
    seq(|rules|, i requires 0 <= i < |rules| => KindOf(kv, rules, i))
  }

  /** Which of the first `n` entries are of a kind. */
  function EntriesOf(kinds: seq<Kind>, n: nat, kind: Kind): set<nat>
    requires n <= |kinds|
  {
    set i: nat | i < n && kinds[i] == kind
  }

  lemma EntriesNext(kinds: seq<Kind>, n: nat, kind: Kind)
    requires n < |kinds|
    ensures |EntriesOf(kinds, n + 1, kind)| == |EntriesOf(kinds, n, kind)| + if kinds[n] == kind then 1 else 0
  {
    var before, after := EntriesOf(kinds, n, kind), EntriesOf(kinds, n + 1, kind);
    if kinds[n] == kind {
      assert after == before + {n};
    } else {
      assert after == before;
    }
  }

  /** The counters one entry moves. */
  lemma {:induction false} EntryReport(a: Progress, net: Net, async: bool, body: Redirect)
    requires WellKept(a.s) && Normal(a.s.kv.rules)
    ensures var k := KeyOf(Admitted(a.s.kv, body));
      Moves(a, ImportOne(a, net, async, body),
        if !IsAcceptable(body) then Rejected else if k !in a.s.kv.rules then New
        else if IsStoredAs(a.s.kv.rules, k, body) then Held else Changed)
  {
    AcceptableIff(body);
    if IsValid(body) {
      var f := ApplyCi(a.s.kv.hosts, Normalized(body));
      AdmittedIsNormal(a.s.kv, body);
      FoldKeepsOrder(a.s, Normalized(body));
      HeldIff(a.s.kv.rules, f.rule, body);
      UpsertReport(a.(s := WithHosts(a.s, f.hosts), keys := a.keys + {KeyOf(f.rule)}), net, async, f.rule);
    }
  }

  /** A stored rule says what a body says exactly when its content is compared equal. */
  lemma HeldIff(rules: Rules, r: Redirect, body: Redirect)
    requires Coherent(rules) && Normal(rules) && !r.caseInsensitive
    requires r == body.(host := r.host, path := r.path, caseInsensitive := r.caseInsensitive)
    ensures IsStoredAs(rules, KeyOf(r), body) <==> KeyOf(r) in rules && ContentEq(rules[KeyOf(r)], r)
  {
    var k := KeyOf(r);
    if k in rules {
      assert KeyOf(rules[k]) == k && IsNormal(k, rules[k]);
    }
  }

  lemma {:induction false} UpsertReport(a: Progress, net: Net, async: bool, r: Redirect)
    requires Coherent(a.s.kv.rules) && Normal(a.s.kv.rules) && !r.caseInsensitive
    ensures var a', k := UpsertFolded(a, net, async, r), KeyOf(r);
      var isNew := k !in a.s.kv.rules;
      var held := !isNew && ContentEq(a.s.kv.rules[k], r);
      && a'.errors == a.errors
      && a'.added == a.added + (if isNew then 1 else 0)
      && a'.untouched == a.untouched + (if held then 1 else 0)
      && a'.updated == a.updated + (if !isNew && !held then 1 else 0)
      && |a'.s.kv.rules| == |a.s.kv.rules| + (if isNew then 1 else 0)
  {
    UpsertFoldedWrites(a, net, async, r);
    WriteSize(a.s.kv.rules, r);
  }

  lemma WriteSize(rules: Rules, r: Redirect)
    ensures |rules[KeyOf(r) := r]| == |rules| + if KeyOf(r) in rules then 0 else 1
  {
    if KeyOf(r) in rules {
      assert rules[KeyOf(r) := r].Keys == rules.Keys;
    } else {
      assert rules[KeyOf(r) := r].Keys == rules.Keys + {KeyOf(r)};
    }
    assert |rules[KeyOf(r) := r].Keys| == |rules[KeyOf(r) := r]| && |rules.Keys| == |rules|;
  }

  /** The counters after the first `n` entries. */
  ghost predicate Reports(a: Progress, kinds: seq<Kind>, n: nat, before: nat)
    requires n <= |kinds|
  {
    && a.errors == |EntriesOf(kinds, n, Rejected)|
    && a.added == |EntriesOf(kinds, n, New)|
    && a.untouched == |EntriesOf(kinds, n, Held)|
    && a.updated == |EntriesOf(kinds, n, Changed)|
    && |a.s.kv.rules| == before + a.added
  }

  lemma {:induction false} LoopReport(s: State, net: Net, async: bool, rules: seq<Redirect>, n: nat)
    requires WellKept(s) && Normal(s.kv.rules) && n <= |rules|
    ensures Reports(ImportAll(s, net, async, rules[..n]), Kinds(s.kv, rules), n, |s.kv.rules|)
  {
    if n > 0 {
      var kinds := Kinds(s.kv, rules);
      assert rules[..n][..n - 1] == rules[..n - 1];
      LoopReport(s, net, async, rules, n - 1);
      NextReport(s, net, async, rules, n - 1);
      ReportsNext(ImportAll(s, net, async, rules[..n - 1]), ImportAll(s, net, async, rules[..n]), kinds, n - 1, |s.kv.rules|);
    }
  }

  ghost predicate Moves(a: Progress, a': Progress, kind: Kind) {
    && a'.errors == a.errors + (if kind == Rejected then 1 else 0)
    && a'.added == a.added + (if kind == New then 1 else 0)
    && a'.untouched == a.untouched + (if kind == Held then 1 else 0)
    && a'.updated == a.updated + (if kind == Changed then 1 else 0)
    && |a'.s.kv.rules| == |a.s.kv.rules| + (if kind == New then 1 else 0)
  }

  lemma ReportsNext(a: Progress, a': Progress, kinds: seq<Kind>, n: nat, before: nat)
    requires n < |kinds| && Reports(a, kinds, n, before) && Moves(a, a', kinds[n])
    ensures Reports(a', kinds, n + 1, before)
  {
    EntriesNext(kinds, n, Rejected);
    EntriesNext(kinds, n, New);
    EntriesNext(kinds, n, Held);
    EntriesNext(kinds, n, Changed);
  }

  lemma {:induction false} NextReport(s: State, net: Net, async: bool, rules: seq<Redirect>, n: nat)
    requires WellKept(s) && Normal(s.kv.rules) && n < |rules|
    ensures var a := ImportAll(s, net, async, rules[..n]);
      Moves(a, ImportOne(a, net, async, rules[n]), KindOf(s.kv, rules, n))
  {
    var a := ImportAll(s, net, async, rules[..n]);
    ImportStores(s, net, async, rules[..n]);
    AcceptableIff(rules[n]);
    if IsValid(rules[n]) {
      AdmittedInLoop(s, net, async, rules, n);
    }
    EntryReport(a, net, async, rules[n]);
  }

  /** The report of an import in either mode: `added` counts the entries for new
      keys, `untouched` those that say what is stored when the loop meets them,
      `updated` those that say something else, `errors` those not acceptable; and
      the store grows by what was added and shrinks by what was deleted. */
  lemma {:induction false} ReportIsExact(s: State, net: Net, replace: bool, async: bool, rules: seq<Redirect>, listing: seq<RuleKey>)
    requires WellKept(s) && Normal(s.kv.rules)
    requires replace ==> Lists(listing, ImportAll(s, net, async, rules).s.kv.rules.Keys)
    ensures var p, kinds, n := Import(s, net, replace, async, rules, listing), Kinds(s.kv, rules), |rules|;
      && p.added == |EntriesOf(kinds, n, New)|
      && p.updated == |EntriesOf(kinds, n, Changed)|
      && p.untouched == |EntriesOf(kinds, n, Held)|
      && p.errors == |EntriesOf(kinds, n, Rejected)|
      && |p.s.kv.rules| + p.deleted == |s.kv.rules| + p.added
      && (!replace ==> p.deleted == 0)
  {
    var a := ImportAll(s, net, async, rules);
    assert rules[..|rules|] == rules;
    LoopReport(s, net, async, rules, |rules|);
    ImportStores(s, net, async, rules);
    var w := Sweep(a.s, 0, a.touched);
    if replace {
      SweepRemoves(w, net, async, a.keys, listing);
      w := SweepAll(w, net, async, a.keys, listing);
    }
    PushHostsKeepsOrder(w.s, net, async, w.touched);
  }

  // ---------------------------------------------------------------------------
  // The hosts that are pushed
  // ---------------------------------------------------------------------------

  /** A BTreeSet as a list: in byte order, without duplicates. */
  ghost predicate InOrder(hs: seq<string>) {
    forall i, j :: 0 <= i < j < |hs| ==> StringLess(hs[i], hs[j])
  }

  lemma {:induction false} TouchIndexSplits(hs: seq<string>, h: string)
    requires InOrder(hs)
    ensures var i := TouchIndex(hs, h);
      && (forall j :: 0 <= j < i ==> StringLess(hs[j], h))
      && (forall j :: i <= j < |hs| ==> hs[j] == h || StringLess(h, hs[j]))
  {
    if hs != [] {
      BytesLessTotal(Utf8(hs[0]), Utf8(h));
      if hs[0] == h || StringLess(h, hs[0]) {
        forall j | 0 < j < |hs| ensures StringLess(h, hs[j]) {
          if hs[0] != h {
            BytesLessTransitive(Utf8(h), Utf8(hs[0]), Utf8(hs[j]));
          }
        }
      } else {
        if Utf8(hs[0]) == Utf8(h) {
          Utf8Injective(hs[0], h);
        }
        var tail := hs[1..];
        assert forall i :: 0 <= i < |tail| ==> tail[i] == hs[i + 1];
        TouchIndexSplits(tail, h);
      }
    }
  }

  /** Touching keeps the hosts in order. */
  lemma TouchKeepsOrder(hs: seq<string>, h: string)
    requires InOrder(hs)
    ensures InOrder(Touch(hs, h))
  {
    TouchIndexSplits(hs, h);
    var i, out := TouchIndex(hs, h), Touch(hs, h);
    if out != hs {
      forall j | i <= j < |hs| ensures StringLess(h, hs[j]) {
        if hs[j] == h {
          assert hs[i] == h || StringLess(h, hs[i]);
          if i < j && hs[i] != h {
            assert StringLess(hs[i], hs[j]);
            BytesLessTransitive(Utf8(h), Utf8(hs[i]), Utf8(h));
            BytesLessIrreflexive(Utf8(h));
          }
        }
      }
    }
  }

  lemma {:induction false} LoopKeepsHostOrder(s: State, net: Net, async: bool, rules: seq<Redirect>)
    ensures InOrder(ImportAll(s, net, async, rules).touched)
  {
    if rules != [] {
      var a, body := ImportAll(s, net, async, rules[..|rules| - 1]), rules[|rules| - 1];
      LoopKeepsHostOrder(s, net, async, rules[..|rules| - 1]);
      TouchKeepsOrder(a.touched, ApplyCi(a.s.kv.hosts, Normalized(body)).rule.host);
    }
  }

  lemma {:induction false} SweepKeepsHostOrder(w: Sweep, net: Net, async: bool, keep: set<RuleKey>, listing: seq<RuleKey>)
    requires InOrder(w.touched)
    ensures InOrder(SweepAll(w, net, async, keep, listing).touched)
  {
    if listing != [] {
      var v, k := SweepAll(w, net, async, keep, listing[..|listing| - 1]), listing[|listing| - 1];
      SweepKeepsHostOrder(w, net, async, keep, listing[..|listing| - 1]);
      TouchKeepsOrder(v.touched, k.host);
    }
  }

  /** The hosts an import touched are pushed once each, in byte order. */
  lemma HostsArePushedInOrder(s: State, net: Net, replace: bool, async: bool, rules: seq<Redirect>, listing: seq<RuleKey>)
    ensures InOrder(BeforePushes(s, net, replace, async, rules, listing).touched)
  {
    var a := ImportAll(s, net, async, rules);
    LoopKeepsHostOrder(s, net, async, rules);
    SweepKeepsHostOrder(Sweep(a.s, 0, a.touched), net, async, a.keys, listing);
  }
}
