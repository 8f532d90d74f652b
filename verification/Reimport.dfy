/** Running the same import twice. */
module Reimport {
  import opened Text
  import opened Model
  import opened EdgeStore
  import opened Protocol
  import opened Handlers
  import opened Coverage
  import opened Mutations
  import opened LastWriter
  import opened Imports

  /** The rule a valid entry turns into under the flags as they stand now. */
  function RuleNow(hosts: Hosts, body: Redirect): Redirect {
    AsRule(body, !HostOr(hosts, NormalizeHost(body.host)).caseSensitive)
  }

  /** The store already holds what the entry says, under its present key. */
  predicate Seen(kv: Kv, body: Redirect) {
    var r := RuleNow(kv.hosts, body);
    IsValid(body) ==> KeyOf(r) in kv.rules && kv.rules[KeyOf(r)] == r
  }

  /** Every host an entry asks to fold is folded, as after any import of it. */
  predicate FlagsSet(kv: Kv, rules: seq<Redirect>) {
    forall body :: body in rules && IsValid(body) && body.caseInsensitive ==>
      !HostOr(kv.hosts, NormalizeHost(body.host)).caseSensitive
  }

  lemma SeenStep(a: Progress, net: Net, async: bool, body: Redirect)
    requires WellKept(a.s) && Normal(a.s.kv.rules) && FlagsSet(a.s.kv, [body])
    ensures var a' := ImportOne(a, net, async, body);
      && (Seen(a.s.kv, body) ==>
            a'.s == a.s && a'.touched == a.touched && a'.added == a.added && a'.updated == a.updated)
      && (!Seen(a.s.kv, body) ==> a'.added + a'.updated == a.added + a.updated + 1)
  {
    assert body in [body];
    if IsValid(body) {
      assert !Flips(a.s.kv.hosts, Normalized(body));
      assert WithHosts(a.s, ApplyCi(a.s.kv.hosts, Normalized(body)).hosts) == a.s;
      var r := Admitted(a.s.kv, body);
      assert r == RuleNow(a.s.kv.hosts, body);
      AdmittedIsNormal(a.s.kv, body);
      if KeyOf(r) in a.s.kv.rules {
        assert IsNormal(KeyOf(r), a.s.kv.rules[KeyOf(r)]);
        assert ContentEq(a.s.kv.rules[KeyOf(r)], r) <==> a.s.kv.rules[KeyOf(r)] == r;
      }
    }
  }

  /** An import over a store with its flags set changes nothing and reports
      nothing as added or updated exactly when every entry is already seen. */
  lemma {:induction false} NoChangeIff(s: State, net: Net, async: bool, rules: seq<Redirect>)
    requires WellKept(s) && Normal(s.kv.rules) && FlagsSet(s.kv, rules)
    ensures var a := ImportAll(s, net, async, rules);
      && (a.added + a.updated == 0 <==> forall body :: body in rules ==> Seen(s.kv, body))
      && (a.added + a.updated == 0 ==> a.s == s && a.touched == [])
  {
    if rules != [] {
      var init, body := rules[..|rules| - 1], rules[|rules| - 1];
      assert rules == init + [body];
      assert body in rules;
      NoChangeIff(s, net, async, init);
      var a := ImportAll(s, net, async, init);
      if a.added + a.updated == 0 {
        SeenStep(a, net, async, body);
      } else {
        NeverUncounts(a, net, async, body);
      }
    }
  }

  lemma NeverUncounts(a: Progress, net: Net, async: bool, body: Redirect)
    ensures var a' := ImportOne(a, net, async, body); a'.added + a'.updated >= a.added + a.updated
  {
  }

  // ---------------------------------------------------------------------------
  // The second run of one payload
  // ---------------------------------------------------------------------------

  function Invalid(rules: seq<Redirect>): nat {
    if rules == [] then 0 else Invalid(rules[..|rules| - 1]) + if IsValid(rules[|rules| - 1]) then 0 else 1
  }

  lemma {:induction false} ErrorsAreInvalid(s: State, net: Net, async: bool, rules: seq<Redirect>)
    ensures ImportAll(s, net, async, rules).errors == Invalid(rules)
  {
    if rules != [] {
      ErrorsAreInvalid(s, net, async, rules[..|rules| - 1]);
    }
  }

  lemma FlagsSetAfter(s: State, net: Net, async: bool, rules: seq<Redirect>)
    ensures FlagsSet(ImportAll(s, net, async, rules).s.kv, rules)
  {
    forall body | body in rules && IsValid(body) && body.caseInsensitive
      ensures !HostOr(ImportAll(s, net, async, rules).s.kv.hosts, NormalizeHost(body.host)).caseSensitive
    {
      var i :| 0 <= i < |rules| && rules[i] == body;
      assert AsksToFold(rules[i], NormalizeHost(body.host));
      ImportFlags(s, net, async, rules, NormalizeHost(body.host));
    }
  }

  /** The rule entry `i` turns into once the whole payload has set its flags. */
  ghost function FinalRule(hosts: Hosts, rules: seq<Redirect>, i: nat): Redirect
    requires i < |rules|
  {
    AsRule(rules[i], FoldedBy(hosts, rules, NormalizeHost(rules[i].host)))
  }

  /** The rule is what the last entry of its key writes, or no entry writes its
      key and it is stored already. */
  ghost predicate Remains(kv: Kv, rules: seq<Redirect>, r: Redirect) {
    EndsAs(Writes(kv.hosts, rules), r) || (!IsPayloadKey(kv.hosts, rules, KeyOf(r)) && Holds(kv.rules, r))
  }

  /** Every valid entry, folded by the flags the whole payload sets, remains. */
  ghost predicate IsRepeatable(kv: Kv, rules: seq<Redirect>) {
    forall i: nat :: i < |rules| && IsValid(rules[i]) ==> Remains(kv, rules, FinalRule(kv.hosts, rules, i))
  }

  lemma SeenIsRemains(s: State, net: Net, async: bool, rules: seq<Redirect>, i: nat)
    requires WellKept(s) && Normal(s.kv.rules) && i < |rules| && IsValid(rules[i])
    ensures Seen(ImportAll(s, net, async, rules).s.kv, rules[i]) <==> Remains(s.kv, rules, FinalRule(s.kv.hosts, rules, i))
  {
    var kv, h := ImportAll(s, net, async, rules).s.kv, NormalizeHost(rules[i].host);
    ImportStores(s, net, async, rules);
    ImportFlags(s, net, async, rules, h);
    assert RuleNow(kv.hosts, rules[i]) == FinalRule(s.kv.hosts, rules, i);
    OverwriteIff(s.kv.rules, Writes(s.kv.hosts, rules), FinalRule(s.kv.hosts, rules, i));
  }

  lemma AllSeenIff(s: State, net: Net, async: bool, rules: seq<Redirect>)
    requires WellKept(s) && Normal(s.kv.rules)
    ensures (forall body :: body in rules ==> Seen(ImportAll(s, net, async, rules).s.kv, body)) <==> IsRepeatable(s.kv, rules)
  {
    var kv := ImportAll(s, net, async, rules).s.kv;
    forall i: nat | i < |rules| && IsValid(rules[i])
      ensures Seen(kv, rules[i]) <==> Remains(s.kv, rules, FinalRule(s.kv.hosts, rules, i))
    {
      SeenIsRemains(s, net, async, rules, i);
    }
    if IsRepeatable(s.kv, rules) {
      forall body | body in rules ensures Seen(kv, body) {
        var i: nat :| i < |rules| && rules[i] == body;
        assert IsValid(body) ==> Remains(s.kv, rules, FinalRule(s.kv.hosts, rules, i));
      }
    } else {
      var i: nat :| i < |rules| && IsValid(rules[i]) && !Remains(s.kv, rules, FinalRule(s.kv.hosts, rules, i));
      assert rules[i] in rules && !Seen(kv, rules[i]);
    }
  }

  /** After an upsert import, running the payload again, under any failures,
      reports only unchanged entries and the same errors and leaves the state
      exactly as it was: exactly when the payload is repeatable, which the store
      and the payload decide before the first run. */
  lemma SecondImportIff(s: State, net: Net, async: bool, rules: seq<Redirect>, net': Net, async': bool)
    requires WellKept(s) && Normal(s.kv.rules)
    ensures var s1 := Import(s, net, false, async, rules, []).s;
      var p := Import(s1, net', false, async', rules, []);
      && p.errors == Invalid(rules) == Import(s, net, false, async, rules, []).errors
      && (p.untouched + p.errors == |rules| <==> IsRepeatable(s.kv, rules))
      && (IsRepeatable(s.kv, rules) ==> p.s == s1 && p.added == 0 && p.updated == 0 && p.deleted == 0)
  {
    var a := ImportAll(s, net, async, rules);
    ImportStores(s, net, async, rules);
    PushHostsKeepsOrder(a.s, net, async, a.touched);
    var s1 := PushHosts(a.s, net, async, a.touched);
    FlagsSetAfter(s, net, async, rules);
    AllSeenIff(s, net, async, rules);
    NoChangeIff(s1, net', async', rules);
    EntriesCount(s1, net', async', rules);
    ErrorsAreInvalid(s, net, async, rules);
    ErrorsAreInvalid(s1, net', async', rules);
  }

  /** No entry is stored before its host is flipped by a later one, unless its
      path is lower case anyway. */
  ghost predicate FlipsFirst(hosts: Hosts, rules: seq<Redirect>) {
    forall i: nat :: i < |rules| && IsValid(rules[i]) ==> RuleAt(hosts, rules, i) == FinalRule(hosts, rules, i)
  }

  /** A payload is repeatable when entries of one key agree and flips come first. */
  lemma AgreeingIsRepeatable(kv: Kv, rules: seq<Redirect>)
    requires Agreeing(Writes(kv.hosts, rules)) && FlipsFirst(kv.hosts, rules)
    ensures IsRepeatable(kv, rules)
  {
    var ws := Writes(kv.hosts, rules);
    forall i: nat | i < |rules| && IsValid(rules[i]) ensures Remains(kv, rules, FinalRule(kv.hosts, rules, i)) {
      WritesIndexed(kv.hosts, rules, i);
      assert ws[i] == Some(FinalRule(kv.hosts, rules, i));
      AgreeingEnds(ws, FinalRule(kv.hosts, rules, i));
    }
  }

  /** Import idempotence: such a payload leaves nothing for a second run to do. */
  lemma SecondImportChangesNothing(s: State, net: Net, async: bool, rules: seq<Redirect>, net': Net, async': bool)
    requires WellKept(s) && Normal(s.kv.rules)
    requires Agreeing(Writes(s.kv.hosts, rules)) && FlipsFirst(s.kv.hosts, rules)
    ensures var s1 := Import(s, net, false, async, rules, []).s;
      var p := Import(s1, net', false, async', rules, []);
      p.s == s1 && p.added == 0 && p.updated == 0 && p.deleted == 0 && p.untouched + p.errors == |rules|
  {
    AgreeingIsRepeatable(s.kv, rules);
    SecondImportIff(s, net, async, rules, net', async');
  }

  /** A valid entry whose key, folded by the flags the whole payload sets, is
      neither stored nor written makes the payload unrepeatable: so does an entry
      stored in mixed case before a later one flips its host. */
  lemma LateFlipReadds(kv: Kv, rules: seq<Redirect>, i: nat, k: RuleKey)
    requires i < |rules| && IsValid(rules[i]) && k == KeyOf(FinalRule(kv.hosts, rules, i))
    requires k !in kv.rules && !IsPayloadKey(kv.hosts, rules, k)
    ensures !IsRepeatable(kv, rules)
  {
    var r := FinalRule(kv.hosts, rules, i);
    if EndsAs(Writes(kv.hosts, rules), r) {
      EndsAsIsNamed(Writes(kv.hosts, rules), r);
    }
    assert !Remains(kv, rules, r);
  }
}
