/** A sequence of writes to the rule map, some of them skipped: the last write to
    a key decides. */
module LastWriter {
  import opened Text
  import opened Model
  import opened Protocol

  type Write = Option<Redirect>

  predicate Holds(rules: Rules, r: Redirect) {
    KeyOf(r) in rules && rules[KeyOf(r)] == r
  }

  function Overwrite(rules: Rules, ws: seq<Write>): Rules {
    if ws == [] then rules else
    Overwritten(Overwrite(rules, ws[..|ws| - 1]), ws[|ws| - 1])
  }

  function Overwritten(rules: Rules, w: Write): Rules {
    match w
    case Some(r) => rules[KeyOf(r) := r]
    case None => rules
  }

  predicate Sets(w: Write, k: RuleKey) {
    w.Some? && KeyOf(w.value) == k
  }

  /** Some write sets the key. */
  predicate Named(ws: seq<Write>, k: RuleKey) {
    exists i :: 0 <= i < |ws| && Sets(ws[i], k)
  }

  /** Write `i` is this rule, and no later write sets its key. */
  predicate IsLast(ws: seq<Write>, i: nat, r: Redirect)
    requires i < |ws|
  {
    ws[i] == Some(r) && forall j :: i < j < |ws| ==> !Sets(ws[j], KeyOf(r))
  }

  /** The last write to the rule's key is this rule. */
  predicate EndsAs(ws: seq<Write>, r: Redirect) {
    exists i: nat :: i < |ws| && IsLast(ws, i, r)
  }

  lemma NamedSnoc(ws: seq<Write>, w: Write, k: RuleKey)
    ensures Named(ws + [w], k) <==> Named(ws, k) || Sets(w, k)
  {
    var all := ws + [w];
    assert all[|ws|] == w;
    if i :| 0 <= i < |ws| && Sets(ws[i], k) {
      assert Sets(all[i], k);
    }
  }

  lemma EndsAsSnoc(ws: seq<Write>, w: Write, r: Redirect)
    ensures EndsAs(ws + [w], r) <==> w == Some(r) || (!Sets(w, KeyOf(r)) && EndsAs(ws, r))
  {
    var all, n := ws + [w], |ws|;
    assert all[n] == w;
    if w == Some(r) {
      assert IsLast(all, n, r);
    }
    if i: nat :| i < n && IsLast(ws, i, r) && !Sets(w, KeyOf(r)) {
      assert IsLast(all, i, r);
    }
    if i: nat :| i < |all| && IsLast(all, i, r) && w != Some(r) {
      assert all[i] == ws[i] && !Sets(all[n], KeyOf(r));
      assert forall j :: i < j < n ==> all[j] == ws[j];
      assert IsLast(ws, i, r);
    }
  }

  /** A rule is stored in the end exactly when the last write to its key is this
      rule, or no write sets its key and it was stored before. */
  lemma {:induction false} OverwriteIff(rules: Rules, ws: seq<Write>, r: Redirect)
    ensures Holds(Overwrite(rules, ws), r) <==> EndsAs(ws, r) || (!Named(ws, KeyOf(r)) && Holds(rules, r))
  {
    if ws != [] {
      var init, w := ws[..|ws| - 1], ws[|ws| - 1];
      assert ws == init + [w];
      OverwriteIff(rules, init, r);
      NamedSnoc(init, w, KeyOf(r));
      EndsAsSnoc(init, w, r);
    }
  }

  lemma {:induction false} OverwriteKeys(rules: Rules, ws: seq<Write>, k: RuleKey)
    ensures k in Overwrite(rules, ws) <==> k in rules || Named(ws, k)
  {
    if ws != [] {
      var init, w := ws[..|ws| - 1], ws[|ws| - 1];
      assert ws == init + [w];
      OverwriteKeys(rules, init, k);
      NamedSnoc(init, w, k);
    }
  }

  lemma EndsAsIsNamed(ws: seq<Write>, r: Redirect)
    requires EndsAs(ws, r)
    ensures Named(ws, KeyOf(r))
  {
    var i: nat :| i < |ws| && IsLast(ws, i, r);
    assert Sets(ws[i], KeyOf(r));
  }

  /** Writes to one key are the same. */
  predicate Agreeing(ws: seq<Write>) {
    forall i, j :: 0 <= i < j < |ws| && ws[i].Some? && ws[j].Some? && KeyOf(ws[i].value) == KeyOf(ws[j].value) ==> ws[i] == ws[j]
  }

  lemma {:induction false} AgreeingEnds(ws: seq<Write>, r: Redirect)
    requires Agreeing(ws) && Some(r) in ws
    ensures EndsAs(ws, r)
  {
    var init, w := ws[..|ws| - 1], ws[|ws| - 1];
    assert ws == init + [w];
    EndsAsSnoc(init, w, r);
    if w != Some(r) {
      AgreeingEnds(init, r);
      var i :| 0 <= i < |init| && init[i] == Some(r);
      assert ws[i] == Some(r) && ws[|ws| - 1] == w;
    }
  }

  lemma OverwriteSnoc(rules: Rules, ws: seq<Write>, w: Write)
    ensures Overwrite(rules, ws + [w]) == Overwritten(Overwrite(rules, ws), w)
  {
    assert (ws + [w])[..|ws|] == ws;
  }
}
