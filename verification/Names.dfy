/** The protocol's structured keys against the strings the system really uses:
    on hosts with plain names the two carry the same information. */
module Names {
  import opened Text
  import opened Model
  import opened EkvKeys
  import opened EdgeStore
  import opened Keys

  /** A host without a port whose name is not the namespace of the sentinels. */
  predicate IsNameable(host: string) {
    host != "_hosts" && ':' !in host
  }

  /** And without the separator of the rule keys. */
  predicate IsPlainHost(host: string) {
    IsNameable(host) && '|' !in host
  }

  /** On nameable hosts item names identify items. */
  lemma ItemNamesIdentify(a: EkvKey, b: EkvKey)
    requires IsNameable(a.host) && IsNameable(b.host)
    requires ItemName(a) == ItemName(b)
    ensures a == b
  {
    if a != b {
      ItemNamesCollideIff(a, b);
    }
  }

  type NamedItems = map<string, EkvValue>

  ghost predicate NameableItems(items: Items) {
    forall k :: k in items ==> IsNameable(k.host)
  }

  ghost predicate HasName(items: Items, n: string) {
    exists k :: k in items && ItemName(k) == n
  }

  /** EdgeKV under its item names. */
  ghost predicate IsNamed(named: NamedItems, items: Items) {
    && (forall n :: n in named ==> HasName(items, n))
    && (forall k :: k in items ==> ItemName(k) in named && named[ItemName(k)] == items[k])
  }

  /** Reading by name is reading by key. */
  lemma NamedRead(named: NamedItems, items: Items, k: EkvKey)
    requires NameableItems(items) && IsNameable(k.host) && IsNamed(named, items)
    ensures ItemName(k) in named <==> k in items
    ensures k in items ==> named[ItemName(k)] == items[k]
  {
    if ItemName(k) in named {
      var j :| j in items && ItemName(j) == ItemName(k);
      ItemNamesIdentify(j, k);
    }
  }

  /** Writing by name is writing by key. */
  lemma NamedWrite(named: NamedItems, items: Items, k: EkvKey, v: EkvValue)
    requires NameableItems(items) && IsNameable(k.host) && IsNamed(named, items)
    ensures IsNamed(named[ItemName(k) := v], items[k := v])
  {
    var named', items' := named[ItemName(k) := v], items[k := v];
    assert k in items';
    forall n | n in named' ensures HasName(items', n) {
      if n != ItemName(k) {
        var j :| j in items && ItemName(j) == n;
        assert j in items';
      }
    }
    forall j | j in items' ensures ItemName(j) in named' && named'[ItemName(j)] == items'[j] {
      if ItemName(j) == ItemName(k) {
        ItemNamesIdentify(j, k);
      }
    }
  }

  /** Deleting by name is deleting by key. */
  lemma NamedDelete(named: NamedItems, items: Items, k: EkvKey)
    requires NameableItems(items) && IsNameable(k.host) && IsNamed(named, items)
    ensures IsNamed(named - {ItemName(k)}, items - {k})
  {
    var named', items' := named - {ItemName(k)}, items - {k};
    forall n | n in named' ensures HasName(items', n) {
      var j :| j in items && ItemName(j) == n;
      assert j in items';
    }
    forall j | j in items' ensures ItemName(j) in named' && named'[ItemName(j)] == items'[j] {
      if ItemName(j) == ItemName(k) {
        ItemNamesIdentify(j, k);
      }
    }
  }

  // ---------------------------------------------------------------------------
  // Reading by the names the EdgeWorker computes
  // ---------------------------------------------------------------------------

  function JsItem(named: NamedItems, k: EkvKey): Option<EkvValue> {
    if JsName(k) in named then Some(named[JsName(k)]) else None
  }

  /** The worker's spelling neither makes nor hides a separator. */
  lemma {:induction false} SeenNameableIff(host: string)
    ensures IsNameable(Seen(host)) <==> IsNameable(host)
  {
    SeenCharIff(host, ':');
    SeenLength(host);
    if Seen(host) == "_hosts" && !IsBmp(host) {
      SeenHasReplacement(host);
      assert false;
    }
  }

  lemma {:induction false} SeenCharIff(s: string, c: char)
    requires c as int < 0x10000 && c != '\U{FFFD}'
    ensures c in Seen(s) <==> c in s
  {
    if s != "" {
      SeenCharIff(s[1..], c);
      assert s == [s[0]] + s[1..];
    }
  }

  lemma {:induction false} SeenHasReplacement(s: string)
    requires !IsBmp(s)
    ensures '\U{FFFD}' in Seen(s)
  {
    if s[0] as int < 0x10000 {
      var i :| 0 <= i < |s| && s[i] as int >= 0x10000;
      assert s[1..][i - 1] == s[i];
      SeenHasReplacement(s[1..]);
    }
  }

  /** On nameable hosts, what the worker reads when it means a key is the item of that
      key as the worker spells it. */
  lemma JsRead(named: NamedItems, items: Items, k: EkvKey)
    requires NameableItems(items) && IsNameable(k.host) && IsNamed(named, items)
    ensures JsItem(named, k) == Item(items, SeenKey(k))
    ensures IsBmpKey(k) ==> JsItem(named, k) == Item(items, k)
  {
    SeenNameableIff(k.host);
    JsNameIsSeen(k);
    SeenKeyIff(k);
    NamedRead(named, items, SeenKey(k));
  }

  /** Items of nameable hosts can be stored under their names. */
  lemma NamingExists(items: Items)
    requires NameableItems(items)
    ensures exists named :: IsNamed(named, items)
  {
    var named := ByName(items);
    forall k | k in items ensures ItemName(k) in named && named[ItemName(k)] == items[k] {
      ByNameAt(items, k);
    }
    assert IsNamed(named, items);
  }

  ghost function ByName(items: Items): (named: NamedItems)
    ensures forall n :: n in named ==> HasName(items, n)
  {
    map n | n in (set k | k in items :: ItemName(k)) :: items[ItemOfName(items, n)]
  }

  lemma ByNameAt(items: Items, k: EkvKey)
    requires NameableItems(items) && k in items
    ensures ItemName(k) in ByName(items) && ByName(items)[ItemName(k)] == items[k]
  {
    ItemNamesIdentify(ItemOfName(items, ItemName(k)), k);
  }

  /** Some item of this name. */
  ghost function ItemOfName(items: Items, n: string): (k: EkvKey)
    requires HasName(items, n)
    ensures k in items && ItemName(k) == n
  {
    var k :| k in items && ItemName(k) == n;
    k
  }

  /** On plain hosts the rule keys and the markers are read back as written. */
  lemma PlainKeysAreParsed(k: RuleKey)
    requires IsPlainHost(k.host)
    ensures ParseRuleKey(KRule(k)) == Some(k)
    ensures Classify(TargetName(PushRule(k))) == PushRule(k)
    ensures Classify(TargetName(DeleteRule(k))) == DeleteRule(k)
  {
    RuleKeyRoundTripIff(k);
    TargetRoundTrip(PushRule(k));
    TargetRoundTrip(DeleteRule(k));
  }
}
