/** The strings the parts of the system must spell alike, and the values they
    exchange, written out. */
module Spellings {
  import opened Text
  import opened Model
  import opened EkvKeys
  import opened EdgeStore
  import opened Keys
  import opened Protocol
  import opened Coverage
  import opened Subjects

  /** The keys of the store. */
  lemma StoreKeys(host: string, path: string)
    ensures KRule(RuleKey(host, Exact, path)) == "rule:" + host + "|exact|" + path
    ensures KRule(RuleKey(host, Prefix, path)) == "rule:" + host + "|prefix|" + path
    ensures RuleKeyPrefix(host) == "rule:" + host + "|"
    ensures TargetName(PushHost(host)) == "host:" + host
    ensures TargetName(DeleteHost(host)) == "DELETE_HOST:" + host
    ensures TargetName(PushRule(RuleKey(host, Exact, path))) == "rule:" + host + "|exact|" + path
    ensures TargetName(DeleteRule(RuleKey(host, Exact, path))) == "DELETE_RULE:rule:" + host + "|exact|" + path
  {
    RuleKeySpelt(host, "exact", path);
    RuleKeySpelt(host, "prefix", path);
    assert "rule:" + (host + ['|']) == "rule:" + host + "|";
    var key := "rule:" + host + "|exact|" + path;
    assert PREFIX_DELETE_RULE + key == "DELETE_RULE:rule:" + host + "|exact|" + path;
  }

  lemma RuleKeySpelt(host: string, name: string, path: string)
    ensures "rule:" + (host + ['|'] + (name + ['|'] + path)) == "rule:" + host + ("|" + name + "|") + path
  {
  }

  /** The logical keys of EdgeKV. */
  lemma LogicalKeys(host: string, path: string, n: nat)
    ensures LogicalKey(Sentinel(host)) == "_hosts::" + host
    ensures LogicalKey(ExactItem(host, path)) == host + "::exact::" + path
    ensures LogicalKey(Shard(host, 0)) == host + "::prefixes"
    ensures n > 0 ==> LogicalKey(Shard(host, n)) == host + "::prefixes-" + Decimal(n)
  {
    TwoColons("_hosts", host);
    TwoColons(host, "exact::" + path);
    TwoColons(host, ShardName(n));
    Rejoined(host, "exact::", path);
    Rejoined(host, "prefixes-", Decimal(n));
    TwoColons(host, "prefixes");
    assert "::" + "prefixes" == "::prefixes" && host + ("::" + "prefixes") == host + "::" + "prefixes";
  }

  lemma TwoColons(a: string, b: string)
    ensures a + [':'] + ([':'] + b) == a + "::" + b
  {
  }

  lemma Rejoined(host: string, name: string, rest: string)
    ensures host + "::" + (name + rest) == host + ("::" + name) + rest
  {
  }

  lemma Decimals()
    ensures Decimal(7) == "7" && Decimal(12) == "12" && Decimal(345) == "345"
  {
    assert Decimal(1) == "1" && Decimal(3) == "3" && Decimal(34) == "34";
  }

  /** Letters, digits and the hyphen stand for themselves, other bytes for an
      underscore and two upper-case hexadecimal digits. */
  lemma BytesAreSpelt()
    ensures EncodeByte('a' as int) == "a" && EncodeByte('z' as int) == "z" && EncodeByte('A' as int) == "A" && EncodeByte('Z' as int) == "Z"
    ensures EncodeByte('0' as int) == "0" && EncodeByte('9' as int) == "9" && EncodeByte('-' as int) == "-"
    ensures EncodeByte('_' as int) == "_5F" && EncodeByte('/' as int) == "_2F" && EncodeByte('.' as int) == "_2E"
    ensures EncodeByte(':' as int) == "_3A" && EncodeByte('@' as int) == "_40" && EncodeByte('[' as int) == "_5B"
    ensures EncodeByte('`' as int) == "_60" && EncodeByte('{' as int) == "_7B" && EncodeByte(0xC9) == "_C9" && EncodeByte(0xFD) == "_FD"
  {
  }

  /** Characters of one, two, three and four bytes. */
  lemma CharactersAreBytes()
    ensures Utf8Char('\U{7F}') == [0x7F] && Utf8Char('\U{80}') == [0xC2, 0x80] && Utf8Char('\U{E9}') == [0xC3, 0xA9]
    ensures Utf8Char('\U{7FF}') == [0xDF, 0xBF] && Utf8Char('\U{800}') == [0xE0, 0xA0, 0x80] && Utf8Char('\U{20AC}') == [0xE2, 0x82, 0xAC]
    ensures Utf8Char('\U{FFFF}') == [0xEF, 0xBF, 0xBF] && Utf8Char('\U{10000}') == [0xF0, 0x90, 0x80, 0x80]
    ensures Utf8Char('\U{1F600}') == [0xF0, 0x9F, 0x98, 0x80]
  {
  }

  /** Names are spelt byte by byte. */
  lemma NamesAreSpelt(s: string, t: string, c: char)
    ensures EncodeKey(s + t) == EncodeKey(s) + EncodeKey(t)
    ensures EncodeKey([c]) == EncodeBytes(Utf8Char(c))
  {
    EncodeKeyAppend(s, t);
    EncodeKeyOne(c);
  }

  /** In a subject separators become dots, letters, digits and the hyphen stand for
      themselves, and other characters for two underscores and four lower-case
      hexadecimal digits. */
  lemma CharactersAreSpelt()
    ensures EncodeChar(':') == "." && EncodeChar('|') == "." && EncodeChar('a') == "a" && EncodeChar('z') == "z"
    ensures EncodeChar('A') == "A" && EncodeChar('Z') == "Z" && EncodeChar('0') == "0" && EncodeChar('9') == "9" && EncodeChar('-') == "-"
    ensures EncodeChar('.') == "__" + PadHex(0x2E) && EncodeChar('_') == "__" + PadHex(0x5F) && EncodeChar('\U{20AC}') == "__" + PadHex(0x20AC)
  {
  }

  lemma CodesAreSpelt()
    ensures PadHex(0x2E) == "002e" && PadHex(0x5F) == "005f" && PadHex(0x20AC) == "20ac" && PadHex(0xFDB9) == "fdb9"
    ensures PadHex(0x1346) == "1346" && PadHex(0x78) == "0078"
  {
    DigitsAreSpelt();
  }

  lemma DigitsAreSpelt()
    ensures LowerHex(0) == '0' && LowerHex(1) == '1' && LowerHex(2) == '2' && LowerHex(3) == '3' && LowerHex(4) == '4'
    ensures LowerHex(5) == '5' && LowerHex(6) == '6' && LowerHex(7) == '7' && LowerHex(8) == '8' && LowerHex(9) == '9'
    ensures LowerHex(10) == 'a' && LowerHex(11) == 'b' && LowerHex(12) == 'c' && LowerHex(13) == 'd' && LowerHex(14) == 'e' && LowerHex(15) == 'f'
  {
  }

  /** The decoder takes digits of either case and, like the parser it calls, a plus
      sign in front of three. */
  lemma DigitsAreRead()
    ensures HexValue('0') == 0 && HexValue('9') == 9 && HexValue('a') == 10 && HexValue('f') == 15 && HexValue('A') == 10 && HexValue('F') == 15
    ensures HexValue('g') == -1 && HexValue('G') == -1 && HexValue('_') == -1 && HexValue('.') == -1
  {
  }

  lemma PlusIsRead(a: char, b: char, c: char)
    requires HexValue(a) >= 0 && HexValue(b) >= 0 && HexValue(c) >= 0
    ensures ParseHex(['+', a, b, c]) == Some(256 * HexValue(a) + 16 * HexValue(b) + HexValue(c))
  {
    assert ['+', a, b, c][1..] == [a, b, c] && [a, b, c][1..] == [b, c] && [b, c][1..] == [c] && [c][1..] == "";
    var x := HexValue(a);
    var y := 16 * x + HexValue(b);
    assert ParseDigits([a, b, c], 0) == ParseDigits([b, c], x);
    assert ParseDigits([b, c], x) == ParseDigits([c], y);
    assert ParseDigits([c], y) == ParseDigits("", 16 * y + HexValue(c));
  }

  /** What EdgeKV is to hold for a rule and a host. */
  lemma ItemsSay(s: State, host: string, path: string)
    requires InSync(s, ExactUnit(host, path)) && InSync(s, SentinelUnit(host))
    ensures var k, item := RuleKey(host, Exact, path), Item(s.edge.items, ExactItem(host, path));
      && (k in s.kv.rules && s.kv.rules[k].enabled ==>
           && item.Some? && item.value.ExactValue?
           && item.value.rule.t == s.kv.rules[k].targetUrl && item.value.rule.s == s.kv.rules[k].statusCode
           && item.value.rule.pp == (if s.kv.rules[k].preservePath then 1 else 0)
           && item.value.rule.pq == (if s.kv.rules[k].preserveQuery then 1 else 0))
      && (k !in s.kv.rules || !s.kv.rules[k].enabled ==> item.None?)
    ensures var item := Item(s.edge.items, Sentinel(host));
      && (host in s.kv.hosts ==>
           item == Some(HostValue(s.kv.hosts[host].enabled, s.kv.hosts[host].caseSensitive, s.kv.hosts[host].ruleCount)))
      && (host !in s.kv.hosts ==> item.None?)
  {
    assert Reading(s.edge.items, ExactUnit(host, path)) == Wanted(s.kv, ExactUnit(host, path));
    assert Reading(s.edge.items, SentinelUnit(host)) == Wanted(s.kv, SentinelUnit(host));
  }

  /** An entry of a manifest. */
  lemma EntriesSay(r: Redirect)
    ensures var e := ToEntry(r);
      && e.p == r.path && e.t == r.targetUrl && e.s == r.statusCode
      && e.pp == (if r.preservePath then 1 else 0) && e.pq == (if r.preserveQuery then 1 else 0)
  {
  }
}
