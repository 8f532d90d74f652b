/** EdgeKV item names: `encode_ekv_key` and the key builders of
    shared/src/ekv.rs, and their JavaScript twins in edgeworker/main.js. */
module EkvKeys {
  import opened Text

  // ---------------------------------------------------------------------------
  // The Rust encoder
  // ---------------------------------------------------------------------------

  predicate IsPlain(n: int) {
    'A' as int <= n <= 'Z' as int || 'a' as int <= n <= 'z' as int || '0' as int <= n <= '9' as int || n == '-' as int
  }

  function HexDigit(n: int): char
    requires 0 <= n < 16
  {
    "0123456789ABCDEF"[n]
  }

  function EncodeByte(b: Byte): (r: string)
    ensures r != ""
  {
    if IsPlain(b) then [b as char] else ['_', HexDigit(b / 16), HexDigit(b % 16)]
  }

  function EncodeBytes(bs: seq<Byte>): string {
    if bs == [] then "" else EncodeByte(bs[0]) + EncodeBytes(bs[1..])
  }

  function EncodeKey(s: string): string {
    EncodeBytes(Utf8(s))
  }

  method EncodeEkvKey(s: string) returns (out: string)
    ensures out == EncodeKey(s)
  {
    out := "";
    var bytes := Utf8(s);
    for i := 0 to |bytes|
      invariant out == EncodeBytes(bytes[..i])
    {
      EncodeBytesNext(bytes, i);
      out := out + EncodeByte(bytes[i]);
    }
    assert bytes[..|bytes|] == bytes;
  }

  lemma {:induction false} EncodeBytesNext(bytes: seq<Byte>, i: nat)
    requires i < |bytes|
    ensures EncodeBytes(bytes[..i + 1]) == EncodeBytes(bytes[..i]) + EncodeByte(bytes[i])
  {
    assert bytes[..i + 1] == bytes[..i] + [bytes[i]];
    EncodeBytesAppend(bytes[..i], [bytes[i]]);
    assert EncodeBytes([bytes[i]]) == EncodeByte(bytes[i]) + EncodeBytes([]);
  }

  lemma {:induction false} EncodeBytesAppend(a: seq<Byte>, b: seq<Byte>)
    ensures EncodeBytes(a + b) == EncodeBytes(a) + EncodeBytes(b)
  {
    if a == [] {
      assert a + b == b;
    } else {
      assert (a + b)[1..] == a[1..] + b;
      EncodeBytesAppend(a[1..], b);
    }
  }

  predicate IsItemNameChar(c: char) {
    c == '_' || c == '-' || 'A' <= c <= 'Z' || 'a' <= c <= 'z' || '0' <= c <= '9'
  }

  /** Encoded names stay inside the alphabet EdgeKV accepts. */
  lemma {:induction false} EncodedAlphabet(bs: seq<Byte>)
    ensures forall c :: c in EncodeBytes(bs) ==> IsItemNameChar(c)
  {
    if bs != [] {
      EncodedAlphabet(bs[1..]);
    }
  }

  lemma EncodeBytePrefixFree(a: Byte, b: Byte, x: string, y: string)
    requires EncodeByte(a) + x == EncodeByte(b) + y
    ensures a == b && x == y
  {
    var u, v := EncodeByte(a), EncodeByte(b);
    assert (u + x)[0] == (v + y)[0];
    assert u[0] == v[0];
    assert |u| == |v|;
    assert u == (u + x)[..|u|] == (v + y)[..|v|] == v;
    assert x == (u + x)[|u|..] == (v + y)[|v|..] == y;
    if |u| == 3 {
      assert u[1] == v[1] && u[2] == v[2];
      HexDigitInjective(a / 16, b / 16);
      HexDigitInjective(a % 16, b % 16);
    } else {
      assert a as char == b as char;
    }
  }

  lemma HexDigitInjective(m: int, n: int)
    requires 0 <= m < 16 && 0 <= n < 16
    requires HexDigit(m) == HexDigit(n)
    ensures m == n
  {
  }

  lemma {:induction false} EncodeBytesInjective(a: seq<Byte>, b: seq<Byte>)
    requires EncodeBytes(a) == EncodeBytes(b)
    ensures a == b
  {
    if a != [] && b != [] {
      EncodeBytePrefixFree(a[0], b[0], EncodeBytes(a[1..]), EncodeBytes(b[1..]));
      EncodeBytesInjective(a[1..], b[1..]);
      assert a == [a[0]] + a[1..] && b == [b[0]] + b[1..];
    }
  }

  /** Distinct logical keys never share an item name. */
  lemma EncodeKeyInjective(s: string, t: string)
    requires EncodeKey(s) == EncodeKey(t)
    ensures s == t
  {
    EncodeBytesInjective(Utf8(s), Utf8(t));
    Utf8Injective(s, t);
  }

  // ---------------------------------------------------------------------------
  // The JavaScript encoder, over UTF-16 code units
  // ---------------------------------------------------------------------------

  type CodeUnit = u: int | 0 <= u < 0x10000

  function Utf16Char(c: char): seq<CodeUnit> {
    var n := c as int;
    if n < 0x10000 then [n] else [0xD800 + (n - 0x10000) / 0x400, 0xDC00 + (n - 0x10000) % 0x400]
  }

  function Utf16(s: string): seq<CodeUnit> {
    if s == "" then [] else Utf16Char(s[0]) + Utf16(s[1..])
  }

  /** `TextEncoder.encode` of one code unit; a lone surrogate becomes U+FFFD. */
  function TextEncoder(u: CodeUnit): seq<Byte> {
    if 0xD800 <= u < 0xE000 then [0xEF, 0xBF, 0xBD] else Utf8Char(u as char)
  }

  function EncodeUnit(u: CodeUnit): string {
    if IsPlain(u) then [u as char]
    else if u < 0x80 then ['_', HexDigit(u / 16), HexDigit(u % 16)]
    else EscapeAll(TextEncoder(u))
  }

  function EscapeAll(bs: seq<Byte>): string {
    if bs == [] then "" else ['_', HexDigit(bs[0] / 16), HexDigit(bs[0] % 16)] + EscapeAll(bs[1..])
  }

  function EncodeUnits(us: seq<CodeUnit>): string {
    if us == [] then "" else EncodeUnit(us[0]) + EncodeUnits(us[1..])
  }

  method EscapeBytes(bytes: seq<Byte>) returns (out: string)
    ensures out == EscapeAll(bytes)
  {
    out := "";
    for j := 0 to |bytes|
      invariant out + EscapeAll(bytes[j..]) == EscapeAll(bytes)
    {
      assert bytes[j..][1..] == bytes[j + 1..];
      out := out + ['_', HexDigit(bytes[j] / 16), HexDigit(bytes[j] % 16)];
    }
    assert bytes[|bytes|..] == [];
  }

  method EncodeOne(c: CodeUnit) returns (piece: string)
    ensures piece == EncodeUnit(c)
  {
    if IsPlain(c) {
      piece := [c as char];
    } else if c < 0x80 {
      piece := ['_', HexDigit(c / 16), HexDigit(c % 16)];
    } else {
      piece := EscapeBytes(TextEncoder(c));
    }
  }

  method EncEkvKey(us: seq<CodeUnit>) returns (out: string)
    ensures out == EncodeUnits(us)
  {
    out := "";
    for i := 0 to |us|
      invariant out == EncodeUnits(us[..i])
    {
      assert us[..i + 1] == us[..i] + [us[i]];
      EncodeUnitsAppend(us[..i], [us[i]]);
      var piece := EncodeOne(us[i]);
      out := out + piece;
    }
    assert us[..|us|] == us;
  }

  lemma EncodeUnitAgrees(c: char)
    requires c as int < 0x10000
    ensures EncodeUnit(c as int) == EncodeBytes(Utf8Char(c))
  {
    var bs := Utf8Char(c);
    if c as int >= 0x80 {
      EscapeIsEncode(bs);
    } else {
      assert EncodeBytes(bs) == EncodeByte(bs[0]) + EncodeBytes([]);
    }
  }

  lemma {:induction false} EscapeIsEncode(bs: seq<Byte>)
    requires forall i :: 0 <= i < |bs| ==> bs[i] >= 0x80
    ensures EscapeAll(bs) == EncodeBytes(bs)
  {
    if bs != [] {
      EscapeIsEncode(bs[1..]);
    }
  }

  /** A key as the EdgeWorker spells it: each character above U+FFFF is two code
      units, and each of them is encoded as the replacement character. */
  function Seen(s: string): string {
    if s == "" then "" else SeenChar(s[0]) + Seen(s[1..])
  }

  function SeenChar(c: char): string {
    if c as int < 0x10000 then [c] else ['\U{FFFD}', '\U{FFFD}']
  }

  lemma {:induction false} SeenAppend(a: string, b: string)
    ensures Seen(a + b) == Seen(a) + Seen(b)
  {
    if a == "" {
      assert a + b == b;
    } else {
      assert (a + b)[1..] == a[1..] + b;
      SeenAppend(a[1..], b);
    }
  }

  lemma {:induction false} SeenLength(s: string)
    ensures |Seen(s)| >= |s|
    ensures IsBmp(s) ==> Seen(s) == s
    ensures !IsBmp(s) ==> |Seen(s)| > |s|
    ensures IsBmp(Seen(s))
  {
    if s != "" {
      SeenLength(s[1..]);
      assert s == [s[0]] + s[1..];
      if !IsBmp(s) && s[0] as int < 0x10000 {
        var i :| 0 <= i < |s| && s[i] as int >= 0x10000;
        assert s[1..][i - 1] == s[i];
      }
    }
  }

  lemma SeenIff(s: string)
    ensures Seen(s) == s <==> IsBmp(s)
  {
    SeenLength(s);
  }

  lemma EncodeKeyAppend(a: string, b: string)
    ensures EncodeKey(a + b) == EncodeKey(a) + EncodeKey(b)
  {
    Utf8Append(a, b);
    EncodeBytesAppend(Utf8(a), Utf8(b));
  }

  lemma EncodeKeyOne(c: char)
    ensures EncodeKey([c]) == EncodeBytes(Utf8Char(c))
  {
    assert [c][1..] == "" && Utf8("") == [];
    assert Utf8([c]) == Utf8Char(c) + [] == Utf8Char(c);
  }

  lemma SeenCharIsEncoded(c: char)
    ensures EncodeUnits(Utf16Char(c)) == EncodeKey(SeenChar(c))
  {
    var us := Utf16Char(c);
    if c as int < 0x10000 {
      EncodeUnitAgrees(c);
      EncodeKeyOne(c);
      OneUnit(us[0]);
    } else {
      EncodeUnitsAppend([us[0]], [us[1]]);
      OneUnit(us[0]);
      OneUnit(us[1]);
      SurrogateIsReplaced(us[0]);
      SurrogateIsReplaced(us[1]);
      EncodeKeyAppend(['\U{FFFD}'], ['\U{FFFD}']);
      assert us == [us[0]] + [us[1]];
    }
  }

  lemma OneUnit(u: CodeUnit)
    ensures EncodeUnits([u]) == EncodeUnit(u)
  {
    assert EncodeUnits([u]) == EncodeUnit(u) + EncodeUnits([]);
  }

  lemma SurrogateIsReplaced(u: CodeUnit)
    requires 0xD800 <= u < 0xE000
    ensures EncodeUnit(u) == EncodeKey(['\U{FFFD}'])
  {
    EncodeKeyOne('\U{FFFD}');
    assert Utf8Char('\U{FFFD}') == [0xEF, 0xBF, 0xBD];
    EscapeIsEncode([0xEF, 0xBF, 0xBD]);
  }

  /** What the EdgeWorker encodes is the key as it spells it. */
  lemma {:induction false} EncodeUnitsIsSeen(s: string)
    ensures EncodeUnits(Utf16(s)) == EncodeKey(Seen(s))
  {
    if s != "" {
      EncodeUnitsIsSeen(s[1..]);
      SeenCharIsEncoded(s[0]);
      EncodeUnitsAppend(Utf16Char(s[0]), Utf16(s[1..]));
      EncodeKeyAppend(SeenChar(s[0]), Seen(s[1..]));
    }
  }

  /** The EdgeWorker rebuilds the control plane's item name exactly when the key
      holds no character above U+FFFF. */
  lemma EncodersAgreeIff(s: string)
    ensures EncodeUnits(Utf16(s)) == EncodeKey(s) <==> IsBmp(s)
  {
    EncodeUnitsIsSeen(s);
    SeenIff(s);
    if EncodeKey(Seen(s)) == EncodeKey(s) {
      EncodeKeyInjective(Seen(s), s);
    }
  }

  lemma {:induction false} EncodeUnitsAppend(a: seq<CodeUnit>, b: seq<CodeUnit>)
    ensures EncodeUnits(a + b) == EncodeUnits(a) + EncodeUnits(b)
  {
    if a == [] {
      assert a + b == b;
    } else {
      assert (a + b)[1..] == a[1..] + b;
      EncodeUnitsAppend(a[1..], b);
    }
  }

  // ---------------------------------------------------------------------------
  // Logical keys
  // ---------------------------------------------------------------------------

  /** The three families of EdgeKV items. */
  datatype EkvKey = Sentinel(host: string) | ExactItem(host: string, path: string) | Shard(host: string, n: nat)

  function Decimal(n: nat): string {
    if n < 10 then [Digit(n)] else Decimal(n / 10) + [Digit(n % 10)]
  }

  function Digit(n: int): char
    requires 0 <= n < 10
  {
    "0123456789"[n]
  }

  lemma {:induction false} DecimalInjective(m: nat, n: nat)
    requires Decimal(m) == Decimal(n)
    ensures m == n
  {
    var a, b := Decimal(m), Decimal(n);
    assert a[|a| - 1] == Digit(m % 10) && b[|b| - 1] == Digit(n % 10);
    assert m % 10 == n % 10;
    DecimalNonEmpty(m / 10);
    DecimalNonEmpty(n / 10);
    if m >= 10 && n >= 10 {
      assert Decimal(m / 10) == a[..|a| - 1] == b[..|b| - 1] == Decimal(n / 10);
      DecimalInjective(m / 10, n / 10);
    }
  }

  lemma {:induction false} DecimalNonEmpty(n: nat)
    ensures Decimal(n) != "" && ':' !in Decimal(n)
  {
    if n >= 10 {
      DecimalNonEmpty(n / 10);
    }
  }

  function ShardName(n: nat): string {
    if n == 0 then "prefixes" else "prefixes-" + Decimal(n)
  }

  /** A logical key is `{head}::{rest}`. */
  function KeyHead(k: EkvKey): string {
    match k case Sentinel(_) => "_hosts" case ExactItem(h, _) => h case Shard(h, _) => h
  }

  function KeyRest(k: EkvKey): string {
    match k
    case Sentinel(h) => h
    case ExactItem(_, p) => "exact::" + p
    case Shard(_, n) => ShardName(n)
  }

  function LogicalKey(k: EkvKey): string {
    KeyHead(k) + [':'] + ([':'] + KeyRest(k))
  }

  function ItemName(k: EkvKey): string {
    EncodeKey(LogicalKey(k))
  }

  lemma ShardNameInjective(m: nat, n: nat)
    requires ShardName(m) == ShardName(n)
    ensures m == n
  {
    if m != 0 && n != 0 {
      assert ShardName(m)[9..] == Decimal(m) && ShardName(n)[9..] == Decimal(n);
      DecimalInjective(m, n);
    } else {
      DecimalNonEmpty(m);
      DecimalNonEmpty(n);
      assert |ShardName(0)| == 8;
    }
  }

  lemma ShardNameHasNoColon(n: nat)
    ensures ':' !in ShardName(n)
  {
    DecimalNonEmpty(n);
  }

  lemma LogicalKeySplits(a: EkvKey, b: EkvKey)
    requires ':' !in a.host && ':' !in b.host
    ensures LogicalKey(a) == LogicalKey(b) <==> KeyHead(a) == KeyHead(b) && KeyRest(a) == KeyRest(b)
  {
    JoinSplits(KeyHead(a), [':'] + KeyRest(a), KeyHead(b), [':'] + KeyRest(b));
    assert ([':'] + KeyRest(a))[1..] == KeyRest(a) && ([':'] + KeyRest(b))[1..] == KeyRest(b);
  }

  lemma JoinSplits(h: string, r: string, g: string, q: string)
    requires ':' !in h && ':' !in g
    ensures h + [':'] + r == g + [':'] + q <==> h == g && r == q
  {
    IndexOfAppend(h, ':', r);
    IndexOfAppend(g, ':', q);
    if h + [':'] + r == g + [':'] + q {
      assert h == (h + [':'] + r)[..|h|] == g;
      assert r == (h + [':'] + r)[|h| + 1..] == q;
    }
  }

  /** The one clash: the sentinel of a host called like a shard, against that
      shard of a host called `_hosts`. */
  predicate Clash(a: EkvKey, b: EkvKey) {
    a.Sentinel? && b.Shard? && b.host == "_hosts" && a.host == ShardName(b.n)
  }

  /** Two different items of port-free hosts get the same name exactly when one
      of them belongs to a host named `_hosts` and clashes with a sentinel. */
  lemma ItemNamesCollideIff(a: EkvKey, b: EkvKey)
    requires ':' !in a.host && ':' !in b.host
    requires a != b
    ensures ItemName(a) == ItemName(b) <==> Clash(a, b) || Clash(b, a)
  {
    if ItemName(a) == ItemName(b) {
      EncodeKeyInjective(LogicalKey(a), LogicalKey(b));
    }
    LogicalKeySplits(a, b);
    if KeyHead(a) == KeyHead(b) {
      RestsDiffer(a, b);
    }
  }

  lemma RestsDiffer(a: EkvKey, b: EkvKey)
    requires ':' !in a.host && ':' !in b.host
    requires a != b && KeyHead(a) == KeyHead(b)
    ensures KeyRest(a) == KeyRest(b) <==> Clash(a, b) || Clash(b, a)
  {
    if a.Shard? { ShardNameHasNoColon(a.n); }
    if b.Shard? { ShardNameHasNoColon(b.n); }
    if a.ExactItem? { assert KeyRest(a)[5] == ':' && KeyRest(a)[7..] == a.path; }
    if b.ExactItem? { assert KeyRest(b)[5] == ':' && KeyRest(b)[7..] == b.path; }
    if a.Shard? && b.Shard? && KeyRest(a) == KeyRest(b) {
      ShardNameInjective(a.n, b.n);
    }
  }

  // ---------------------------------------------------------------------------
  // The name the EdgeWorker asks for
  // ---------------------------------------------------------------------------

  function JsName(k: EkvKey): string {
    EncodeUnits(Utf16(LogicalKey(k)))
  }

  /** The key whose item the EdgeWorker asks for when it means `k`. */
  function SeenKey(k: EkvKey): EkvKey {
    match k
    case Sentinel(h) => Sentinel(Seen(h))
    case ExactItem(h, p) => ExactItem(Seen(h), Seen(p))
    case Shard(h, n) => Shard(Seen(h), n)
  }

  predicate IsBmpKey(k: EkvKey) {
    IsBmp(k.host) && (k.ExactItem? ==> IsBmp(k.path))
  }

  lemma {:induction false} ShardNameIsBmp(n: nat)
    ensures IsBmp(ShardName(n))
  {
    if n != 0 {
      DecimalIsBmp(n);
    }
  }

  lemma {:induction false} DecimalIsBmp(n: nat)
    ensures IsBmp(Decimal(n))
  {
    if n >= 10 {
      DecimalIsBmp(n / 10);
    }
  }

  lemma SeenHeadAndRest(k: EkvKey)
    ensures Seen(KeyHead(k)) == KeyHead(SeenKey(k)) && Seen(KeyRest(k)) == KeyRest(SeenKey(k))
  {
    match k {
      case Sentinel(h) => SeenIff("_hosts");
      case ExactItem(h, p) =>
        SeenAppend("exact::", p);
        SeenIff("exact::");
      case Shard(h, n) =>
        ShardNameIsBmp(n);
        SeenIff(ShardName(n));
    }
  }

  lemma SeenLogicalKey(k: EkvKey)
    ensures Seen(LogicalKey(k)) == LogicalKey(SeenKey(k))
  {
    var head, rest := KeyHead(k), KeyRest(k);
    SeenIff([':']);
    SeenHeadAndRest(k);
    SeenAppend([':'], rest);
    SeenAppend(head, [':']);
    SeenAppend(head + [':'], [':'] + rest);
  }

  lemma JsNameIsSeen(k: EkvKey)
    ensures JsName(k) == ItemName(SeenKey(k))
  {
    EncodeUnitsIsSeen(LogicalKey(k));
    SeenLogicalKey(k);
  }

  lemma SeenKeyIff(k: EkvKey)
    ensures SeenKey(k) == k <==> IsBmpKey(k)
  {
    SeenIff(k.host);
    if k.ExactItem? {
      SeenIff(k.path);
    }
  }

  /** The worker asks for an item under its own name exactly when neither host nor
      path holds a character above U+FFFF. */
  lemma JsNameIff(k: EkvKey)
    ensures JsName(k) == ItemName(k) <==> IsBmpKey(k)
  {
    JsNameIsSeen(k);
    SeenKeyIff(k);
    if JsName(k) == ItemName(k) {
      EncodeKeyInjective(LogicalKey(SeenKey(k)), LogicalKey(k));
      SeenLength(k.host);
      if k.ExactItem? {
        SeenLength(k.path);
        assert |Seen(k.host)| + |Seen(k.path)| == |k.host| + |k.path| by {
          LogicalLength(k);
          LogicalLength(SeenKey(k));
        }
      } else {
        LogicalLength(k);
        LogicalLength(SeenKey(k));
      }
    }
  }

  lemma LogicalLength(k: EkvKey)
    ensures |LogicalKey(k)| == |k.host| +
      match k case Sentinel(_) => 8 case ExactItem(_, p) => 9 + |p| case Shard(_, n) => 2 + |ShardName(n)|
  {
  }
}
