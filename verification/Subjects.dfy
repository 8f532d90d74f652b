/** The NATS subject codec of shared/src/store.rs. */
module Subjects {
  import opened Text
  import opened Model
  import opened Keys

  function LowerHex(n: int): char
    requires 0 <= n < 16
  {
    "0123456789abcdef"[n]
  }

  /** `{:04x}`: at least four digits, more for a character above U+FFFF. */
  function PadHex(n: nat): (r: string)
    ensures |r| >= 4 && (n < 0x10000 ==> |r| == 4)
  {
    if n < 0x10000 then
      [LowerHex(n / 0x1000), LowerHex(n / 0x100 % 16), LowerHex(n / 16 % 16), LowerHex(n % 16)]
    else
      PadHex(n / 16) + [LowerHex(n % 16)]
  }

  predicate IsTokenChar(c: char) {
    'A' <= c <= 'Z' || 'a' <= c <= 'z' || '0' <= c <= '9' || c == '-'
  }

  predicate IsSeparator(c: char) {
    c == ':' || c == '|'
  }

  function EncodeChar(c: char): (r: string)
    ensures r != ""
  {
    if IsTokenChar(c) then [c] else if IsSeparator(c) then "." else "__" + PadHex(c as int)
  }

  function Encode(key: string): string {
    if key == "" then "" else EncodeChar(key[0]) + Encode(key[1..])
  }

  lemma {:induction false} EncodeAppend(a: string, b: string)
    ensures Encode(a + b) == Encode(a) + Encode(b)
  {
    if a == "" {
      assert a + b == b;
    } else {
      assert (a + b)[1..] == a[1..] + b;
      EncodeAppend(a[1..], b);
    }
  }

  method EncodeSubject(key: string) returns (out: string)
    ensures out == Encode(key)
  {
    out := "";
    for i := 0 to |key|
      invariant out == Encode(key[..i])
    {
      EncodeNext(key, i);
      out := out + EncodeChar(key[i]);
    }
    assert key[..|key|] == key;
  }

  lemma {:induction false} EncodeNext(key: string, i: nat)
    requires i < |key|
    ensures Encode(key[..i + 1]) == Encode(key[..i]) + EncodeChar(key[i])
  {
    assert key[..i + 1] == key[..i] + [key[i]];
    EncodeAppend(key[..i], [key[i]]);
    assert Encode([key[i]]) == EncodeChar(key[i]) + Encode("");
  }

  // ---------------------------------------------------------------------------
  // Decoding
  // ---------------------------------------------------------------------------

  function HexValue(c: char): int {
    if '0' <= c <= '9' then c as int - '0' as int
    else if 'a' <= c <= 'f' then c as int - 'a' as int + 10
    else if 'A' <= c <= 'F' then c as int - 'A' as int + 10
    else -1
  }

  function ParseDigits(s: string, acc: nat): Option<nat> {
    if s == "" then Some(acc)
    else if HexValue(s[0]) < 0 then None
    else ParseDigits(s[1..], 16 * acc + HexValue(s[0]))
  }

  /** `u32::from_str_radix(_, 16)`, which also accepts a leading plus sign. */
  function ParseHex(s: string): Option<nat>
    requires |s| == 4
  {
    if s[0] == '+' then ParseDigits(s[1..], 0) else ParseDigits(s, 0)
  }

  datatype Decoded = Decoded(c: char, width: nat)

  /** One turn of the decoding loop: the character produced and the bytes eaten. */
  function DecodeStep(s: string): (r: Decoded)
    requires s != ""
    ensures 1 <= r.width <= |s|
  {
    if |s| >= 6 && s[0] == '_' && s[1] == '_' && IsScalar(ParseHex(s[2..6])) then
      Decoded(ParseHex(s[2..6]).value as char, 6)
    else if s[0] == '.' then Decoded(':', 1)
    else Decoded(s[0], 1)
  }

  /** `char::from_u32` succeeds. */
  predicate IsScalar(code: Option<nat>) {
    code.Some? && (code.value < 0xD800 || 0xE000 <= code.value < 0x110000)
  }

  function Decode(subject: string): string {
    if subject == "" then "" else
    var step := DecodeStep(subject);
    [step.c] + Decode(subject[step.width..])
  }

  method DecodeSubject(subject: string) returns (out: string)
    ensures out == Decode(subject)
  {
    out := "";
    var i := 0;
    while i < |subject|
      invariant 0 <= i <= |subject|
      invariant out + Decode(subject[i..]) == Decode(subject)
    {
      var step := DecodeStep(subject[i..]);
      assert subject[i..][step.width..] == subject[i + step.width..];
      out := out + [step.c];
      i := i + step.width;
    }
  }

  // ---------------------------------------------------------------------------
  // Round trip
  // ---------------------------------------------------------------------------

  function CanonChar(c: char): char {
    if c == '|' then ':' else c
  }

  /** The two separators are identified. */
  function Canon(key: string): (r: string)
    ensures |r| == |key|
    ensures forall i :: 0 <= i < |key| ==> r[i] == CanonChar(key[i])
  {
    seq(|key|, i requires 0 <= i < |key| => CanonChar(key[i]))
  }

  lemma {:induction false} ParseFourDigits(a: nat, b: nat, c: nat, d: nat)
    requires a < 16 && b < 16 && c < 16 && d < 16
    ensures ParseHex([LowerHex(a), LowerHex(b), LowerHex(c), LowerHex(d)]) == Some(16 * (16 * (16 * a + b) + c) + d)
  {
    var s3 := [LowerHex(d)];
    var s2 := [LowerHex(c)] + s3;
    var s1 := [LowerHex(b)] + s2;
    var n1 := 16 * a + b;
    var n2 := 16 * n1 + c;
    DigitStep(a, s1, 0);
    DigitStep(b, s2, a);
    DigitStep(c, s3, n1);
    DigitStep(d, "", n2);
    assert s3 == [LowerHex(d)] + "";
    assert [LowerHex(a), LowerHex(b), LowerHex(c), LowerHex(d)] == [LowerHex(a)] + s1;
  }

  lemma {:induction false} DigitStep(n: nat, rest: string, acc: nat)
    requires n < 16
    ensures ParseDigits([LowerHex(n)] + rest, acc) == ParseDigits(rest, 16 * acc + n)
    ensures LowerHex(n) != '+'
  {
    HexDigitParses(n);
    assert ([LowerHex(n)] + rest)[1..] == rest;
  }

  lemma {:induction false} ParsePadHex(n: nat)
    requires n < 0x10000
    ensures ParseHex(PadHex(n)) == Some(n)
  {
    var a, b, c, d := n / 0x1000, n / 0x100 % 16, n / 16 % 16, n % 16;
    ParseFourDigits(a, b, c, d);
    FourDigits(n);
  }

  lemma FourDigits(n: nat)
    ensures 16 * (16 * (16 * (n / 0x1000) + n / 0x100 % 16) + n / 16 % 16) + n % 16 == n
  {
    assert n / 0x100 == n / 16 / 16 && n / 0x1000 == n / 0x100 / 16;
  }

  lemma HexDigitParses(n: int)
    requires 0 <= n < 16
    ensures HexValue(LowerHex(n)) == n && LowerHex(n) != '+'
  {
  }

  lemma {:induction false} DecodeEncodedChar(c: char, rest: string)
    requires c as int < 0x10000
    ensures DecodeStep(EncodeChar(c) + rest) == Decoded(CanonChar(c), |EncodeChar(c)|)
  {
    var s := EncodeChar(c) + rest;
    if !IsTokenChar(c) && !IsSeparator(c) {
      ParsePadHex(c as int);
      assert s[2..6] == PadHex(c as int);
    }
  }

  lemma {:induction false} DecodeOfEncode(key: string)
    requires IsBmp(key)
    ensures Decode(Encode(key)) == Canon(key)
  {
    if key != "" {
      var c, rest := key[0], key[1..];
      DecodeOfEncode(rest);
      DecodeEncodedChar(c, Encode(rest));
      DecodeHead(Encode(key), CanonChar(c), EncodeChar(c), Encode(rest));
      CanonCons(key);
    }
  }

  lemma CanonCons(key: string)
    requires key != ""
    ensures Canon(key) == [CanonChar(key[0])] + Canon(key[1..])
  {
  }

  lemma {:induction false} DecodeHead(subject: string, c: char, code: string, rest: string)
    requires code != "" && subject == code + rest && DecodeStep(subject) == Decoded(c, |code|)
    ensures Decode(subject) == [c] + Decode(rest)
  {
    assert subject[|code|..] == rest;
  }

  lemma {:induction false} DecodedIsBmp(subject: string)
    requires IsBmp(subject)
    ensures IsBmp(Decode(subject))
  {
    if subject != "" {
      var step := DecodeStep(subject);
      if step.width == 6 {
        FourDigitsAreSmall(subject[2..6]);
      }
      DecodedIsBmp(subject[step.width..]);
    }
  }

  /** More than `n` further digits can make of the value so far. */
  function DigitBound(acc: nat, n: nat): nat
    decreases n
  {
    if n == 0 then acc + 1 else DigitBound(16 * acc + 15, n - 1)
  }

  lemma {:induction false} DigitBoundMonotone(a: nat, b: nat, n: nat)
    requires a <= b
    ensures DigitBound(a, n) <= DigitBound(b, n)
    decreases n
  {
    if n > 0 {
      DigitBoundMonotone(16 * a + 15, 16 * b + 15, n - 1);
    }
  }

  lemma {:induction false} ParseBound(s: string, acc: nat)
    ensures ParseDigits(s, acc).Some? ==> ParseDigits(s, acc).value < DigitBound(acc, |s|)
  {
    if s != "" && HexValue(s[0]) >= 0 {
      var next := 16 * acc + HexValue(s[0]);
      ParseBound(s[1..], next);
      DigitBoundMonotone(next, 16 * acc + 15, |s| - 1);
    }
  }

  lemma {:induction false} FourDigitsAreSmall(s: string)
    requires |s| == 4
    ensures ParseHex(s).Some? ==> ParseHex(s).value < 0x10000
  {
    assert DigitBound(0, 3) == 0x1000 && DigitBound(0, 4) == 0x10000;
    ParseBound(s, 0);
    ParseBound(s[1..], 0);
  }

  lemma {:induction false} EncodedIsBmp(key: string)
    ensures IsBmp(Encode(key))
  {
    if key != "" {
      PadHexIsAscii(key[0] as int);
      EncodedIsBmp(key[1..]);
    }
  }

  lemma PadHexIsAscii(n: nat)
    ensures IsBmp(PadHex(n))
  {
    PadHexTokens(n);
  }

  /** Decoding an encoded key gives it back, up to the separators, exactly when
      it holds no character above U+FFFF. */
  lemma {:induction false} SubjectRoundTripIff(key: string)
    ensures Decode(Encode(key)) == Canon(key) <==> IsBmp(key)
  {
    EncodedIsBmp(key);
    DecodedIsBmp(Encode(key));
    if IsBmp(key) {
      DecodeOfEncode(key);
    } else {
      var i :| 0 <= i < |key| && key[i] as int >= 0x10000;
      assert Canon(key)[i] == key[i];
    }
  }

  /** The canonical form of a key has the same subject. */
  lemma {:induction false} CanonHasSameSubject(key: string)
    ensures Encode(Canon(key)) == Encode(key)
  {
    if key != "" {
      assert Canon(key)[1..] == Canon(key[1..]);
      CanonHasSameSubject(key[1..]);
    }
  }

  // ---------------------------------------------------------------------------
  // Encoding the decoded key again
  // ---------------------------------------------------------------------------

  /** Written with five digits, of which the decoder reads four as a surrogate. */
  predicate IsMisread(c: char) {
    0xD8000 <= c as int < 0xE0000
  }

  predicate NoneMisread(key: string) {
    forall i :: 0 <= i < |key| ==> !IsMisread(key[i])
  }

  lemma NoneMisreadCons(key: string)
    requires key != ""
    ensures NoneMisread(key) <==> !IsMisread(key[0]) && NoneMisread(key[1..])
  {
    assert forall i :: 1 <= i < |key| ==> key[i] == key[1..][i - 1];
  }

  /** What the encoding of a character turns into when decoded and encoded again. */
  function EncodedAgain(c: char): (r: string)
    ensures |r| >= |EncodeChar(c)|
    ensures r == EncodeChar(c) <==> !IsMisread(c)
    ensures |r| == |EncodeChar(c)| <==> !IsMisread(c)
  {
    if IsMisread(c) then EncodeChar('_') + EncodeChar('_') + PadHex(c as int) else EncodeChar(c)
  }

  lemma {:induction false} SmallCharAgain(c: char, rest: string)
    requires c as int < 0x10000
    ensures Encode(Decode(EncodeChar(c) + rest)) == EncodeChar(c) + Encode(Decode(rest))
  {
    DecodeEncodedChar(c, rest);
    DecodeHead(EncodeChar(c) + rest, CanonChar(c), EncodeChar(c), rest);
    assert ([CanonChar(c)] + Decode(rest))[1..] == Decode(rest);
    assert EncodeChar(CanonChar(c)) == EncodeChar(c);
  }

  predicate AllTokens(s: string) {
    forall i :: 0 <= i < |s| ==> IsTokenChar(s[i])
  }

  lemma {:induction false} TokensAgain(tokens: string, rest: string)
    requires AllTokens(tokens)
    ensures Encode(Decode(tokens + rest)) == tokens + Encode(Decode(rest))
  {
    if tokens == "" {
      assert tokens + rest == rest;
    } else {
      var c, more := tokens[0], tokens[1..];
      TokensAgain(more, rest);
      TokenAgain(c, more + rest);
      Associates([c], more, rest);
      Associates([c], more, Encode(Decode(rest)));
      assert tokens == [c] + more;
    }
  }

  lemma TokenAgain(c: char, rest: string)
    requires IsTokenChar(c)
    ensures Encode(Decode([c] + rest)) == [c] + Encode(Decode(rest))
  {
    SmallCharAgain(c, rest);
  }

  lemma Associates(a: string, b: string, c: string)
    ensures a + b + c == a + (b + c)
  {
  }

  lemma LowerHexIsToken(n: int)
    requires 0 <= n < 16
    ensures IsTokenChar(LowerHex(n))
  {
  }

  lemma {:induction false} PadHexTokens(n: nat)
    ensures AllTokens(PadHex(n))
  {
    if n < 0x10000 {
      LowerHexIsToken(n / 0x1000);
      LowerHexIsToken(n / 0x100 % 16);
      LowerHexIsToken(n / 16 % 16);
      LowerHexIsToken(n % 16);
    } else {
      PadHexTokens(n / 16);
      LowerHexIsToken(n % 16);
    }
  }

  /** The digits of a long code: four that the decoder takes, and the others. */
  lemma {:induction false} LongDigits(n: nat) returns (first: nat, tail: string)
    requires 0x10000 <= n < 0x110000
    ensures 0x1000 <= first < 0x10000 && first == (if n < 0x100000 then n / 16 else n / 256)
    ensures PadHex(n) == PadHex(first) + tail && AllTokens(tail)
  {
    LowerHexIsToken(n % 16);
    if n < 0x100000 {
      first, tail := n / 16, [LowerHex(n % 16)];
    } else {
      first, tail := n / 256, [LowerHex(n / 16 % 16), LowerHex(n % 16)];
      assert n / 16 / 16 == n / 256;
      LowerHexIsToken(n / 16 % 16);
    }
  }

  /** The first four digits are read as one character, the others as themselves. */
  lemma {:induction false} LongCharAgain(c: char, rest: string)
    requires c as int >= 0x10000 && !IsMisread(c)
    ensures Encode(Decode(EncodeChar(c) + rest)) == EncodeChar(c) + Encode(Decode(rest))
  {
    var first, tail := LongDigits(c as int);
    var x := first as char;
    Associates("__", PadHex(first), tail);
    CodeAndTailAgain(EncodeChar(x), x, tail, rest);
  }

  lemma CodeAndTailAgain(code: string, c: char, tail: string, rest: string)
    requires c as int < 0x10000 && code == EncodeChar(c) && AllTokens(tail)
    ensures Encode(Decode(code + tail + rest)) == code + tail + Encode(Decode(rest))
  {
    SmallCharAgain(c, tail + rest);
    TokensAgain(tail, rest);
    Associates(code, tail, rest);
    Associates(code, tail, Encode(Decode(rest)));
  }

  /** An underscore that starts no escape is decoded as itself. */
  lemma {:induction false} UnderscoreAgain(rest: string)
    requires DecodeStep("_" + rest) == Decoded('_', 1)
    ensures Encode(Decode("_" + rest)) == EncodeChar('_') + Encode(Decode(rest))
  {
    DecodeHead("_" + rest, '_', "_", rest);
    assert (['_'] + Decode(rest))[1..] == Decode(rest);
  }

  lemma {:induction false} MisreadAgain(c: char, rest: string)
    requires IsMisread(c)
    ensures Encode(Decode(EncodeChar(c) + rest)) == EncodedAgain(c) + Encode(Decode(rest))
  {
    var n := c as int;
    PadHexTokens(n);
    MisreadStep(n, rest);
    Associates("__", PadHex(n), rest);
    UnderscoresAgain(PadHex(n), rest);
    assert EncodedAgain(c) == EncodeChar('_') + EncodeChar('_') + PadHex(n);
  }

  lemma {:induction false} UnderscoresAgain(tokens: string, rest: string)
    requires AllTokens(tokens) && tokens != "" && DecodeStep("__" + (tokens + rest)) == Decoded('_', 1)
    ensures Encode(Decode("__" + (tokens + rest))) == EncodeChar('_') + EncodeChar('_') + tokens + Encode(Decode(rest))
  {
    var more := tokens + rest;
    assert "__" + more == "_" + ("_" + more);
    assert more[0] == tokens[0] && IsTokenChar(tokens[0]) && ("_" + more)[1] == more[0];
    UnderscoreAgain("_" + more);
    UnderscoreAgain(more);
    TokensAgain(tokens, rest);
    var u, end := EncodeChar('_'), Encode(Decode(rest));
    Associates(u, u, tokens + end);
    Associates(u + u, tokens, end);
  }

  lemma {:induction false} MisreadStep(n: nat, rest: string)
    requires 0xD8000 <= n < 0xE0000
    ensures DecodeStep("__" + (PadHex(n) + rest)) == Decoded('_', 1)
  {
    var s := "__" + (PadHex(n) + rest);
    ParsePadHex(n / 16);
    assert s[2..6] == PadHex(n / 16);
  }

  lemma {:induction false} EncodingAgain(key: string)
    ensures var again := Encode(Decode(Encode(key)));
      && |again| >= |Encode(key)|
      && (again == Encode(key) <==> NoneMisread(key))
      && (|again| == |Encode(key)| <==> NoneMisread(key))
  {
    if key != "" {
      var c, rest := key[0], key[1..];
      EncodingAgain(rest);
      if c as int < 0x10000 {
        SmallCharAgain(c, Encode(rest));
      } else if IsMisread(c) {
        MisreadAgain(c, Encode(rest));
      } else {
        LongCharAgain(c, Encode(rest));
      }
      assert Encode(Decode(Encode(key))) == EncodedAgain(c) + Encode(Decode(Encode(rest)));
      NoneMisreadCons(key);
    }
  }

  /** The decoded key addresses the same entry as the original, also where it is
      not the same key, exactly when no character lies in U+D8000 to U+DFFFF. */
  lemma ReencodeIsStableIff(key: string)
    ensures Encode(Decode(Encode(key))) == Encode(key) <==> NoneMisread(key)
  {
    EncodingAgain(key);
  }

  /** A rule key that went through the NATS backend parses to the same host and
      type, and to the path with its bars turned into colons, exactly when the
      host holds no separator. */
  lemma {:induction false} DecodedRuleKeyParsesIff(k: RuleKey)
    requires IsBmp(KRule(k))
    ensures ParseRuleKey(Decode(Encode(KRule(k)))) == Some(RuleKey(k.host, k.matchType, Canon(k.path)))
      <==> '|' !in k.host && ':' !in k.host
  {
    DecodeOfEncode(KRule(k));
    var mt := MatchTypeName(k.matchType);
    var host, path := Canon(k.host), Canon(k.path);
    CanonOfRuleKey(k);
    DropPrefix(PREFIX_RULE, host + [':'] + (mt + [':'] + path));
    NoBars(k.host);
    NoBars(k.path);
    CanonHost(k.host);
    ColonBodyParses(host, k.matchType, path);
  }

  lemma {:induction false} ColonBodyParses(host: string, matchType: MatchType, path: string)
    requires '|' !in host && '|' !in path
    ensures var parsed := ParseBody(host + [':'] + (MatchTypeName(matchType) + [':'] + path));
      if ':' !in host then parsed == Some(RuleKey(host, matchType, path))
      else parsed.Some? ==> |parsed.value.host| < |host|
  {
    var mt := MatchTypeName(matchType);
    var tail := mt + [':'] + path;
    MatchTypeRoundTrip(matchType);
    assert '|' !in tail;
    ColonSplits(host, tail);
    if ':' !in host {
      ColonSplits(mt, path);
      ParseSplitBody(host + [':'] + tail, host, tail, matchType, path);
    } else {
      ParsedHost(host + [':'] + tail);
    }
  }

  lemma {:induction false} ColonSplits(left: string, right: string)
    requires '|' !in left && '|' !in right
    ensures var split := Split(left + [':'] + right);
      && split.Some?
      && (if ':' !in left then split.value == Pair(left, right) else |split.value.left| < |left|)
  {
    var s := left + [':'] + right;
    assert s[|left|] == ':';
    assert '|' !in s;
    if ':' !in left {
      SplitOnceAt(left, ':', right);
    } else {
      var i :| 0 <= i < |left| && left[i] == ':';
      assert s[i] == ':';
      assert IndexOf(s, ':') <= i;
    }
  }

  lemma CanonHost(h: string)
    ensures ':' !in Canon(h) <==> '|' !in h && ':' !in h
    ensures ':' !in Canon(h) ==> Canon(h) == h
  {
    forall i | 0 <= i < |h| && IsSeparator(h[i]) ensures ':' in Canon(h) {
      assert Canon(h)[i] == ':';
    }
  }

  lemma NoBars(s: string)
    ensures '|' !in Canon(s)
  {
  }

  lemma CanonOfRuleKey(k: RuleKey)
    ensures Canon(KRule(k)) == PREFIX_RULE + (Canon(k.host) + [':'] + (MatchTypeName(k.matchType) + [':'] + Canon(k.path)))
  {
    var mt := MatchTypeName(k.matchType);
    CanonAppend(PREFIX_RULE, KeyBody(k));
    CanonAppend(k.host + ['|'], mt + ['|'] + k.path);
    CanonAppend(k.host, ['|']);
    CanonAppend(mt + ['|'], k.path);
    CanonAppend(mt, ['|']);
    assert Canon(PREFIX_RULE) == PREFIX_RULE && Canon(mt) == mt && Canon(['|']) == [':'];
  }

  lemma CanonAppend(a: string, b: string)
    ensures Canon(a + b) == Canon(a) + Canon(b)
  {
  }

  // ---------------------------------------------------------------------------
  // Prefix scans
  // ---------------------------------------------------------------------------

  function SubjectPrefixMatch(prefix: string): string {
    var encoded := Encode(prefix);
    if encoded == "" then ">"
    else if encoded[|encoded| - 1] == '.' then encoded + ">"
    else encoded + ".>"
  }

  /** A subject matches `{tokens}>` when it continues the tokens. */
  predicate SubjectMatches(pattern: string, subject: string)
    requires pattern != ""
  {
    pattern[..|pattern| - 1] <= subject && |subject| >= |pattern|
  }

  lemma {:induction false} EncodeCharPrefixFree(c: char, d: char, x: string, y: string)
    requires c as int < 0x10000 && d as int < 0x10000
    requires EncodeChar(c) + x <= EncodeChar(d) + y
    ensures CanonChar(c) == CanonChar(d) && x <= y
  {
    var u, v := EncodeChar(c), EncodeChar(d);
    var s := v + y;
    var z := s[|u + x|..];
    assert s == u + (x + z) by {
      assert s == s[..|u + x|] + z;
    }
    DecodeEncodedChar(c, x + z);
    DecodeEncodedChar(d, y);
    assert |u| == |v|;
    DropPrefix(u, x + z);
    DropPrefix(v, y);
    assert y == x + z;
  }

  lemma {:induction false} EncodedPrefixDecodes(p: string, key: string)
    requires IsBmp(p) && IsBmp(key) && Encode(p) <= Encode(key)
    ensures Canon(p) <= Canon(key)
  {
    if p != "" {
      EncodeCharPrefixFree(p[0], key[0], Encode(p[1..]), Encode(key[1..]));
      EncodedPrefixDecodes(p[1..], key[1..]);
      CanonCons(p);
      CanonCons(key);
    }
  }

  lemma {:induction false} EncodedPrefixIff(p: string, key: string)
    requires IsBmp(p) && IsBmp(key)
    ensures Encode(p) <= Encode(key) <==> Canon(p) <= Canon(key)
  {
    if Encode(p) <= Encode(key) {
      EncodedPrefixDecodes(p, key);
    }
    if Canon(p) <= Canon(key) {
      EncodingSplits(p, key);
    }
  }

  /** The server-side scan for a prefix returns a key exactly when the key
      continues the prefix, where a prefix not ending in a separator is taken to
      be a whole token: `rule` finds `rule:x` but not `rules:x`. */
  lemma {:induction false} PrefixScanIff(p: string, key: string)
    requires p != "" && IsBmp(p) && IsBmp(key)
    ensures var whole := if IsSeparator(p[|p| - 1]) then p else p + ":";
      SubjectMatches(SubjectPrefixMatch(p), Encode(key)) <==> Canon(whole) <= Canon(key) && |key| > |whole|
  {
    var whole := if IsSeparator(p[|p| - 1]) then p else p + ":";
    PatternOf(p);
    EncodedPrefixIff(whole, key);
    if Canon(whole) <= Canon(key) {
      EncodedLonger(whole, key);
    }
  }

  lemma {:induction false} PatternOf(p: string)
    requires p != ""
    ensures SubjectPrefixMatch(p) == Encode(if IsSeparator(p[|p| - 1]) then p else p + ":") + ">"
  {
    EndsInDot(p);
    EncodeColon(p);
  }

  lemma {:induction false} EndsInDot(p: string)
    requires p != ""
    ensures Encode(p)[|Encode(p)| - 1] == '.' <==> IsSeparator(p[|p| - 1])
  {
    EncodeSplitLast(p);
    LastOfEncodedChar(p[|p| - 1]);
  }

  lemma {:induction false} EncodeColon(p: string)
    ensures Encode(p + ":") == Encode(p) + "."
  {
    EncodeSplitLast(p + ":");
    assert (p + ":")[..|p|] == p;
  }

  lemma {:induction false} EncodeSplitLast(p: string)
    requires p != ""
    ensures Encode(p) == Encode(p[..|p| - 1]) + EncodeChar(p[|p| - 1])
  {
    var front, last := p[..|p| - 1], p[|p| - 1];
    assert p == front + [last];
    EncodeAppend(front, [last]);
    assert Encode([last]) == EncodeChar(last) + Encode("");
  }

  lemma {:induction false} LastOfEncodedChar(c: char)
    ensures EncodeChar(c)[|EncodeChar(c)| - 1] == '.' <==> IsSeparator(c)
  {
    if !IsTokenChar(c) && !IsSeparator(c) {
      var r := PadHex(c as int);
      PadHexTokens(c as int);
      assert EncodeChar(c)[|EncodeChar(c)| - 1] == r[|r| - 1] && IsTokenChar(r[|r| - 1]);
    }
  }

  lemma {:induction false} EncodedLonger(p: string, key: string)
    requires IsBmp(p) && IsBmp(key) && Canon(p) <= Canon(key)
    ensures |Encode(key)| > |Encode(p)| <==> |key| > |p|
  {
    EncodingSplits(p, key);
    assert Encode(key[|p|..]) == "" <==> key[|p|..] == "";
  }

  lemma {:induction false} EncodingSplits(p: string, key: string)
    requires Canon(p) <= Canon(key)
    ensures |p| <= |key| && Encode(key) == Encode(p) + Encode(key[|p|..])
  {
    var front, rest := key[..|p|], key[|p|..];
    SliceHasSameSubject(p, key);
    assert key == front + rest;
    EncodeAppend(front, rest);
  }

  lemma {:induction false} SliceHasSameSubject(p: string, key: string)
    requires Canon(p) <= Canon(key)
    ensures Encode(key[..|p|]) == Encode(p)
  {
    CanonOfSlice(p, key);
    CanonHasSameSubject(key[..|p|]);
    CanonHasSameSubject(p);
  }

  lemma {:induction false} CanonOfSlice(p: string, key: string)
    requires Canon(p) <= Canon(key)
    ensures Canon(key[..|p|]) == Canon(p)
  {
    forall i | 0 <= i < |p| ensures Canon(key[..|p|])[i] == Canon(p)[i] {
      assert Canon(p)[i] == Canon(key)[i];
    }
  }
}
