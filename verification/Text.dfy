/** Strings as the control plane sees them: sequences of Unicode scalar values,
    measured and compared by their UTF-8 bytes, as Rust's `String` does. */
module Text {

  datatype Option<+T> = None | Some(value: T)

  type Byte = b: int | 0 <= b < 0x100

  // ---------------------------------------------------------------------------
  // Case folding (ASCII)
  // ---------------------------------------------------------------------------

  function LowerChar(c: char): char {
    if 'A' <= c <= 'Z' then (c as int + 32) as char else c
  }

  function Lower(s: string): (r: string)
    ensures |r| == |s|
    ensures forall i :: 0 <= i < |s| ==> r[i] == LowerChar(s[i])
  {
    seq(|s|, i requires 0 <= i < |s| => LowerChar(s[i]))
  }

  lemma LowerAppend(a: string, b: string)
    ensures Lower(a + b) == Lower(a) + Lower(b)
  {
  }

  /** Every character is a single UTF-16 code unit. */
  predicate IsBmp(s: string) {
    forall i :: 0 <= i < |s| ==> s[i] as int < 0x10000
  }

  // ---------------------------------------------------------------------------
  // Searching
  // ---------------------------------------------------------------------------

  /** True when `sub` occurs somewhere in `s`. */
  predicate Contains(s: string, sub: string) {
    sub <= s || (s != "" && Contains(s[1..], sub))
  }

  predicate OccursAt(s: string, sub: string, i: nat) {
    i + |sub| <= |s| && s[i..i + |sub|] == sub
  }

  lemma OccursLater(s: string, sub: string, i: nat)
    requires s != ""
    ensures OccursAt(s, sub, i + 1) <==> OccursAt(s[1..], sub, i)
  {
    if i + 1 + |sub| <= |s| {
      assert s[1..][i..i + |sub|] == s[i + 1..i + 1 + |sub|];
    }
  }

  lemma {:induction false} ContainsIff(s: string, sub: string)
    ensures Contains(s, sub) <==> exists i: nat :: OccursAt(s, sub, i)
  {
    assert sub <= s <==> OccursAt(s, sub, 0);
    if s != "" {
      ContainsIff(s[1..], sub);
      if i: nat :| OccursAt(s[1..], sub, i) {
        OccursLater(s, sub, i);
      }
      if i: nat :| OccursAt(s, sub, i) && i > 0 {
        OccursLater(s, sub, i - 1);
      }
    }
  }

  /** The index of the first `c` in `s`, or |s|. */
  function IndexOf(s: string, c: char): (i: nat)
    ensures i <= |s|
    ensures i < |s| ==> s[i] == c
    ensures c !in s[..i]
    ensures c in s <==> i < |s|
  {
    if s == "" || s[0] == c then 0 else
    var i := 1 + IndexOf(s[1..], c);
    assert s[..i] == [s[0]] + s[1..][..i - 1];
    i
  }

  lemma {:induction false} IndexOfAppend(a: string, c: char, b: string)
    requires c !in a
    ensures IndexOf(a + [c] + b, c) == |a|
  {
    if a != "" {
      assert a[0] in a;
      assert forall x :: x in a[1..] ==> x in a;
      assert (a + [c] + b)[1..] == a[1..] + [c] + b;
      IndexOfAppend(a[1..], c, b);
    }
  }

  // ---------------------------------------------------------------------------
  // UTF-8 (section 3 of RFC 3629)
  // ---------------------------------------------------------------------------

  function Utf8Char(c: char): (bs: seq<Byte>)
    ensures 1 <= |bs| <= 4
  {
    var n := c as int;
    if n < 0x80 then
      [n]
    else if n < 0x800 then
      [0xC0 + n / 0x40, 0x80 + n % 0x40]
    else if n < 0x10000 then
      [0xE0 + n / 0x1000, 0x80 + n / 0x40 % 0x40, 0x80 + n % 0x40]
    else
      [0xF0 + n / 0x40000, 0x80 + n / 0x1000 % 0x40, 0x80 + n / 0x40 % 0x40, 0x80 + n % 0x40]
  }

  function Utf8(s: string): (bs: seq<Byte>)
    ensures |bs| >= |s|
  {
    if s == "" then [] else Utf8Char(s[0]) + Utf8(s[1..])
  }

  /** The length Rust's `str::len` reports. */
  function ByteLen(s: string): nat {
    |Utf8(s)|
  }

  /** The length of a code word is decided by its first byte. */
  function CodeLength(lead: Byte): nat {
    if lead < 0x80 then 1 else if lead < 0xE0 then 2 else if lead < 0xF0 then 3 else 4
  }

  lemma Utf8CharLength(c: char)
    ensures |Utf8Char(c)| == CodeLength(Utf8Char(c)[0])
  {
    var n := c as int;
    assert n / 0x40000 <= 4;
    assert 0x80 <= n < 0x800 ==> n / 0x40 < 0x20;
    assert n < 0x10000 ==> n / 0x1000 < 0x10;
  }

  /** The scalar value a code word stands for. */
  function CodePoint(bs: seq<int>): int
    requires 1 <= |bs| <= 4
  {
    if |bs| == 1 then bs[0]
    else if |bs| == 2 then (bs[0] - 0xC0) * 0x40 + (bs[1] - 0x80)
    else if |bs| == 3 then (bs[0] - 0xE0) * 0x1000 + (bs[1] - 0x80) * 0x40 + (bs[2] - 0x80)
    else (bs[0] - 0xF0) * 0x40000 + (bs[1] - 0x80) * 0x1000 + (bs[2] - 0x80) * 0x40 + (bs[3] - 0x80)
  }

  lemma Utf8CharDecodes(c: char)
    ensures CodePoint(Utf8Char(c)) == c as int
  {
    var n := c as int;
    SplitThree(n);
    assert n / 0x1000 == n / 0x40000 * 0x40 + n / 0x1000 % 0x40;
  }

  lemma Utf8CharInjective(c: char, d: char)
    requires Utf8Char(c) == Utf8Char(d)
    ensures c == d
  {
    Utf8CharDecodes(c);
    Utf8CharDecodes(d);
  }

  lemma SplitThree(n: nat)
    ensures n == n / 0x1000 * 0x1000 + n / 0x40 % 0x40 * 0x40 + n % 0x40
  {
    assert n / 0x1000 == n / 0x40 / 0x40;
  }

  /** No code word of UTF-8 is a prefix of another: characters can be told apart
      at the front of any byte sequence. */
  lemma {:induction false} Utf8CharPrefixFree(c: char, d: char, x: seq<Byte>, y: seq<Byte>)
    requires Utf8Char(c) + x == Utf8Char(d) + y
    ensures c == d && x == y
  {
    var u, v := Utf8Char(c), Utf8Char(d);
    Utf8CharLength(c);
    Utf8CharLength(d);
    assert (u + x)[0] == (v + y)[0];
    assert u == (u + x)[..|u|] == (v + y)[..|v|] == v;
    assert x == (u + x)[|u|..] == (v + y)[|v|..] == y;
    Utf8CharInjective(c, d);
  }

  lemma {:induction false} Utf8Injective(s: string, t: string)
    requires Utf8(s) == Utf8(t)
    ensures s == t
  {
    if s != "" && t != "" {
      Utf8CharPrefixFree(s[0], t[0], Utf8(s[1..]), Utf8(t[1..]));
      Utf8Injective(s[1..], t[1..]);
    }
  }

  lemma {:induction false} Utf8Append(a: string, b: string)
    ensures Utf8(a + b) == Utf8(a) + Utf8(b)
  {
    if a == "" {
      assert a + b == b;
    } else {
      assert (a + b)[1..] == a[1..] + b;
      Utf8Append(a[1..], b);
    }
  }

  /** Folding ASCII case moves no byte boundary. */
  lemma {:induction false} LowerKeepsBytes(s: string)
    ensures ByteLen(Lower(s)) == ByteLen(s)
  {
    if s != "" {
      assert Lower(s)[1..] == Lower(s[1..]);
      LowerKeepsBytes(s[1..]);
    }
  }

  /** Slicing a path by the byte length of a (case-folded) prefix, as Rust does,
      is slicing it by the number of characters of that prefix: the byte offset
      always falls on a character boundary. */
  lemma {:induction false} ByteSliceIsCharSlice(prefix: string, path: string)
    requires prefix <= Lower(path) || prefix <= path
    ensures ByteLen(prefix) <= ByteLen(path)
    ensures Utf8(path)[ByteLen(prefix)..] == Utf8(path[|prefix|..])
    ensures ByteLen(path) > ByteLen(prefix) <==> |path| > |prefix|
  {
    var a, b := path[..|prefix|], path[|prefix|..];
    SameBytes(prefix, path);
    assert path == a + b;
    Utf8Append(a, b);
    assert Utf8(path)[|Utf8(a)|..] == Utf8(b);
  }

  lemma {:induction false} SameBytes(prefix: string, path: string)
    requires prefix <= Lower(path) || prefix <= path
    ensures ByteLen(path[..|prefix|]) == ByteLen(prefix)
  {
    var a := path[..|prefix|];
    LowerKeepsBytes(a);
    if prefix <= Lower(path) {
      assert prefix == Lower(a);
    } else {
      assert prefix == a;
    }
  }

  // ---------------------------------------------------------------------------
  // The order of a prefix manifest: longest first, ties by bytes
  // ---------------------------------------------------------------------------

  /** Lexicographic order on bytes, the order of Rust's `str::cmp`. */
  predicate BytesLess(a: seq<Byte>, b: seq<Byte>) {
    b != [] && (a == [] || a[0] < b[0] || (a[0] == b[0] && BytesLess(a[1..], b[1..])))
  }

  predicate StringLess(a: string, b: string) {
    BytesLess(Utf8(a), Utf8(b))
  }

  predicate Precedes(a: string, b: string) {
    ByteLen(a) > ByteLen(b) || (ByteLen(a) == ByteLen(b) && StringLess(a, b))
  }

  /** The strings part at `i`: the first ends there, or has the smaller byte. */
  predicate PartsAt(a: seq<Byte>, b: seq<Byte>, i: nat) {
    i <= |a| && i < |b| && a[..i] == b[..i] && (i == |a| || a[i] < b[i])
  }

  lemma {:induction false} BytesLessIff(a: seq<Byte>, b: seq<Byte>)
    ensures BytesLess(a, b) <==> exists i: nat :: PartsAt(a, b, i)
  {
    if b != [] && (a == [] || a[0] < b[0]) {
      assert PartsAt(a, b, 0);
    } else if a != [] && b != [] && a[0] == b[0] {
      BytesLessIff(a[1..], b[1..]);
      if i: nat :| PartsAt(a[1..], b[1..], i) {
        assert a[..i + 1] == [a[0]] + a[1..][..i] && b[..i + 1] == [b[0]] + b[1..][..i];
        assert PartsAt(a, b, i + 1);
      }
      if i: nat :| PartsAt(a, b, i) {
        assert a[1..][..i - 1] == a[..i][1..] && b[1..][..i - 1] == b[..i][1..];
        assert PartsAt(a[1..], b[1..], i - 1);
      }
    }
  }

  /** The longer path in bytes comes first, then the one smaller at the byte where
      they part. */
  lemma PrecedesIff(a: string, b: string)
    ensures Precedes(a, b) <==>
      |Utf8(a)| > |Utf8(b)| || (|Utf8(a)| == |Utf8(b)| && exists i: nat :: PartsAt(Utf8(a), Utf8(b), i))
  {
    BytesLessIff(Utf8(a), Utf8(b));
  }

  lemma {:induction false} BytesLessIrreflexive(a: seq<Byte>)
    ensures !BytesLess(a, a)
  {
    if a != [] {
      BytesLessIrreflexive(a[1..]);
    }
  }

  lemma {:induction false} BytesLessTransitive(a: seq<Byte>, b: seq<Byte>, c: seq<Byte>)
    requires BytesLess(a, b) && BytesLess(b, c)
    ensures BytesLess(a, c)
  {
    if a != [] && a[0] == b[0] == c[0] {
      BytesLessTransitive(a[1..], b[1..], c[1..]);
    }
  }

  lemma {:induction false} BytesLessTotal(a: seq<Byte>, b: seq<Byte>)
    ensures BytesLess(a, b) || a == b || BytesLess(b, a)
  {
    if a != [] && b != [] && a[0] == b[0] {
      BytesLessTotal(a[1..], b[1..]);
      assert a == [a[0]] + a[1..] && b == [b[0]] + b[1..];
    }
  }

  /** `Precedes` is a strict total order on paths. */
  lemma PrecedesIrreflexive(a: string)
    ensures !Precedes(a, a)
  {
    BytesLessIrreflexive(Utf8(a));
  }

  lemma PrecedesTransitive(a: string, b: string, c: string)
    requires Precedes(a, b) && Precedes(b, c)
    ensures Precedes(a, c)
  {
    if ByteLen(a) == ByteLen(b) == ByteLen(c) {
      BytesLessTransitive(Utf8(a), Utf8(b), Utf8(c));
    }
  }

  lemma PrecedesTotal(a: string, b: string)
    ensures Precedes(a, b) || a == b || Precedes(b, a)
  {
    BytesLessTotal(Utf8(a), Utf8(b));
    if Utf8(a) == Utf8(b) {
      Utf8Injective(a, b);
    }
  }

  /** A proper extension of a path is placed before it. */
  lemma ExtensionPrecedes(a: string, b: string)
    requires b <= a && |b| < |a|
    ensures Precedes(a, b)
  {
    assert a == b + a[|b|..];
    Utf8Append(b, a[|b|..]);
  }
}
