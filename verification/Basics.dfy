/** Bytes, results and the small text renderings that several components share. */
module Basics {

  type byte = x: int | 0 <= x < 256
  type Bytes = seq<byte>

  datatype Option<+T> = None | Some(value: T)

  datatype Result<+T, +E> = Ok(value: T) | Err(error: E)

  /** Sequences without repetition. */
  ghost predicate Distinct<T>(s: seq<T>) {
    forall i, j :: 0 <= i < j < |s| ==> s[i] != s[j]
  }

  function Min(a: int, b: int): int {
    if a <= b then a else b
  }

  function Max(a: int, b: int): int {
    if a >= b then a else b
  }

  function Zeros(n: nat): (z: Bytes)
    ensures |z| == n
    ensures forall i :: 0 <= i < n ==> z[i] == 0
  {
    seq(n, _ => 0)
  }
}

/** Hexadecimal and decimal renderings used inside lookup keys. */
module Text {
  import opened Basics

  predicate IsHexDigit(c: char) {
    '0' <= c <= '9' || 'a' <= c <= 'f'
  }

  predicate IsDigit(c: char) {
    '0' <= c <= '9'
  }

  function HexDigit(i: nat): (c: char)
    requires i < 16
    ensures IsHexDigit(c)
  {
    if i < 10 then ('0' as int + i) as char else ('a' as int + (i - 10)) as char
  }

  function Digit(i: nat): (c: char)
    requires i < 10
    ensures IsDigit(c)
  {
    ('0' as int + i) as char
  }

  function Hex(b: Bytes): (s: string)
    ensures |s| == 2 * |b|
    ensures forall i :: 0 <= i < |s| ==> IsHexDigit(s[i])
  {
    if b == [] then "" else
      var v: int := b[0];
      [HexDigit(v / 16), HexDigit(v % 16)] + Hex(b[1..])
  }

  /** Decimal numeral of n, as a template literal or `String(n)` prints it. */
  function Decimal(n: nat): (s: string)
    ensures s != []
    ensures forall i :: 0 <= i < |s| ==> IsDigit(s[i])
  {
    if n < 10 then [Digit(n)] else Decimal(n / 10) + [Digit(n % 10)]
  }

  lemma {:induction false} DecimalInjective(m: nat, n: nat)
    requires Decimal(m) == Decimal(n)
    ensures m == n
  {
    var s, t := Decimal(m), Decimal(n);
    assert s[|s| - 1] == Digit(m % 10) && t[|t| - 1] == Digit(n % 10);
    assert m % 10 == n % 10;
    if m >= 10 && n >= 10 {
      assert s[..|s| - 1] == Decimal(m / 10) && t[..|t| - 1] == Decimal(n / 10);
      DecimalInjective(m / 10, n / 10);
    }
  }

  lemma {:induction false} HexInjective(a: Bytes, b: Bytes)
    requires Hex(a) == Hex(b)
    ensures a == b
  {
    if a != [] {
      HexHead(a);
      HexHead(b);
      HexInjective(a[1..], b[1..]);
      assert a == [a[0]] + a[1..] && b == [b[0]] + b[1..];
    }
  }

  lemma HexHead(a: Bytes)
    requires a != []
    ensures Hex(a)[0] == HexDigit(a[0] / 16) && Hex(a)[1] == HexDigit(a[0] % 16)
    ensures Hex(a)[2..] == Hex(a[1..])
  {
  }

  /** Splitting at the first separator is unambiguous when the left parts avoid it. */
  lemma SplitUnique(a: string, x: string, b: string, y: string, sep: char)
    requires sep !in a && sep !in b
    requires a + [sep] + x == b + [sep] + y
    ensures a == b && x == y
  {
    var l, r := a + [sep] + x, b + [sep] + y;
    assert l[|a|] == sep && r[|b|] == sep;
    assert forall i :: 0 <= i < |a| ==> l[i] == a[i];
    assert forall i :: 0 <= i < |b| ==> r[i] == b[i];
    assert l[..|a|] == a && r[..|b|] == b;
    assert l[|a| + 1..] == x && r[|b| + 1..] == y;
  }

  /** The characters that the regular expression class \s and `trim` treat as white space. */
  predicate IsSpace(c: char) {
    var n := c as int;
    || n == 0x20 || 0x09 <= n <= 0x0d || n == 0xa0 || n == 0x1680 || 0x2000 <= n <= 0x200a
    || n == 0x2028 || n == 0x2029 || n == 0x202f || n == 0x205f || n == 0x3000 || n == 0xfeff
  }

  function TrimStart(s: string): (t: string)
    ensures |t| <= |s| && t == s[|s| - |t|..]
    ensures t == [] || !IsSpace(t[0])
  {
    if s != [] && IsSpace(s[0]) then TrimStart(s[1..]) else s
  }

  function TrimEnd(s: string): (t: string)
    ensures t <= s
    ensures t == [] || !IsSpace(t[|t| - 1])
  {
    if s != [] && IsSpace(s[|s| - 1]) then TrimEnd(s[..|s| - 1]) else s
  }

  function Trim(s: string): string {
    TrimEnd(TrimStart(s))
  }

  /** Text without white space is left alone. */
  lemma TrimPlain(s: string)
    requires forall i :: 0 <= i < |s| ==> !IsSpace(s[i])
    ensures Trim(s) == s
  {
  }

  /** UTF-8 of an ASCII label: one byte a character. */
  function Ascii(s: string): (b: Bytes)
    ensures |b| == |s|
  {
    seq(|s|, i requires 0 <= i < |s| => s[i] as int % 128)
  }

  /** UTF-8 of one character, as TextEncoder produces it. */
  function Utf8Char(c: char): (b: Bytes)
    ensures 1 <= |b| <= 4
  {
    var n := c as int;
    if n < 0x80 then [n]
    else if n < 0x800 then [0xc0 + n / 64, 0x80 + n % 64]
    else if n < 0x1_0000 then [0xe0 + n / 0x1000, 0x80 + n / 64 % 64, 0x80 + n % 64]
    else [0xf0 + n / 0x4_0000, 0x80 + n / 0x1000 % 64, 0x80 + n / 64 % 64, 0x80 + n % 64]
  }

  function Utf8(s: string): Bytes {
    if s == [] then [] else Utf8Char(s[0]) + Utf8(s[1..])
  }

  function ByteAt(b: Bytes, i: nat): int {
    if i < |b| then b[i] else 0
  }

  /** The code point of the sequence that starts with these bytes. */
  function Utf8Point(b: Bytes): int {
    var b0, b1, b2, b3 := ByteAt(b, 0), ByteAt(b, 1), ByteAt(b, 2), ByteAt(b, 3);
    if b0 < 0x80 then b0
    else if b0 < 0xe0 then (b0 - 0xc0) * 64 + (b1 - 0x80)
    else if b0 < 0xf0 then (b0 - 0xe0) * 0x1000 + (b1 - 0x80) * 64 + (b2 - 0x80)
    else (b0 - 0xf0) * 0x4_0000 + (b1 - 0x80) * 0x1000 + (b2 - 0x80) * 64 + (b3 - 0x80)
  }

  lemma Utf8CharPoint(c: char, x: Bytes)
    ensures Utf8Point(Utf8Char(c) + x) == c as int
  {
    var n, b := c as int, Utf8Char(c);
    assert forall i :: 0 <= i < |b| ==> (b + x)[i] == b[i];
    assert n / 64 == n / 0x1000 * 64 + n / 64 % 64;
    assert n / 0x1000 == n / 0x4_0000 * 64 + n / 0x1000 % 64;
  }

  /** One character's bytes are never the beginning of another's. */
  lemma Utf8CharPrefix(c: char, x: Bytes, d: char, y: Bytes)
    requires Utf8Char(c) + x == Utf8Char(d) + y
    ensures c == d && x == y
  {
    hide Utf8Char, Utf8Point;
    Utf8CharPoint(c, x);
    Utf8CharPoint(d, y);
    assert x == (Utf8Char(c) + x)[|Utf8Char(c)|..] && y == (Utf8Char(d) + y)[|Utf8Char(d)|..];
  }

  /** If two encodings agree as far as they go, one text continues the other. */
  lemma {:induction false} Utf8Prefix(s: string, x: Bytes, t: string, y: Bytes)
    requires Utf8(s) + x == Utf8(t) + y
    ensures (s <= t && x == Utf8(t[|s|..]) + y) || (t <= s && y == Utf8(s[|t|..]) + x)
    decreases |s|
  {
    hide Utf8Char;
    if s == [] {
      assert t[0..] == t;
    } else if t == [] {
      assert s[0..] == s;
    } else {
      assert Utf8(s) + x == Utf8Char(s[0]) + (Utf8(s[1..]) + x);
      assert Utf8(t) + y == Utf8Char(t[0]) + (Utf8(t[1..]) + y);
      Utf8CharPrefix(s[0], Utf8(s[1..]) + x, t[0], Utf8(t[1..]) + y);
      Utf8Prefix(s[1..], x, t[1..], y);
      assert s == [s[0]] + s[1..] && t == [t[0]] + t[1..];
      if s[1..] <= t[1..] && x == Utf8(t[1..][|s[1..]|..]) + y {
        assert t[|s|..] == t[1..][|s[1..]|..];
      } else {
        assert s[|t|..] == s[1..][|t[1..]|..];
      }
    }
  }

  lemma Utf8Injective(s: string, t: string)
    requires Utf8(s) == Utf8(t)
    ensures s == t
  {
    hide Utf8;
    assert Utf8(s) + [] == Utf8(t) + [];
    Utf8Prefix(s, [], t, []);
    if s <= t { Utf8Empty(t[|s|..]); } else { Utf8Empty(s[|t|..]); }
  }

  lemma Utf8Empty(s: string)
    ensures Utf8(s) == [] ==> s == []
    ensures Utf8(s) + [] == Utf8(s)
  {
    hide Utf8Char;
  }
}
