/** Standard base64 as `util/bytes.js` writes and reads it, and the canonical-form check of
    the device records (`deviceRecordShared.js`). */
module Base64 {
  import opened Basics
  import opened JsInt
  import B = Bits
  import Text

  /** Character of the alphabet A-Z a-z 0-9 + / at an index. */
  function CharAt(i: nat): (c: char)
    requires i < 64
    ensures InAlphabet(c) && IndexOf(c) == i
  {
    if i < 26 then ('A' as int + i) as char
    else if i < 52 then ('a' as int + (i - 26)) as char
    else if i < 62 then ('0' as int + (i - 52)) as char
    else if i == 62 then '+' else '/'
  }

  /** `B64_ALPHABET.indexOf(c)`: -1 outside the alphabet. */
  function IndexOf(c: char): (i: int)
    ensures -1 <= i < 64
    ensures i >= 0 <==> InAlphabet(c)
  {
    if 'A' <= c <= 'Z' then c as int - 'A' as int
    else if 'a' <= c <= 'z' then c as int - 'a' as int + 26
    else if '0' <= c <= '9' then c as int - '0' as int + 52
    else if c == '+' then 62 else if c == '/' then 63 else -1
  }

  predicate InAlphabet(c: char) {
    'A' <= c <= 'Z' || 'a' <= c <= 'z' || '0' <= c <= '9' || c == '+' || c == '/'
  }

  datatype DecodeError = InvalidLength | InvalidCharacter

  // ---- specification of the encoder: section 4 of RFC 4648, one 24-bit quantum at a time

  function Quantum(t: nat): (s: string)
    requires t < 0x100_0000
    ensures |s| == 4
    ensures forall i :: 0 <= i < 4 ==> InAlphabet(s[i])
  {
    [CharAt(t / 0x4_0000 % 64), CharAt(t / 0x1000 % 64), CharAt(t / 64 % 64), CharAt(t % 64)]
  }

  function Triple(b0: int, b1: int, b2: int): (t: nat)
    requires 0 <= b0 < 256 && 0 <= b1 < 256 && 0 <= b2 < 256
    ensures t < 0x100_0000
  {
    b0 * 0x1_0000 + b1 * 0x100 + b2
  }

  function Encode(b: Bytes): (s: string)
    ensures |b| <= |s|
  {
    if |b| == 0 then ""
    else if |b| == 1 then var q := Quantum(Triple(b[0], 0, 0)); [q[0], q[1], '=', '=']
    else if |b| == 2 then var q := Quantum(Triple(b[0], b[1], 0)); [q[0], q[1], q[2], '=']
    else Quantum(Triple(b[0], b[1], b[2])) + Encode(b[3..])
  }

  // ---- specification of the decoder

  function Clean(s: string): (t: string) {
    if s == [] then [] else if Text.IsSpace(s[0]) then Clean(s[1..]) else [s[0]] + Clean(s[1..])
  }

  /** Value of a character in the last two places of a quantum, where "=" stands for 0. */
  function TailIndex(c: char): (i: int)
    ensures -1 <= i < 64
  {
    if c == '=' then 0 else IndexOf(c)
  }

  function QuantumValue(v0: nat, v1: nat, v2: nat, v3: nat): (t: nat)
    requires v0 < 64 && v1 < 64 && v2 < 64 && v3 < 64
    ensures t < 0x100_0000
  {
    v0 * 0x4_0000 + v1 * 0x1000 + v2 * 64 + v3
  }

  function ThreeBytes(t: nat): (b: Bytes)
    requires t < 0x100_0000
    ensures |b| == 3
  {
    [t / 0x1_0000 % 0x100, t / 0x100 % 0x100, t % 0x100]
  }

  /** The three bytes of the quantum at position i, unless a character is invalid. */
  function GroupAt(s: string, i: nat): (r: Option<Bytes>)
    requires i + 4 <= |s|
    ensures r.Some? ==> |r.value| == 3
  {
    var v0, v1, v2, v3 := IndexOf(s[i]), IndexOf(s[i + 1]), TailIndex(s[i + 2]), TailIndex(s[i + 3]);
    if v0 < 0 || v1 < 0 || v2 < 0 || v3 < 0 then None
    else Some(ThreeBytes(QuantumValue(v0, v1, v2, v3)))
  }

  function Joined(a: Option<Bytes>, b: Option<Bytes>): Option<Bytes> {
    if a.Some? && b.Some? then Some(a.value + b.value) else None
  }

  /** All bytes of all quanta, padding included. */
  function Quanta(s: string): (r: Option<Bytes>)
    ensures r.Some? && |s| >= 4 ==> |r.value| >= 3
  {
    if |s| < 4 then Some([]) else Joined(GroupAt(s, 0), Quanta(s[4..]))
  }

  function Pad(s: string): (n: nat)
    ensures n <= 2 && n <= |s|
    ensures |s| == 0 ==> n == 0
  {
    if |s| >= 2 && s[|s| - 2..] == "==" then 2 else if |s| >= 1 && s[|s| - 1] == '=' then 1 else 0
  }

  function Decode(text: string): Result<Bytes, DecodeError> {
    var s := Clean(text);
    if |s| % 4 != 0 then Err(InvalidLength)
    else if s == [] then Ok([])
    else match Quanta(s)
      case None => Err(InvalidCharacter)
      case Some(full) => Ok(full[..|full| - Pad(s)])
  }

  // ---- the loops

  /** `x | (v << k)` appends when x has room for it. */
  lemma OrShifted(x: nat, v: nat, k: nat, p: nat, vp: nat, hi: nat, hp: nat)
    requires k < 32 && p == Pow2(k) && hp == Pow2(hi) && vp == v * p
    requires x % hp == 0 && vp < hp && x + vp < 0x8000_0000
    ensures JsOr(x, JsShl(v, k)) == x + vp
  {
    ShlIs(v, k, p);
    OrIs(x, vp, hi, hp);
  }

  lemma Powers()
    ensures Pow2(18) == 0x4_0000 && Pow2(16) == 0x1_0000 && Pow2(12) == 0x1000
    ensures Pow2(8) == 0x100 && Pow2(6) == 64 && Pow2(24) == 0x100_0000
  {
    Pow2Small();
    Pow2Word();
    Pow2Add(8, 16);
  }

  lemma TripleValue(b0: int, b1: int, b2: int)
    requires 0 <= b0 < 256 && 0 <= b1 < 256 && 0 <= b2 < 256
    ensures JsOr(JsOr(JsShl(b0, 16), JsShl(b1, 8)), b2) == Triple(b0, b1, b2)
  {
    var x, y := b0 * 0x1_0000, b1 * 0x100;
    var z := x + y;
    ModUnique(x, 0x1_0000, b0, 0);
    ModUnique(z, 0x100, b0 * 0x100 + b1, 0);
    Powers();
    ShlIs(b0, 16, 0x1_0000);
    OrShifted(x, b1, 8, 0x100, y, 16, 0x1_0000);
    OrIs(z, b2, 8, 0x100);
  }

  lemma Sextet(t: nat, k: nat, p: nat)
    requires t < 0x100_0000 && k < 32 && p == Pow2(k)
    ensures JsAnd(JsShr(t, k), 0x3f) == t / p % 64
  {
    HalvedIs(t, k);
    ShrIs(t, k, p);
    Pow2Small();
    MaskIs(t / p, 6, 64);
  }

  lemma SextetValues(t: nat)
    requires t < 0x100_0000
    ensures JsAnd(JsShr(t, 18), 0x3f) == t / 0x4_0000 % 64 && JsAnd(JsShr(t, 12), 0x3f) == t / 0x1000 % 64
    ensures JsAnd(JsShr(t, 6), 0x3f) == t / 64 % 64 && JsAnd(t, 0x3f) == t % 64
  {
    Powers();
    Sextet(t, 18, 0x4_0000);
    Sextet(t, 12, 0x1000);
    Sextet(t, 6, 64);
    MaskIs(t, 6, 64);
  }

  /** What the loop body computes from three bytes is one quantum. */
  lemma QuantumChars(b0: int, b1: int, b2: int)
    requires 0 <= b0 < 256 && 0 <= b1 < 256 && 0 <= b2 < 256
    ensures
      var t := JsOr(JsOr(JsShl(b0, 16), JsShl(b1, 8)), b2);
      var q := Quantum(Triple(b0, b1, b2));
      && 0 <= JsAnd(JsShr(t, 18), 0x3f) < 64 && CharAt(JsAnd(JsShr(t, 18), 0x3f)) == q[0]
      && 0 <= JsAnd(JsShr(t, 12), 0x3f) < 64 && CharAt(JsAnd(JsShr(t, 12), 0x3f)) == q[1]
      && 0 <= JsAnd(JsShr(t, 6), 0x3f) < 64 && CharAt(JsAnd(JsShr(t, 6), 0x3f)) == q[2]
      && 0 <= JsAnd(t, 0x3f) < 64 && CharAt(JsAnd(t, 0x3f)) == q[3]
  {
    TripleValue(b0, b1, b2);
    SextetValues(Triple(b0, b1, b2));
  }

  /** The four characters one turn of the encoding loop appends. */
  function Group(b: Bytes, i: nat): (g: string)
    requires i < |b|
    ensures |g| == 4
  {
    var b1: byte := if i + 1 < |b| then b[i + 1] else 0;
    var b2: byte := if i + 2 < |b| then b[i + 2] else 0;
    var q := Quantum(Triple(b[i], b1, b2));
    [q[0], q[1], if i + 1 < |b| then q[2] else '=', if i + 2 < |b| then q[3] else '=']
  }

  function EncodeFrom(b: Bytes, i: nat): string {
    if i < |b| then Encode(b[i..]) else ""
  }

  lemma EncodeStep(b: Bytes, i: nat)
    requires i < |b|
    ensures EncodeFrom(b, i) == Group(b, i) + EncodeFrom(b, i + 3)
  {
    var rest := b[i..];
    if |rest| >= 3 {
      assert rest[3..] == b[i + 3..];
    }
  }

  /** The body of the encoding loop: one triple of bytes, four characters. */
  method EncodeGroup(bytes: Bytes, i: nat) returns (out: string)
    requires i < |bytes|
    ensures out == Group(bytes, i)
  {
    var b0 := bytes[i];
    var b1: byte := if i + 1 < |bytes| then bytes[i + 1] else 0;
    var b2: byte := if i + 2 < |bytes| then bytes[i + 2] else 0;
    QuantumChars(b0, b1, b2);
    var triple := JsOr(JsOr(JsShl(b0, 16), JsShl(b1, 8)), b2);
    var c0 := CharAt(JsAnd(JsShr(triple, 18), 0x3f));
    var c1 := CharAt(JsAnd(JsShr(triple, 12), 0x3f));
    var c2 := if i + 1 < |bytes| then CharAt(JsAnd(JsShr(triple, 6), 0x3f)) else '=';
    var c3 := if i + 2 < |bytes| then CharAt(JsAnd(triple, 0x3f)) else '=';
    out := [c0, c1, c2, c3];
  }

  method BytesToBase64(bytes: Bytes) returns (out: string)
    ensures out == Encode(bytes)
  {
    out := "";
    var i := 0;
    assert bytes == bytes[0..];
    while i < |bytes|
      invariant 0 <= i
      invariant out + EncodeFrom(bytes, i) == Encode(bytes)
    {
      EncodeStep(bytes, i);
      var group := EncodeGroup(bytes, i);
      out := out + group;
      i := i + 3;
    }
  }

  // ---- the decoding loop

  lemma QuantumValueJs(v0: int, v1: int, v2: int, v3: int)
    requires 0 <= v0 < 64 && 0 <= v1 < 64 && 0 <= v2 < 64 && 0 <= v3 < 64
    ensures JsOr(JsOr(JsOr(JsShl(v0, 18), JsShl(v1, 12)), JsShl(v2, 6)), v3) == QuantumValue(v0, v1, v2, v3)
  {
    var x, y, z := v0 * 0x4_0000, v1 * 0x1000, v2 * 64;
    var xy := x + y;
    var xyz := xy + z;
    ModUnique(x, 0x4_0000, v0, 0);
    ModUnique(xy, 0x1000, v0 * 64 + v1, 0);
    ModUnique(xyz, 64, v0 * 0x1000 + v1 * 64 + v2, 0);
    Powers();
    assert JsShl(v0, 18) == x by { ShlIs(v0, 18, 0x4_0000); }
    assert JsOr(x, JsShl(v1, 12)) == xy by { OrShifted(x, v1, 12, 0x1000, y, 18, 0x4_0000); }
    assert JsOr(xy, JsShl(v2, 6)) == xyz by { OrShifted(xy, v2, 6, 64, z, 12, 0x1000); }
    assert JsOr(xyz, v3) == xyz + v3 by { OrIs(xyz, v3, 6, 64); }
  }

  lemma Octet(t: nat, k: nat, p: nat)
    requires t < 0x100_0000 && k < 32 && p == Pow2(k)
    ensures JsAnd(JsShr(t, k), 0xff) == t / p % 0x100
  {
    HalvedIs(t, k);
    ShrIs(t, k, p);
    Pow2Small();
    MaskIs(t / p, 8, 0x100);
  }

  lemma ThreeBytesJs(t: nat)
    requires t < 0x100_0000
    ensures JsAnd(JsShr(t, 16), 0xff) == ThreeBytes(t)[0] && JsAnd(JsShr(t, 8), 0xff) == ThreeBytes(t)[1]
    ensures JsAnd(t, 0xff) == ThreeBytes(t)[2]
  {
    Powers();
    Octet(t, 16, 0x1_0000);
    Octet(t, 8, 0x100);
    MaskIs(t, 8, 0x100);
  }

  /** The body of the decoding loop: four characters, three bytes, or an invalid character. */
  method DecodeGroup(s: string, i: nat) returns (r: Option<Bytes>)
    requires i + 4 <= |s|
    ensures r == GroupAt(s, i)
  {
    var v0, v1, v2, v3 := IndexOf(s[i]), IndexOf(s[i + 1]), TailIndex(s[i + 2]), TailIndex(s[i + 3]);
    if v0 < 0 || v1 < 0 || v2 < 0 || v3 < 0 {
      return None;
    }
    QuantumValueJs(v0, v1, v2, v3);
    var triple := JsOr(JsOr(JsOr(JsShl(v0, 18), JsShl(v1, 12)), JsShl(v2, 6)), v3);
    ThreeBytesJs(triple);
    return Some([JsAnd(JsShr(triple, 16), 0xff), JsAnd(JsShr(triple, 8), 0xff), JsAnd(triple, 0xff)]);
  }

  /** `if (outIndex < outLen) out[outIndex++] = x`, once for each byte of a quantum. */
  method StoreGroup(out: array<byte>, start: nat, group: Bytes) returns (next: nat)
    requires |group| == 3 && start <= out.Length
    modifies out
    ensures next == Min(start + 3, out.Length)
    ensures out[..next] == old(out[..start]) + group[..next - start]
  {
    next := start;
    if next < out.Length { out[next] := group[0]; next := next + 1; }
    if next < out.Length { out[next] := group[1]; next := next + 1; }
    if next < out.Length { out[next] := group[2]; next := next + 1; }
  }

  lemma {:induction false} QuantaLength(s: string, n: nat)
    requires |s| == 4 * n && Quanta(s).Some?
    ensures |Quanta(s).value| == 3 * n
    decreases n
  {
    if n > 0 { QuantaLength(s[4..], n - 1); }
  }

  /** The decoding loop: fills `out` with the leading bytes of the quanta. */
  method FillQuanta(s: string, quanta: nat, out: array<byte>) returns (ok: bool)
    requires |s| == 4 * quanta && out.Length <= 3 * quanta
    modifies out
    ensures ok <==> Quanta(s).Some?
    ensures ok ==> out.Length <= |Quanta(s).value| && out[..] == Quanta(s).value[..out.Length]
  {
    hide Quanta, GroupAt, Continues;
    ContinuesFromStart(s);
    var outIndex, i := 0, 0;
    ghost var done: Bytes, k := [], 0;
    while i < |s|
      invariant k <= quanta && i == 4 * k && |done| == 3 * k
      invariant outIndex == Min(|done|, out.Length)
      invariant out[..outIndex] == done[..outIndex]
      invariant Continues(s, i, done)
    {
      var group := DecodeGroup(s, i);
      QuantaStep(s, i, done);
      if group.None? {
        return false;
      }
      TakeAppend(done, group.value, out.Length);
      outIndex := StoreGroup(out, outIndex, group.value);
      done := done + group.value;
      i := i + 4;
      k := k + 1;
    }
    ContinuesToEnd(s, done);
    assert out[..] == out[..outIndex];
    return true;
  }

  method Base64ToBytes(text: string) returns (r: Result<Bytes, DecodeError>)
    ensures r == Decode(text)
  {
    var s := Clean(text);
    if |s| % 4 != 0 {
      return Err(InvalidLength);
    }
    var quanta := |s| / 4;
    var outLen := quanta * 3 - Pad(s);
    var out := new byte[outLen](_ => 0);
    var ok := FillQuanta(s, quanta, out);
    if !ok {
      return Err(InvalidCharacter);
    }
    QuantaLength(s, quanta);
    return Ok(out[..]);
  }

  lemma TakeAppend(done: Bytes, g: Bytes, n: nat)
    ensures
      var i, j := Min(|done|, n), Min(|done| + |g|, n);
      j - i <= |g| && done[..i] + g[..j - i] == (done + g)[..j]
  {
  }

  /** The bytes so far and the rest of the text make up the whole. */
  ghost predicate Continues(s: string, i: nat, done: Bytes)
    requires i <= |s|
  {
    Joined(Some(done), Quanta(s[i..])) == Quanta(s)
  }

  lemma ContinuesFromStart(s: string)
    ensures Continues(s, 0, [])
  {
    hide Quanta;
    assert s[0..] == s;
    assert Quanta(s).Some? ==> [] + Quanta(s).value == Quanta(s).value;
  }

  lemma ContinuesToEnd(s: string, done: Bytes)
    requires Continues(s, |s|, done)
    ensures Quanta(s) == Some(done)
  {
    assert s[|s|..] == [] && Quanta([]) == Some([]);
    hide Quanta;
    assert done + [] == done;
  }

  /** One turn of the decoding loop, as the specification sees it. */
  lemma QuantaStep(s: string, i: nat, done: Bytes)
    requires i + 4 <= |s| && Continues(s, i, done)
    ensures GroupAt(s, i).None? ==> Quanta(s).None?
    ensures GroupAt(s, i).Some? ==> Continues(s, i + 4, done + GroupAt(s, i).value)
  {
    QuantaSplit(s, i, done);
  }

  lemma QuantaSplit(s: string, i: nat, done: Bytes)
    requires i + 4 <= |s|
    ensures Joined(Some(done), Quanta(s[i..])) == Joined(Joined(Some(done), GroupAt(s, i)), Quanta(s[i + 4..]))
  {
    var g, rest := GroupAt(s, i), Quanta(s[i + 4..]);
    assert s[i..][4..] == s[i + 4..];
    assert GroupAt(s[i..], 0) == g;
    if g.Some? && rest.Some? {
      assert done + (g.value + rest.value) == done + g.value + rest.value;
    }
  }

  // ---- decode inverts encode

  function PadFor(n: nat): (p: nat)
    ensures p <= 2
  {
    if n == 0 then 0 else if n == 1 then 2 else if n == 2 then 1 else PadFor(n - 3)
  }

  lemma QuantumRoundTrip(t: nat)
    requires t < 0x100_0000
    ensures
      var q := Quantum(t);
      forall c :: c in q ==> InAlphabet(c)
    ensures
      var q := Quantum(t);
      QuantumValue(IndexOf(q[0]), IndexOf(q[1]), IndexOf(q[2]), IndexOf(q[3])) == t
    ensures t % 64 == 0 ==> IndexOf(Quantum(t)[3]) == 0
    ensures t % 0x1000 == 0 ==> IndexOf(Quantum(t)[2]) == 0 && IndexOf(Quantum(t)[3]) == 0
  {
    hide CharAt, IndexOf;
    SextetsValue(t);
  }

  lemma SextetsValue(t: nat)
    requires t < 0x100_0000
    ensures QuantumValue(t / 0x4_0000 % 64, t / 0x1000 % 64, t / 64 % 64, t % 64) == t
    ensures t % 0x1000 == 0 ==> t / 64 % 64 == 0 && t % 64 == 0
  {
    var a := t / 0x40;
    var b := a / 0x40;
    assert t / 0x1000 == b && t / 0x4_0000 == b / 0x40;
    assert b / 0x40 < 64;
  }

  lemma TripleBytes(b0: byte, b1: byte, b2: byte)
    ensures ThreeBytes(Triple(b0, b1, b2)) == [b0, b1, b2]
    ensures b2 == 0 ==> Triple(b0, b1, b2) % 64 == 0
    ensures b1 == 0 && b2 == 0 ==> Triple(b0, b1, b2) % 0x1000 == 0
  {
    var x: int, y: int, z: int := b0, b1, b2;
    var t := Triple(b0, b1, b2);
    ModUnique(t, 0x1_0000, x, y * 0x100 + z);
    ModUnique(t, 0x100, x * 0x100 + y, z);
    ModUnique(x * 0x100 + y, 0x100, x, y);
    if z == 0 {
      ModUnique(t, 64, x * 0x400 + y * 4, 0);
    }
    if y == 0 && z == 0 {
      ModUnique(t, 0x1000, x * 0x10, 0);
    }
  }

  lemma QuantaOfQuantum(t: nat, rest: string)
    requires t < 0x100_0000
    ensures Quanta(Quantum(t) + rest) == Joined(Some(ThreeBytes(t)), Quanta(rest))
  {
    QuantumRoundTrip(t);
    assert (Quantum(t) + rest)[4..] == rest;
  }

  lemma QuantaOfLast(t: nat, c: char)
    requires t < 0x100_0000
    requires (c == Quantum(t)[2] && t % 64 == 0) || (c == '=' && t % 0x1000 == 0)
    ensures Quanta([Quantum(t)[0], Quantum(t)[1], c, '=']) == Some(ThreeBytes(t))
  {
    QuantumRoundTrip(t);
    var q := Quantum(t);
    var s := [q[0], q[1], c, '='];
    assert q[2] in q;
    assert TailIndex(c) == IndexOf(q[2]) && TailIndex('=') == IndexOf(q[3]);
    assert s[4..] == [];
    assert ThreeBytes(t) + [] == ThreeBytes(t);
  }

  lemma QuantaOfTail(b: Bytes, x: byte, y: byte)
    requires (b == [x] && y == 0) || b == [x, y]
    ensures Quanta(Encode(b)) == Some([x, y, 0])
  {
    var t := Triple(x, y, 0);
    var q := Quantum(t);
    var c := if |b| == 1 then '=' else q[2];
    assert Encode(b) == [q[0], q[1], c, '='];
    TripleBytes(x, y, 0);
    QuantaOfLast(t, c);
  }

  lemma {:induction false} EncodeLength(b: Bytes) returns (n: nat)
    ensures |Encode(b)| == 4 * n
    decreases |b|
  {
    if |b| >= 3 {
      n := EncodeLength(b[3..]);
      n := n + 1;
    } else {
      n := if b == [] then 0 else 1;
    }
  }

  lemma {:induction false} QuantaOfEncode(b: Bytes)
    ensures Quanta(Encode(b)) == Some(b + Zeros(PadFor(|b|)))
    decreases |b|
  {
    if |b| == 0 {
      assert b + Zeros(0) == [];
    } else if |b| == 1 {
      assert b + Zeros(2) == [b[0], 0, 0];
      QuantaOfTail(b, b[0], 0);
    } else if |b| == 2 {
      assert b + Zeros(1) == [b[0], b[1], 0];
      QuantaOfTail(b, b[0], b[1]);
    } else {
      var head, rest, z := b[..3], b[3..], Zeros(PadFor(|b|));
      assert head == [b[0], b[1], b[2]];
      assert b + z == head + (rest + z);
      var t := Triple(b[0], b[1], b[2]);
      assert Encode(b) == Quantum(t) + Encode(rest);
      assert ThreeBytes(t) == head by { TripleBytes(b[0], b[1], b[2]); }
      QuantaOfEncode(rest);
      QuantaOfQuantum(t, Encode(rest));
    }
  }

  ghost predicate Shaped(s: string, pad: nat) {
    && pad <= |s|
    && (forall i :: 0 <= i < |s| - pad ==> InAlphabet(s[i]))
    && (forall i :: |s| - pad <= i < |s| ==> s[i] == '=')
  }

  /** The encoder emits only alphabet characters followed by its padding. */
  lemma {:induction false} EncodeShape(b: Bytes)
    ensures Shaped(Encode(b), PadFor(|b|))
    ensures b != [] ==> PadFor(|b|) < |Encode(b)|
    decreases |b|
  {
    if |b| >= 3 {
      EncodeShape(b[3..]);
      ShapedAppend(Quantum(Triple(b[0], b[1], b[2])), Encode(b[3..]), PadFor(|b|));
    }
  }

  lemma ShapedAppend(q: string, rest: string, pad: nat)
    requires (forall i :: 0 <= i < |q| ==> InAlphabet(q[i])) && Shaped(rest, pad)
    ensures Shaped(q + rest, pad)
  {
  }

  lemma ShapedPlain(s: string, pad: nat)
    requires Shaped(s, pad)
    ensures forall i :: 0 <= i < |s| ==> !Text.IsSpace(s[i])
  {
  }

  lemma PadOfShaped(s: string, pad: nat)
    requires Shaped(s, pad) && pad <= 2 && (s == [] || pad < |s|)
    ensures Pad(s) == pad
  {
    if |s| >= 2 {
      assert s[|s| - 2..] == [s[|s| - 2], s[|s| - 1]];
    }
  }

  lemma {:induction false} CleanPlain(s: string)
    requires forall i :: 0 <= i < |s| ==> !Text.IsSpace(s[i])
    ensures Clean(s) == s
  {
    if s != [] { CleanPlain(s[1..]); }
  }

  /** Decoding inverts encoding on every byte string. */
  lemma DecodeEncode(b: Bytes)
    ensures Decode(Encode(b)) == Ok(b)
  {
    var s, pad := Encode(b), PadFor(|b|);
    EncodeShape(b);
    ShapedPlain(s, pad);
    CleanPlain(s);
    var n := EncodeLength(b);
    ModUnique(|s|, 4, n, 0);
    QuantaOfEncode(b);
    PadOfShaped(s, pad);
    var full := b + Zeros(pad);
    assert full[..|full| - pad] == b;
  }

  // ---- the canonical form of the device records

  /** The regular expression of alphabet characters with at most two trailing "=". */
  predicate CanonicalPattern(s: string) {
    exists pad :: 0 <= pad <= 2 && PatternWith(s, pad)
  }

  predicate PatternWith(s: string, pad: nat) {
    && |s| > pad
    && (forall i :: 0 <= i < |s| - pad ==> InAlphabet(s[i]))
    && (forall i :: |s| - pad <= i < |s| ==> s[i] == '=')
  }

  datatype CanonicalError = Empty | NotCanonicalPattern | Undecodable | RoundTripMismatch | WrongLength

  function RequireCanonicalB64(value: string, length: Option<nat>): Result<string, CanonicalError> {
    if value == [] then Err(Empty)
    else if !CanonicalPattern(value) then Err(NotCanonicalPattern)
    else match Decode(value)
      case Err(_) => Err(Undecodable)
      case Ok(bytes) =>
        if Encode(bytes) != value then Err(RoundTripMismatch)
        else if length.Some? && |bytes| != length.value then Err(WrongLength)
        else Ok(value)
  }

  ghost predicate IsEncoding(value: string) {
    exists b: Bytes :: b != [] && value == Encode(b)
  }

  lemma EncodingAccepted(b: Bytes)
    requires b != []
    ensures RequireCanonicalB64(Encode(b), None).Ok?
  {
    DecodeEncode(b);
    EncodeShape(b);
    assert PatternWith(Encode(b), PadFor(|b|));
  }

  /** A string is accepted exactly when it is the encoding of some non-empty byte string. */
  lemma CanonicalIffEncoding(value: string)
    ensures RequireCanonicalB64(value, None).Ok? <==> IsEncoding(value)
  {
    if IsEncoding(value) {
      var b: Bytes :| b != [] && value == Encode(b);
      EncodingAccepted(b);
    }
    if RequireCanonicalB64(value, None).Ok? {
      var b := Decode(value).value;
      assert value == Encode(b) && b != [];
    }
  }

  /** Accepted strings and the bytes they stand for determine each other. */
  lemma CanonicalUnique(s: string, t: string, n: Option<nat>, m: Option<nat>)
    requires RequireCanonicalB64(s, n).Ok? && RequireCanonicalB64(t, m).Ok?
    ensures Decode(s) == Decode(t) <==> s == t
  {
  }

  // ---- section 4 of RFC 4648, bit by bit

  const ALPHABET := ("ABCDEFGHIJKLMNOPQRSTUVWXYZ" + "abcdefghijklmnopqrstuvwxyz") + ("0123456789" + "+/")

  lemma AlphabetIs(i: nat)
    requires i < 64
    ensures |ALPHABET| == 64 && CharAt(i) == ALPHABET[i]
  {
  }

  /** The six-bit values of the characters; padding stands for 0. */
  function Sextets(s: string): (v: seq<nat>)
    requires forall c :: c in s ==> c == '=' || InAlphabet(c)
    ensures |v| == |s|
  {
    seq(|s|, i requires 0 <= i < |s| => TailIndex(s[i]))
  }

  /** The zero bytes that complete the last group of three, each shown as one '='. */
  function Missing(n: nat): nat {
    (2 * n) % 3
  }

  /** The characters of an encoding spell the bits of the bytes, and zeros up to a whole group; exactly the
      last characters, one for each missing byte, are padding. */
  lemma {:induction false} EncodeSpells(b: Bytes)
    ensures
      var s, k := Encode(b), Missing(|b|);
      && 3 * |s| == 4 * (|b| + k)
      && (forall i :: 0 <= i < |s| ==> if i < |s| - k then InAlphabet(s[i]) else s[i] == '=')
      && B.Pack(Sextets(s), 6) == B.Pack(b + Zeros(k), 8)
    decreases |b|
  {
    hide Quantum, CharAt, B.Pack, TailIndex, InAlphabet, Triple;
    var s, k := Encode(b), Missing(|b|);
    if |b| >= 3 {
      var q, rest := Quantum(Triple(b[0], b[1], b[2])), Encode(b[3..]);
      EncodeSpells(b[3..]);
      QuantumSpells(b[0], b[1], b[2]);
      assert Sextets(s) == Sextets(q) + Sextets(rest);
      B.PackAppend(Sextets(q), Sextets(rest), 6);
      assert b + Zeros(k) == [b[0], b[1], b[2]] + (b[3..] + Zeros(k));
      B.PackAppend([b[0], b[1], b[2]], b[3..] + Zeros(k), 8);
    } else {
      LastSpells(b);
    }
  }

  lemma LastSpells(b: Bytes)
    requires |b| < 3
    ensures
      var s, k := Encode(b), Missing(|b|);
      && 3 * |s| == 4 * (|b| + k)
      && (forall i :: 0 <= i < |s| ==> if i < |s| - k then InAlphabet(s[i]) else s[i] == '=')
      && B.Pack(Sextets(s), 6) == B.Pack(b + Zeros(k), 8)
  {
    hide Quantum, CharAt, IndexOf, InAlphabet, Triple, B.Pack;
    var s, k := Encode(b), Missing(|b|);
    if |b| > 0 {
      var b1: byte := if |b| == 2 then b[1] else 0;
      var q := Quantum(Triple(b[0], b1, 0));
      QuantumSpells(b[0], b1, 0);
      assert b + Zeros(k) == [b[0], b1, 0];
      forall i | 0 <= i < 4 ensures TailIndex(q[i]) == IndexOf(q[i]) { NotPadding(q[i]); }
      assert Sextets(s) == Sextets(q);
    } else {
      assert b + Zeros(k) == b && Sextets(s) == [];
      NoBits();
    }
  }

  lemma NotPadding(c: char)
    requires InAlphabet(c)
    ensures TailIndex(c) == IndexOf(c)
  {
  }

  lemma NoBits()
    ensures B.Pack([], 6) == B.Pack([], 8)
  {
  }

  /** One group: four sextets are the same 24 bits as three bytes. */
  lemma QuantumSpells(b0: byte, b1: byte, b2: byte)
    ensures
      var q := Quantum(Triple(b0, b1, b2));
      && B.Pack(Sextets(q), 6) == B.Pack([b0, b1, b2], 8)
      && (b2 == 0 ==> IndexOf(q[3]) == 0) && (b1 == 0 && b2 == 0 ==> IndexOf(q[2]) == 0)
  {
    hide CharAt, IndexOf, B.ToBits, Quantum;
    var t := Triple(b0, b1, b2);
    var q := Quantum(t);
    QuantumRoundTrip(t);
    TripleBytes(b0, b1, b2);
    FourSixes(IndexOf(q[0]), IndexOf(q[1]), IndexOf(q[2]), IndexOf(q[3]));
    ThreeEights(b0, b1, b2);
    assert Sextets(q) == [IndexOf(q[0]), IndexOf(q[1]), IndexOf(q[2]), IndexOf(q[3])];
  }

  lemma FourSixes(v0: nat, v1: nat, v2: nat, v3: nat)
    requires v0 < 64 && v1 < 64 && v2 < 64 && v3 < 64
    ensures B.Pack([v0, v1, v2, v3], 6) == B.ToBits(QuantumValue(v0, v1, v2, v3), 24)
  {
    hide B.ToBits, Pow2;
    Powers();
    B.ToBitsSplit(v0, v1, 6, 6);
    B.ToBitsSplit(v0 * 64 + v1, v2, 12, 6);
    B.ToBitsSplit(v0 * 0x1000 + v1 * 64 + v2, v3, 18, 6);
    B.PackSnoc([], v0, 6);
    assert [] + [v0] == [v0] && [v0] + [v1] == [v0, v1];
    assert [v0, v1] + [v2] == [v0, v1, v2] && [v0, v1, v2] + [v3] == [v0, v1, v2, v3];
    B.PackSnoc([v0], v1, 6);
    B.PackSnoc([v0, v1], v2, 6);
    B.PackSnoc([v0, v1, v2], v3, 6);
  }

  lemma ThreeEights(b0: byte, b1: byte, b2: byte)
    ensures B.Pack([b0, b1, b2], 8) == B.ToBits(Triple(b0, b1, b2), 24)
  {
    hide B.ToBits, Pow2;
    Powers();
    var x: nat, y: nat, z: nat := b0, b1, b2;
    B.ToBitsSplit(x, y, 8, 8);
    B.ToBitsSplit(x * 0x100 + y, z, 16, 8);
    B.PackSnoc([], x, 8);
    B.PackSnoc([x], y, 8);
    B.PackSnoc([x, y], z, 8);
  }
}
