/** Unpadded lowercase base32 (`util/base32.js`): an encoder and a strict decoder, both over a
    bit buffer that JavaScript truncates to 32 bits. */
module Base32 {
  import opened Basics
  import opened JsInt
  import opened Bits

  /** Character of a-z 2-7 at an index. */
  function CharAt(i: nat): (c: char)
    requires i < 32
  {
    if i < 26 then ('a' as int + i) as char else ('2' as int + (i - 26)) as char
  }

  /** `BASE32_ALPHABET.indexOf(c)` */
  function IndexOf(c: char): (i: int)
    ensures -1 <= i < 32
    ensures i >= 0 ==> CharAt(i) == c
    ensures forall j: nat :: j < 32 && CharAt(j) == c ==> i == j
  {
    if 'a' <= c <= 'z' then c as int - 'a' as int
    else if '2' <= c <= '7' then c as int - '2' as int + 26
    else -1
  }

  // ---- section 6 of RFC 4648, on bit strings

  /** Zero bits that complete the last group of five. */
  function Fill(n: nat): (k: nat)
    ensures k < 5
  {
    2 * n % 5
  }

  /** Number of symbols for n bytes. */
  function SymbolCount(n: nat): nat {
    2 * n - 2 * n / 5
  }

  lemma FillExact(n: nat)
    ensures 8 * n + Fill(n) == 5 * SymbolCount(n)
  {
  }

  lemma FillUnique(n: nat, m: nat, k: nat)
    requires 8 * n + k == 5 * m && k < 5
    ensures k == Fill(n) && m == SymbolCount(n)
  {
    ModUnique(2 * n, 5, 2 * n - m, k);
  }

  function Symbols(b: Bytes): (syms: seq<nat>)
    ensures |syms| == SymbolCount(|b|)
    ensures forall i :: 0 <= i < |syms| ==> syms[i] < 32
    ensures Pack(syms, 5) == Pack(b, 8) + ZeroBits(Fill(|b|))
  {
    var bits := Pack(b, 8) + ZeroBits(Fill(|b|));
    PackLength(b, 8);
    FillExact(|b|);
    PackUnpack(bits, 5, SymbolCount(|b|));
    Pow2Small();
    Unpack(bits, 5)
  }

  function Letters(syms: seq<nat>): (s: string)
    requires forall i :: 0 <= i < |syms| ==> syms[i] < 32
    ensures |s| == |syms|
    ensures forall i :: 0 <= i < |s| ==> s[i] == CharAt(syms[i])
  {
    seq(|syms|, i requires 0 <= i < |syms| => CharAt(syms[i]))
  }

  function Encode(b: Bytes): string {
    Letters(Symbols(b))
  }

  /** The symbols are determined by their bits. */
  lemma SymbolsUnique(b: Bytes, syms: seq<nat>, k: nat)
    requires forall i :: 0 <= i < |syms| ==> syms[i] < 32
    requires k < 5 && Pack(syms, 5) == Pack(b, 8) + ZeroBits(k)
    ensures syms == Symbols(b) && k == Fill(|b|)
  {
    PackLength(b, 8);
    PackLength(syms, 5);
    FillUnique(|b|, |syms|, k);
    Pow2Small();
    UnpackPack(syms, 5);
    UnpackPack(Symbols(b), 5);
  }

  // ---- the encoder

  /** The buffer holds `bits` live bits; appending a byte appends its eight bits. */
  lemma PushByte(buffer: int, bits: nat, v: nat, k: nat)
    requires bits + k <= 32 && k < 32 && v < Pow2(k)
    ensures ToBits(Low(JsOr(JsShl(buffer, k), v), bits + k), bits + k) == ToBits(Low(buffer, bits), bits) + ToBits(v, k)
  {
    hide JsOr, JsShl, Low, ToBits;
    PushBits(buffer, bits, k, v);
    ToBitsSplit(Low(buffer, bits), v, bits, k);
  }

  /** Reading the oldest m bits out of the buffer. */
  lemma TakeGroup(buffer: int, bits: nat, m: nat, mask: nat)
    requires m <= bits < 32 && mask == Pow2(m) - 1
    ensures
      var v := JsAnd(JsShr(buffer, bits - m), mask);
      && 0 <= v < Pow2(m)
      && ToBits(Low(buffer, bits), bits) == ToBits(v, m) + ToBits(Low(buffer, bits - m), bits - m)
  {
    hide JsAnd, JsShr, Low, ToBits, Pow2;
    var p, q, low := Pow2(bits - m), Pow2(m), Low(buffer, bits);
    assert q * p == Pow2(bits) by { Pow2Add(m, bits - m); }
    TakeBits(buffer, bits, m, p, q);
    var v, rest := QuotientBound(low, p, q);
    ToBitsSplit(v, rest, m, bits - m);
  }

  lemma QuotientBound(n: nat, p: nat, q: nat) returns (d: nat, r: nat)
    requires p > 0 && n < q * p
    ensures d == n / p && r == n % p && d < q && r < p && n == d * p + r
  {
    var e, s := n / p, n % p;
    assert n == p * e + s && 0 <= s < p;
    MulSign(p, e);
    MulLe(p, q, e);
    d, r := e, s;
  }

  lemma MulLe(p: nat, q: nat, d: int)
    ensures d >= q ==> p * d >= q * p
  {
    if d >= q {
      assert p * d == p * (d - q) + q * p;
    }
  }

  /** The zero-filled last group: `(buffer << (5 - bits)) & 31`. */
  lemma LastGroup(buffer: int, bits: nat)
    requires 0 < bits < 5
    ensures
      var v := JsAnd(JsShl(buffer, 5 - bits), 31);
      0 <= v < 32 && ToBits(v, 5) == ToBits(Low(buffer, bits), bits) + ZeroBits(5 - bits)
  {
    hide JsAnd, JsShl, ToBits, Pow2;
    var k, u, w := 5 - bits, ToUint32(buffer), JsShl(buffer, 5 - bits);
    assert Pow2(5) == 32 by { Pow2Small(); }
    MaskWord(w, 5);
    ShlWord(buffer, k);
    PushMod(u, bits, k, 0);
    assert JsAnd(w, 31) == Low(buffer, bits) * Pow2(k);
    ToBitsSplit(Low(buffer, bits), 0, bits, k);
    ZeroNumeral(k);
  }

  lemma LettersSnoc(syms: seq<nat>, v: nat)
    requires v < 32 && forall i :: 0 <= i < |syms| ==> syms[i] < 32
    ensures Letters(syms + [v]) == Letters(syms) + [CharAt(v)]
  {
  }

  /** The inner loop: emit five bits at a time while at least five are buffered. */
  method EmitGroups(buffer: int, bits0: nat, out0: string, ghost syms0: seq<nat>)
    returns (bits: nat, out: string, ghost syms: seq<nat>)
    requires bits0 < 32 && (forall i :: 0 <= i < |syms0| ==> syms0[i] < 32) && out0 == Letters(syms0)
    ensures bits < 5 && (forall i :: 0 <= i < |syms| ==> syms[i] < 32) && out == Letters(syms)
    ensures Pack(syms, 5) + ToBits(Low(buffer, bits), bits) == Pack(syms0, 5) + ToBits(Low(buffer, bits0), bits0)
  {
    hide JsAnd, JsShr, Low, ToBits, Pack;
    bits, out, syms := bits0, out0, syms0;
    while bits >= 5
      invariant bits < 32 && (forall i :: 0 <= i < |syms| ==> syms[i] < 32) && out == Letters(syms)
      invariant Pack(syms, 5) + ToBits(Low(buffer, bits), bits) == Pack(syms0, 5) + ToBits(Low(buffer, bits0), bits0)
    {
      assert Pow2(5) == 32 by { Pow2Small(); }
      TakeGroup(buffer, bits, 5, 31);
      var idx := JsAnd(JsShr(buffer, bits - 5), 31);
      PackSnoc(syms, idx, 5);
      LettersSnoc(syms, idx);
      Regrouped(Pack(syms, 5), ToBits(idx, 5), ToBits(Low(buffer, bits - 5), bits - 5));
      out := out + [CharAt(idx)];
      syms := syms + [idx];
      bits := bits - 5;
    }
  }

  method BytesToBase32(bytes: Bytes) returns (out: string)
    ensures out == Encode(bytes)
  {
    hide JsAnd, JsShl, JsOr, Low, ToBits;
    out := "";
    var bits, buffer, i := 0, 0, 0;
    ghost var syms: seq<nat> := [];
    while i < |bytes|
      invariant 0 <= i <= |bytes| && bits < 5
      invariant (forall j :: 0 <= j < |syms| ==> syms[j] < 32) && out == Letters(syms)
      invariant Pack(syms, 5) + ToBits(Low(buffer, bits), bits) == Pack(bytes[..i], 8)
    {
      hide Pack;
      assert Pow2(8) == 256 by { Pow2Small(); }
      var v: nat := bytes[i];
      PushByte(buffer, bits, v, 8);
      PackSnoc(bytes[..i], v, 8);
      assert bytes[..i + 1] == bytes[..i] + [v];
      Regrouped(Pack(syms, 5), ToBits(Low(buffer, bits), bits), ToBits(v, 8));
      buffer := JsOr(JsShl(buffer, 8), v);
      bits, out, syms := EmitGroups(buffer, bits + 8, out, syms);
      i := i + 1;
    }
    assert bytes[..i] == bytes;
    if bits > 0 {
      LastGroup(buffer, bits);
      var v := JsAnd(JsShl(buffer, 5 - bits), 31);
      PackSnoc(syms, v, 5);
      LettersSnoc(syms, v);
      Regrouped(Pack(syms, 5), ToBits(Low(buffer, bits), bits), ZeroBits(5 - bits));
      out := out + [CharAt(v)];
      SymbolsUnique(bytes, syms + [v], 5 - bits);
    } else {
      assert Pack(syms, 5) + [] == Pack(bytes, 8) + ZeroBits(0);
      SymbolsUnique(bytes, syms, 0);
    }
  }

  lemma Regrouped(a: seq<Bit>, b: seq<Bit>, c: seq<Bit>)
    ensures a + (b + c) == a + b + c
  {
  }

  // ---- the strict decoder

  datatype Base32Error = NonCanonicalLength | InvalidCharacter | NonCanonicalTrailingBits

  predicate Valid(s: string) {
    forall i :: 0 <= i < |s| ==> IndexOf(s[i]) >= 0
  }

  function Values(s: string): (v: seq<nat>)
    requires Valid(s)
    ensures |v| == |s|
    ensures forall i :: 0 <= i < |v| ==> v[i] < 32 && v[i] == IndexOf(s[i])
  {
    seq(|s|, i requires 0 <= i < |s| => IndexOf(s[i]))
  }

  function ByteLength(n: nat): nat {
    n * 5 / 8
  }

  /** Lengths that whole bytes can produce. */
  predicate CanonicalLength(n: nat) {
    n == (ByteLength(n) * 8 + 4) / 5
  }

  function Decode(s: string): Result<Bytes, Base32Error> {
    var n := ByteLength(|s|);
    if !CanonicalLength(|s|) then Err(NonCanonicalLength)
    else if !Valid(s) then Err(InvalidCharacter)
    else
      var bits := Pack(Values(s), 5);
      PackLength(Values(s), 5);
      if bits[8 * n..] != ZeroBits(|bits| - 8 * n) then Err(NonCanonicalTrailingBits)
      else Ok(Octets(bits[..8 * n], n))
  }

  /** `(buffer & ((1 << bits) - 1)) !== 0` looks at exactly the live bits. */
  lemma TrailingMask(buffer: int, bits: nat)
    requires bits < 31
    ensures JsAnd(buffer, JsShl(1, bits) - 1) == Low(buffer, bits)
  {
    assert Pow2(bits) < 0x8000_0000 by {
      Pow2Mono(bits, 30);
      Pow2Word();
      Pow2Add(2, 30);
    }
    ShlIs(1, bits, Pow2(bits));
    MaskWord(buffer, bits);
  }

  method Base32ToBytes(text: string) returns (r: Result<Bytes, Base32Error>)
    ensures r == Decode(text)
  {
    hide JsAnd, JsShl, JsShr, JsOr, Low, ToBits;
    var byteLength := ByteLength(|text|);
    if !CanonicalLength(|text|) {
      return Err(NonCanonicalLength);
    }
    var out: Bytes := [];
    var bits, buffer, i := 0, 0, 0;
    while i < |text|
      invariant 0 <= i <= |text| && bits < 8
      invariant Valid(text[..i])
      invariant Pack(out, 8) + ToBits(Low(buffer, bits), bits) == Pack(Values(text[..i]), 5)
    {
      hide Pack;
      var idx := IndexOf(text[i]);
      if idx < 0 {
        return Err(InvalidCharacter);
      }
      assert Pow2(5) == 32 && Pow2(8) == 256 by { Pow2Small(); }
      PushByte(buffer, bits, idx, 5);
      assert text[..i + 1] == text[..i] + [text[i]];
      assert Values(text[..i + 1]) == Values(text[..i]) + [idx];
      PackSnoc(Values(text[..i]), idx, 5);
      Regrouped(Pack(out, 8), ToBits(Low(buffer, bits), bits), ToBits(idx, 5));
      buffer := JsOr(JsShl(buffer, 5), idx);
      bits := bits + 5;
      if bits >= 8 {
        TakeGroup(buffer, bits, 8, 0xff);
        var v: byte := JsAnd(JsShr(buffer, bits - 8), 0xff);
        PackSnoc(out, v, 8);
        Regrouped(Pack(out, 8), ToBits(v, 8), ToBits(Low(buffer, bits - 8), bits - 8));
        out := out + [v];
        bits := bits - 8;
      }
      i := i + 1;
    }
    assert text[..i] == text;
    LeftoverBits(text, out, buffer, bits);
    TrailingMask(buffer, bits);
    if bits > 0 && JsAnd(buffer, JsShl(1, bits) - 1) != 0 {
      return Err(NonCanonicalTrailingBits);
    }
    return Ok(out);
  }

  /** What the loop leaves behind, as the specification sees it. */
  lemma LeftoverBits(text: string, out: Bytes, buffer: int, bits: nat)
    requires CanonicalLength(|text|) && Valid(text) && bits < 8
    requires Pack(out, 8) + ToBits(Low(buffer, bits), bits) == Pack(Values(text), 5)
    ensures bits == 0 ==> Low(buffer, bits) == 0
    ensures Decode(text) == if Low(buffer, bits) == 0 then Ok(out) else Err(NonCanonicalTrailingBits)
  {
    hide ToBits, Pack, Unpack;
    var all, low, n := Pack(Values(text), 5), Low(buffer, bits), ByteLength(|text|);
    PackLength(out, 8);
    PackLength(Values(text), 5);
    assert 8 * |out| + bits == 5 * |text|;
    ModUnique(5 * |text|, 8, |out|, bits);
    assert n == |out|;
    assert all[..8 * n] == Pack(out, 8) && all[8 * n..] == ToBits(low, bits);
    ZeroValue(low, bits);
    assert bits == 0 ==> Pow2(bits) == 1;
    Pow2Small();
    UnpackPack(out, 8);
  }

  // ---- exactness

  lemma {:induction false} LettersValues(s: string)
    requires Valid(s)
    ensures Letters(Values(s)) == s
  {
  }

  lemma EncodeValid(b: Bytes)
    ensures Valid(Encode(b)) && Values(Encode(b)) == Symbols(b)
  {
    var syms := Symbols(b);
    assert forall i :: 0 <= i < |syms| ==> IndexOf(CharAt(syms[i])) == syms[i];
  }

  /** The strict decoder accepts exactly the encoder's outputs, and inverts it. */
  lemma DecodeIffEncode(s: string, b: Bytes)
    ensures Decode(s) == Ok(b) <==> s == Encode(b)
  {
    if s == Encode(b) {
      EncodeAccepted(b);
    }
    if Decode(s) == Ok(b) {
      var n := ByteLength(|s|);
      var bits := Pack(Values(s), 5);
      PackLength(Values(s), 5);
      assert bits == bits[..8 * n] + bits[8 * n..];
      SymbolsUnique(b, Values(s), |bits| - 8 * n);
      LettersValues(s);
    }
  }

  lemma EncodeAccepted(b: Bytes)
    ensures Decode(Encode(b)) == Ok(b)
  {
    hide Pack, Unpack;
    var s := Encode(b);
    EncodeValid(b);
    PackLength(b, 8);
    PackLength(Symbols(b), 5);
    FillExact(|b|);
    ModUnique(5 * |s|, 8, |b|, Fill(|b|));
    assert ByteLength(|s|) == |b|;
    ModUnique(8 * |b| + 4, 5, |s|, 4 - Fill(|b|));
    var bits := Pack(Values(s), 5);
    assert bits[..8 * |b|] == Pack(b, 8) && bits[8 * |b|..] == ZeroBits(Fill(|b|));
    Pow2Small();
    UnpackPack(b, 8);
  }

  const ALPHABET := "abcdefghijklmnopqrstuvwxyz234567"

  lemma AlphabetIs(i: nat)
    requires i < 32
    ensures |ALPHABET| == 32 && CharAt(i) == ALPHABET[i]
  {
  }
}
