/** SHA-256 as FIPS 180-4 defines it, and the JavaScript implementation of `base/util/Hash.js`
    on signed 32-bit operators. */
module Sha256 {
  import opened Basics
  import opened JsInt

  type Word = x: int | 0 <= x < WORD

  // ---- FIPS 180-4, section 4.1.2

  function ShrWord(x: Word, n: nat): (r: Word)
    requires n <= 32
  {
    HalvedIs(x, n);
    Halved(x, n)
  }

  function Rotr(x: Word, n: nat): (r: Word)
    requires n <= 32
  {
    Bit(Or, ShrWord(x, n), Doubled(x, 32 - n) % WORD)
  }

  function Bit(op: Op, x: Word, y: Word): (r: Word) {
    assert BitOp(op, x, y) < WORD by {
      Pow2Word();
      BitOpBound(op, x, y, 32);
    }
    BitOp(op, x, y)
  }

  function Complement(x: Word): Word { WORD - 1 - x }

  function Ch(x: Word, y: Word, z: Word): Word { Bit(Xor, Bit(And, x, y), Bit(And, Complement(x), z)) }

  function Maj(x: Word, y: Word, z: Word): Word {
    Bit(Xor, Bit(Xor, Bit(And, x, y), Bit(And, x, z)), Bit(And, y, z))
  }

  function BigSigma0(x: Word): Word { Bit(Xor, Bit(Xor, Rotr(x, 2), Rotr(x, 13)), Rotr(x, 22)) }
  function BigSigma1(x: Word): Word { Bit(Xor, Bit(Xor, Rotr(x, 6), Rotr(x, 11)), Rotr(x, 25)) }
  function SmallSigma0(x: Word): Word { Bit(Xor, Bit(Xor, Rotr(x, 7), Rotr(x, 18)), ShrWord(x, 3)) }
  function SmallSigma1(x: Word): Word { Bit(Xor, Bit(Xor, Rotr(x, 17), Rotr(x, 19)), ShrWord(x, 10)) }

  // ---- the operators of the implementation

  /** `rotr(value, bits)` of the source: a signed result. */
  function JsRotr(value: int, bits: nat): int
    requires 0 < bits < 32
  {
    JsOr(JsShr(value, bits), JsShl(value, 32 - bits))
  }

  // s0, s1 of the schedule; S0, S1, ch and maj of the rounds: signed numbers in the source
  function JsSmall0(x: Word): int { JsXor(JsXor(JsRotr(x, 7), JsRotr(x, 18)), JsShr(x, 3)) }
  function JsSmall1(x: Word): int { JsXor(JsXor(JsRotr(x, 17), JsRotr(x, 19)), JsShr(x, 10)) }
  function JsBig0(x: Word): int { JsXor(JsXor(JsRotr(x, 2), JsRotr(x, 13)), JsRotr(x, 22)) }
  function JsBig1(x: Word): int { JsXor(JsXor(JsRotr(x, 6), JsRotr(x, 11)), JsRotr(x, 25)) }
  function JsCh(e: Word, f: Word, g: Word): int { JsXor(JsAnd(e, f), JsAnd(JsNot(e), g)) }
  function JsMaj(a: Word, b: Word, c: Word): int { JsXor(JsXor(JsAnd(a, b), JsAnd(a, c)), JsAnd(b, c)) }

  /** Reading a signed result as a word commutes with every bitwise operator. */
  lemma JsBit(op: Op, a: int, b: int)
    ensures ToUint32(ToInt32(BitOp(op, ToUint32(a), ToUint32(b)))) == Bit(op, ToUint32(a), ToUint32(b))
  {
    var r := Bit(op, ToUint32(a), ToUint32(b));
    WrapWord(r);
  }

  lemma JsNotIs(a: int)
    ensures ToUint32(JsNot(a)) == Complement(ToUint32(a))
  {
    var i := ToInt32(a);
    var u := ToUint32(a);
    assert i == u || i == u - WORD;
    ModUnique(-i - 1, WORD, if i == u then -1 else 0, WORD - 1 - u);
  }

  lemma JsRotrIs(x: Word, n: nat)
    requires 0 < n < 32
    ensures ToUint32(JsRotr(x, n)) == Rotr(x, n)
  {
    HalvedIs(x, n);
    var lo, hi := JsShr(x, n), JsShl(x, 32 - n);
    assert ToUint32(x) == x;
    assert ToUint32(lo) == ShrWord(x, n);
    assert ToUint32(hi) == Doubled(x, 32 - n) % WORD;
    JsBit(Or, lo, hi);
  }

  /** The two schedule functions and the four round functions, signed, agree with FIPS. */
  lemma SmallSigmas(x: Word)
    ensures ToUint32(JsSmall0(x)) == SmallSigma0(x)
    ensures ToUint32(JsSmall1(x)) == SmallSigma1(x)
  {
    hide BitOp, Halved, Doubled, ToInt32;
    ThreeXor(x, 7, 18, JsShr(x, 3));
    ThreeXor(x, 17, 19, JsShr(x, 10));
    assert ToUint32(x) == x;
    ShiftWord(x, 3);
    ShiftWord(x, 10);
  }

  lemma ShiftWord(x: Word, n: nat)
    requires n < 32
    ensures ToUint32(JsShr(x, n)) == ShrWord(x, n)
  {
    HalvedIs(x, n);
    assert ToUint32(x) == x;
  }

  lemma BigSigmas(x: Word)
    ensures ToUint32(JsBig0(x)) == BigSigma0(x)
    ensures ToUint32(JsBig1(x)) == BigSigma1(x)
  {
    ThreeXor(x, 2, 13, JsRotr(x, 22));
    ThreeXor(x, 6, 11, JsRotr(x, 25));
    JsRotrIs(x, 22);
    JsRotrIs(x, 25);
  }

  lemma ThreeXor(x: Word, m: nat, n: nat, last: int)
    requires 0 < m < 32 && 0 < n < 32
    ensures ToUint32(JsXor(JsXor(JsRotr(x, m), JsRotr(x, n)), last)) ==
      Bit(Xor, Bit(Xor, Rotr(x, m), Rotr(x, n)), ToUint32(last))
  {
    JsRotrIs(x, m);
    JsRotrIs(x, n);
    var inner := JsXor(JsRotr(x, m), JsRotr(x, n));
    JsBit(Xor, JsRotr(x, m), JsRotr(x, n));
    JsBit(Xor, inner, last);
  }

  lemma Choice(e: Word, f: Word, g: Word)
    ensures ToUint32(JsCh(e, f, g)) == Ch(e, f, g)
  {
    assert ToUint32(e) == e && ToUint32(f) == f && ToUint32(g) == g;
    JsNotIs(e);
    JsBit(And, e, f);
    JsBit(And, JsNot(e), g);
    JsBit(Xor, JsAnd(e, f), JsAnd(JsNot(e), g));
  }

  lemma Majority(a: Word, b: Word, c: Word)
    ensures ToUint32(JsMaj(a, b, c)) == Maj(a, b, c)
  {
    assert ToUint32(a) == a && ToUint32(b) == b && ToUint32(c) == c;
    JsBit(And, a, b);
    JsBit(And, a, c);
    JsBit(And, b, c);
    var inner := JsXor(JsAnd(a, b), JsAnd(a, c));
    JsBit(Xor, JsAnd(a, b), JsAnd(a, c));
    JsBit(Xor, inner, JsAnd(b, c));
  }

  // ---- FIPS 180-4, sections 4.2.2 and 5.3.3

  const K: seq<Word> :=
    ([0x428a2f98, 0x71374491, 0xb5c0fbcf, 0xe9b5dba5, 0x3956c25b, 0x59f111f1, 0x923f82a4, 0xab1c5ed5,
      0xd807aa98, 0x12835b01, 0x243185be, 0x550c7dc3, 0x72be5d74, 0x80deb1fe, 0x9bdc06a7, 0xc19bf174] +
     [0xe49b69c1, 0xefbe4786, 0x0fc19dc6, 0x240ca1cc, 0x2de92c6f, 0x4a7484aa, 0x5cb0a9dc, 0x76f988da,
      0x983e5152, 0xa831c66d, 0xb00327c8, 0xbf597fc7, 0xc6e00bf3, 0xd5a79147, 0x06ca6351, 0x14292967]) +
    ([0x27b70a85, 0x2e1b2138, 0x4d2c6dfc, 0x53380d13, 0x650a7354, 0x766a0abb, 0x81c2c92e, 0x92722c85,
      0xa2bfe8a1, 0xa81a664b, 0xc24b8b70, 0xc76c51a3, 0xd192e819, 0xd6990624, 0xf40e3585, 0x106aa070] +
     [0x19a4c116, 0x1e376c08, 0x2748774c, 0x34b0bcb5, 0x391c0cb3, 0x4ed8aa4a, 0x5b9cca4f, 0x682e6ff3,
      0x748f82ee, 0x78a5636f, 0x84c87814, 0x8cc70208, 0x90befffa, 0xa4506ceb, 0xbef9a3f7, 0xc67178f2])

  const H0: Vars := Vars(
    0x6a09e667, 0xbb67ae85, 0x3c6ef372, 0xa54ff53a, 0x510e527f, 0x9b05688c, 0x1f83d9ab, 0x5be0cd19)

  /** The eight working variables, or the eight words of an intermediate hash value. */
  datatype Vars = Vars(a: Word, b: Word, c: Word, d: Word, e: Word, f: Word, g: Word, h: Word)

  // ---- FIPS 180-4, section 5.1.1: padding, in whole bytes

  /** The least number of zero bytes that makes the padded length a multiple of 64. */
  function ZeroBytes(len: nat): (k: nat)
    ensures k < 64
  {
    63 - (len + 8) % 64
  }

  lemma ZeroBytesLeast(len: nat, k: nat)
    requires (len + 1 + k + 8) % 64 == 0
    ensures (len + 1 + ZeroBytes(len) + 8) % 64 == 0 && ZeroBytes(len) <= k
  {
    var q, r := (len + 8) / 64, (len + 8) % 64;
    var n := (len + 1 + k + 8) / 64;
    assert 64 * n == 64 * q + r + 1 + k;
    ModUnique(len + 1 + ZeroBytes(len) + 8, 64, q + 1, 0);
  }

  /** Four bytes of a word, most significant first. */
  function BigEndian(v: Word): (b: Bytes)
    ensures |b| == 4
  {
    [v / 0x100_0000, v / 0x1_0000 % 0x100, v / 0x100 % 0x100, v % 0x100]
  }

  function Length64(bits: nat): (b: Bytes)
    ensures |b| == 8
  {
    BigEndian(bits / WORD % WORD) + BigEndian(bits % WORD)
  }

  function Padded(m: Bytes): (p: Bytes)
    ensures |p| == |m| + 1 + ZeroBytes(|m|) + 8
  {
    m + [0x80] + Zeros(ZeroBytes(|m|)) + Length64(8 * |m|)
  }

  // ---- FIPS 180-4, section 6.2.2

  function WordAt(p: Bytes, i: nat): Word
    requires i + 4 <= |p|
  {
    var b0: int, b1: int, b2: int, b3: int := p[i], p[i + 1], p[i + 2], p[i + 3];
    b0 * 0x100_0000 + b1 * 0x1_0000 + b2 * 0x100 + b3
  }

  /** The first n words of the message schedule of the block at an offset. */
  function Schedule(p: Bytes, offset: nat, n: nat): (w: seq<Word>)
    requires offset + 64 <= |p|
    ensures |w| == n
  {
    if n == 0 then [] else
      var w := Schedule(p, offset, n - 1);
      var t := n - 1;
      w + [if t < 16 then WordAt(p, offset + 4 * t)
           else (SmallSigma1(w[t - 2]) + w[t - 7] + SmallSigma0(w[t - 15]) + w[t - 16]) % WORD]
  }

  function Round(v: Vars, k: Word, w: Word): Vars {
    var t1 := (v.h + BigSigma1(v.e) + Ch(v.e, v.f, v.g) + k + w) % WORD;
    var t2 := (BigSigma0(v.a) + Maj(v.a, v.b, v.c)) % WORD;
    Vars((t1 + t2) % WORD, v.a, v.b, v.c, (v.d + t1) % WORD, v.e, v.f, v.g)
  }

  function Rounds(v: Vars, w: seq<Word>, n: nat): Vars
    requires n <= 64 && |w| == 64
  {
    if n == 0 then v else Round(Rounds(v, w, n - 1), K[n - 1], w[n - 1])
  }

  function AddVars(x: Vars, y: Vars): Vars {
    Vars((x.a + y.a) % WORD, (x.b + y.b) % WORD, (x.c + y.c) % WORD, (x.d + y.d) % WORD,
         (x.e + y.e) % WORD, (x.f + y.f) % WORD, (x.g + y.g) % WORD, (x.h + y.h) % WORD)
  }

  /** The hash value after the blocks before position `end`. */
  function HashUpTo(p: Bytes, blocks: nat): Vars
    requires 64 * blocks <= |p|
  {
    if blocks == 0 then H0 else
      var h := HashUpTo(p, blocks - 1);
      AddVars(h, Rounds(h, Schedule(p, 64 * (blocks - 1), 64), 64))
  }

  function Output(v: Vars): Bytes {
    BigEndian(v.a) + BigEndian(v.b) + BigEndian(v.c) + BigEndian(v.d)
    + BigEndian(v.e) + BigEndian(v.f) + BigEndian(v.g) + BigEndian(v.h)
  }

  /** SHA-256 of a message. */
  function Digest(m: Bytes): Bytes {
    var p := Padded(m);
    Output(HashUpTo(p, |p| / 64))
  }

  // ---- sums of signed and unsigned numbers, modulo 2^32

  lemma SumMod(x: int, s: int, u: nat)
    requires ToUint32(s) == u
    ensures ToUint32(x + s) == ToUint32(x + u)
  {
    var q := s / WORD;
    assert s == WORD * q + u;
    var y := x + u;
    ModUnique(x + s, WORD, y / WORD + q, y % WORD);
  }

  // ---- the padded buffer

  /** `n & ~63` clears the low six bits of the wrapped number. */
  lemma MaskSixtyFour(n: int)
    ensures JsAnd(n, JsNot(63)) == ToInt32(ToUint32(n) - ToUint32(n) % 64)
  {
    hide BitOp, JsNot;
    var u: nat := ToUint32(n);
    assert ToUint32(JsNot(63)) == 64 * 0x3ff_ffff by { NotSixtyThree(); }
    ClearSix(u);
  }

  lemma NotSixtyThree()
    ensures ToUint32(JsNot(63)) == 64 * 0x3ff_ffff
  {
    JsNotIs(63);
  }

  /** AND with 26 ones and six zeros. */
  lemma ClearSix(u: nat)
    requires u < WORD
    ensures BitOp(And, u, 64 * 0x3ff_ffff) == u - u % 64
  {
    hide BitOp, Doubled, Halved, Pow2;
    var m := 0x3ff_ffff;
    AndClear(u, m, 6);
    Pow2Small();
    DoubledIs(m, 6);
    HalvedIs(u, 6);
    DoubledIs(BitOp(And, Halved(u, 6), m), 6);
    LowTwentySix(u / 64);
  }

  lemma LowTwentySix(h: nat)
    requires h < 0x400_0000
    ensures BitOp(And, h, 0x3ff_ffff) == h
  {
    hide BitOp;
    Pow2Word();
    AndMask(h, 26);
  }

  lemma {:induction false} AndClear(u: nat, m: nat, k: nat)
    ensures BitOp(And, u, Doubled(m, k)) == Doubled(BitOp(And, Halved(u, k), m), k)
    decreases k
  {
    if k > 0 {
      AndEven(u, Doubled(m, k - 1));
      AndClear(u / 2, m, k - 1);
    }
  }

  /** The buffer length `len + padLen` of the source: the FIPS length below the 2^31 boundary,
      and too small to hold the message (or negative) above it. */
  lemma TotalLength(len: nat)
    ensures
      var total := JsAnd(len + 9 + 63, JsNot(63));
      if len + 72 < 0x8000_0000 then total == len + 1 + ZeroBytes(len) + 8 else total < len
  {
    hide JsAnd, JsNot, BitOp;
    var n := len + 72;
    MaskSixtyFour(n);
    var u := ToUint32(n);
    var t := u - u % 64;
    if n < 0x8000_0000 {
      assert u == n;
      Narrow(t);
      var q, r := (len + 8) / 64, (len + 8) % 64;
      ModUnique(n, 64, q + 1, r);
    } else if n < WORD {
      assert u == n && t >= 0x8000_0000;
    } else {
      assert u <= n - WORD;
      assert ToInt32(t) <= t;
    }
  }

  method SetUint32(a: array<byte>, i: nat, v: int)
    requires i + 4 <= a.Length
    modifies a
    ensures a[..] == old(a[..i]) + BigEndian(ToUint32(v)) + old(a[i + 4..])
  {
    var b := BigEndian(ToUint32(v));
    a[i], a[i + 1], a[i + 2], a[i + 3] := b[0], b[1], b[2], b[3];
  }

  datatype RangeError = RangeError

  method PadBuffer(bytes: Bytes) returns (r: Result<array<byte>, RangeError>)
    ensures r.Ok? <==> |bytes| + 72 < 0x8000_0000
    ensures r.Ok? ==> fresh(r.value) && r.value[..] == Padded(bytes)
  {
    var len := |bytes|;
    var bitLen := len * 8;
    var padLen := JsAnd(len + 9 + 63, JsNot(63)) - len;
    TotalLength(len);
    if len + padLen < len {
      // A negative length, or a buffer that `set` cannot copy the message into.
      return Err(RangeError);
    }
    var padded := NewBuffer(bytes, len + padLen);
    ghost var body := bytes + [0x80] + Zeros(ZeroBytes(len));
    SetTail(padded, bitLen, body);
    return Ok(padded);
  }

  /** A zeroed buffer holding the message and the 0x80 byte. */
  method NewBuffer(bytes: Bytes, total: nat) returns (padded: array<byte>)
    requires |bytes| + 9 <= total
    ensures fresh(padded) && padded[..] == bytes + [0x80] + Zeros(total - |bytes| - 1)
  {
    padded := new byte[total](_ => 0);
    forall i | 0 <= i < |bytes| { padded[i] := bytes[i]; }
    padded[|bytes|] := 0x80;
  }

  /** The two `setUint32` calls that write the bit length at the end. */
  method SetTail(padded: array<byte>, bitLen: nat, ghost body: Bytes)
    requires padded.Length == |body| + 8 && padded[..|body|] == body
    modifies padded
    ensures padded[..] == body + Length64(bitLen)
  {
    var total := padded.Length;
    SetUint32(padded, total - 4, bitLen);
    ghost var low := BigEndian(ToUint32(bitLen));
    assert padded[..|body|] == body && padded[total - 4..] == low;
    SetUint32(padded, total - 8, bitLen / WORD);
  }

  // ---- the compression of one block

  function GetUint32(a: array<byte>, i: nat): Word
    reads a
    requires i + 4 <= a.Length
  {
    WordAt(a[..], i)
  }

  /** `(w[i-16] + s0 + w[i-7] + s1) >>> 0` with the source's signed s0 and s1. */
  function NextWord(w16: Word, w15: Word, w7: Word, w2: Word): Word {
    ToUint32(w16 + JsSmall0(w15) + w7 + JsSmall1(w2))
  }

  lemma ScheduleWord(w16: Word, w15: Word, w7: Word, w2: Word)
    ensures NextWord(w16, w15, w7, w2) == (SmallSigma1(w2) + w7 + SmallSigma0(w15) + w16) % WORD
  {
    hide JsSmall0, JsSmall1, SmallSigma0, SmallSigma1;
    var s0, s1, u, v := JsSmall0(w15), JsSmall1(w2), SmallSigma0(w15), SmallSigma1(w2);
    assert ToUint32(s0) == u by { SmallSigmas(w15); }
    assert ToUint32(s1) == v by { SmallSigmas(w2); }
    FourSum(w16, s0, w7, s1, u, v);
  }

  /** The expansion step on a whole prefix of the schedule. */
  lemma ScheduleStep(p: Bytes, offset: nat, w: seq<Word>, i: nat)
    requires offset + 64 <= |p| && 16 <= i == |w| && w == Schedule(p, offset, i)
    ensures w + [NextWord(w[i - 16], w[i - 15], w[i - 7], w[i - 2])] == Schedule(p, offset, i + 1)
  {
    ScheduleWord(w[i - 16], w[i - 15], w[i - 7], w[i - 2]);
  }

  lemma FourSum(a: int, s: int, b: int, t: int, u: nat, v: nat)
    requires ToUint32(s) == u && ToUint32(t) == v
    ensures ToUint32(a + s + b + t) == (v + b + u + a) % WORD
  {
    SumMod(a + s + b, t, v);
    SumMod(a + b + v, s, u);
    assert a + s + b + v == a + b + v + s;
  }

  method FillSchedule(padded: array<byte>, offset: nat, w: array<Word>)
    requires offset + 64 <= padded.Length && w.Length == 64
    modifies w
    ensures w[..] == Schedule(padded[..], offset, 64)
  {
    ghost var p := padded[..];
    var i := 0;
    while i < 16
      invariant 0 <= i <= 16
      invariant w[..i] == Schedule(p, offset, i)
    {
      w[i] := GetUint32(padded, offset + i * 4);
      i := i + 1;
    }
    while i < 64
      invariant 16 <= i <= 64
      invariant w[..i] == Schedule(p, offset, i)
    {
      ScheduleStep(p, offset, w[..i], i);
      w[i] := NextWord(w[i - 16], w[i - 15], w[i - 7], w[i - 2]);
      assert w[..i + 1] == w[..i] + [w[i]];
      i := i + 1;
    }
    assert w[..] == w[..64];
  }

  /** `(h + S1 + ch + K[i] + w[i]) >>> 0` */
  function Temp1(e: Word, f: Word, g: Word, h: Word, k: Word, w: Word): Word {
    ToUint32(h + JsBig1(e) + JsCh(e, f, g) + k + w)
  }

  /** `(S0 + maj) >>> 0` */
  function Temp2(a: Word, b: Word, c: Word): Word {
    ToUint32(JsBig0(a) + JsMaj(a, b, c))
  }

  lemma Temp1Is(e: Word, f: Word, g: Word, h: Word, k: Word, w: Word)
    ensures Temp1(e, f, g, h, k, w) == (h + BigSigma1(e) + Ch(e, f, g) + k + w) % WORD
  {
    hide JsBig1, JsCh, BigSigma1, Ch;
    var s, t, u, v := JsBig1(e), JsCh(e, f, g), BigSigma1(e), Ch(e, f, g);
    assert ToUint32(s) == u by { BigSigmas(e); }
    assert ToUint32(t) == v by { Choice(e, f, g); }
    FiveSum(h, s, t, k, w, u, v);
  }

  lemma FiveSum(h: int, s: int, t: int, k: int, w: int, u: nat, v: nat)
    requires ToUint32(s) == u && ToUint32(t) == v
    ensures ToUint32(h + s + t + k + w) == (h + u + v + k + w) % WORD
  {
    SumMod(h + t + k + w, s, u);
    SumMod(h + u + k + w, t, v);
    assert h + s + t + k + w == (h + t + k + w) + s;
    assert (h + t + k + w) + u == (h + u + k + w) + t;
  }

  lemma Temp2Is(a: Word, b: Word, c: Word)
    ensures Temp2(a, b, c) == (BigSigma0(a) + Maj(a, b, c)) % WORD
  {
    hide JsBig0, JsMaj, BigSigma0, Maj;
    var s, t, u, v := JsBig0(a), JsMaj(a, b, c), BigSigma0(a), Maj(a, b, c);
    assert ToUint32(s) == u by { BigSigmas(a); }
    assert ToUint32(t) == v by { Majority(a, b, c); }
    SumMod(s, t, v);
    SumMod(v, s, u);
  }

  /** One turn of the round loop. */
  lemma RoundIs(v: Vars, k: Word, w: Word)
    ensures
      var t1, t2 := Temp1(v.e, v.f, v.g, v.h, k, w), Temp2(v.a, v.b, v.c);
      Vars(ToUint32(t1 + t2), v.a, v.b, v.c, ToUint32(v.d + t1), v.e, v.f, v.g) == Round(v, k, w)
  {
    hide Temp1, Temp2, BigSigma0, BigSigma1, Ch, Maj;
    Temp1Is(v.e, v.f, v.g, v.h, k, w);
    Temp2Is(v.a, v.b, v.c);
  }

  /** The 64 rounds on eight local variables. */
  method RunRounds(start: Vars, w: array<Word>) returns (v: Vars)
    requires w.Length == 64
    ensures v == Rounds(start, w[..], 64)
  {
    hide Temp1, Temp2, Round;
    var a: Word, b: Word, c: Word, d: Word := start.a, start.b, start.c, start.d;
    var e: Word, f: Word, g: Word, h: Word := start.e, start.f, start.g, start.h;
    var i := 0;
    while i < 64
      invariant 0 <= i <= 64
      invariant Vars(a, b, c, d, e, f, g, h) == Rounds(start, w[..], i)
    {
      RoundIs(Vars(a, b, c, d, e, f, g, h), K[i], w[i]);
      var temp1: int := Temp1(e, f, g, h, K[i], w[i]);
      var temp2: int := Temp2(a, b, c);
      h := g;
      g := f;
      f := e;
      e := ToUint32(d + temp1);
      d := c;
      c := b;
      b := a;
      a := ToUint32(temp1 + temp2);
      i := i + 1;
    }
    v := Vars(a, b, c, d, e, f, g, h);
  }

  lemma PaddedBlocks(m: Bytes) returns (n: nat)
    ensures |Padded(m)| == 64 * n
  {
    var q, r := (|m| + 8) / 64, (|m| + 8) % 64;
    n := q + 1;
  }

  /** One turn of the block loop. */
  method HashBlock(h: Vars, padded: array<byte>, offset: nat, w: array<Word>) returns (next: Vars)
    requires offset + 64 <= padded.Length && w.Length == 64
    modifies w
    ensures next == AddVars(h, Rounds(h, Schedule(padded[..], offset, 64), 64))
  {
    hide Rounds, Schedule;
    FillSchedule(padded, offset, w);
    var v := RunRounds(h, w);
    next := Vars(ToUint32(h.a + v.a), ToUint32(h.b + v.b), ToUint32(h.c + v.c), ToUint32(h.d + v.d),
                 ToUint32(h.e + v.e), ToUint32(h.f + v.f), ToUint32(h.g + v.g), ToUint32(h.h + v.h));
  }

  method HashBuffer(padded: array<byte>, ghost p: Bytes, ghost n: nat) returns (h: Vars)
    requires padded[..] == p && |p| == 64 * n
    ensures h == HashUpTo(p, n)
  {
    hide Rounds, Schedule, AddVars;
    h := H0;
    var w := new Word[64](_ => 0);
    var offset := 0;
    ghost var done := 0;
    while offset < padded.Length
      invariant offset == 64 * done && done <= n
      invariant padded[..] == p
      invariant h == HashUpTo(p, done)
      decreases padded.Length - offset
    {
      h := HashBlock(h, padded, offset, w);
      offset := offset + 64;
      done := done + 1;
    }
  }

  /** For every input short enough for the 32-bit length arithmetic, the implementation computes
      SHA-256; for every longer input it throws. */
  method Sha256Internal(bytes: Bytes) returns (r: Result<Bytes, RangeError>)
    ensures r == if |bytes| + 72 < 0x8000_0000 then Ok(Digest(bytes)) else Err(RangeError)
  {
    var buffer := PadBuffer(bytes);
    if buffer.Err? {
      return Err(RangeError);
    }
    ghost var n := PaddedBlocks(bytes);
    var h := HashBuffer(buffer.value, Padded(bytes), n);
    ModUnique(|Padded(bytes)|, 64, n, 0);
    return Ok(Output(h));
  }

  // ---- where the constants come from

  /** The first 64 primes. */
  const PRIMES: seq<nat> :=
    ([2, 3, 5, 7, 11, 13, 17, 19, 23, 29, 31, 37, 41, 43, 47, 53] +
     [59, 61, 67, 71, 73, 79, 83, 89, 97, 101, 103, 107, 109, 113, 127, 131]) +
    ([137, 139, 149, 151, 157, 163, 167, 173, 179, 181, 191, 193, 197, 199, 211, 223] +
     [227, 229, 233, 239, 241, 251, 257, 263, 269, 271, 277, 281, 283, 293, 307, 311])

  /** n is the cube root of p, or its square root, rounded down to a multiple of 2^-32 and scaled to an
      integer. */
  predicate IsCubeRoot(p: nat, n: nat) {
    n * n * n <= p * 0x1_0000_0000_0000_0000_0000_0000 < (n + 1) * (n + 1) * (n + 1)
  }

  predicate IsSquareRoot(p: nat, n: nat) {
    n * n <= p * 0x1_0000_0000_0000_0000 < (n + 1) * (n + 1)
  }

  /** The first 32 bits of the fractional part of the cube root. */
  ghost predicate CubeFraction(p: nat, k: Word) {
    exists n: nat :: IsCubeRoot(p, n) && n % WORD == k
  }

  ghost predicate SquareFraction(p: nat, k: Word) {
    exists n: nat :: IsSquareRoot(p, n) && n % WORD == k
  }

  lemma CubeFractionOf(p: nat, whole: nat, n: nat)
    requires IsCubeRoot(p, n) && whole * WORD <= n < (whole + 1) * WORD
    ensures CubeFraction(p, n - whole * WORD)
  {
    ModUnique(n, WORD, whole, n - whole * WORD);
  }

  lemma SquareFractionOf(p: nat, whole: nat, n: nat)
    requires IsSquareRoot(p, n) && whole * WORD <= n < (whole + 1) * WORD
    ensures SquareFraction(p, n - whole * WORD)
  {
    ModUnique(n, WORD, whole, n - whole * WORD);
  }

  lemma Cubes0()
    ensures forall i :: 0 <= i < 8 ==> CubeFraction(PRIMES[i], K[i])
  {
    hide CubeFraction;
    CubeFractionOf(2, 1, 0x1_428a_2f98);
    CubeFractionOf(3, 1, 0x1_7137_4491);
    CubeFractionOf(5, 1, 0x1_b5c0_fbcf);
    CubeFractionOf(7, 1, 0x1_e9b5_dba5);
    CubeFractionOf(11, 2, 0x2_3956_c25b);
    CubeFractionOf(13, 2, 0x2_59f1_11f1);
    CubeFractionOf(17, 2, 0x2_923f_82a4);
    CubeFractionOf(19, 2, 0x2_ab1c_5ed5);
  }

  lemma Cubes1()
    ensures forall i :: 8 <= i < 16 ==> CubeFraction(PRIMES[i], K[i])
  {
    hide CubeFraction;
    CubeFractionOf(23, 2, 0x2_d807_aa98);
    CubeFractionOf(29, 3, 0x3_1283_5b01);
    CubeFractionOf(31, 3, 0x3_2431_85be);
    CubeFractionOf(37, 3, 0x3_550c_7dc3);
    CubeFractionOf(41, 3, 0x3_72be_5d74);
    CubeFractionOf(43, 3, 0x3_80de_b1fe);
    CubeFractionOf(47, 3, 0x3_9bdc_06a7);
    CubeFractionOf(53, 3, 0x3_c19b_f174);
  }

  lemma Cubes2()
    ensures forall i :: 16 <= i < 24 ==> CubeFraction(PRIMES[i], K[i])
  {
    hide CubeFraction;
    CubeFractionOf(59, 3, 0x3_e49b_69c1);
    CubeFractionOf(61, 3, 0x3_efbe_4786);
    CubeFractionOf(67, 4, 0x4_0fc1_9dc6);
    CubeFractionOf(71, 4, 0x4_240c_a1cc);
    CubeFractionOf(73, 4, 0x4_2de9_2c6f);
    CubeFractionOf(79, 4, 0x4_4a74_84aa);
    CubeFractionOf(83, 4, 0x4_5cb0_a9dc);
    CubeFractionOf(89, 4, 0x4_76f9_88da);
  }

  lemma Cubes3()
    ensures forall i :: 24 <= i < 32 ==> CubeFraction(PRIMES[i], K[i])
  {
    hide CubeFraction;
    CubeFractionOf(97, 4, 0x4_983e_5152);
    CubeFractionOf(101, 4, 0x4_a831_c66d);
    CubeFractionOf(103, 4, 0x4_b003_27c8);
    CubeFractionOf(107, 4, 0x4_bf59_7fc7);
    CubeFractionOf(109, 4, 0x4_c6e0_0bf3);
    CubeFractionOf(113, 4, 0x4_d5a7_9147);
    CubeFractionOf(127, 5, 0x5_06ca_6351);
    CubeFractionOf(131, 5, 0x5_1429_2967);
  }

  lemma Cubes4()
    ensures forall i :: 32 <= i < 40 ==> CubeFraction(PRIMES[i], K[i])
  {
    hide CubeFraction;
    CubeFractionOf(137, 5, 0x5_27b7_0a85);
    CubeFractionOf(139, 5, 0x5_2e1b_2138);
    CubeFractionOf(149, 5, 0x5_4d2c_6dfc);
    CubeFractionOf(151, 5, 0x5_5338_0d13);
    CubeFractionOf(157, 5, 0x5_650a_7354);
    CubeFractionOf(163, 5, 0x5_766a_0abb);
    CubeFractionOf(167, 5, 0x5_81c2_c92e);
    CubeFractionOf(173, 5, 0x5_9272_2c85);
  }

  lemma Cubes5()
    ensures forall i :: 40 <= i < 48 ==> CubeFraction(PRIMES[i], K[i])
  {
    hide CubeFraction;
    CubeFractionOf(179, 5, 0x5_a2bf_e8a1);
    CubeFractionOf(181, 5, 0x5_a81a_664b);
    CubeFractionOf(191, 5, 0x5_c24b_8b70);
    CubeFractionOf(193, 5, 0x5_c76c_51a3);
    CubeFractionOf(197, 5, 0x5_d192_e819);
    CubeFractionOf(199, 5, 0x5_d699_0624);
    CubeFractionOf(211, 5, 0x5_f40e_3585);
    CubeFractionOf(223, 6, 0x6_106a_a070);
  }

  lemma Cubes6()
    ensures forall i :: 48 <= i < 56 ==> CubeFraction(PRIMES[i], K[i])
  {
    hide CubeFraction;
    CubeFractionOf(227, 6, 0x6_19a4_c116);
    CubeFractionOf(229, 6, 0x6_1e37_6c08);
    CubeFractionOf(233, 6, 0x6_2748_774c);
    CubeFractionOf(239, 6, 0x6_34b0_bcb5);
    CubeFractionOf(241, 6, 0x6_391c_0cb3);
    CubeFractionOf(251, 6, 0x6_4ed8_aa4a);
    CubeFractionOf(257, 6, 0x6_5b9c_ca4f);
    CubeFractionOf(263, 6, 0x6_682e_6ff3);
  }

  lemma Cubes7()
    ensures forall i :: 56 <= i < 64 ==> CubeFraction(PRIMES[i], K[i])
  {
    hide CubeFraction;
    CubeFractionOf(269, 6, 0x6_748f_82ee);
    CubeFractionOf(271, 6, 0x6_78a5_636f);
    CubeFractionOf(277, 6, 0x6_84c8_7814);
    CubeFractionOf(281, 6, 0x6_8cc7_0208);
    CubeFractionOf(283, 6, 0x6_90be_fffa);
    CubeFractionOf(293, 6, 0x6_a450_6ceb);
    CubeFractionOf(307, 6, 0x6_bef9_a3f7);
    CubeFractionOf(311, 6, 0x6_c671_78f2);
  }

  /** The round constants are the fractions of the cube roots of the first 64 primes, the initial hash
      value those of the square roots of the first eight. */
  lemma ConstantsAreRoots()
    ensures |PRIMES| == |K| == 64
    ensures forall i :: 0 <= i < 64 ==> CubeFraction(PRIMES[i], K[i])
    ensures
      && SquareFraction(2, H0.a) && SquareFraction(3, H0.b) && SquareFraction(5, H0.c) && SquareFraction(7, H0.d)
      && SquareFraction(11, H0.e) && SquareFraction(13, H0.f) && SquareFraction(17, H0.g) && SquareFraction(19, H0.h)
  {
    hide CubeFraction, SquareFraction;
    Cubes0();
    Cubes1();
    Cubes2();
    Cubes3();
    Cubes4();
    Cubes5();
    Cubes6();
    Cubes7();
    SquareFractionOf(2, 1, 0x1_6a09_e667);
    SquareFractionOf(3, 1, 0x1_bb67_ae85);
    SquareFractionOf(5, 2, 0x2_3c6e_f372);
    SquareFractionOf(7, 2, 0x2_a54f_f53a);
    SquareFractionOf(11, 3, 0x3_510e_527f);
    SquareFractionOf(13, 3, 0x3_9b05_688c);
    SquareFractionOf(17, 4, 0x4_1f83_d9ab);
    SquareFractionOf(19, 4, 0x4_5be0_cd19);
  }
}
