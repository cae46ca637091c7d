/** JavaScript's 32-bit integer operators, written out over unbounded integers.
    Every bitwise operator first wraps its operands to 32 bits and yields a SIGNED
    32-bit number; only `>>>` yields an unsigned one. */
module JsInt {

  const WORD: nat := 0x1_0000_0000

  function Pow2(n: nat): (p: nat)
    ensures p >= 1
  {
    if n == 0 then 1 else 2 * Pow2(n - 1)
  }

  /** ToUint32 of the ECMAScript specification. */
  function ToUint32(n: int): (u: nat)
    ensures u < WORD
  {
    n % WORD
  }

  /** ToInt32 of the ECMAScript specification. */
  function ToInt32(n: int): (i: int)
    ensures -0x8000_0000 <= i < 0x8000_0000
    ensures ToUint32(i) == ToUint32(n)
  {
    var u := n % WORD;
    if u >= 0x8000_0000 then u - WORD else u
  }

  datatype Op = And | Or | Xor

  function BitOf(op: Op, x: nat, y: nat): (b: nat)
    requires x < 2 && y < 2
    ensures b < 2
  {
    match op
    case And => if x == 1 && y == 1 then 1 else 0
    case Or => if x == 1 || y == 1 then 1 else 0
    case Xor => if x != y then 1 else 0
  }

  /** The bitwise operation on the binary expansions of two naturals. */
  function BitOp(op: Op, a: nat, b: nat): nat
    decreases a + b
  {
    if a == 0 && b == 0 then 0
    else 2 * BitOp(op, a / 2, b / 2) + BitOf(op, a % 2, b % 2)
  }

  function JsAnd(a: int, b: int): int { ToInt32(BitOp(And, ToUint32(a), ToUint32(b))) }
  function JsOr(a: int, b: int): int { ToInt32(BitOp(Or, ToUint32(a), ToUint32(b))) }
  function JsXor(a: int, b: int): int { ToInt32(BitOp(Xor, ToUint32(a), ToUint32(b))) }
  function JsNot(a: int): int { -ToInt32(a) - 1 }
  function JsShl(a: int, k: nat): int requires k < 32 { ToInt32(Doubled(ToUint32(a), k)) }
  function JsShr(a: int, k: nat): nat requires k < 32 { Halved(ToUint32(a), k) }

  function Doubled(u: nat, k: nat): nat
    decreases k, u
  {
    if k == 0 then u else 2 * Doubled(u, k - 1)
  }

  function Halved(u: nat, k: nat): nat
    decreases k, u
  {
    if k == 0 then u else Halved(u / 2, k - 1)
  }

  // ---- powers of two

  lemma {:induction false} Pow2Add(m: nat, n: nat)
    ensures Pow2(m + n) == Pow2(m) * Pow2(n)
  {
    if m > 0 {
      Pow2Add(m - 1, n);
      assert Pow2(m + n) == 2 * Pow2(m - 1 + n);
    }
  }

  lemma {:induction false} Pow2Mono(m: nat, n: nat)
    requires m <= n
    ensures Pow2(m) <= Pow2(n)
  {
    if m < n { Pow2Mono(m, n - 1); }
  }

  lemma Pow2Small()
    ensures Pow2(0) == 1 && Pow2(1) == 2 && Pow2(2) == 4 && Pow2(3) == 8 && Pow2(4) == 16
    ensures Pow2(5) == 32 && Pow2(6) == 64 && Pow2(7) == 128 && Pow2(8) == 256
  {
  }

  lemma Pow2Word()
    ensures Pow2(12) == 4096 && Pow2(16) == 65536 && Pow2(18) == 0x4_0000
    ensures Pow2(26) == 0x400_0000 && Pow2(32) == WORD
  {
    Pow2Small();
    Pow2Add(4, 8);
    Pow2Add(8, 8);
    Pow2Add(2, 16);
    Pow2Add(8, 18);
    Pow2Add(16, 16);
  }

  // ---- arithmetic facts behind the shifts

  /** Appending k low bits keeps track of the low bits below a boundary. */
  lemma ModAppend(x: nat, v: nat, q: nat, p: nat)
    requires q > 0 && p > 0 && v < p
    ensures q * p > 0 && (x * p + v) % (q * p) == (x % q) * p + v
  {
    var d, r := x / q, x % q;
    assert x == q * d + r;
    assert x * p + v == (q * p) * d + (r * p + v) by {
      assert (q * d + r) * p == q * d * p + r * p;
      assert q * d * p == (q * p) * d;
    }
    assert 0 <= r * p + v < q * p by {
      assert r + 1 <= q;
      assert (r + 1) * p <= q * p;
    }
    ModUnique(x * p + v, q * p, d, r * p + v);
  }

  lemma ModUnique(n: int, m: nat, d: int, r: int)
    requires m > 0 && n == m * d + r && 0 <= r < m
    ensures n % m == r && n / m == d
  {
    var e := n / m - d;
    assert n % m - r == -(m * e) by {
      assert n == m * (n / m) + n % m;
      assert m * (n / m) == m * d + m * e;
    }
    MulSign(m, e);
  }

  lemma MulGrows(p: nat, d: nat)
    requires p > 0
    ensures d <= p * d
  {
    assert p * d == (p - 1) * d + d;
  }

  lemma MulSign(m: nat, e: int)
    requires m > 0
    ensures e > 0 ==> m * e >= m
    ensures e < 0 ==> m * e <= 0 - m
  {
  }

  /** Taking the low bits of a number in two stages. */
  lemma ModMod(x: nat, q: nat, p: nat)
    requires q > 0 && p > 0
    ensures q * p > 0 && x % (q * p) % p == x % p
    ensures x % (q * p) / p == (x / p) % q
  {
    var n := q * p;
    assert n > 0;
    var hi, lo := x / p, x % p;
    assert x == hi * p + lo;
    ModAppend(hi, lo, q, p);
    ModUnique(x % n, p, hi % q, lo);
  }

  lemma {:induction false} DoubledIs(u: nat, k: nat)
    ensures Doubled(u, k) == u * Pow2(k)
    decreases k
  {
    if k > 0 { DoubledIs(u, k - 1); }
  }

  lemma {:induction false} HalvedIs(u: nat, k: nat)
    ensures Halved(u, k) == u / Pow2(k)
    ensures Halved(u, k) <= u
    decreases k
  {
    if k > 0 {
      HalvedIs(u / 2, k - 1);
      DivDiv(u, Pow2(k - 1));
    }
  }

  lemma DivDiv(a: nat, p: nat)
    requires p > 0
    ensures a / 2 / p == a / (2 * p)
  {
    var d, r := a / 2 / p, a / 2 % p;
    assert a / 2 == p * d + r;
    ModUnique(a, 2 * p, d, 2 * r + a % 2);
  }

  // ---- the bitwise operators on special arguments

  lemma {:induction false} BitOpZero(a: nat)
    ensures BitOp(Or, a, 0) == a && BitOp(Or, 0, a) == a
    ensures BitOp(Xor, a, 0) == a && BitOp(And, a, 0) == 0
    ensures BitOp(Xor, a, a) == 0
  {
    if a > 0 { BitOpZero(a / 2); }
  }

  lemma {:induction false} OrIsZero(a: nat, b: nat)
    ensures BitOp(Or, a, b) == 0 <==> a == 0 && b == 0
    decreases a + b
  {
    if a > 0 || b > 0 { OrIsZero(a / 2, b / 2); }
  }

  lemma {:induction false} XorIsZero(a: nat, b: nat)
    ensures BitOp(Xor, a, b) == 0 <==> a == b
    decreases a + b
  {
    if a > 0 || b > 0 { XorIsZero(a / 2, b / 2); }
  }

  /** OR of numbers with disjoint bit ranges is their sum. */
  lemma {:induction false} OrDisjoint(a: nat, b: nat, k: nat)
    requires a % Pow2(k) == 0 && b < Pow2(k)
    ensures BitOp(Or, a, b) == a + b
    decreases k
  {
    if k == 0 {
      BitOpZero(a);
    } else if a > 0 || b > 0 {
      var p: nat := Pow2(k - 1);
      var d := a / (2 * p);
      assert a == 2 * (p * d);
      ModUnique(a / 2, p, d, 0);
      OrDisjoint(a / 2, b / 2, k - 1);
    }
  }

  /** AND with k one-bits keeps the low k bits. */
  lemma {:induction false} AndMask(a: nat, k: nat)
    ensures BitOp(And, a, Pow2(k) - 1) == a % Pow2(k)
    decreases k
  {
    if k == 0 {
      BitOpZero(a);
    } else {
      var p: nat := Pow2(k - 1);
      AndMask(a / 2, k - 1);
      MaskStep(a, p);
      assert Pow2(k) - 1 == 2 * (p - 1) + 1;
    }
  }

  lemma MaskStep(a: nat, p: nat)
    requires p > 0 && BitOp(And, a / 2, p - 1) == a / 2 % p
    ensures BitOp(And, a, 2 * (p - 1) + 1) == a % (2 * p)
  {
    AndOdd(a, p - 1);
    hide BitOp;
    ModAppend(a / 2, a % 2, p, 2);
    assert a == a / 2 * 2 + a % 2;
  }

  lemma AndOdd(a: nat, m: nat)
    ensures BitOp(And, a, 2 * m + 1) == 2 * BitOp(And, a / 2, m) + a % 2
  {
    assert (2 * m + 1) / 2 == m;
  }

  lemma AndEven(a: nat, b: nat)
    ensures BitOp(And, a, 2 * b) == 2 * BitOp(And, a / 2, b)
  {
  }

  lemma {:induction false} BitOpBound(op: Op, a: nat, b: nat, k: nat)
    requires a < Pow2(k) && b < Pow2(k)
    ensures BitOp(op, a, b) < Pow2(k)
    decreases k
  {
    if a > 0 || b > 0 {
      BitOpBound(op, a / 2, b / 2, k - 1);
    }
  }

  // ---- the accumulate-and-compare loops of the byte comparisons

  lemma Narrow(n: nat)
    requires n < 0x8000_0000
    ensures ToUint32(n) == n && ToInt32(n) == n
  {
  }

  lemma JsXorZero(x: int, y: int)
    requires 0 <= x < 256 && 0 <= y < 256
    ensures JsXor(x, y) == 0 <==> x == y
    ensures 0 <= JsXor(x, y) < 256
  {
    var r := BitOp(Xor, x, y);
    assert r < 256 by {
      Pow2Small();
      BitOpBound(Xor, x, y, 8);
    }
    assert r == 0 <==> x == y by { XorIsZero(x, y); }
    Narrow(x);
    Narrow(y);
    Narrow(r);
  }

  lemma JsOrZero(x: int, y: int)
    requires 0 <= x < 256 && 0 <= y < 256
    ensures JsOr(x, y) == 0 <==> x == 0 && y == 0
    ensures 0 <= JsOr(x, y) < 256
  {
    var r := BitOp(Or, x, y);
    assert r < 256 by {
      Pow2Small();
      BitOpBound(Or, x, y, 8);
    }
    assert r == 0 <==> x == 0 && y == 0 by { OrIsZero(x, y); }
    Narrow(x);
    Narrow(y);
    Narrow(r);
  }

  // ---- a shift register of at most 32 live bits

  /** The live low bits of a (possibly wrapped and negative) register. */
  function Low(buffer: int, bits: nat): (v: nat)
    requires bits <= 32
    ensures v < Pow2(bits)
  {
    ToUint32(buffer) % Pow2(bits)
  }

  lemma ShlWord(buffer: int, k: nat)
    requires k < 32
    ensures ToUint32(JsShl(buffer, k)) == (ToUint32(buffer) % Pow2(32 - k)) * Pow2(k)
    ensures Pow2(32 - k) * Pow2(k) == WORD
  {
    Pow2Word();
    Pow2Add(32 - k, k);
    DoubledIs(ToUint32(buffer), k);
    ModAppend(ToUint32(buffer), 0, Pow2(32 - k), Pow2(k));
  }

  lemma OrWord(s: int, x: nat, v: nat, k: nat)
    requires ToUint32(s) == x && x % Pow2(k) == 0 && v < Pow2(k) && x + v < WORD
    ensures ToUint32(JsOr(s, v)) == x + v
  {
    assert BitOp(Or, x, v) == x + v by { OrDisjoint(x, v, k); }
    WrapTwice(s, v, x);
    WrapWord(x + v);
  }

  lemma WrapTwice(s: int, v: nat, x: nat)
    requires ToUint32(s) == x && v < WORD
    ensures JsOr(s, v) == ToInt32(BitOp(Or, x, v))
  {
    assert ToUint32(v) == v;
  }

  lemma WrapWord(n: nat)
    requires n < WORD
    ensures ToUint32(ToInt32(n)) == n
  {
  }

  /** The word that `(buffer << k) | v` leaves behind. */
  lemma ShlOr(buffer: int, k: nat, v: nat)
    requires k < 32 && v < Pow2(k)
    ensures ToUint32(JsOr(JsShl(buffer, k), v)) == (ToUint32(buffer) % Pow2(32 - k)) * Pow2(k) + v
  {
    var d, p, q := ToUint32(buffer) % Pow2(32 - k), Pow2(k), Pow2(32 - k);
    ShlWord(buffer, k);
    var x := d * p;
    RowBound(d, q, p);
    ModUnique(x, p, d, 0);
    OrWord(JsShl(buffer, k), x, v, k);
  }

  lemma RowBound(d: nat, q: nat, p: nat)
    requires d < q
    ensures d * p + p <= q * p
  {
    assert (d + 1) * p <= q * p;
  }

  /** `(buffer << k) | v` appends k bits, even when the top of the register overflows. */
  lemma PushBits(buffer: int, bits: nat, k: nat, v: nat)
    requires bits + k <= 32 && k < 32 && v < Pow2(k)
    ensures Low(JsOr(JsShl(buffer, k), v), bits + k) == Low(buffer, bits) * Pow2(k) + v
  {
    ShlOr(buffer, k, v);
    PushMod(ToUint32(buffer), bits, k, v);
  }

  lemma PushMod(u: nat, bits: nat, k: nat, v: nat)
    requires bits + k <= 32 && v < Pow2(k)
    ensures ((u % Pow2(32 - k)) * Pow2(k) + v) % Pow2(bits + k) == (u % Pow2(bits)) * Pow2(k) + v
  {
    Pow2Add(bits, k);
    ModAppend(u % Pow2(32 - k), v, Pow2(bits), Pow2(k));
    Pow2Add(32 - k - bits, bits);
    ModMod(u, Pow2(32 - k - bits), Pow2(bits));
  }

  /** `(buffer >>> (bits - m)) & (2^m - 1)` reads the oldest m live bits. */
  lemma TakeBits(buffer: int, bits: nat, m: nat, p: nat, q: nat)
    requires m <= bits < 32 && p == Pow2(bits - m) && q == Pow2(m)
    ensures JsAnd(JsShr(buffer, bits - m), q - 1) == Low(buffer, bits) / p
    ensures Low(buffer, bits - m) == Low(buffer, bits) % p
  {
    var u := ToUint32(buffer);
    var w := Halved(u, bits - m);
    HalvedIs(u, bits - m);
    ShrMask(buffer, bits - m, m, w);
    TwoStage(u, bits, m, p, q);
  }

  lemma TwoStage(u: nat, bits: nat, m: nat, p: nat, q: nat)
    requires m <= bits && p == Pow2(bits - m) && q == Pow2(m)
    ensures u % Pow2(bits) % p == u % p && u % Pow2(bits) / p == (u / p) % q
  {
    Pow2Add(m, bits - m);
    ModMod(u, q, p);
  }

  lemma ShrMask(buffer: int, k: nat, m: nat, w: nat)
    requires k < 32 && m < 32 && w == ToUint32(buffer) / Pow2(k)
    ensures JsAnd(JsShr(buffer, k), Pow2(m) - 1) == w % Pow2(m)
  {
    HalvedIs(ToUint32(buffer), k);
    assert JsShr(buffer, k) == w;
    assert ToUint32(w) == w;
    MaskWord(w, m);
  }

  /** `w & (2^m - 1)` is the low m bits of a word. */
  lemma MaskWord(w: int, m: nat)
    requires m < 32
    ensures JsAnd(w, Pow2(m) - 1) == ToUint32(w) % Pow2(m)
  {
    var p := Pow2(m);
    assert p <= 0x8000_0000 by {
      Pow2Mono(m, 31);
      Pow2Word();
      Pow2Add(1, 31);
    }
    AndMask(ToUint32(w), m);
    Narrow(p - 1);
    Narrow(ToUint32(w) % p);
  }

  // ---- the operators on small non-negative numbers, with the power of two spelled out

  lemma ShlIs(a: nat, k: nat, p: nat)
    requires k < 32 && p == Pow2(k) && a * p < 0x8000_0000
    ensures JsShl(a, k) == a * p
  {
    MulGrows(p, a);
    DoubledIs(a, k);
    Narrow(a);
    Narrow(a * p);
  }

  lemma ShrIs(a: nat, k: nat, p: nat)
    requires k < 32 && p == Pow2(k) && a < WORD
    ensures JsShr(a, k) == a / p
  {
    HalvedIs(a, k);
  }

  lemma OrIs(a: nat, b: nat, k: nat, p: nat)
    requires p == Pow2(k) && a % p == 0 && b < p && a + b < 0x8000_0000
    ensures JsOr(a, b) == a + b
  {
    OrDisjoint(a, b, k);
    Narrow(a);
    Narrow(b);
    Narrow(a + b);
  }

  lemma MaskIs(a: nat, k: nat, p: nat)
    requires k < 32 && p == Pow2(k) && a < WORD
    ensures JsAnd(a, p - 1) == a % p
  {
    assert ToUint32(a) == a;
    MaskWord(a, k);
  }
}
