/** Bit strings, most significant bit first, and regrouping them into fixed-width numbers. */
module Bits {
  import opened Basics
  import opened JsInt

  type Bit = x: int | 0 <= x < 2

  /** The w-bit numeral of v. */
  function ToBits(v: nat, w: nat): (b: seq<Bit>)
    ensures |b| == w
    decreases w, v
  {
    if w == 0 then [] else ToBits(v / 2, w - 1) + [v % 2]
  }

  function FromBits(b: seq<Bit>): (v: nat)
  {
    if b == [] then 0 else 2 * FromBits(b[..|b| - 1]) + b[|b| - 1]
  }

  function ZeroBits(n: nat): (b: seq<Bit>)
    ensures |b| == n
  {
    seq(n, _ => 0)
  }

  /** Fixed-width numerals, one after the other. */
  function Pack(vals: seq<nat>, w: nat): (b: seq<Bit>)
  {
    if vals == [] then [] else ToBits(vals[0], w) + Pack(vals[1..], w)
  }

  /** Cutting a bit string into w-bit numbers; an incomplete last group is dropped. */
  function Unpack(b: seq<Bit>, w: nat): (vals: seq<nat>)
    requires w > 0
    decreases |b|
  {
    if |b| < w then [] else [FromBits(b[..w])] + Unpack(b[w..], w)
  }

  lemma {:induction false} FromTo(v: nat, w: nat)
    requires v < Pow2(w)
    ensures FromBits(ToBits(v, w)) == v
    decreases w
  {
    if w > 0 {
      var b := ToBits(v, w);
      assert b[..w - 1] == ToBits(v / 2, w - 1) && b[w - 1] == v % 2;
      FromTo(v / 2, w - 1);
    }
  }

  lemma {:induction false} ToFrom(b: seq<Bit>)
    ensures FromBits(b) < Pow2(|b|)
    ensures ToBits(FromBits(b), |b|) == b
    decreases |b|
  {
    if b != [] {
      var front, last := b[..|b| - 1], b[|b| - 1];
      ToFrom(front);
      var v := FromBits(b);
      assert v / 2 == FromBits(front) && v % 2 == last;
      assert b == front + [last];
    }
  }

  /** A numeral is the numeral of its high part followed by that of its low part. */
  lemma {:induction false} ToBitsSplit(hi: nat, lo: nat, a: nat, b: nat)
    requires lo < Pow2(b)
    ensures ToBits(hi * Pow2(b) + lo, a + b) == ToBits(hi, a) + ToBits(lo, b)
    decreases b
  {
    if b == 0 {
      assert ToBits(lo, 0) == [];
    } else {
      var p := Pow2(b - 1);
      var v := hi * Pow2(b) + lo;
      assert hi * Pow2(b) == 2 * (hi * p);
      assert v / 2 == hi * p + lo / 2 && v % 2 == lo % 2;
      ToBitsSplit(hi, lo / 2, a, b - 1);
      assert ToBits(v, a + b) == ToBits(v / 2, a + b - 1) + [v % 2];
    }
  }

  lemma {:induction false} PackAppend(x: seq<nat>, y: seq<nat>, w: nat)
    ensures Pack(x + y, w) == Pack(x, w) + Pack(y, w)
    decreases |x|
  {
    if x == [] {
      assert x + y == y;
    } else {
      assert (x + y)[1..] == x[1..] + y;
      PackAppend(x[1..], y, w);
    }
  }

  lemma PackSnoc(x: seq<nat>, v: nat, w: nat)
    ensures Pack(x + [v], w) == Pack(x, w) + ToBits(v, w)
  {
    PackAppend(x, [v], w);
    assert [v][1..] == [];
    assert ToBits(v, w) + [] == ToBits(v, w);
  }

  lemma {:induction false} PackLength(x: seq<nat>, w: nat)
    ensures |Pack(x, w)| == w * |x|
    decreases |x|
  {
    if x != [] {
      PackLength(x[1..], w);
      assert w * |x| == w + w * (|x| - 1);
    }
  }

  lemma {:induction false} UnpackPack(x: seq<nat>, w: nat)
    requires w > 0 && forall i :: 0 <= i < |x| ==> x[i] < Pow2(w)
    ensures Unpack(Pack(x, w), w) == x
    decreases |x|
  {
    if x != [] {
      hide ToBits, FromBits, Pow2;
      var b := ToBits(x[0], w) + Pack(x[1..], w);
      assert b[..w] == ToBits(x[0], w) && b[w..] == Pack(x[1..], w);
      FromTo(x[0], w);
      UnpackPack(x[1..], w);
    }
  }

  /** Complete groups lose nothing. */
  lemma {:induction false} PackUnpack(b: seq<Bit>, w: nat, n: nat)
    requires w > 0 && |b| == w * n
    ensures |Unpack(b, w)| == n && Pack(Unpack(b, w), w) == b
    ensures forall i :: 0 <= i < n ==> Unpack(b, w)[i] < Pow2(w)
    decreases n
  {
    if n > 0 {
      assert w * n == w + w * (n - 1);
      PackUnpack(b[w..], w, n - 1);
      ToFrom(b[..w]);
      var u := Unpack(b, w);
      assert u[1..] == Unpack(b[w..], w);
      assert b == b[..w] + b[w..];
    } else {
      assert b == [];
    }
  }

  lemma {:induction false} ZeroNumeral(w: nat)
    ensures ToBits(0, w) == ZeroBits(w)
  {
    if w > 0 { ZeroNumeral(w - 1); }
  }

  lemma {:induction false} ZeroValue(v: nat, w: nat)
    requires v < Pow2(w)
    ensures ToBits(v, w) == ZeroBits(w) <==> v == 0
  {
    ZeroNumeral(w);
    FromTo(v, w);
    FromTo(0, w);
  }

  /** The i-th group is the slice the source cuts out. */
  lemma {:induction false} UnpackAt(b: seq<Bit>, w: nat, i: nat, at: nat)
    requires w > 0 && at == w * i && at + w <= |b|
    ensures i < |Unpack(b, w)| && Unpack(b, w)[i] == FromBits(b[at..at + w])
    decreases i
  {
    hide FromBits;
    if i == 0 {
      assert at == 0;
    } else {
      var rest := b[w..];
      assert w * i == w + w * (i - 1);
      UnpackAt(rest, w, i - 1, at - w);
      assert rest[at - w..at] == b[at..at + w];
      assert Unpack(b, w) == [FromBits(b[..w])] + Unpack(rest, w);
    }
  }

  /** The bytes of a bit string of whole bytes. */
  function Octets(bits: seq<Bit>, n: nat): (b: Bytes)
    requires |bits| == 8 * n
    ensures |b| == n && Pack(b, 8) == bits
  {
    PackUnpack(bits, 8, n);
    Pow2Small();
    Unpack(bits, 8)
  }

  // ---- single bits

  /** The j-th bit from the top of a w-bit numeral. */
  lemma {:induction false} ToBitsAt(v: nat, w: nat, j: nat)
    requires j < w
    ensures ToBits(v, w)[j] == v / Pow2(w - 1 - j) % 2
    decreases w
  {
    if j < w - 1 {
      ToBitsAt(v / 2, w - 1, j);
      DivDiv(v, Pow2(w - 2 - j));
    }
  }

  /** The k-th bit of fixed-width numerals written one after the other. */
  lemma {:induction false} PackAt(vals: seq<nat>, w: nat, i: nat, j: nat)
    requires i < |vals| && j < w
    ensures |Pack(vals, w)| == w * |vals| && 0 <= w * i + j < w * |vals|
    ensures Pack(vals, w)[w * i + j] == vals[i] / Pow2(w - 1 - j) % 2
    decreases |vals|
  {
    hide ToBits;
    PackLength(vals, w);
    InRange(w, i, j, |vals|);
    var head, rest := ToBits(vals[0], w), Pack(vals[1..], w);
    if i == 0 {
      ToBitsAt(vals[0], w, j);
      assert (head + rest)[j] == head[j];
    } else {
      PackAt(vals[1..], w, i - 1, j);
      assert w * i + j == w + (w * (i - 1) + j);
      assert (head + rest)[w + (w * (i - 1) + j)] == rest[w * (i - 1) + j];
    }
  }

  lemma InRange(w: nat, i: nat, j: nat, n: nat)
    requires i < n && j < w
    ensures 0 <= w * i + j < w * n
  {
    assert w * n == w * (i + 1) + w * (n - i - 1);
    assert w * (i + 1) == w * i + w;
  }
}
