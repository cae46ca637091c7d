/** The injected cryptography provider: arbitrary functions over bytes, of which only the
    laws in `Lawful` are ever used. */
module Crypto {
  import opened Basics

  datatype Provider = Provider(
    publicOf: Bytes -> Bytes,
    dh: (Bytes, Bytes) -> Bytes,
    hkdf: (Bytes, Bytes, Bytes, nat) -> Bytes,
    hash: Bytes -> Bytes,
    seal: (Bytes, Bytes, Bytes, Bytes) -> Bytes,
    open: (Bytes, Bytes, Bytes, Bytes) -> Option<Bytes>,
    signingPublicOf: Bytes -> Bytes,
    sign: (Bytes, Bytes) -> Bytes,
    verify: (Bytes, Bytes, Bytes) -> bool)

  /** Diffie-Hellman commutes; HKDF has the requested length; what was sealed opens under the
      same key, nonce and associated data, and is 16 bytes longer; signatures verify. */
  ghost predicate Lawful(c: Provider) {
    && (forall a, b :: c.dh(a, c.publicOf(b)) == c.dh(b, c.publicOf(a)))
    && (forall ikm, salt, info, n :: |c.hkdf(ikm, salt, info, n)| == n)
    && (forall k, n, p, a :: c.open(k, n, c.seal(k, n, p, a), a) == Some(p))
    && (forall k, n, p, a :: |c.seal(k, n, p, a)| == |p| + 16)
    && (forall k, m :: c.verify(c.signingPublicOf(k), m, c.sign(k, m)))
  }

  /** Digests of 32 bytes, as SHA-256 gives them. */
  ghost predicate Digests(hash: Bytes -> Bytes) {
    forall b :: |hash(b)| == 32
  }

  /** What a key is derived from. */
  datatype KdfInput = KdfInput(ikm: Bytes, salt: Bytes, info: Bytes)

  /** The key derivation does not collide on this pair of inputs. */
  ghost predicate NoHkdfCollision(c: Provider, x: KdfInput, y: KdfInput, length: nat) {
    c.hkdf(x.ikm, x.salt, x.info, length) == c.hkdf(y.ikm, y.salt, y.info, length) ==> x == y
  }

  /** Four bytes tell numbers apart up to 2^32. */
  lemma U32beBinds(m: nat, n: nat)
    requires U32be(m) == U32be(n)
    ensures m % 0x1_0000_0000 == n % 0x1_0000_0000
  {
    var x, y := m % 0x1_0000_0000, n % 0x1_0000_0000;
    BytesOf(x);
    BytesOf(y);
    assert U32be(m)[0] == U32be(n)[0] && U32be(m)[1] == U32be(n)[1];
    assert U32be(m)[2] == U32be(n)[2] && U32be(m)[3] == U32be(n)[3];
  }

  lemma BytesOf(v: nat)
    ensures v == v / 0x100_0000 * 0x100_0000 + v / 0x1_0000 % 0x100 * 0x1_0000 + v / 0x100 % 0x100 * 0x100 + v % 0x100
  {
    assert v / 0x1_0000 == v / 0x100_0000 * 0x100 + v / 0x1_0000 % 0x100;
    assert v / 0x100 == v / 0x1_0000 * 0x100 + v / 0x100 % 0x100;
  }

  /** `subarray`: a slice with both ends clamped to the length. */
  function Sub(b: Bytes, lo: nat, hi: nat): Bytes
    requires lo <= hi
  {
    b[Min(lo, |b|)..Min(hi, |b|)]
  }

  /** `u32be(value >>> 0)`: four bytes, most significant first, of the value modulo 2^32. */
  function U32be(value: nat): Bytes {
    var v := value % 0x1_0000_0000;
    [v / 0x100_0000, v / 0x1_0000 % 0x100, v / 0x100 % 0x100, v % 0x100]
  }

  /** The laws are consistent, also with 32-byte digests and usable agreement outputs: a toy
      provider satisfies them. */
  lemma LawsAreSatisfiable() returns (c: Provider)
    ensures Lawful(c)
    ensures Digests(c.hash)
    ensures forall a, b :: |c.dh(a, b)| == 32 && c.dh(a, b)[0] != 0
  {
    c := Provider(
      (a: Bytes) => a,
      (a: Bytes, b: Bytes) => seq(32, _ => 1),
      (ikm: Bytes, salt: Bytes, info: Bytes, n: nat) => Zeros(n),
      (m: Bytes) => Zeros(32),
      (k: Bytes, n: Bytes, p: Bytes, a: Bytes) => p + Zeros(16),
      (k: Bytes, n: Bytes, ct: Bytes, a: Bytes) =>
        if |ct| >= 16 then Some(ct[..|ct| - 16]) else None,
      (k: Bytes) => k,
      (k: Bytes, m: Bytes) => m,
      (p: Bytes, m: Bytes, s: Bytes) => m == s);
    forall p: Bytes ensures (p + Zeros(16))[..|p|] == p {}
  }
}
