/** Onion packets (`codec/onion`, `crypto/onion/OnionLayerAeadV2.js`,
    `objects/onion/OnionPacketV2.js`): wrapping a payload for a path and peeling it hop by hop. */
module Onion {
  import opened Basics
  import opened Crypto
  import opened ReplayCache
  import Base64
  import Text

  datatype Hop = Hop(endpoint: string, publicKey: Bytes, keyId: string)

  datatype LayerPlain = LayerPlain(v: int, ttl: int, next: string, flags: string, inner: string)

  datatype Cipher = Cipher(v: int, hopIndex: int, keyId: string, ttl: int, ephPub: string, ct: string)

  /** Canonical JSON of the two layer objects and of the associated data, and its parser. */
  datatype Codec = Codec(
    printPlain: LayerPlain -> Bytes,
    parsePlain: Bytes -> Option<LayerPlain>,
    printCipher: Cipher -> Bytes,
    parseCipher: Bytes -> Option<Cipher>,
    aad: (int, int, string) -> Bytes)

  predicate EndsNonZero(b: Bytes) {
    b != [] && b[|b| - 1] != 0
  }

  /** Parsing inverts printing; printed objects end in a non-zero byte and contain their strings. */
  ghost predicate CodecOk(k: Codec) {
    && (forall p :: k.parsePlain(k.printPlain(p)) == Some(p))
    && (forall p: LayerPlain :: |k.printPlain(p)| >= |p.inner|)
    && (forall x :: k.parseCipher(k.printCipher(x)) == Some(x))
    && (forall x :: EndsNonZero(k.printCipher(x)))
    && (forall x: Cipher :: |k.printCipher(x)| >= |x.ct|)
  }

  datatype OnionError =
    | EmptyPath
    | NegativeTtl
    | MissingKeyId
    | BadSizeClass
    | BlobTooLarge
    | EmptyPayload
    | NotJson
    | BadHopIndex
    | BadTtl
    | BadVersion
    | HopMismatch
    | Replay(error: ReplayError)
    | NoKey
    | BadEncoding
    | AuthenticationFailed
    | TtlMismatch
    | TtlExpired
    | InnerTooLarge

  const SIZE_CLASSES: seq<int> := [4096, 8192, 16384, 32768, 65536, 131072, 262144]

  datatype Packet = Packet(sizeClass: nat, payload: Bytes)

  // ---- fixed-size packets

  function FirstFitting(classes: seq<int>, n: nat): (r: Option<int>)
    ensures r.Some? ==> r.value in classes && r.value >= n
    ensures r.None? ==> forall s :: s in classes ==> s < n
    ensures r.Some? && Ascending(classes) ==> forall s :: s in classes && s >= n ==> r.value <= s
  {
    if classes == [] then None
    else if classes[0] >= n then Some(classes[0])
    else
      assert classes == [classes[0]] + classes[1..];
      FirstFitting(classes[1..], n)
  }

  predicate Ascending(s: seq<int>) {
    forall i, j :: 0 <= i < j < |s| ==> s[i] < s[j]
  }

  lemma ClassesAscend()
    ensures Ascending(SIZE_CLASSES) && forall s :: s in SIZE_CLASSES ==> s > 0
  {
  }

  function Padded(b: Bytes, n: nat): (p: Bytes)
    ensures |b| <= n ==> |p| == n
  {
    b + Zeros(Max(0, n - |b|))
  }

  function BuildFixed(blob: Bytes, sizeClass: Option<int>): (r: Result<Packet, OnionError>)
    ensures r.Ok? ==> |blob| <= r.value.sizeClass && r.value.payload == Padded(blob, r.value.sizeClass)
    ensures r.Ok? ==> r.value.sizeClass in SIZE_CLASSES
    ensures sizeClass.Some? ==>
      (r.Ok? <==> sizeClass.value in SIZE_CLASSES && |blob| <= sizeClass.value) &&
        (r.Ok? ==> r.value.sizeClass == sizeClass.value)
    ensures sizeClass.None? ==>
      && (r.Ok? <==> exists s :: s in SIZE_CLASSES && |blob| <= s)
      && (r.Ok? ==> forall s :: s in SIZE_CLASSES && |blob| <= s ==> r.value.sizeClass <= s)
  {
    ClassesAscend();
    var chosen := if sizeClass.Some? then sizeClass else FirstFitting(SIZE_CLASSES, |blob|);
    if chosen.None? || chosen.value <= 0 then Err(BadSizeClass)
    else if |blob| > chosen.value then Err(BlobTooLarge)
    else if chosen.value !in SIZE_CLASSES then Err(BadSizeClass)
    else Ok(Packet(chosen.value, Padded(blob, chosen.value)))
  }

  /** Without trailing zero bytes. */
  function Trimmed(b: Bytes): (t: Bytes)
    ensures t <= b && (t == [] || EndsNonZero(t))
  {
    if b != [] && b[|b| - 1] == 0 then Trimmed(b[..|b| - 1]) else b
  }

  method TrimTrailingZeros(b: Bytes) returns (t: Bytes)
    ensures t == Trimmed(b)
  {
    var end := |b|;
    assert b[..end] == b;
    while end > 0 && b[end - 1] == 0
      invariant 0 <= end <= |b|
      invariant Trimmed(b[..end]) == Trimmed(b)
    {
      assert b[..end][..end - 1] == b[..end - 1];
      end := end - 1;
    }
    t := b[..end];
  }

  /** Trimming removes the padding and gives the blob back exactly when the blob is empty or does not
      itself end in a zero byte, as no object text does. */
  lemma TrimPadded(b: Bytes, k: nat)
    ensures Trimmed(b + Zeros(k)) == b <==> b == [] || EndsNonZero(b)
  {
    PaddingTrimmed(b, k);
  }

  lemma {:induction false} PaddingTrimmed(b: Bytes, k: nat)
    ensures Trimmed(b + Zeros(k)) == Trimmed(b)
    decreases k
  {
    if k == 0 {
      assert b + Zeros(0) == b;
    } else {
      var p := b + Zeros(k);
      assert p[|p| - 1] == 0 && p[..|p| - 1] == b + Zeros(k - 1);
      PaddingTrimmed(b, k - 1);
    }
  }

  // ---- one layer

  datatype LayerKey = LayerKey(key: Bytes, nonce: Bytes)

  function DeriveLayerKey(c: Provider, secret: Bytes, hopIndex: nat): LayerKey {
    var out := c.hkdf(secret, [], Text.Ascii("rez-onion-v2") + U32be(hopIndex), 44);
    LayerKey(Sub(out, 0, 32), Sub(out, 32, 44))
  }

  /** The 44 derived bytes are the key and then the nonce. */
  lemma LayerSplits(c: Provider, secret: Bytes, hop: nat)
    requires Lawful(c)
    ensures
      var k := DeriveLayerKey(c, secret, hop);
      && |k.key| == 32 && |k.nonce| == 12
      && k.key + k.nonce == c.hkdf(secret, [], Text.Ascii("rez-onion-v2") + U32be(hop), 44)
  {
    hide Text.Ascii, U32be;
  }

  /** A layer's key and nonce together depend on the agreement output and, modulo 2^32, on the hop. */
  lemma LayerKeyBinds(c: Provider, secret: Bytes, hop: nat, secret': Bytes, hop': nat)
    requires Lawful(c) && DeriveLayerKey(c, secret, hop) == DeriveLayerKey(c, secret', hop')
    requires
      var prefix := Text.Ascii("rez-onion-v2");
      NoHkdfCollision(c, KdfInput(secret, [], prefix + U32be(hop)), KdfInput(secret', [], prefix + U32be(hop')), 44)
    ensures secret == secret' && hop % 0x1_0000_0000 == hop' % 0x1_0000_0000
  {
    hide DeriveLayerKey, U32be, Text.Ascii;
    var prefix := Text.Ascii("rez-onion-v2");
    LayerSplits(c, secret, hop);
    LayerSplits(c, secret', hop');
    assert (prefix + U32be(hop))[|prefix|..] == U32be(hop) && (prefix + U32be(hop'))[|prefix|..] == U32be(hop');
    U32beBinds(hop, hop');
  }

  /** What the sender wraps: the path, its time to live and the payload. */
  datatype Job = Job(path: seq<Hop>, ttl: nat, flags: string, final: string, payload: Bytes, eph: seq<Bytes>)

  function HopTtl(j: Job, i: nat): nat {
    Max(0, j.ttl - i)
  }

  function NextEndpoint(j: Job, i: nat): string
    requires i < |j.path|
  {
    if i + 1 < |j.path| then j.path[i + 1].endpoint else j.final
  }

  function WrapLayer(c: Provider, k: Codec, j: Job, i: nat, inner: Bytes): Bytes
    requires i < |j.path| && |j.eph| == |j.path|
  {
    var hop, ttl := j.path[i], HopTtl(j, i);
    var plain := k.printPlain(LayerPlain(2, ttl, NextEndpoint(j, i), j.flags, Base64.Encode(inner)));
    var key := DeriveLayerKey(c, c.dh(j.eph[i], hop.publicKey), i);
    var ct := c.seal(key.key, key.nonce, plain, k.aad(i, ttl, hop.keyId));
    k.printCipher(Cipher(2, i, hop.keyId, ttl, Base64.Encode(c.publicOf(j.eph[i])), Base64.Encode(ct)))
  }

  /** The blob that hop i receives. */
  function Wrapped(c: Provider, k: Codec, j: Job, i: nat): Bytes
    requires i <= |j.path| && |j.eph| == |j.path|
    decreases |j.path| - i
  {
    if i == |j.path| then j.payload else WrapLayer(c, k, j, i, Wrapped(c, k, j, i + 1))
  }

  ghost predicate KeysNamed(j: Job) {
    forall i :: 0 <= i < |j.path| ==> j.path[i].keyId != ""
  }

  /** The backwards wrapping loop. An absent ttl defaults to the path length. */
  method Encode(c: Provider, k: Codec, payload: Bytes, path: seq<Hop>, ttl: Option<int>, flags: string,
                sizeClass: Option<int>, final: string, eph: seq<Bytes>) returns (r: Result<Packet, OnionError>)
    requires |eph| == |path|
    ensures path == [] ==> r == Err(EmptyPath)
    ensures path != [] && ttl.Some? && ttl.value < 0 ==> r == Err(NegativeTtl)
    ensures path != [] && (ttl.Some? ==> ttl.value >= 0) ==>
              var j := Job(path, if ttl.Some? then ttl.value else |path|, flags, final, payload, eph);
              r == if KeysNamed(j) then BuildFixed(Wrapped(c, k, j, 0), sizeClass) else Err(MissingKeyId)
  {
    hide WrapLayer, BuildFixed;
    if path == [] {
      return Err(EmptyPath);
    }
    if ttl.Some? && ttl.value < 0 {
      return Err(NegativeTtl);
    }
    var j := Job(path, if ttl.Some? then ttl.value else |path|, flags, final, payload, eph);
    var blob := payload;
    var i := |path|;
    while i > 0
      invariant 0 <= i <= |path|
      invariant blob == Wrapped(c, k, j, i)
      invariant forall m :: i <= m < |path| ==> path[m].keyId != ""
    {
      i := i - 1;
      if path[i].keyId == "" {
        return Err(MissingKeyId);
      }
      blob := WrapLayer(c, k, j, i, blob);
    }
    return BuildFixed(blob, sizeClass);
  }

  // ---- peeling

  type KeyResolver = string -> Option<Bytes>

  /** The checks on the outer object, before the replay cache and the key are consulted. */
  function ReadCipher(k: Codec, payload: Bytes, expectedHop: Option<int>): (r: Result<Cipher, OnionError>)
    ensures r.Ok? ==> r.value.hopIndex >= 0
  {
    var t := Trimmed(payload);
    if t == [] then Err(EmptyPayload)
    else match k.parseCipher(t)
      case None => Err(NotJson)
      case Some(x) =>
        if x.hopIndex < 0 then Err(OnionError.BadHopIndex)
        else if x.ttl < 0 then Err(BadTtl)
        else if x.v != 2 then Err(BadVersion)
        else if expectedHop.Some? && expectedHop.value != x.hopIndex then Err(HopMismatch)
        else if x.keyId == "" then Err(MissingKeyId)
        else Ok(x)
  }

  datatype Peeled = Peeled(next: string, ttl: nat, flags: string, keyId: string, bytes: Bytes)

  function DecryptLayer(c: Provider, k: Codec, x: Cipher, private: Bytes): Result<Bytes, OnionError>
    requires x.hopIndex >= 0
  {
    match (Base64.Decode(x.ephPub), Base64.Decode(x.ct))
    case (Ok(ephPub), Ok(ct)) =>
      var key := DeriveLayerKey(c, c.dh(private, ephPub), x.hopIndex);
      if |ct| < 16 then Err(AuthenticationFailed)
      else (match c.open(key.key, key.nonce, ct, k.aad(x.hopIndex, x.ttl, x.keyId))
        case None => Err(AuthenticationFailed)
        case Some(plain) => Ok(plain))
    case _ => Err(BadEncoding)
  }

  function OpenLayer(c: Provider, k: Codec, p: Packet, x: Cipher, keyFor: KeyResolver): Result<Peeled, OnionError>
    requires x.hopIndex >= 0
  {
    var private := keyFor(x.keyId);
    if private.None? then Err(NoKey)
    else match DecryptLayer(c, k, x, private.value)
      case Err(e) => Err(e)
      case Ok(bytes) =>
        match k.parsePlain(bytes)
        case None => Err(NotJson)
        case Some(l) =>
          if l.ttl < 0 then Err(BadTtl)
          else if l.v != 2 then Err(BadVersion)
          else if l.ttl != x.ttl then Err(TtlMismatch)
          else if l.ttl <= 0 then Err(TtlExpired)
          else match Base64.Decode(l.inner)
            case Err(_) => Err(BadEncoding)
            case Ok(inner) =>
              if |inner| > p.sizeClass then Err(InnerTooLarge)
              else Ok(Peeled(l.next, l.ttl - 1, l.flags, x.keyId, Padded(inner, p.sizeClass)))
  }

  /** One hop without a replay cache. */
  function Peel(
    c: Provider, k: Codec, p: Packet, keyFor: KeyResolver, expectedHop: Option<int>): Result<Peeled, OnionError>
  {
    match ReadCipher(k, p.payload, expectedHop)
    case Err(e) => Err(e)
    case Ok(x) => OpenLayer(c, k, p, x, keyFor)
  }

  /** What a peeled packet, whoever made it, consisted of: an outer object of this version for the expected
      hop and for a key the relay holds, under that key a layer of this version with the same ttl, not yet
      spent, and in it a blob no larger than the packet, which goes on padded to the same size. */
  ghost predicate Accepts(
    c: Provider, k: Codec, p: Packet, keyFor: KeyResolver, expectedHop: Option<int>, x: Cipher, l: LayerPlain,
    r: Peeled)
  {
    && k.parseCipher(Trimmed(p.payload)) == Some(x) && Trimmed(p.payload) != []
    && x.v == 2 && x.hopIndex >= 0 && (expectedHop.Some? ==> expectedHop.value == x.hopIndex)
    && x.keyId != "" && keyFor(x.keyId).Some?
    && Sealed(c, k, x, keyFor(x.keyId).value, l)
    && l.v == 2 && l.ttl == x.ttl == r.ttl + 1
    && Base64.Decode(l.inner).Ok? && |Base64.Decode(l.inner).value| <= p.sizeClass
    && r == Peeled(l.next, r.ttl, l.flags, x.keyId, Padded(Base64.Decode(l.inner).value, p.sizeClass))
  }

  /** The layer opens under the key agreed on with the packet's ephemeral key, bound to hop, ttl and key id. */
  ghost predicate Sealed(c: Provider, k: Codec, x: Cipher, private: Bytes, l: LayerPlain)
    requires x.hopIndex >= 0
  {
    && Base64.Decode(x.ephPub).Ok? && Base64.Decode(x.ct).Ok? && |Base64.Decode(x.ct).value| >= 16
    && var key := DeriveLayerKey(c, c.dh(private, Base64.Decode(x.ephPub).value), x.hopIndex);
       var plain := c.open(key.key, key.nonce, Base64.Decode(x.ct).value, k.aad(x.hopIndex, x.ttl, x.keyId));
       plain.Some? && k.parsePlain(plain.value) == Some(l)
  }

  /** When a packet is peeled, over all packets. */
  lemma PeeledExactly(
    c: Provider, k: Codec, p: Packet, keyFor: KeyResolver, expectedHop: Option<int>, r: Peeled)
    ensures Peel(c, k, p, keyFor, expectedHop) == Ok(r) <==>
      exists x, l :: Accepts(c, k, p, keyFor, expectedHop, x, l, r)
  {
    hide Base64.Decode, DeriveLayerKey, Trimmed, Padded;
    if Peel(c, k, p, keyFor, expectedHop) == Ok(r) {
      var x := ReadCipher(k, p.payload, expectedHop).value;
      var plain := DecryptLayer(c, k, x, keyFor(x.keyId).value).value;
      assert Accepts(c, k, p, keyFor, expectedHop, x, k.parsePlain(plain).value, r);
    }
    forall x, l | Accepts(c, k, p, keyFor, expectedHop, x, l, r) ensures Peel(c, k, p, keyFor, expectedHop) == Ok(r) {
      assert ReadCipher(k, p.payload, expectedHop) == Ok(x);
      assert DecryptLayer(c, k, x, keyFor(x.keyId).value).Ok?;
    }
  }

  /** One hop of a relay with a replay cache: the packet is marked before it is decrypted, and a
      packet already in the window is refused whatever it contains. */
  method PeelOnce(
    c: Provider, k: Codec, p: Packet, keyFor: KeyResolver, expectedHop: Option<int>, cache: OnionReplayCache)
    returns (r: Result<Peeled, OnionError>)
    requires cache.Valid() && |c.hash(p.payload)| > 0
    modifies cache
    ensures cache.Valid()
    ensures
      match ReadCipher(k, p.payload, expectedHop)
      case Err(e) => r == Err(e) && cache.accepted == old(cache.accepted)
      case Ok(x) =>
        var key := TripleKey(Text.Hex(c.hash(p.payload)), x.hopIndex, x.keyId);
        if key in Last(old(cache.accepted), cache.maxEntries)
        then r == Err(Replay(ReplayDetected)) && cache.accepted == old(cache.accepted)
        else r == Peel(c, k, p, keyFor, expectedHop) && cache.accepted == old(cache.accepted) + [key]
  {
    var header := ReadCipher(k, p.payload, expectedHop);
    if header.Err? {
      return Err(header.error);
    }
    var x := header.value;
    var seen := cache.CheckAndMark(Text.Hex(c.hash(p.payload)), x.hopIndex, x.keyId);
    if seen.Err? {
      return Err(Replay(seen.error));
    }
    return OpenLayer(c, k, p, x, keyFor);
  }

  // ---- the run along the path

  /** Relay i holds the private key of its hop. */
  ghost predicate RelaysHoldKeys(c: Provider, j: Job, relays: seq<KeyResolver>) {
    && |relays| == |j.path| && |j.eph| == |j.path|
    && forall i :: 0 <= i < |relays| ==>
         && relays[i](j.path[i].keyId).Some?
         && j.path[i].publicKey == c.publicOf(relays[i](j.path[i].keyId).value)
  }

  /** The packet that hop i receives in a size class. */
  function PacketAt(c: Provider, k: Codec, j: Job, sizeClass: nat, i: nat): Packet
    requires i <= |j.path| && |j.eph| == |j.path|
  {
    Packet(sizeClass, Padded(Wrapped(c, k, j, i), sizeClass))
  }

  lemma WrapGrows(c: Provider, k: Codec, j: Job, i: nat)
    requires Lawful(c) && CodecOk(k) && i < |j.path| && |j.eph| == |j.path|
    ensures |Wrapped(c, k, j, i + 1)| <= |Wrapped(c, k, j, i)|
  {
    var inner := Wrapped(c, k, j, i + 1);
    var hop, ttl := j.path[i], HopTtl(j, i);
    var l := LayerPlain(2, ttl, NextEndpoint(j, i), j.flags, Base64.Encode(inner));
    var plain := k.printPlain(l);
    assert |plain| >= |l.inner| >= |inner|;
    var key := DeriveLayerKey(c, c.dh(j.eph[i], hop.publicKey), i);
    var ct := c.seal(key.key, key.nonce, plain, k.aad(i, ttl, hop.keyId));
    var x := Cipher(2, i, hop.keyId, ttl, Base64.Encode(c.publicOf(j.eph[i])), Base64.Encode(ct));
    assert |k.printCipher(x)| >= |x.ct| >= |ct|;
  }

  lemma {:induction false} WrapFits(c: Provider, k: Codec, j: Job, i: nat)
    requires Lawful(c) && CodecOk(k) && i <= |j.path| && |j.eph| == |j.path|
    ensures |Wrapped(c, k, j, i)| <= |Wrapped(c, k, j, 0)|
    decreases i
  {
    hide Wrapped;
    if i > 0 {
      WrapFits(c, k, j, i - 1);
      WrapGrows(c, k, j, i - 1);
    }
  }

  /** Hop i recovers, from its packet, the next endpoint, the decremented ttl and the packet for
      hop i + 1; or finds the ttl spent. */
  lemma PeelHop(c: Provider, k: Codec, j: Job, relays: seq<KeyResolver>, sizeClass: nat, i: nat)
    requires Lawful(c) && CodecOk(k) && RelaysHoldKeys(c, j, relays) && KeysNamed(j)
    requires i < |j.path| && |Wrapped(c, k, j, 0)| <= sizeClass
    ensures |Wrapped(c, k, j, i)| <= sizeClass && |Wrapped(c, k, j, i + 1)| <= sizeClass
    ensures Peel(c, k, PacketAt(c, k, j, sizeClass, i), relays[i], Some(i))
         == if i < j.ttl
            then Ok(Peeled(NextEndpoint(j, i), j.ttl - i - 1, j.flags, j.path[i].keyId,
                           PacketAt(c, k, j, sizeClass, i + 1).payload))
            else Err(TtlExpired)
  {
    hide Wrapped, WrapLayer, Padded, Peel;
    WrapFits(c, k, j, i);
    WrapFits(c, k, j, i + 1);
    var inner := Wrapped(c, k, j, i + 1);
    assert Wrapped(c, k, j, i) == WrapLayer(c, k, j, i, inner) by { WrappedIs(c, k, j, i); }
    LayerRoundTrip(c, k, j, relays[i], sizeClass, i, inner);
  }

  lemma WrappedIs(c: Provider, k: Codec, j: Job, i: nat)
    requires i < |j.path| && |j.eph| == |j.path|
    ensures Wrapped(c, k, j, i) == WrapLayer(c, k, j, i, Wrapped(c, k, j, i + 1))
  {
  }

  lemma WrappedEnd(c: Provider, k: Codec, j: Job)
    requires |j.eph| == |j.path|
    ensures Wrapped(c, k, j, |j.path|) == j.payload
  {
  }

  lemma LayerRoundTrip(c: Provider, k: Codec, j: Job, keyFor: KeyResolver, sizeClass: nat, i: nat, inner: Bytes)
    requires Lawful(c) && CodecOk(k) && i < |j.path| && |j.eph| == |j.path| && j.path[i].keyId != ""
    requires keyFor(j.path[i].keyId).Some? && j.path[i].publicKey == c.publicOf(keyFor(j.path[i].keyId).value)
    requires |WrapLayer(c, k, j, i, inner)| <= sizeClass && |inner| <= sizeClass
    ensures Peel(c, k, Packet(sizeClass, Padded(WrapLayer(c, k, j, i, inner), sizeClass)), keyFor, Some(i))
         == if i < j.ttl
            then Ok(Peeled(NextEndpoint(j, i), j.ttl - i - 1, j.flags, j.path[i].keyId, Padded(inner, sizeClass)))
            else Err(TtlExpired)
  {
    hide Base64.Decode, Base64.Encode, DeriveLayerKey;
    var hop, ttl, private := j.path[i], HopTtl(j, i), keyFor(j.path[i].keyId).value;
    var blob := WrapLayer(c, k, j, i, inner);
    var l := LayerPlain(2, ttl, NextEndpoint(j, i), j.flags, Base64.Encode(inner));
    var plain := k.printPlain(l);
    var key := DeriveLayerKey(c, c.dh(j.eph[i], hop.publicKey), i);
    var ct := c.seal(key.key, key.nonce, plain, k.aad(i, ttl, hop.keyId));
    var x := Cipher(2, i, hop.keyId, ttl, Base64.Encode(c.publicOf(j.eph[i])), Base64.Encode(ct));
    assert blob == k.printCipher(x);
    TrimPadded(blob, sizeClass - |blob|);
    Base64.DecodeEncode(inner);
    Base64.DecodeEncode(ct);
    Base64.DecodeEncode(c.publicOf(j.eph[i]));
    assert c.dh(private, c.publicOf(j.eph[i])) == c.dh(j.eph[i], hop.publicKey);
    assert ReadCipher(k, Padded(blob, sizeClass), Some(i)) == Ok(x);
    assert DecryptLayer(c, k, x, private) == Ok(plain);
  }

  /** n relays in order, each re-wrapping what it peeled in a packet of the same size. */
  function Forward(c: Provider, k: Codec, relays: seq<KeyResolver>, p: Packet, n: nat): Result<Packet, OnionError>
    requires n <= |relays|
  {
    if n == 0 then Ok(p)
    else match Forward(c, k, relays, p, n - 1)
      case Err(e) => Err(e)
      case Ok(q) =>
        match Peel(c, k, q, relays[n - 1], Some(n - 1))
        case Err(e) => Err(e)
        case Ok(peeled) => Ok(Packet(q.sizeClass, peeled.bytes))
  }

  /** The whole run: the first min(ttl, k) peels succeed in order; if the ttl is shorter than the
      path the next peel expires; after all k peels the bytes are the payload and zeros. */
  lemma {:induction false} OnionRun(c: Provider, k: Codec, j: Job, relays: seq<KeyResolver>, size: Option<int>, n: nat)
    requires Lawful(c) && CodecOk(k) && RelaysHoldKeys(c, j, relays) && KeysNamed(j)
    requires BuildFixed(Wrapped(c, k, j, 0), size).Ok? && n <= |j.path|
    ensures
      var p := BuildFixed(Wrapped(c, k, j, 0), size).value;
      && |Wrapped(c, k, j, n)| <= p.sizeClass
      && Forward(c, k, relays, p, n) == (if n <= j.ttl then Ok(PacketAt(c, k, j, p.sizeClass, n)) else Err(TtlExpired))
      && (n == |j.path| <= j.ttl ==> Forward(c, k, relays, p, n).value.payload == Padded(j.payload, p.sizeClass))
    decreases n
  {
    hide Peel, Padded, Wrapped, BuildFixed;
    var p := BuildFixed(Wrapped(c, k, j, 0), size).value;
    WrapFits(c, k, j, n);
    WrappedEnd(c, k, j);
    if n > 0 {
      OnionRun(c, k, j, relays, size, n - 1);
      PeelHop(c, k, j, relays, p.sizeClass, n - 1);
    }
  }
}
