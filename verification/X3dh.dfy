/** X3DH key agreement with identity binding (`services/X3DHService.js`). */
module X3dh {
  import opened Basics
  import opened Crypto
  import opened Ratchet
  import JsInt
  import Text

  datatype Bundle = Bundle(
    receiverId: string,
    identitySigning: Bytes,
    identityDh: Bytes,
    identityDhSignature: Bytes,
    signedPreKey: Bytes,
    signedPreKeySignature: Bytes,
    oneTimePreKey: Option<Bytes>)

  datatype Handshake = Handshake(
    receiverId: string,
    senderSigning: Bytes,
    senderDh: Bytes,
    senderDhSignature: Bytes,
    ephemeral: Bytes,
    usedOneTimePreKey: bool)

  datatype X3dhError =
    | ShortKey
    | PreKeySignatureInvalid
    | IdentitySignatureInvalid
    | OwnBindingInvalid
    | SenderBindingInvalid
    | ReceiverMismatch
    | SecretRejected
    | OneTimeKeyMissing

  /** A usable DH output: 32 bytes, not all zero. */
  predicate SecretOk(b: Bytes) {
    |b| == 32 && exists i :: 0 <= i < |b| && b[i] != 0
  }

  /** The contributory check: OR all bytes together in constant time. */
  method AssertSecretBytes(b: Bytes) returns (ok: bool)
    ensures ok <==> SecretOk(b)
  {
    if |b| != 32 {
      return false;
    }
    var acc := 0;
    var i := 0;
    while i < |b|
      invariant 0 <= i <= |b| && 0 <= acc < 256
      invariant acc == 0 <==> forall j :: 0 <= j < i ==> b[j] == 0
    {
      JsInt.JsOrZero(acc, b[i]);
      acc := JsInt.JsOr(acc, b[i]);
      i := i + 1;
    }
    return acc != 0;
  }

  /** HKDF over the concatenated DH outputs, once every one of them passed the check. */
  function SecretFrom(c: Provider, dhs: seq<Bytes>): Result<Bytes, X3dhError> {
    if forall i :: 0 <= i < |dhs| ==> SecretOk(dhs[i])
    then Ok(c.hkdf(Concat(dhs), [], Text.Ascii("rez-x3dh-v2"), 32))
    else Err(SecretRejected)
  }

  function Concat(parts: seq<Bytes>): Bytes {
    if parts == [] then [] else parts[0] + Concat(parts[1..])
  }

  function CreateReceiverBundle(
    c: Provider, receiverId: string, signing: KeyPair, dh: KeyPair, preKey: KeyPair, oneTime: Option<KeyPair>): Bundle
  {
    Bundle(receiverId, signing.publicKey, dh.publicKey, c.sign(signing.privateKey, dh.publicKey),
           preKey.publicKey, c.sign(signing.privateKey, preKey.publicKey),
           if oneTime.Some? then Some(oneTime.value.publicKey) else None)
  }

  datatype Computed = Computed(handshake: Handshake, sharedSecret: Bytes)

  function InitiatorCompute(c: Provider, b: Bundle, signing: KeyPair, dh: KeyPair, dhSignature: Bytes, eph: KeyPair)
    : Result<Computed, X3dhError>
  {
    if |b.signedPreKey| < 32 || |b.identityDh| < 32 || (b.oneTimePreKey.Some? && |b.oneTimePreKey.value| < 32)
    then Err(ShortKey)
    else if !c.verify(b.identitySigning, b.signedPreKey, b.signedPreKeySignature) then Err(PreKeySignatureInvalid)
    else if !c.verify(b.identitySigning, b.identityDh, b.identityDhSignature) then Err(IdentitySignatureInvalid)
    else if !c.verify(signing.publicKey, dh.publicKey, dhSignature) then Err(OwnBindingInvalid)
    else
      var dh1 := c.dh(dh.privateKey, b.signedPreKey);
      var dh2 := c.dh(eph.privateKey, b.identityDh);
      var dh3 := c.dh(eph.privateKey, b.signedPreKey);
      var dh4 := if b.oneTimePreKey.Some? then [c.dh(eph.privateKey, b.oneTimePreKey.value)] else [];
      match SecretFrom(c, [dh1, dh2, dh3] + dh4)
      case Err(e) => Err(e)
      case Ok(secret) =>
        Ok(Computed(Handshake(b.receiverId, signing.publicKey, dh.publicKey, dhSignature, eph.publicKey,
                              b.oneTimePreKey.Some?), secret))
  }

  function ReceiverCompute(
    c: Provider, b: Bundle, dhPrivate: Bytes, preKeyPrivate: Bytes, oneTimePrivate: Option<Bytes>, h: Handshake)
    : Result<Bytes, X3dhError>
  {
    if |dhPrivate| < 32 || |preKeyPrivate| < 32 || |h.ephemeral| < 32 || |h.senderSigning| < 32 || |h.senderDh| < 32
    then Err(ShortKey)
    else if h.receiverId != b.receiverId then Err(ReceiverMismatch)
    else if !c.verify(h.senderSigning, h.senderDh, h.senderDhSignature) then Err(SenderBindingInvalid)
    else
      var dh1 := c.dh(preKeyPrivate, h.senderDh);
      var dh2 := c.dh(dhPrivate, h.ephemeral);
      var dh3 := c.dh(preKeyPrivate, h.ephemeral);
      var base := SecretFrom(c, [dh1, dh2, dh3]);
      if !h.usedOneTimePreKey then base
      else if base.Err? then base
      else if oneTimePrivate.None? then Err(OneTimeKeyMissing)
      else if |oneTimePrivate.value| < 32 then Err(ShortKey)
      else SecretFrom(c, [dh1, dh2, dh3] + [c.dh(oneTimePrivate.value, h.ephemeral)])
  }

  ghost predicate Paired(c: Provider, k: KeyPair) {
    k.publicKey == c.publicOf(k.privateKey) && |k.publicKey| >= 32 && |k.privateKey| >= 32
  }

  /** Agreement: whenever the initiator completes against a bundle the receiver made, the
      receiver completes with the very same shared secret. */
  lemma Agreement(c: Provider, receiverId: string, signing: KeyPair, dh: KeyPair, preKey: KeyPair,
                  oneTime: Option<KeyPair>,
                  iSigning: KeyPair, iDh: KeyPair, iDhSignature: Bytes, eph: KeyPair)
    requires Lawful(c)
    requires Paired(c, dh) && Paired(c, preKey) && (oneTime.Some? ==> Paired(c, oneTime.value))
    requires Paired(c, iDh) && Paired(c, eph) && |iSigning.publicKey| >= 32
    ensures
      var b := CreateReceiverBundle(c, receiverId, signing, dh, preKey, oneTime);
      var i := InitiatorCompute(c, b, iSigning, iDh, iDhSignature, eph);
      i.Ok? ==>
        ReceiverCompute(c, b, dh.privateKey, preKey.privateKey,
                        if oneTime.Some? then Some(oneTime.value.privateKey) else None, i.value.handshake)
        == Ok(i.value.sharedSecret)
  {
    var b := CreateReceiverBundle(c, receiverId, signing, dh, preKey, oneTime);
    var i := InitiatorCompute(c, b, iSigning, iDh, iDhSignature, eph);
    if i.Ok? {
      var dh1, dh2, dh3 := c.dh(iDh.privateKey, b.signedPreKey), c.dh(eph.privateKey, b.identityDh),
        c.dh(eph.privateKey, b.signedPreKey);
      assert dh1 == c.dh(preKey.privateKey, iDh.publicKey);
      assert dh2 == c.dh(dh.privateKey, eph.publicKey);
      assert dh3 == c.dh(preKey.privateKey, eph.publicKey);
      assert [dh1, dh2, dh3] + [] == [dh1, dh2, dh3];
      if oneTime.Some? {
        var dh4 := c.dh(eph.privateKey, oneTime.value.publicKey);
        assert dh4 == c.dh(oneTime.value.privateKey, eph.publicKey);
        var all := [dh1, dh2, dh3] + [dh4];
        assert all[0] == dh1 && all[1] == dh2 && all[2] == dh3;
      }
    }
  }

  /** The initiator itself completes exactly when its own binding verifies and no DH output is
      degenerate. */
  lemma InitiatorCompletes(
    c: Provider, receiverId: string, signing: KeyPair, dh: KeyPair, preKey: KeyPair, oneTime: Option<KeyPair>,
    iSigning: KeyPair, iDh: KeyPair, iDhSignature: Bytes, eph: KeyPair)
    requires Lawful(c) && signing.publicKey == c.signingPublicOf(signing.privateKey)
    requires Paired(c, dh) && Paired(c, preKey) && (oneTime.Some? ==> Paired(c, oneTime.value))
    ensures
      var b := CreateReceiverBundle(c, receiverId, signing, dh, preKey, oneTime);
      InitiatorCompute(c, b, iSigning, iDh, iDhSignature, eph).Ok? <==>
        && c.verify(iSigning.publicKey, iDh.publicKey, iDhSignature)
        && SecretOk(c.dh(iDh.privateKey, preKey.publicKey))
        && SecretOk(c.dh(eph.privateKey, dh.publicKey))
        && SecretOk(c.dh(eph.privateKey, preKey.publicKey))
        && (oneTime.Some? ==> SecretOk(c.dh(eph.privateKey, oneTime.value.publicKey)))
  {
    hide SecretOk;
    var s1, s2 := c.dh(iDh.privateKey, preKey.publicKey), c.dh(eph.privateKey, dh.publicKey);
    var s3 := c.dh(eph.privateKey, preKey.publicKey);
    var more := if oneTime.Some? then [c.dh(eph.privateKey, oneTime.value.publicKey)] else [];
    var all := [s1, s2, s3] + more;
    assert all[0] == s1 && all[1] == s2 && all[2] == s3;
    assert oneTime.Some? ==> all[3] == more[0];
  }

  // ---- what the secret depends on

  /** One computation of a shared secret, with the keys it is made of. */
  datatype Run =
    | AsInitiator(bundle: Bundle, signing: KeyPair, dh: KeyPair, dhSignature: Bytes, eph: KeyPair)
    | AsReceiver(bundle: Bundle, dhPrivate: Bytes, preKeyPrivate: Bytes, oneTimePrivate: Option<Bytes>,
                 handshake: Handshake)

  function SecretOf(c: Provider, x: Run): Result<Bytes, X3dhError> {
    match x
    case AsInitiator(b, signing, dh, dhSignature, eph) =>
      (match InitiatorCompute(c, b, signing, dh, dhSignature, eph)
       case Ok(computed) => Ok(computed.sharedSecret)
       case Err(e) => Err(e))
    case AsReceiver(b, dhPrivate, preKeyPrivate, oneTimePrivate, h) =>
      ReceiverCompute(c, b, dhPrivate, preKeyPrivate, oneTimePrivate, h)
  }

  /** The initiator's identity key with the receiver's signed prekey. */
  function Dh1(c: Provider, x: Run): Bytes {
    if x.AsInitiator? then c.dh(x.dh.privateKey, x.bundle.signedPreKey)
    else c.dh(x.preKeyPrivate, x.handshake.senderDh)
  }

  /** The initiator's ephemeral key with the receiver's identity key. */
  function Dh2(c: Provider, x: Run): Bytes {
    if x.AsInitiator? then c.dh(x.eph.privateKey, x.bundle.identityDh)
    else c.dh(x.dhPrivate, x.handshake.ephemeral)
  }

  /** The initiator's ephemeral key with the receiver's signed prekey. */
  function Dh3(c: Provider, x: Run): Bytes {
    if x.AsInitiator? then c.dh(x.eph.privateKey, x.bundle.signedPreKey)
    else c.dh(x.preKeyPrivate, x.handshake.ephemeral)
  }

  /** The initiator's ephemeral key with the receiver's one-time prekey, when there is one. */
  function Dh4(c: Provider, x: Run): Option<Bytes> {
    match x
    case AsInitiator(b, _, _, _, eph) =>
      if b.oneTimePreKey.Some? then Some(c.dh(eph.privateKey, b.oneTimePreKey.value)) else None
    case AsReceiver(_, _, _, oneTimePrivate, h) =>
      if h.usedOneTimePreKey && oneTimePrivate.Some? then Some(c.dh(oneTimePrivate.value, h.ephemeral)) else None
  }

  /** dh1 || dh2 || dh3 [|| dh4] */
  function Ikm(c: Provider, x: Run): Bytes {
    Dh1(c, x) + Dh2(c, x) + Dh3(c, x) + (match Dh4(c, x) case Some(d) => d case None => [])
  }

  ghost predicate Usable(c: Provider, x: Run) {
    && SecretOk(Dh1(c, x)) && SecretOk(Dh2(c, x)) && SecretOk(Dh3(c, x))
    && (Dh4(c, x).Some? ==> SecretOk(Dh4(c, x).value))
  }

  /** What must hold of the keys and signatures, apart from the agreement outputs. */
  ghost predicate Presented(c: Provider, x: Run) {
    match x
    case AsInitiator(b, signing, dh, dhSignature, _) =>
      && |b.signedPreKey| >= 32 && |b.identityDh| >= 32
      && (b.oneTimePreKey.Some? ==> |b.oneTimePreKey.value| >= 32)
      && c.verify(b.identitySigning, b.signedPreKey, b.signedPreKeySignature)
      && c.verify(b.identitySigning, b.identityDh, b.identityDhSignature)
      && c.verify(signing.publicKey, dh.publicKey, dhSignature)
    case AsReceiver(b, dhPrivate, preKeyPrivate, oneTimePrivate, h) =>
      && |dhPrivate| >= 32 && |preKeyPrivate| >= 32
      && |h.ephemeral| >= 32 && |h.senderSigning| >= 32 && |h.senderDh| >= 32
      && h.receiverId == b.receiverId
      && c.verify(h.senderSigning, h.senderDh, h.senderDhSignature)
      && (h.usedOneTimePreKey ==> oneTimePrivate.Some? && |oneTimePrivate.value| >= 32)
  }

  /** Either side completes exactly when every key is long enough, every signature it has to check
      verifies, the one-time key that was used is there and no agreement output is degenerate. The secret
      is then derived from all three or four outputs in their order. */
  lemma CompletesExactly(c: Provider, x: Run)
    ensures SecretOf(c, x).Ok? <==> Presented(c, x) && Usable(c, x)
    ensures SecretOf(c, x).Ok? ==> SecretOf(c, x).value == c.hkdf(Ikm(c, x), [], Text.Ascii("rez-x3dh-v2"), 32)
  {
    hide SecretOk;
    var dhs := [Dh1(c, x), Dh2(c, x), Dh3(c, x)];
    SecretOfThree(c, dhs[0], dhs[1], dhs[2]);
    assert dhs + [] == dhs;
    if Dh4(c, x).Some? {
      SecretOfFour(c, dhs[0], dhs[1], dhs[2], Dh4(c, x).value);
    }
  }

  lemma SecretOfThree(c: Provider, x: Bytes, y: Bytes, z: Bytes)
    ensures SecretFrom(c, [x, y, z]).Ok? <==> SecretOk(x) && SecretOk(y) && SecretOk(z)
    ensures SecretFrom(c, [x, y, z]).Ok? ==>
      SecretFrom(c, [x, y, z]).value == c.hkdf(x + y + z + [], [], Text.Ascii("rez-x3dh-v2"), 32)
  {
    hide SecretOk, Text.Ascii;
    var all := [x, y, z];
    assert all[0] == x && all[1] == y && all[2] == z;
    assert all[1..] == [y, z] && [y, z][1..] == [z] && [z][1..] == [];
    assert Concat([z]) == z + Concat([]) && Concat([y, z]) == y + Concat([z]);
    assert x + (y + (z + [])) == x + y + z + [];
  }

  lemma SecretOfFour(c: Provider, x: Bytes, y: Bytes, z: Bytes, d: Bytes)
    ensures SecretFrom(c, [x, y, z] + [d]).Ok? <==> SecretOk(x) && SecretOk(y) && SecretOk(z) && SecretOk(d)
    ensures SecretFrom(c, [x, y, z] + [d]).Ok? ==>
      SecretFrom(c, [x, y, z] + [d]).value == c.hkdf(x + y + z + d, [], Text.Ascii("rez-x3dh-v2"), 32)
  {
    hide SecretOk, Text.Ascii;
    var all := [x, y, z] + [d];
    assert all == [x, y, z, d];
    assert all[0] == x && all[1] == y && all[2] == z && all[3] == d;
    assert all[1..] == [y, z, d] && [y, z, d][1..] == [z, d] && [z, d][1..] == [d] && [d][1..] == [];
    assert Concat([d]) == d + Concat([]) && Concat([z, d]) == z + Concat([d]);
    assert Concat([y, z, d]) == y + Concat([z, d]);
    assert x + (y + (z + (d + []))) == x + y + z + d;
  }

  /** The secret depends on every agreement output: two computations, of either side, that complete with
      one secret, and on whose concatenations the key derivation does not collide, have equal outputs
      throughout and agree on whether a one-time key was used. In particular nobody reaches an
      initiator's secret without the output that takes its identity key. */
  lemma SecretBinds(c: Provider, x: Run, y: Run)
    requires SecretOf(c, x).Ok? && SecretOf(c, y) == SecretOf(c, x)
    requires
      var info := Text.Ascii("rez-x3dh-v2");
      NoHkdfCollision(c, KdfInput(Ikm(c, x), [], info), KdfInput(Ikm(c, y), [], info), 32)
    ensures Dh1(c, x) == Dh1(c, y) && Dh2(c, x) == Dh2(c, y) && Dh3(c, x) == Dh3(c, y) && Dh4(c, x) == Dh4(c, y)
  {
    hide SecretOf, Presented, Text.Ascii, Dh1, Dh2, Dh3, Dh4;
    CompletesExactly(c, x);
    CompletesExactly(c, y);
    OutputsOf(c, x);
    OutputsOf(c, y);
  }

  lemma OutputsOf(c: Provider, x: Run)
    requires Usable(c, x)
    ensures
      var k := Ikm(c, x);
      && |k| == (if Dh4(c, x).Some? then 128 else 96)
      && k[..32] == Dh1(c, x) && k[32..64] == Dh2(c, x) && k[64..96] == Dh3(c, x)
      && (Dh4(c, x).Some? ==> k[96..] == Dh4(c, x).value)
  {
    hide Dh1, Dh2, Dh3, Dh4;
  }
}

/** From the handshake to the two sessions (`establishInitiatorSession`,
    `establishResponderSession` of `e2ee/SecureChannelManager.js`). */
module Establish {
  import opened Basics
  import opened Crypto
  import opened Ratchet
  import opened SecureChannel
  import opened X3dh
  import Channel

  datatype Invite = Invite(handshake: Handshake, initiatorDh: Bytes)

  function InitiatorSession(c: Provider, secret: Bytes, self: KeyPair, b: Bundle): Session {
    Session(c.hash(secret), InitializeAsInitiator(secret, self, b.signedPreKey), [], false)
  }

  /** The responder's session after `rotateDh`: a fresh key pair, to be announced. */
  function ResponderSession(c: Provider, secret: Bytes, rotated: KeyPair, remote: Bytes): Session {
    Session(c.hash(secret), InitializeAsResponder(secret, rotated, remote), [], true)
  }

  /** One record is found under the session id and under the peer; every other entry is as before. */
  ghost predicate Registered(
    m: SecureChannelManager, bySid: map<Bytes, SecureSessionRecord>, byPeer: map<string, SecureSessionRecord>,
    sid: Bytes, peerId: string)
    reads m
  {
    && sid in m.bySid && peerId in m.byPeer && m.bySid[sid] == m.byPeer[peerId] && m.bySid[sid].sid == sid
    && m.bySid == bySid[sid := m.bySid[sid]] && m.byPeer == byPeer[peerId := m.byPeer[peerId]]
  }

  method EstablishInitiatorSession(m: SecureChannelManager, c: Provider, peerId: string, b: Bundle,
                                   signing: KeyPair, dh: KeyPair, dhSignature: Bytes, eph: KeyPair, self: KeyPair)
    returns (r: Result<Invite, X3dhError>)
    modifies m
    ensures
      var x := InitiatorCompute(c, b, signing, dh, dhSignature, eph);
      && (x.Err? ==> r == Err(x.error) && m.byPeer == old(m.byPeer) && m.bySid == old(m.bySid))
      && (x.Ok? ==>
            && r == Ok(Invite(x.value.handshake, self.publicKey))
            && Registered(m, old(m.bySid), old(m.byPeer), c.hash(x.value.sharedSecret), peerId)
            && m.byPeer[peerId].Valid() && fresh(m.byPeer[peerId]) && fresh(m.byPeer[peerId].ratchetState.skipped)
            && m.byPeer[peerId].Value() == InitiatorSession(c, x.value.sharedSecret, self, b))
  {
    var x := InitiatorCompute(c, b, signing, dh, dhSignature, eph);
    if x.Err? {
      return Err(x.error);
    }
    var secret := x.value.sharedSecret;
    var _ := m.CreateSession(c, peerId, secret, InitializeAsInitiator(secret, self, b.signedPreKey));
    return Ok(Invite(x.value.handshake, self.publicKey));
  }

  method EstablishResponderSession(m: SecureChannelManager, c: Provider, peerId: string, b: Bundle,
                                   dhPrivate: Bytes, preKeyPrivate: Bytes, invite: Invite, self: KeyPair,
                                   rotated: KeyPair)
    returns (r: Result<Bytes, X3dhError>)
    modifies m
    ensures
      var x := ReceiverCompute(c, b, dhPrivate, preKeyPrivate, None, invite.handshake);
      && (x.Err? ==> r == Err(x.error) && m.byPeer == old(m.byPeer) && m.bySid == old(m.bySid))
      && (x.Ok? ==>
            && r == Ok(c.hash(x.value))
            && Registered(m, old(m.bySid), old(m.byPeer), c.hash(x.value), peerId)
            && m.byPeer[peerId].Valid() && fresh(m.byPeer[peerId]) && fresh(m.byPeer[peerId].ratchetState.skipped)
            && m.byPeer[peerId].Value() == ResponderSession(c, x.value, rotated, invite.initiatorDh))
  {
    var x := ReceiverCompute(c, b, dhPrivate, preKeyPrivate, None, invite.handshake);
    if x.Err? {
      return Err(x.error);
    }
    var sid := m.CreateSession(c, peerId, x.value, InitializeAsResponder(x.value, self, invite.initiatorDh));
    var _ := m.RotateDh(peerId, rotated);
    return Ok(sid);
  }

  /** An honest handshake leaves both ends exactly in the initial state of the channel runs. */
  lemma HandshakeStartsChannel(c: Provider, receiverId: string, signing: KeyPair, dh: KeyPair, preKey: KeyPair,
                               iSigning: KeyPair, iDh: KeyPair, iDhSignature: Bytes, eph: KeyPair, a: KeyPair,
                               b: KeyPair)
    requires Lawful(c) && Paired(c, dh) && Paired(c, preKey)
    requires Paired(c, iDh) && Paired(c, eph) && |iSigning.publicKey| >= 32
    requires InitiatorCompute(c, CreateReceiverBundle(c, receiverId, signing, dh, preKey, None), iSigning, iDh,
      iDhSignature, eph).Ok?
    ensures
      var bundle := CreateReceiverBundle(c, receiverId, signing, dh, preKey, None);
      var x := InitiatorCompute(c, bundle, iSigning, iDh, iDhSignature, eph).value;
      var y := ReceiverCompute(c, bundle, dh.privateKey, preKey.privateKey, None, x.handshake);
      var start := Channel.Initial(c, Channel.Setup(x.sharedSecret, a, b, preKey.publicKey, DEFAULT_LIMITS));
      && y == Ok(x.sharedSecret)
      && start.initiator.session == InitiatorSession(c, x.sharedSecret, a, bundle)
      && start.responder.session == ResponderSession(c, y.value, b, a.publicKey)
  {
    Agreement(c, receiverId, signing, dh, preKey, None, iSigning, iDh, iDhSignature, eph);
  }
}
