/** One secure-channel session: what `encryptPayload` and `decryptPayload` do to it
    (`e2ee/SecureChannelManager.js`, `codec/EncryptEnvelopeCodec.js`,
    `codec/DecryptEnvelopeCodec.js`). */
module SecureChannel {
  import opened Basics
  import opened Crypto
  import opened SkippedKeys
  import opened Ratchet
  import Base64
  import Text

  /** The part of the outer envelope's header that the associated data covers. */
  datatype OuterHeader = OuterHeader(id: string, createdAt: int)

  /** The inner envelope: its header and the base64 of the payload in `body.raw`. */
  datatype Inner = Inner(id: string, createdAt: int, raw: string)

  datatype Envelope = Envelope(outer: OuterHeader, ratchet: Header, nonce: Bytes, ct: Bytes)

  /** The inner codec chain and the construction of the associated data. */
  datatype Framing = Framing(
    encodeInner: Inner -> Bytes,
    decodeInner: Bytes -> Option<Inner>,
    aad: (OuterHeader, Header) -> Bytes)

  ghost predicate Faithful(w: Framing) {
    forall e :: w.decodeInner(w.encodeInner(e)) == Some(e)
  }

  datatype AeadKey = AeadKey(key: Bytes, nonce: Bytes)

  function DhHash(c: Provider, dh: Option<Bytes>): Bytes {
    if dh.Some? then c.hash(dh.value) else Zeros(32)
  }

  function AeadInfo(c: Provider, sid: Bytes, pn: nat, n: nat, dh: Option<Bytes>): Bytes {
    Text.Ascii("rez-aead-v1") + sid + U32be(pn) + U32be(n) + DhHash(c, dh)
  }

  function DeriveAeadKeyNonce(c: Provider, mk: Bytes, sid: Bytes, pn: nat, n: nat, dh: Option<Bytes>): AeadKey {
    var out := c.hkdf(mk, [], AeadInfo(c, sid, pn, n, dh), 44);
    AeadKey(Sub(out, 0, 32), Sub(out, 32, 44))
  }

  /** The 44 derived bytes are the key and then the nonce. */
  lemma AeadSplits(c: Provider, mk: Bytes, sid: Bytes, pn: nat, n: nat, dh: Option<Bytes>)
    requires Lawful(c)
    ensures
      var k := DeriveAeadKeyNonce(c, mk, sid, pn, n, dh);
      |k.key| == 32 && |k.nonce| == 12 && k.key + k.nonce == c.hkdf(mk, [], AeadInfo(c, sid, pn, n, dh), 44)
  {
    hide AeadInfo;
  }

  /** Key and nonce together depend on the message key and on every part of the header they are derived
      from; the two counters enter modulo 2^32. */
  lemma AeadKeyBinds(
    c: Provider, mk: Bytes, sid: Bytes, pn: nat, n: nat, dh: Option<Bytes>,
    mk': Bytes, sid': Bytes, pn': nat, n': nat, dh': Option<Bytes>)
    requires Lawful(c) && Digests(c.hash)
    requires DeriveAeadKeyNonce(c, mk, sid, pn, n, dh) == DeriveAeadKeyNonce(c, mk', sid', pn', n', dh')
    requires NoHkdfCollision(c, KdfInput(mk, [], AeadInfo(c, sid, pn, n, dh)),
                             KdfInput(mk', [], AeadInfo(c, sid', pn', n', dh')), 44)
    ensures mk == mk' && sid == sid' && DhHash(c, dh) == DhHash(c, dh')
    ensures pn % 0x1_0000_0000 == pn' % 0x1_0000_0000 && n % 0x1_0000_0000 == n' % 0x1_0000_0000
  {
    hide AeadInfo, DeriveAeadKeyNonce, DhHash;
    AeadSplits(c, mk, sid, pn, n, dh);
    AeadSplits(c, mk', sid', pn', n', dh');
    InfoBinds(c, sid, pn, n, dh, sid', pn', n', dh');
  }

  lemma InfoBinds(
    c: Provider, sid: Bytes, pn: nat, n: nat, dh: Option<Bytes>, sid': Bytes, pn': nat, n': nat, dh': Option<Bytes>)
    requires Digests(c.hash) && AeadInfo(c, sid, pn, n, dh) == AeadInfo(c, sid', pn', n', dh')
    ensures sid == sid' && DhHash(c, dh) == DhHash(c, dh')
    ensures pn % 0x1_0000_0000 == pn' % 0x1_0000_0000 && n % 0x1_0000_0000 == n' % 0x1_0000_0000
  {
    hide U32be, Text.Ascii, DhHash;
    var prefix := Text.Ascii("rez-aead-v1");
    var x, y := AeadInfo(c, sid, pn, n, dh), AeadInfo(c, sid', pn', n', dh');
    LengthsOf(c, pn, n, dh);
    LengthsOf(c, pn', n', dh');
    InfoParts(prefix, sid, U32be(pn), U32be(n), DhHash(c, dh));
    InfoParts(prefix, sid', U32be(pn'), U32be(n'), DhHash(c, dh'));
    assert |x| == |y|;
    U32beBinds(pn, pn');
    U32beBinds(n, n');
  }

  lemma LengthsOf(c: Provider, pn: nat, n: nat, dh: Option<Bytes>)
    requires Digests(c.hash)
    ensures |U32be(pn)| == |U32be(n)| == 4 && |DhHash(c, dh)| == 32
  {
  }

  lemma InfoParts(prefix: Bytes, sid: Bytes, p: Bytes, q: Bytes, h: Bytes)
    requires |p| == |q| == 4 && |h| == 32
    ensures
      var all := prefix + sid + p + q + h;
      && |all| == |prefix| + |sid| + 40
      && all[|prefix|..|all| - 40] == sid && all[|all| - 40..|all| - 36] == p
      && all[|all| - 36..|all| - 32] == q && all[|all| - 32..] == h
  {
  }

  /** The value of a session record together with the contents of its store. */
  datatype Session = Session(sid: Bytes, core: Core, store: seq<Entry>, includeDh: bool)

  datatype Sent = Sent(envelope: Envelope, session: Session)

  /** The envelope codec: header from the state, key from the sending chain. */
  function Seal(c: Provider, w: Framing, core: Core, sid: Bytes, includeDh: bool, inner: Inner): Envelope
    requires core.sendingChain.Some?
  {
    var n := core.sendingChain.value.messageIndex;
    var pn := if core.receivingChain.Some? then core.receivingChain.value.messageIndex else 0;
    var dh := if includeDh then Some(core.self.publicKey) else None;
    var dhFmt := if |core.self.publicKey| == 32 then "raw" else "spki";
    var header := Header(sid, dh, dhFmt, pn, n);
    var outer := OuterHeader(inner.id, inner.createdAt);
    var aead := DeriveAeadKeyNonce(c, MessageKey(c, core.sendingChain.value.chainKey), sid, pn, n, dh);
    Envelope(outer, header, aead.nonce, c.seal(aead.key, aead.nonce, w.encodeInner(inner), w.aad(outer, header)))
  }

  /** A session without a sending chain first takes a DH step that establishes only that chain. */
  function Encrypt(c: Provider, w: Framing, s: Session, id: string, now: int, plaintext: Bytes): Sent {
    var lazy := s.core.sendingChain.None?;
    var core := if lazy then RatchetStep(c, s.core, s.core.remote, Sending) else s.core;
    var includeDh := lazy || s.includeDh;
    var envelope := Seal(c, w, core, s.sid, includeDh, Inner(id, now, Base64.Encode(plaintext)));
    var next := core.(sendingChain := Some(Advance(c, core.sendingChain.value)));
    Sent(envelope, s.(core := next, includeDh := false))
  }

  /** What an envelope tells of the session it comes from: its number is the chain's, which moves on by one;
      the ratchet key is in it exactly when it is due; and it carries the nonce it was sealed with. */
  lemma EnvelopeTells(c: Provider, w: Framing, s: Session, id: string, now: int, plaintext: Bytes)
    ensures
      var o := Encrypt(c, w, s, id, now, plaintext);
      var h, key, after := o.envelope.ratchet, s.core.self.publicKey, o.session.core;
      && h.sid == s.sid == o.session.sid && o.envelope.outer == OuterHeader(id, now)
      && after.sendingChain.Some? && after.sendingChain.value.messageIndex == h.n + 1
      && h.n == (if s.core.sendingChain.Some? then s.core.sendingChain.value.messageIndex else 0)
      && h.pn == (if after.receivingChain.Some? then after.receivingChain.value.messageIndex else 0)
      && after.receivingChain == s.core.receivingChain && o.session.store == s.store
      && h.dh == (if s.includeDh || s.core.sendingChain.None? then Some(key) else None)
      && (h.dhFmt == "raw" <==> |key| == 32) && (h.dhFmt == "spki" <==> |key| != 32)
      && (s.core.sendingChain.Some? ==>
            var mk := MessageKey(c, s.core.sendingChain.value.chainKey);
            var aead := DeriveAeadKeyNonce(c, mk, h.sid, h.pn, h.n, h.dh);
            && o.envelope.nonce == aead.nonce
            && c.seal(aead.key, aead.nonce, w.encodeInner(Inner(id, now, Base64.Encode(plaintext))),
                      w.aad(o.envelope.outer, h)) == o.envelope.ct)
  {
    var raw, spki := "raw", "spki";
    assert |raw| != |spki|;
    hide Base64.Encode;
  }

  datatype ChannelError =
    | NoSessionForPeer
    | UnknownSession
    | RatchetFailed(error: RatchetError)
    | AuthenticationFailed
    | InnerMalformed
    | PayloadMalformed

  /** A decrypted message, or the `null` that stands for an empty payload. */
  datatype Received = Payload(plaintext: Bytes) | Nothing

  datatype Opened = Opened(result: Result<Received, ChannelError>, session: Session)

  /** Opening the ciphertext under a derived message key. */
  function OpenWith(c: Provider, w: Framing, sid: Bytes, mk: Bytes, e: Envelope): Result<Inner, ChannelError> {
    var h := e.ratchet;
    var aead := DeriveAeadKeyNonce(c, mk, sid, h.pn, h.n, h.dh);
    if |e.ct| < 16 then Err(AuthenticationFailed)
    else match c.open(aead.key, aead.nonce, e.ct, w.aad(e.outer, h))
      case None => Err(AuthenticationFailed)
      case Some(bytes) =>
        match w.decodeInner(bytes)
        case None => Err(InnerMalformed)
        case Some(inner) => Ok(inner)
  }

  function PayloadOf(inner: Inner): Result<Received, ChannelError> {
    if inner.raw == "" then Ok(Nothing)
    else match Base64.Decode(inner.raw)
      case Err(_) => Err(PayloadMalformed)
      case Ok(bytes) => Ok(Payload(bytes))
  }

  /** A failure before `commit` leaves the old state in place, but not the old store. */
  function Decrypt(c: Provider, w: Framing, s: Session, e: Envelope): Opened {
    var o := Derive(c, s.core, s.store, e.ratchet, s.sid);
    var touched := s.(store := o.store);
    match o.result
    case Err(err) => Opened(Err(RatchetFailed(err)), touched)
    case Ok(d) =>
      match OpenWith(c, w, s.sid, d.messageKey, e)
      case Err(err) => Opened(Err(err), touched)
      case Ok(inner) => Opened(PayloadOf(inner), touched.(core := d.next))
  }

  // ---- what an envelope leaves behind

  /** The envelope was refused before the new state was committed. */
  predicate Unopened(r: Result<Received, ChannelError>) {
    r.Err? && r.error != PayloadMalformed
  }

  /** Whatever the envelope says, decrypting changes neither the session's name nor its announce flag,
      and as long as it does not open, nothing but the store. */
  lemma UnopenedKeepsState(c: Provider, w: Framing, s: Session, e: Envelope)
    ensures
      var o := Decrypt(c, w, s, e);
      && o.session.sid == s.sid && o.session.includeDh == s.includeDh
      && (Unopened(o.result) ==> o.session.core == s.core)
      && (!Unopened(o.result) ==>
            var d := Derive(c, s.core, s.store, e.ratchet, s.sid).result;
            d.Ok? && o.session.core == d.value.next)
  {
    hide Derive;
  }

  /** What a header does to the store, whether or not its envelope opens: a held key is taken out for
      good; otherwise, within the skip limit, the keys of the numbers passed over are filed, as far as
      the store limits let it. */
  ghost predicate Touched(c: Provider, s: Session, h: Header, after: seq<Entry>) {
    var m := Accept(c, s.core, h);
    if m.receivingChain.None? then after == s.store
    else
      var chain, hash := m.receivingChain.value, c.hash(m.remote);
      var slot := LookupKey(s.sid, hash, h.n);
      if Get(s.store, slot).Some? then
        Get(after, slot).None? && forall k :: k != slot ==> Get(after, k) == Get(s.store, k)
      else if h.n < chain.messageIndex || h.n - chain.messageIndex > m.limits.maxSkip then after == s.store
      else
        exists stop :: chain.messageIndex <= stop <= h.n && FiledUpTo(c, chain, s.sid, hash, stop, s.store, after)
  }

  lemma DecryptTouches(c: Provider, w: Framing, s: Session, e: Envelope)
    requires Keyed(s.store)
    ensures Touched(c, s, e.ratchet, Decrypt(c, w, s, e).session.store)
  {
    hide SkipTo, Get, Drop, OpenWith, PayloadOf, RatchetStep, LookupKey, Keyed, FiledUpTo;
    var h, m := e.ratchet, Accept(c, s.core, e.ratchet);
    if m.receivingChain.Some? {
      var chain, hash := m.receivingChain.value, c.hash(m.remote);
      var slot := LookupKey(s.sid, hash, h.n);
      if Get(s.store, slot).Some? {
        forall k ensures Get(Drop(s.store, slot), k) == if k == slot then None else Get(s.store, k) {
          DropGet(s.store, slot, k);
        }
      } else if chain.messageIndex <= h.n && h.n - chain.messageIndex <= m.limits.maxSkip {
        var stop := SkipLeaves(c, chain, m.limits, s.store, s.sid, hash, h.n);
      }
    }
  }

  // ---- the session manager: two maps that alias one record per session

  class SecureSessionRecord {
    const sid: Bytes
    const peerId: string
    var ratchetState: RatchetState
    var includeDh: bool

    constructor (sid: Bytes, peerId: string, ratchetState: RatchetState, includeDh: bool)
      ensures this.sid == sid && this.peerId == peerId
      ensures this.ratchetState == ratchetState && this.includeDh == includeDh
    {
      this.sid, this.peerId := sid, peerId;
      this.ratchetState, this.includeDh := ratchetState, includeDh;
    }

    ghost predicate Valid()
      reads this, ratchetState.skipped
    {
      ratchetState.skipped.Valid()
    }

    /** The session this record currently holds. */
    ghost function Value(): Session
      reads this, ratchetState.skipped
    {
      Session(sid, ratchetState.core, ratchetState.skipped.entries, includeDh)
    }
  }

  class SecureChannelManager {
    var bySid: map<Bytes, SecureSessionRecord>
    var byPeer: map<string, SecureSessionRecord>

    constructor ()
      ensures bySid == map[] && byPeer == map[]
    {
      bySid, byPeer := map[], map[];
    }

    /** Creating a session registers one fresh record under its id and its peer. */
    method CreateSession(c: Provider, peerId: string, sharedSecret: Bytes, core: Core) returns (sid: Bytes)
      modifies this
      ensures sid == c.hash(sharedSecret)
      ensures sid in bySid && peerId in byPeer && bySid[sid] == byPeer[peerId]
      ensures fresh(bySid[sid]) && fresh(bySid[sid].ratchetState.skipped)
      ensures bySid[sid].Valid() && bySid[sid].Value() == Session(sid, core, [], false)
      ensures bySid == old(bySid)[sid := bySid[sid]] && byPeer == old(byPeer)[peerId := bySid[sid]]
    {
      sid := c.hash(sharedSecret);
      var store := new SkippedKeyStore([]);
      var record := new SecureSessionRecord(sid, peerId, RatchetState(core, store), false);
      bySid := bySid[sid := record];
      byPeer := byPeer[peerId := record];
    }

    /** A fresh DH key pair, to be announced with the next message. */
    method RotateDh(peerId: string, keyPair: KeyPair) returns (r: Result<(), ChannelError>)
      requires peerId in byPeer ==> byPeer[peerId].Valid()
      modifies if peerId in byPeer then {byPeer[peerId]} else {}
      ensures r.Ok? <==> peerId in byPeer
      ensures r.Err? ==> r.error == NoSessionForPeer
      ensures peerId in byPeer ==>
                var s := old(byPeer[peerId].Value());
                && byPeer[peerId].Valid()
                && byPeer[peerId].ratchetState.skipped == old(byPeer[peerId].ratchetState.skipped)
                && byPeer[peerId].Value() == s.(core := s.core.(self := keyPair), includeDh := true)
    {
      if peerId !in byPeer {
        return Err(NoSessionForPeer);
      }
      var record := byPeer[peerId];
      record.ratchetState := record.ratchetState.(core := record.ratchetState.core.(self := keyPair));
      record.includeDh := true;
      return Ok(());
    }

    method EncryptPayload(c: Provider, w: Framing, peerId: string, id: string, now: int, plaintext: Bytes)
      returns (r: Result<Envelope, ChannelError>)
      requires peerId in byPeer ==> byPeer[peerId].Valid()
      modifies if peerId in byPeer then {byPeer[peerId]} else {}
      ensures r.Ok? <==> peerId in byPeer
      ensures r.Err? ==> r.error == NoSessionForPeer
      ensures r.Ok? ==>
                var record := byPeer[peerId];
                && record.Valid() && record.ratchetState.skipped == old(record.ratchetState.skipped)
                && Sent(r.value, record.Value()) == Encrypt(c, w, old(record.Value()), id, now, plaintext)
    {
      if peerId !in byPeer {
        return Err(NoSessionForPeer);
      }
      var record := byPeer[peerId];
      var core, includeDh := record.ratchetState.core, record.includeDh;
      if core.sendingChain.None? {
        core := RatchetStep(c, core, core.remote, Sending);
        includeDh := true;
      }
      var raw := Base64.BytesToBase64(plaintext);
      var envelope := Seal(c, w, core, record.sid, includeDh, Inner(id, now, raw));
      var next := core.(sendingChain := Some(Advance(c, core.sendingChain.value)));
      record.ratchetState := record.ratchetState.(core := next);
      record.includeDh := false;
      return Ok(envelope);
    }

    method DecryptPayload(c: Provider, w: Framing, e: Envelope) returns (r: Result<Received, ChannelError>)
      requires e.ratchet.sid in bySid ==> bySid[e.ratchet.sid].Valid() && bySid[e.ratchet.sid].sid == e.ratchet.sid
      modifies if e.ratchet.sid in bySid then {bySid[e.ratchet.sid], bySid[e.ratchet.sid].ratchetState.skipped} else {}
      ensures e.ratchet.sid !in bySid ==> r == Err(UnknownSession)
      ensures e.ratchet.sid in bySid ==>
                var record := bySid[e.ratchet.sid];
                && record.Valid() && record.ratchetState.skipped == old(record.ratchetState.skipped)
                && Opened(r, record.Value()) == Decrypt(c, w, old(record.Value()), e)
    {
      if e.ratchet.sid !in bySid {
        return Err(UnknownSession);
      }
      var record := bySid[e.ratchet.sid];
      var derived := DeriveReceivingKeyForHeader(c, record.ratchetState, e.ratchet, record.sid);
      if derived.Err? {
        return Err(RatchetFailed(derived.error));
      }
      var inner := OpenWith(c, w, record.sid, derived.value.messageKey, e);
      if inner.Err? {
        return Err(inner.error);
      }
      record.ratchetState := derived.value.nextState;
      if inner.value.raw == "" {
        return Ok(Nothing);
      }
      var bytes := Base64.Base64ToBytes(inner.value.raw);
      if bytes.Err? {
        return Err(PayloadMalformed);
      }
      return Ok(Payload(bytes.value));
    }
  }
}
