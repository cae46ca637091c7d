/** Two parties after a completed handshake, a network that may lose, repeat, delay and reorder their
    messages and slip in envelopes of its own that do not open, and what holds in every run. */
module Channel {
  import opened Basics
  import opened Crypto
  import opened SkippedKeys
  import opened Ratchet
  import opened SecureChannel
  import L = Lane
  import Base64

  /** What the handshake leaves behind: the shared secret, the initiator's ratchet key a, the
      responder's ratchet key b after `rotateDh`, and the prekey the initiator addressed. */
  datatype Setup = Setup(secret: Bytes, a: KeyPair, b: KeyPair, preKey: Bytes, limits: Limits)

  /** Key pairs are matched; the responder's ratchet key differs from both keys it could be
      mistaken for. */
  ghost predicate FreshKeys(c: Provider, u: Setup) {
    && u.a.publicKey == c.publicOf(u.a.privateKey)
    && u.b.publicKey == c.publicOf(u.b.privateKey)
    && u.b.publicKey != u.a.publicKey
    && u.b.publicKey != u.preKey
  }

  datatype Packet = Packet(envelope: Envelope, payload: Bytes)

  /** One end: its session, what it sent, the peer's messages it accepted (in order), whether a store
      limit ever made a delivery fail, and whether an envelope nobody sent ever arrived. */
  datatype End = End(session: Session, sent: seq<Packet>, got: seq<nat>, limited: bool, disturbed: bool)

  datatype System = System(initiator: End, responder: End)

  datatype Party = Initiator | Responder

  datatype Action =
    | Send(from: Party, id: string, now: int, payload: Bytes)
    | Deliver(to: Party, j: nat)
    | Inject(to: Party, e: Envelope)

  function Initial(c: Provider, u: Setup): System {
    var sid := c.hash(u.secret);
    var i := InitializeAsInitiator(u.secret, u.a, u.preKey).(limits := u.limits);
    var r := InitializeAsResponder(u.secret, u.b, u.a.publicKey).(limits := u.limits);
    System(End(Session(sid, i, [], false), [], [], false, false),
           End(Session(sid, r, [], true), [], [], false, false))
  }

  function SendAt(c: Provider, w: Framing, e: End, id: string, now: int, payload: Bytes): End {
    var s := Encrypt(c, w, e.session, id, now, payload);
    e.(session := s.session, sent := e.sent + [Packet(s.envelope, payload)])
  }

  predicate HitStoreLimit(r: Result<Received, ChannelError>) {
    r.Err? && r.error.RatchetFailed? && r.error.error.StoreLimitExceeded?
  }

  function DeliverAt(c: Provider, w: Framing, e: End, p: Packet, j: nat): End {
    var o := Decrypt(c, w, e.session, p.envelope);
    e.(session := o.session,
       got := if o.result.Ok? then e.got + [j] else e.got,
       limited := e.limited || HitStoreLimit(o.result))
  }

  function EndOf(y: System, p: Party): End {
    if p == Initiator then y.initiator else y.responder
  }

  function PeerOf(y: System, p: Party): End {
    if p == Initiator then y.responder else y.initiator
  }

  /** An envelope that does not open, and does not announce a key whose hash collides with the hash of
      the peer's ratchet key. */
  predicate Admissible(c: Provider, w: Framing, y: System, to: Party, e: Envelope) {
    var key := PeerOf(y, to).session.core.self.publicKey;
    && Unopened(Decrypt(c, w, EndOf(y, to).session, e).result)
    && (e.ratchet.dh.Some? && e.ratchet.dh.value != key ==> c.hash(e.ratchet.dh.value) != c.hash(key))
  }

  function InjectAt(c: Provider, w: Framing, end: End, e: Envelope): End {
    end.(session := Decrypt(c, w, end.session, e).session, disturbed := true)
  }

  /** Any message ever sent to a party may be delivered, and any envelope that does not open may be
      slipped in, at any time and any number of times. */
  function Step(c: Provider, w: Framing, y: System, act: Action): System {
    match act
    case Send(Initiator, id, now, payload) => y.(initiator := SendAt(c, w, y.initiator, id, now, payload))
    case Send(Responder, id, now, payload) => y.(responder := SendAt(c, w, y.responder, id, now, payload))
    case Deliver(Initiator, j) =>
      if j < |y.responder.sent| then y.(initiator := DeliverAt(c, w, y.initiator, y.responder.sent[j], j)) else y
    case Deliver(Responder, j) =>
      if j < |y.initiator.sent| then y.(responder := DeliverAt(c, w, y.responder, y.initiator.sent[j], j)) else y
    case Inject(Initiator, e) =>
      if Admissible(c, w, y, Initiator, e) then y.(initiator := InjectAt(c, w, y.initiator, e)) else y
    case Inject(Responder, e) =>
      if Admissible(c, w, y, Responder, e) then y.(responder := InjectAt(c, w, y.responder, e)) else y
  }

  function Run(c: Provider, w: Framing, y: System, acts: seq<Action>): System {
    if acts == [] then y else Step(c, w, Run(c, w, y, acts[..|acts| - 1]), acts[|acts| - 1])
  }

  // ---- the invariant

  function Forward(c: Provider, u: Setup): L.Lane {
    L.Lane(u.secret, c.hash(u.secret), c.hash(u.a.publicKey))
  }

  /** Base key of the responder's sending chain: its half of the DH step with the initiator. */
  function ReplyBase(c: Provider, u: Setup): Bytes {
    var keys := DeriveRootKey(c, u.secret, c.dh(u.b.privateKey, u.a.publicKey));
    if Compare(u.b.publicKey, u.a.publicKey) < 0 then keys.sendingChainKey else keys.receivingChainKey
  }

  function Backward(c: Provider, u: Setup): L.Lane {
    L.Lane(ReplyBase(c, u), c.hash(u.secret), c.hash(u.b.publicKey))
  }

  /** Packet number j of a lane, sealed under the sender's key for j. */
  ghost predicate Stamped(c: Provider, w: Framing, lane: L.Lane, j: nat, dh: Option<Bytes>, p: Packet) {
    var e := p.envelope;
    var h := e.ratchet;
    var aead := DeriveAeadKeyNonce(c, L.KeyOf(c, lane, j), lane.sid, h.pn, h.n, h.dh);
    && h.n == j && h.sid == lane.sid && h.dh == dh && e.nonce == aead.nonce
    && e.ct == c.seal(aead.key, aead.nonce,
                      w.encodeInner(Inner(e.outer.id, e.outer.createdAt, Base64.Encode(p.payload))),
                      w.aad(e.outer, h))
  }

  /** No foreign envelope can have touched the store. */
  predicate Calm(e: End) {
    !e.disturbed || !L.Files(e.session.core.limits)
  }

  /** Nor can a store-limit error have left a key behind. */
  predicate Settled(e: End) {
    Calm(e) && (!e.limited || !L.Strands(e.session.core.limits))
  }

  ghost predicate LaneOk(c: Provider, lane: L.Lane, sent: nat, chain: Chain, e: End) {
    && L.Following(c, lane, sent, chain, e.session.store, e.session.core.limits)
    && (!L.Files(e.session.core.limits) ==> e.session.store == [])
    && (Calm(e) ==> L.Receiving(c, lane, sent, chain, e.session.store, e.session.core.limits))
    && (Settled(e) ==> L.Exact(lane, chain, e.session.store, e.got))
  }

  function Announced(u: Setup, j: nat): Option<Bytes> {
    if j == 0 then Some(u.b.publicKey) else None
  }

  ghost predicate PacketsOk(c: Provider, w: Framing, u: Setup, y: System) {
    && (forall j :: 0 <= j < |y.initiator.sent| ==> Stamped(c, w, Forward(c, u), j, None, y.initiator.sent[j]))
    && (forall j :: 0 <= j < |y.responder.sent| ==>
          Stamped(c, w, Backward(c, u), j, Announced(u, j), y.responder.sent[j]))
  }

  /** The initiator has not yet heard from the responder. */
  ghost predicate Waiting(u: Setup, e: End) {
    && e.session.core.receivingChain.None? && e.session.core.remote == u.preKey
    && e.session.core.rootKey == u.secret && e.got == []
  }

  /** The chain the initiator has, or will have once message 0 announces it. */
  function ReplyChain(c: Provider, u: Setup, e: End): Chain {
    if e.session.core.receivingChain.Some? then e.session.core.receivingChain.value
    else L.ChainAt(c, ReplyBase(c, u), 0)
  }

  ghost predicate InitiatorOk(c: Provider, u: Setup, y: System) {
    var e := y.initiator;
    var core := e.session.core;
    && e.session.sid == c.hash(u.secret) && !e.session.includeDh
    && core.self == u.a && core.limits == u.limits
    && core.sendingChain == Some(L.ChainAt(c, u.secret, |e.sent|))
    && (Waiting(u, e) || (core.remote == u.b.publicKey && core.receivingChain.Some? && y.responder.sent != []))
    && LaneOk(c, Backward(c, u), |y.responder.sent|, ReplyChain(c, u, e), e)
  }

  ghost predicate ResponderOk(c: Provider, u: Setup, y: System) {
    var e := y.responder;
    var core := e.session.core;
    && e.session.sid == c.hash(u.secret)
    && core.self == u.b && core.limits == u.limits && core.remote == u.a.publicKey
    && core.receivingChain.Some?
    && LaneOk(c, Forward(c, u), |y.initiator.sent|, core.receivingChain.value, e)
    && (if core.sendingChain.None? then e.sent == [] && e.session.includeDh && core.rootKey == u.secret
        else core.sendingChain == Some(L.ChainAt(c, ReplyBase(c, u), |e.sent|)) && e.sent != [] && !e.session.includeDh)
  }

  ghost predicate Inv(c: Provider, w: Framing, u: Setup, y: System) {
    InitiatorOk(c, u, y) && ResponderOk(c, u, y) && PacketsOk(c, w, u, y)
  }

  lemma InitialInv(c: Provider, w: Framing, u: Setup)
    ensures Inv(c, w, u, Initial(c, u))
  {
  }

  // ---- sending

  lemma SealStamped(c: Provider, w: Framing, s: Session, lane: L.Lane, j: nat, id: string, now: int, payload: Bytes)
    requires s.sid == lane.sid && s.core.sendingChain == Some(L.ChainAt(c, lane.base, j))
    ensures
      var o := Encrypt(c, w, s, id, now, payload);
      && Stamped(c, w, lane, j, if s.includeDh then Some(s.core.self.publicKey) else None, Packet(o.envelope, payload))
      && o.session == s.(core := s.core.(sendingChain := Some(L.ChainAt(c, lane.base, j + 1))), includeDh := false)
  {
  }

  /** The responder's first message: one DH step, which leaves its receiving chain alone. */
  lemma LazySend(c: Provider, w: Framing, u: Setup, s: Session, id: string, now: int, payload: Bytes)
    requires s.sid == c.hash(u.secret) && s.core.self == u.b && s.core.remote == u.a.publicKey
    requires s.core.sendingChain.None? && s.core.rootKey == u.secret
    ensures
      var o := Encrypt(c, w, s, id, now, payload);
      && Stamped(c, w, Backward(c, u), 0, Some(u.b.publicKey), Packet(o.envelope, payload))
      && o.session.core.sendingChain == Some(L.ChainAt(c, ReplyBase(c, u), 1))
      && o.session.core.receivingChain == s.core.receivingChain
      && o.session.core.remote == s.core.remote && o.session.core.self == s.core.self
      && o.session.core.limits == s.core.limits && !o.session.includeDh
      && o.session.store == s.store && o.session.sid == s.sid
  {
    var stepped := RatchetStep(c, s.core, s.core.remote, Sending);
    assert stepped.sendingChain == Some(L.ChainAt(c, ReplyBase(c, u), 0));
    SealStamped(c, w, s.(core := stepped, includeDh := true), Backward(c, u), 0, id, now, payload);
  }

  lemma LaneGrows(c: Provider, lane: L.Lane, sent: nat, chain: Chain, e: End)
    requires LaneOk(c, lane, sent, chain, e)
    ensures LaneOk(c, lane, sent + 1, chain, e)
  {
    hide L.Trusty;
    if Calm(e) { L.FiledMonotone(c, lane, sent, sent + 1, e.session.store); }
  }

  lemma InitiatorSends(c: Provider, w: Framing, u: Setup, y: System, id: string, now: int, payload: Bytes)
    requires Inv(c, w, u, y)
    ensures Inv(c, w, u, Step(c, w, y, Send(Initiator, id, now, payload)))
  {
    hide Encrypt, Stamped, L.Receiving, L.Following, L.Exact, ReplyBase, L.ChainAt, DeliverAt;
    var y' := Step(c, w, y, Send(Initiator, id, now, payload));
    SealStamped(c, w, y.initiator.session, Forward(c, u), |y.initiator.sent|, id, now, payload);
    LaneGrows(c, Forward(c, u), |y.initiator.sent|, y.responder.session.core.receivingChain.value, y.responder);
    assert InitiatorOk(c, u, y');
    assert ResponderOk(c, u, y');
    assert PacketsOk(c, w, u, y');
  }

  lemma ResponderSends(c: Provider, w: Framing, u: Setup, y: System, id: string, now: int, payload: Bytes)
    requires Inv(c, w, u, y)
    ensures Inv(c, w, u, Step(c, w, y, Send(Responder, id, now, payload)))
  {
    hide Encrypt, Stamped, L.Receiving, L.Following, L.Exact, ReplyBase, L.ChainAt, DeliverAt;
    var y' := Step(c, w, y, Send(Responder, id, now, payload));
    var s, n := y.responder.session, |y.responder.sent|;
    if s.core.sendingChain.None? {
      LazySend(c, w, u, s, id, now, payload);
    } else {
      SealStamped(c, w, s, Backward(c, u), n, id, now, payload);
    }
    LaneGrows(c, Backward(c, u), n, ReplyChain(c, u, y.initiator), y.initiator);
    assert Stamped(c, w, Backward(c, u), n, Announced(u, n), y'.responder.sent[n]);
    assert ResponderOk(c, u, y');
    assert PacketsOk(c, w, u, y');
    assert InitiatorOk(c, u, y');
  }

  // ---- delivering

  /** What a payload looks like to the receiver: the empty one is reported as nothing. */
  function Shown(payload: Bytes): Received {
    if payload == [] then Nothing else Payload(payload)
  }

  lemma OpenStamped(c: Provider, w: Framing, lane: L.Lane, j: nat, dh: Option<Bytes>, p: Packet)
    requires Lawful(c) && Faithful(w) && Stamped(c, w, lane, j, dh, p)
    ensures
      var o := OpenWith(c, w, lane.sid, L.KeyOf(c, lane, j), p.envelope);
      o.Ok? && PayloadOf(o.value) == Ok(Shown(p.payload))
  {
    Base64.DecodeEncode(p.payload);
  }

  /** A genuine packet at an end whose receiving chain is in place (possibly by this header). */
  lemma DeliverStamped(c: Provider, w: Framing, lane: L.Lane, sent: nat, e: End, p: Packet, j: nat, dh: Option<Bytes>)
    requires Lawful(c) && Faithful(w) && Stamped(c, w, lane, j, dh, p) && j < sent
    requires e.session.sid == lane.sid
    requires
      var core := Accept(c, e.session.core, p.envelope.ratchet);
      && core.receivingChain.Some? && c.hash(core.remote) == lane.dhHash && core.limits == e.session.core.limits
      && LaneOk(c, lane, sent, core.receivingChain.value, e)
    ensures
      var core := Accept(c, e.session.core, p.envelope.ratchet);
      var o := L.Arrive(c, lane, core.receivingChain.value, core.limits, e.session.store, j);
      var d := Decrypt(c, w, e.session, p.envelope);
      && (d.result.Ok? <==> o.result.Ok?)
      && d.result == (if o.result.Ok? then Ok(Shown(p.payload)) else Err(RatchetFailed(o.result.error)))
      && d.session == e.session.(
           core := if o.result.Ok? then core.(receivingChain := Some(o.result.value.1)) else e.session.core,
           store := o.store)
      && LaneOk(c, lane, sent, if o.result.Ok? then o.result.value.1 else core.receivingChain.value,
                DeliverAt(c, w, e, p, j))
  {
    var core := Accept(c, e.session.core, p.envelope.ratchet);
    var chain := core.receivingChain.value;
    L.DeriveIsArrive(c, e.session.core, e.session.store, p.envelope.ratchet, lane);
    L.ArriveFollows(c, lane, sent, chain, core.limits, e.session.store, j);
    if Calm(e) { L.ArriveSound(c, lane, sent, chain, core.limits, e.session.store, j); }
    if !L.Files(core.limits) { L.NothingFiled(c, e.session.core, p.envelope.ratchet, lane.sid); }
    OpenStamped(c, w, lane, j, dh, p);
    if Settled(e) {
      L.ArriveExact(c, lane, sent, chain, core.limits, e.session.store, j, e.got);
    }
  }

  /** The first reply installs, at the initiator, exactly the chain the responder sends on. */
  lemma CrossedChains(c: Provider, u: Setup, core: Core, h: Header)
    requires Lawful(c) && FreshKeys(c, u)
    requires core.self == u.a && core.remote == u.preKey && core.rootKey == u.secret
    requires h.dh == Some(u.b.publicKey)
    ensures
      var stepped := Accept(c, core, h);
      && stepped.receivingChain == Some(L.ChainAt(c, ReplyBase(c, u), 0))
      && stepped.remote == u.b.publicKey && stepped.self == core.self
      && stepped.sendingChain == core.sendingChain && stepped.limits == core.limits
  {
    CompareAntisymmetric(u.a.publicKey, u.b.publicKey);
    assert c.dh(u.a.privateKey, c.publicOf(u.b.privateKey)) == c.dh(u.b.privateKey, c.publicOf(u.a.privateKey));
  }

  /** Whether a reply finds, or brings, the initiator's receiving chain. */
  predicate Ready(y: System, to: Party, j: nat) {
    to == Responder || y.initiator.session.core.receivingChain.Some? || j == 0
  }

  /** The chain a genuine packet meets, after any step its header causes. */
  function ChainMet(c: Provider, u: Setup, y: System, to: Party): Chain {
    match to
    case Responder =>
      if y.responder.session.core.receivingChain.Some? then y.responder.session.core.receivingChain.value
      else Chain([], 0)
    case Initiator => ReplyChain(c, u, y.initiator)
  }

  function LaneTo(c: Provider, u: Setup, p: Party): L.Lane {
    if p == Initiator then Backward(c, u) else Forward(c, u)
  }

  /** The answer a party gives when the peer's message j is handed to it. */
  function Verdict(c: Provider, w: Framing, y: System, to: Party, j: nat): Result<Received, ChannelError>
    requires j < |PeerOf(y, to).sent|
  {
    Decrypt(c, w, EndOf(y, to).session, PeerOf(y, to).sent[j].envelope).result
  }

  /** One delivery keeps the invariant and answers as the lane does. */
  ghost predicate Delivered(c: Provider, w: Framing, u: Setup, y: System, to: Party, j: nat)
    requires j < |PeerOf(y, to).sent|
  {
    && Inv(c, w, u, Step(c, w, y, Deliver(to, j)))
    && (!Ready(y, to, j) ==> Verdict(c, w, y, to, j) == Err(RatchetFailed(NoReceivingChain)))
    && (Ready(y, to, j) ==>
          && LaneOk(c, LaneTo(c, u, to), |PeerOf(y, to).sent|, ChainMet(c, u, y, to), EndOf(y, to))
          && var o := L.Arrive(c, LaneTo(c, u, to), ChainMet(c, u, y, to), u.limits, EndOf(y, to).session.store, j);
             Verdict(c, w, y, to, j) ==
               if o.result.Ok? then Ok(Shown(PeerOf(y, to).sent[j].payload)) else Err(RatchetFailed(o.result.error)))
  }

  lemma StampedHeader(c: Provider, w: Framing, lane: L.Lane, j: nat, dh: Option<Bytes>, p: Packet)
    requires Stamped(c, w, lane, j, dh, p)
    ensures p.envelope.ratchet.dh == dh
  {
  }

  lemma DeliverToResponder(c: Provider, w: Framing, u: Setup, y: System, j: nat)
    requires Lawful(c) && Faithful(w) && FreshKeys(c, u) && Inv(c, w, u, y) && j < |y.initiator.sent|
    ensures Delivered(c, w, u, y, Responder, j)
  {
    hide Stamped, L.Receiving, L.Following, L.Exact, L.Arrive, Encrypt, RatchetStep, L.ChainAt, Decrypt, ReplyBase;
    StampedHeader(c, w, Forward(c, u), j, None, y.initiator.sent[j]);
    DeliverStamped(c, w, Forward(c, u), |y.initiator.sent|, y.responder, y.initiator.sent[j], j, None);
  }

  /** The announcing message itself never needs to skip. */
  lemma FirstArrives(c: Provider, lane: L.Lane, limits: Limits, store: seq<Entry>)
    ensures L.Arrive(c, lane, L.ChainAt(c, lane.base, 0), limits, store, 0).result.Ok?
  {
  }

  lemma DeliverToInitiator(c: Provider, w: Framing, u: Setup, y: System, j: nat)
    requires Lawful(c) && Faithful(w) && FreshKeys(c, u) && Inv(c, w, u, y) && j < |y.responder.sent|
    ensures Delivered(c, w, u, y, Initiator, j)
  {
    hide Stamped, L.Receiving, L.Following, L.Exact, L.Arrive, Encrypt, RatchetStep, L.ChainAt, Decrypt, ReplyBase;
    var lane, e, p := Backward(c, u), y.initiator, y.responder.sent[j];
    StampedHeader(c, w, lane, j, Announced(u, j), p);
    if Waiting(u, e) && j > 0 {
      DeliverTooEarly(c, w, u, y, j);
    } else {
      if Waiting(u, e) {
        CrossedChains(c, u, e.session.core, p.envelope.ratchet);
        FirstArrives(c, lane, u.limits, e.session.store);
      }
      DeliverStamped(c, w, lane, |y.responder.sent|, e, p, j, Announced(u, j));
    }
  }

  lemma DeliverTooEarly(c: Provider, w: Framing, u: Setup, y: System, j: nat)
    requires Lawful(c) && Faithful(w) && FreshKeys(c, u) && Inv(c, w, u, y)
    requires 0 < j < |y.responder.sent| && Waiting(u, y.initiator)
    ensures Delivered(c, w, u, y, Initiator, j)
  {
    hide Stamped, L.Receiving, L.Following, L.Exact, L.Arrive, Encrypt, L.ChainAt, Decrypt, ReplyBase;
    Refused(c, w, u, y, j);
  }

  lemma DeliverInv(c: Provider, w: Framing, u: Setup, y: System, to: Party, j: nat)
    requires Lawful(c) && Faithful(w) && FreshKeys(c, u)
    requires Inv(c, w, u, y) && j < |PeerOf(y, to).sent|
    ensures Delivered(c, w, u, y, to, j)
  {
    hide Inv, Delivered;
    if to == Responder {
      DeliverToResponder(c, w, u, y, j);
    } else {
      DeliverToInitiator(c, w, u, y, j);
    }
  }

  // ---- envelopes that do not open

  /** Whatever such an envelope does to the store, one can go on following the lane. */
  lemma InjectedStore(c: Provider, w: Framing, lane: L.Lane, key: Bytes, sent: nat, chain: Chain, e: End, env: Envelope)
    requires Lawful(c) && LaneOk(c, lane, sent, chain, e) && e.session.sid == lane.sid && lane.dhHash == c.hash(key)
    requires Unopened(Decrypt(c, w, e.session, env).result)
    requires
      var core := Accept(c, e.session.core, env.ratchet);
      && core.limits == e.session.core.limits
      && (core.receivingChain.Some? ==>
            if core.remote == key then core.receivingChain.value == chain else c.hash(core.remote) != c.hash(key))
    ensures
      var e' := InjectAt(c, w, e, env);
      && e' == e.(session := e.session.(store := e'.session.store), disturbed := true)
      && LaneOk(c, lane, sent, chain, e')
  {
    hide L.Trusty, L.Arrive, L.Exact, L.Receiving, Derive, OpenWith, PayloadOf, RatchetStep, Unopened;
    UnopenedKeepsState(c, w, e.session, env);
    InjectedDerive(c, lane, key, chain, e.session.core, e.session.store, env.ratchet);
    if !L.Files(e.session.core.limits) {
      L.NothingFiled(c, e.session.core, env.ratchet, lane.sid);
    }
  }

  lemma InjectedDerive(
    c: Provider, lane: L.Lane, key: Bytes, chain: Chain, s: Core, store: seq<Entry>, header: Header)
    requires Lawful(c) && L.Trusty(c, lane, store) && L.Bounded(store, s.limits) && lane.dhHash == c.hash(key)
    requires chain == L.ChainAt(c, lane.base, chain.messageIndex)
    requires
      var core := Accept(c, s, header);
      && core.limits == s.limits
      && (core.receivingChain.Some? ==>
            if core.remote == key then core.receivingChain.value == chain else c.hash(core.remote) != c.hash(key))
    ensures
      var d := Derive(c, s, store, header, lane.sid);
      L.Trusty(c, lane, d.store) && L.Bounded(d.store, s.limits)
  {
    hide L.Trusty, L.Arrive, RatchetStep, SkipTo;
    var core := Accept(c, s, header);
    if core.receivingChain.Some? {
      if core.remote == key {
        L.DeriveIsArrive(c, s, store, header, lane);
        L.ArriveStore(c, lane, chain, s.limits, store, header.n);
      } else {
        L.DeriveForeign(c, s, store, header, lane);
      }
    }
  }

  lemma AcceptKeeps(c: Provider, s: Core, header: Header)
    ensures
      var core := Accept(c, s, header);
      && core.limits == s.limits && core.self == s.self
      && core.remote == (if header.dh.Some? then header.dh.value else s.remote)
      && (core.remote == s.remote ==> core == s)
  {
  }

  lemma InjectInv(c: Provider, w: Framing, u: Setup, y: System, to: Party, env: Envelope)
    requires Lawful(c) && FreshKeys(c, u) && Inv(c, w, u, y) && Admissible(c, w, y, to, env)
    ensures Inv(c, w, u, Step(c, w, y, Inject(to, env)))
    ensures
      var e' := EndOf(Step(c, w, y, Inject(to, env)), to);
      e' == EndOf(y, to).(session := EndOf(y, to).session.(store := e'.session.store), disturbed := true)
  {
    hide Stamped, L.Receiving, L.Following, L.Exact, RatchetStep, L.ChainAt, Decrypt, ReplyBase, Accept;
    var e, lane := EndOf(y, to), LaneTo(c, u, to);
    var key := PeerOf(y, to).session.core.self.publicKey;
    AcceptKeeps(c, e.session.core, env.ratchet);
    if to == Initiator && env.ratchet.dh == Some(u.b.publicKey) && Waiting(u, e) {
      CrossedChains(c, u, e.session.core, env.ratchet);
    }
    InjectedStore(c, w, lane, key, |PeerOf(y, to).sent|, ChainMet(c, u, y, to), e, env);
  }

  lemma {:induction false} RunInv(c: Provider, w: Framing, u: Setup, acts: seq<Action>)
    requires Lawful(c) && Faithful(w) && FreshKeys(c, u)
    ensures Inv(c, w, u, Run(c, w, Initial(c, u), acts))
  {
    hide Decrypt, Encrypt, InitiatorOk, ResponderOk, PacketsOk;
    if acts == [] {
      InitialInv(c, w, u);
    } else {
      var before, act := acts[..|acts| - 1], acts[|acts| - 1];
      RunInv(c, w, u, before);
      var y := Run(c, w, Initial(c, u), before);
      if act.Send? {
        if act.from == Initiator {
          InitiatorSends(c, w, u, y, act.id, act.now, act.payload);
        } else {
          ResponderSends(c, w, u, y, act.id, act.now, act.payload);
        }
      } else if act.Inject? {
        if Admissible(c, w, y, act.to, act.e) { InjectInv(c, w, u, y, act.to, act.e); }
      } else if act.j < |PeerOf(y, act.to).sent| {
        DeliverInv(c, w, u, y, act.to, act.j);
      }
    }
  }

  // ---- main results, for every run

  /** Safety: in every reachable state, a genuine message is refused by the ratchet or yields
      exactly the payload that was sent at its index. */
  lemma ChannelSafety(c: Provider, w: Framing, u: Setup, acts: seq<Action>, to: Party, j: nat)
    requires Lawful(c) && Faithful(w) && FreshKeys(c, u)
    requires j < |PeerOf(Run(c, w, Initial(c, u), acts), to).sent|
    ensures
      var y := Run(c, w, Initial(c, u), acts);
      var v := Verdict(c, w, y, to, j);
      v == Ok(Shown(PeerOf(y, to).sent[j].payload)) || (v.Err? && v.error.RatchetFailed?)
  {
    RunInv(c, w, u, acts);
    DeliverInv(c, w, u, Run(c, w, Initial(c, u), acts), to, j);
  }

  /** The lane a party sends on. */
  function LaneFrom(c: Provider, u: Setup, p: Party): L.Lane {
    if p == Initiator then Forward(c, u) else Backward(c, u)
  }

  /** Key and nonce of the j-th message a party sent. */
  function SealKey(c: Provider, u: Setup, y: System, p: Party, j: nat): AeadKey
    requires j < |EndOf(y, p).sent|
  {
    var h := EndOf(y, p).sent[j].envelope.ratchet;
    DeriveAeadKeyNonce(c, L.KeyOf(c, LaneFrom(c, u, p), j), h.sid, h.pn, h.n, h.dh)
  }

  /** In every reachable state, no two messages of a party, of which fewer than 2^32 were sent, are sealed
      under the same key and nonce, unless the key derivation collides on their two inputs. */
  lemma SealedApart(c: Provider, w: Framing, u: Setup, acts: seq<Action>, p: Party, i: nat, j: nat)
    requires Lawful(c) && Faithful(w) && FreshKeys(c, u) && Digests(c.hash)
    requires i < j < |EndOf(Run(c, w, Initial(c, u), acts), p).sent| && j < 0x1_0000_0000
    requires
      var lane, sent := LaneFrom(c, u, p), EndOf(Run(c, w, Initial(c, u), acts), p).sent;
      var h, h' := sent[i].envelope.ratchet, sent[j].envelope.ratchet;
      NoHkdfCollision(c, KdfInput(L.KeyOf(c, lane, i), [], AeadInfo(c, h.sid, h.pn, h.n, h.dh)),
                      KdfInput(L.KeyOf(c, lane, j), [], AeadInfo(c, h'.sid, h'.pn, h'.n, h'.dh)), 44)
    ensures
      var y := Run(c, w, Initial(c, u), acts);
      && SealKey(c, u, y, p, i) != SealKey(c, u, y, p, j)
      && SealedUnder(c, w, EndOf(y, p).sent[i], SealKey(c, u, y, p, i))
      && SealedUnder(c, w, EndOf(y, p).sent[j], SealKey(c, u, y, p, j))
  {
    hide Run, Initial, AeadInfo, ReplyBase, Inv, DeriveAeadKeyNonce, SealedUnder, L.KeyOf, LaneFrom;
    RunInv(c, w, u, acts);
    var y, lane := Run(c, w, Initial(c, u), acts), LaneFrom(c, u, p);
    SentSealed(c, w, u, y, p, i);
    SentSealed(c, w, u, y, p, j);
    var h, h' := EndOf(y, p).sent[i].envelope.ratchet, EndOf(y, p).sent[j].envelope.ratchet;
    if SealKey(c, u, y, p, i) == SealKey(c, u, y, p, j) {
      AeadKeyBinds(c, L.KeyOf(c, lane, i), h.sid, h.pn, h.n, h.dh, L.KeyOf(c, lane, j), h'.sid, h'.pn, h'.n, h'.dh);
    }
  }

  lemma SentSealed(c: Provider, w: Framing, u: Setup, y: System, p: Party, j: nat)
    requires Inv(c, w, u, y) && j < |EndOf(y, p).sent|
    ensures EndOf(y, p).sent[j].envelope.ratchet.n == j
    ensures SealedUnder(c, w, EndOf(y, p).sent[j], SealKey(c, u, y, p, j))
  {
    hide Stamped, ReplyBase, InitiatorOk, ResponderOk, DeriveAeadKeyNonce, SealedUnder, L.KeyOf;
    StampedKey(c, w, LaneFrom(c, u, p), j, if p == Initiator then None else Announced(u, j), EndOf(y, p).sent[j]);
  }

  /** The ciphertext, and the nonce beside it, come from this key. */
  ghost predicate SealedUnder(c: Provider, w: Framing, p: Packet, k: AeadKey) {
    var e := p.envelope;
    && e.nonce == k.nonce
    && e.ct == c.seal(k.key, k.nonce, w.encodeInner(Inner(e.outer.id, e.outer.createdAt, Base64.Encode(p.payload))),
                      w.aad(e.outer, e.ratchet))
  }

  lemma StampedKey(c: Provider, w: Framing, lane: L.Lane, j: nat, dh: Option<Bytes>, p: Packet)
    requires Stamped(c, w, lane, j, dh, p)
    ensures
      var h := p.envelope.ratchet;
      h.n == j && SealedUnder(c, w, p, DeriveAeadKeyNonce(c, L.KeyOf(c, lane, j), h.sid, h.pn, h.n, h.dh))
  {
  }

  /** Exactly once: until a store limit that can strand keys is hit at an end, or a foreign envelope
      that can file keys arrives there, a genuine message is accepted if and only if it was not accepted
      before, its chain is (or is being) announced, and the keys it makes the receiver skip fit the
      limits. */
  lemma AcceptedExactlyOnce(c: Provider, w: Framing, u: Setup, acts: seq<Action>, to: Party, j: nat)
    requires Lawful(c) && Faithful(w) && FreshKeys(c, u)
    requires j < |PeerOf(Run(c, w, Initial(c, u), acts), to).sent|
    requires Settled(EndOf(Run(c, w, Initial(c, u), acts), to))
    ensures
      var y := Run(c, w, Initial(c, u), acts);
      var e, index := EndOf(y, to), ChainMet(c, u, y, to).messageIndex;
      && Distinct(e.got)
      && (Verdict(c, w, y, to, j).Ok? <==>
            && j !in e.got
            && Ready(y, to, j)
            && (j >= index ==>
                  && j - index <= u.limits.maxSkip
                  && j - |e.got| <= u.limits.maxSkippedKeys
                  && 32 * (j - |e.got|) <= u.limits.maxSkippedBytes))
  {
    RunInv(c, w, u, acts);
    var y := Run(c, w, Initial(c, u), acts);
    DeliverInv(c, w, u, y, to, j);
    if Ready(y, to, j) {
      var e := EndOf(y, to);
      L.ArriveExact(c, LaneTo(c, u, to), |PeerOf(y, to).sent|, ChainMet(c, u, y, to), u.limits, e.session.store, j,
        e.got);
    }
  }

  /** In any reachable state, also after a store limit was hit: a genuine message is accepted if and
      only if its chain is (or is being) announced and its key is held or the skip to it fits. */
  lemma AcceptedDecided(c: Provider, w: Framing, u: Setup, acts: seq<Action>, to: Party, j: nat)
    requires Lawful(c) && Faithful(w) && FreshKeys(c, u)
    requires j < |PeerOf(Run(c, w, Initial(c, u), acts), to).sent|
    ensures
      var y := Run(c, w, Initial(c, u), acts);
      Verdict(c, w, y, to, j).Ok? <==>
        && Ready(y, to, j)
        && L.Acceptable(u.limits, EndOf(y, to).session.store, LaneTo(c, u, to), ChainMet(c, u, y, to).messageIndex, j)
  {
    hide Verdict, PacketsOk, L.Arrive, L.Acceptable, Run, Step;
    RunInv(c, w, u, acts);
    var y := Run(c, w, Initial(c, u), acts);
    DeliverInv(c, w, u, y, to, j);
    if Ready(y, to, j) {
      L.ArriveDecided(c, LaneTo(c, u, to), |PeerOf(y, to).sent|, ChainMet(c, u, y, to), u.limits,
                      EndOf(y, to).session.store, j);
    }
  }

  /** In every reachable state, also after failed deliveries and foreign envelopes, both stores respect
      both limits and hold none but the peer's keys in the peer's slots; without foreign envelopes, they
      hold no key but those the peer has really used. */
  lemma StoresStayBounded(c: Provider, w: Framing, u: Setup, acts: seq<Action>, p: Party)
    requires Lawful(c) && Faithful(w) && FreshKeys(c, u)
    ensures
      var y := Run(c, w, Initial(c, u), acts);
      && L.Bounded(EndOf(y, p).session.store, u.limits)
      && L.Trusty(c, LaneTo(c, u, p), EndOf(y, p).session.store)
      && (Calm(EndOf(y, p)) ==> L.Filed(c, LaneTo(c, u, p), |PeerOf(y, p).sent|, EndOf(y, p).session.store))
  {
    RunInv(c, w, u, acts);
  }

  /** The chains stay crossed: each end's receiving chain is a stretch of the very chain its
      peer sends on, never ahead of it, through the responder's lazy DH step. */
  lemma ChainsStayCrossed(c: Provider, w: Framing, u: Setup, acts: seq<Action>)
    requires Lawful(c) && Faithful(w) && FreshKeys(c, u)
    ensures
      var y := Run(c, w, Initial(c, u), acts);
      var i, r := y.initiator.session.core, y.responder.session.core;
      && i.sendingChain == Some(L.ChainAt(c, u.secret, |y.initiator.sent|))
      && r.receivingChain.Some? && r.receivingChain.value.messageIndex <= |y.initiator.sent|
      && r.receivingChain.value == L.ChainAt(c, u.secret, r.receivingChain.value.messageIndex)
      && (r.sendingChain.Some? ==> r.sendingChain == Some(L.ChainAt(c, ReplyBase(c, u), |y.responder.sent|)))
      && (i.receivingChain.Some? ==>
            && r.sendingChain.Some?
            && i.receivingChain.value.messageIndex <= |y.responder.sent|
            && i.receivingChain.value == L.ChainAt(c, ReplyBase(c, u), i.receivingChain.value.messageIndex))
  {
    RunInv(c, w, u, acts);
  }

  // ---- the announcing message

  /** Without reply 0 the initiator accepts nothing: it carries the only announcement. */
  lemma {:induction false} NothingWithoutAnnouncement(c: Provider, w: Framing, u: Setup, acts: seq<Action>)
    requires Lawful(c) && Faithful(w) && FreshKeys(c, u)
    requires Deliver(Initiator, 0) !in acts
    ensures
      var e := Run(c, w, Initial(c, u), acts).initiator;
      e.got == [] && e.session.core.receivingChain.None?
  {
    hide Inv, Decrypt, Encrypt;
    if acts != [] {
      var before, act := acts[..|acts| - 1], acts[|acts| - 1];
      assert act in acts && forall a :: a in before ==> a in acts;
      NothingWithoutAnnouncement(c, w, u, before);
      var y := Run(c, w, Initial(c, u), before);
      if act.Send? {
        SendKeepsReceiving(c, w, y.initiator.session, act.id, act.now, act.payload);
      } else if act.Inject? {
        RunInv(c, w, u, before);
        if Admissible(c, w, y, act.to, act.e) { InjectInv(c, w, u, y, act.to, act.e); }
      } else if act.to == Initiator && act.j < |y.responder.sent| {
        RunInv(c, w, u, before);
        Refused(c, w, u, y, act.j);
      }
    }
  }

  lemma SendKeepsReceiving(c: Provider, w: Framing, s: Session, id: string, now: int, payload: Bytes)
    ensures Encrypt(c, w, s, id, now, payload).session.core.receivingChain == s.core.receivingChain
  {
  }

  /** A later reply that arrives first is refused and changes nothing the initiator has. */
  lemma Refused(c: Provider, w: Framing, u: Setup, y: System, j: nat)
    requires Lawful(c) && Faithful(w) && FreshKeys(c, u) && Inv(c, w, u, y)
    requires 0 < j < |y.responder.sent| && y.initiator.session.core.receivingChain.None?
    ensures
      var e, e' := y.initiator, Step(c, w, y, Deliver(Initiator, j)).initiator;
      && Verdict(c, w, y, Initiator, j) == Err(RatchetFailed(NoReceivingChain))
      && e'.got == e.got && e'.session == e.session
  {
    hide Stamped, InitiatorOk, ResponderOk, Encrypt, SkipTo, OpenWith, RatchetStep;
    StampedHeader(c, w, Backward(c, u), j, Announced(u, j), y.responder.sent[j]);
  }

  /** Two replies, the second delivered first: refused. */
  lemma LaterReplyFirst(c: Provider, w: Framing, u: Setup, id: string, now: int, payload: Bytes)
    requires Lawful(c) && Faithful(w) && FreshKeys(c, u)
    ensures
      var reply := Send(Responder, id, now, payload);
      var y := Run(c, w, Initial(c, u), [reply, reply]);
      && |y.responder.sent| == 2
      && Verdict(c, w, y, Initiator, 1) == Err(RatchetFailed(NoReceivingChain))
      && Run(c, w, Initial(c, u), [reply, reply, Deliver(Initiator, 1)]).initiator.got == []
  {
    hide Encrypt, Decrypt, Inv;
    var reply := Send(Responder, id, now, payload);
    var acts := [reply, reply];
    var y := Run(c, w, Initial(c, u), acts);
    assert [] + [reply] == [reply] && [reply] + [reply] == acts;
    RunSnoc(c, w, Initial(c, u), [], reply);
    RunSnoc(c, w, Initial(c, u), [reply], reply);
    RunInv(c, w, u, acts);
    NothingWithoutAnnouncement(c, w, u, acts);
    Refused(c, w, u, y, 1);
    NothingWithoutAnnouncement(c, w, u, [reply, reply, Deliver(Initiator, 1)]);
  }

  // ---- completeness in any order

  function Deliveries(to: Party, order: seq<nat>): (acts: seq<Action>)
    ensures |acts| == |order|
  {
    seq(|order|, i requires 0 <= i < |order| => Deliver(to, order[i]))
  }

  /** The backlog of a direction fits the limits. */
  predicate Fits(limits: Limits, sent: nat) {
    sent > 0 ==>
      sent - 1 <= limits.maxSkip && sent - 1 <= limits.maxSkippedKeys && 32 * (sent - 1) <= limits.maxSkippedBytes
  }

  /** Before the initiator's receiving chain exists, only the announcing message 0 can start it. */
  predicate CanStart(y: System, to: Party, order: seq<nat>) {
    to == Responder || y.initiator.session.core.receivingChain.Some? || (order != [] ==> order[0] == 0)
  }

  /** Messages that may be handed over now, each for the first time. */
  ghost predicate Outstanding(u: Setup, y: System, to: Party, order: seq<nat>) {
    && !EndOf(y, to).limited && !EndOf(y, to).disturbed
    && Distinct(EndOf(y, to).got + order)
    && (forall i :: 0 <= i < |order| ==> order[i] < |PeerOf(y, to).sent|)
    && Fits(u.limits, |PeerOf(y, to).sent|)
  }

  /** All of `order` was accepted; if nothing is outstanding any more, nothing is left over. */
  ghost predicate Drained(y: System, y': System, to: Party, order: seq<nat>) {
    var e, sent := EndOf(y', to), |PeerOf(y, to).sent|;
    && e.got == EndOf(y, to).got + order && !e.limited && !e.disturbed
    && PeerOf(y', to) == PeerOf(y, to)
    && (order != [] ==>
          && e.session.core.receivingChain.Some?
          && (|e.got| == sent ==> e.session.core.receivingChain.value.messageIndex == sent && e.session.store == []))
  }

  /** From any reachable state without a store-limit failure, hand over outstanding messages once
      each, in any order: every one of them succeeds, and once nothing is outstanding the chain has
      reached the sender's and no key is left over, if and only if the receiving chain exists or the
      first message handed over is the one that announces it. */
  lemma OutOfOrderComplete(c: Provider, w: Framing, u: Setup, acts: seq<Action>, to: Party, order: seq<nat>)
    requires Lawful(c) && Faithful(w) && FreshKeys(c, u)
    requires Outstanding(u, Run(c, w, Initial(c, u), acts), to, order)
    ensures
      var y := Run(c, w, Initial(c, u), acts);
      Drained(y, Run(c, w, Initial(c, u), acts + Deliveries(to, order)), to, order) <==> CanStart(y, to, order)
  {
    hide Run, Drained, Outstanding;
    var y := Run(c, w, Initial(c, u), acts);
    if CanStart(y, to, order) {
      DrainsInAnyOrder(c, w, u, acts, to, order);
    } else {
      WrongStart(c, w, u, acts, order);
    }
  }

  /** Delivering n messages adds at most n to what was accepted. */
  lemma {:induction false} GotGrows(c: Provider, w: Framing, y: System, acts: seq<Action>, to: Party, order: seq<nat>)
    ensures |EndOf(Run(c, w, y, acts + Deliveries(to, order)), to).got| <= |EndOf(Run(c, w, y, acts), to).got| + |order|
    decreases |order|
  {
    hide Run, Decrypt;
    if order == [] {
      assert acts + Deliveries(to, order) == acts;
    } else {
      var front, j := order[..|order| - 1], order[|order| - 1];
      GotGrows(c, w, y, acts, to, front);
      DeliveriesSnoc(acts, to, order);
      RunSnoc(c, w, y, acts + Deliveries(to, front), Deliver(to, j));
    }
  }

  lemma DeliveriesCons(acts: seq<Action>, to: Party, order: seq<nat>)
    requires order != []
    ensures acts + Deliveries(to, order) == acts + [Deliver(to, order[0])] + Deliveries(to, order[1..])
  {
    assert Deliveries(to, order) == [Deliver(to, order[0])] + Deliveries(to, order[1..]);
  }

  /** A first reply that is not the announcing one is refused, so not all are accepted. */
  lemma WrongStart(c: Provider, w: Framing, u: Setup, acts: seq<Action>, order: seq<nat>)
    requires Lawful(c) && Faithful(w) && FreshKeys(c, u)
    requires Outstanding(u, Run(c, w, Initial(c, u), acts), Initiator, order)
    requires !CanStart(Run(c, w, Initial(c, u), acts), Initiator, order)
    ensures
      var y := Run(c, w, Initial(c, u), acts);
      !Drained(y, Run(c, w, Initial(c, u), acts + Deliveries(Initiator, order)), Initiator, order)
  {
    hide Run, Inv, Step, Fits;
    var y := Run(c, w, Initial(c, u), acts);
    var first := Deliver(Initiator, order[0]);
    RunInv(c, w, u, acts);
    Refused(c, w, u, y, order[0]);
    RunSnoc(c, w, Initial(c, u), acts, first);
    DeliveriesCons(acts, Initiator, order);
    GotGrows(c, w, Initial(c, u), acts + [first], Initiator, order[1..]);
  }

  lemma {:induction false} DrainsInAnyOrder(
    c: Provider, w: Framing, u: Setup, acts: seq<Action>, to: Party, order: seq<nat>)
    requires Lawful(c) && Faithful(w) && FreshKeys(c, u)
    requires Outstanding(u, Run(c, w, Initial(c, u), acts), to, order)
    requires CanStart(Run(c, w, Initial(c, u), acts), to, order)
    ensures Drained(Run(c, w, Initial(c, u), acts), Run(c, w, Initial(c, u), acts + Deliveries(to, order)), to, order)
    decreases |order|
  {
    var y := Run(c, w, Initial(c, u), acts);
    if order == [] {
      assert acts + Deliveries(to, order) == acts;
      assert EndOf(y, to).got + order == EndOf(y, to).got;
    } else {
      var front, j := order[..|order| - 1], order[|order| - 1];
      OutstandingFront(u, y, to, order);
      DrainsInAnyOrder(c, w, u, acts, to, front);
      var most := acts + Deliveries(to, front);
      var z := Run(c, w, Initial(c, u), most);
      DeliveriesSnoc(acts, to, order);
      RunSnoc(c, w, Initial(c, u), most, Deliver(to, j));
      LastDelivery(c, w, u, most, to, j);
      DrainedMore(y, z, Step(c, w, z, Deliver(to, j)), to, order);
    }
  }

  lemma DrainedMore(y: System, z: System, z': System, to: Party, order: seq<nat>)
    requires order != []
    requires Drained(y, z, to, order[..|order| - 1]) && Drained(z, z', to, [order[|order| - 1]])
    ensures Drained(y, z', to, order)
  {
    assert order == order[..|order| - 1] + [order[|order| - 1]];
  }

  lemma OutstandingFront(u: Setup, y: System, to: Party, order: seq<nat>)
    requires Outstanding(u, y, to, order) && order != []
    ensures Outstanding(u, y, to, order[..|order| - 1])
    ensures order[|order| - 1] !in EndOf(y, to).got + order[..|order| - 1]
  {
    var all, front := EndOf(y, to).got + order, order[..|order| - 1];
    assert EndOf(y, to).got + front == all[..|all| - 1];
    assert all[|all| - 1] == order[|order| - 1];
  }

  lemma DeliveriesSnoc(acts: seq<Action>, to: Party, order: seq<nat>)
    requires order != []
    ensures acts + Deliveries(to, order)
         == acts + Deliveries(to, order[..|order| - 1]) + [Deliver(to, order[|order| - 1])]
  {
    assert Deliveries(to, order) == Deliveries(to, order[..|order| - 1]) + [Deliver(to, order[|order| - 1])];
  }

  lemma RunSnoc(c: Provider, w: Framing, y: System, acts: seq<Action>, act: Action)
    ensures Run(c, w, y, acts + [act]) == Step(c, w, Run(c, w, y, acts), act)
  {
    assert (acts + [act])[..|acts|] == acts;
  }

  /** An exact lane on which everything sent was accepted is at its end and holds no keys. */
  lemma LaneFull(c: Provider, lane: L.Lane, sent: nat, chain: Chain, e: End)
    requires LaneOk(c, lane, sent, chain, e) && !e.limited && !e.disturbed
    ensures |e.got| == sent ==> chain.messageIndex == sent && e.session.store == []
  {
  }

  lemma AcceptedDrains(c: Provider, w: Framing, u: Setup, y: System, to: Party, j: nat)
    requires j < |PeerOf(y, to).sent| && !EndOf(y, to).limited && !EndOf(y, to).disturbed
    requires Verdict(c, w, y, to, j).Ok?
    requires Inv(c, w, u, Step(c, w, y, Deliver(to, j)))
    ensures Drained(y, Step(c, w, y, Deliver(to, j)), to, [j])
  {
    hide Decrypt, LaneOk, PacketsOk, L.ChainAt, ReplyBase;
    var y' := Step(c, w, y, Deliver(to, j));
    var e := EndOf(y', to);
    assert e.got == EndOf(y, to).got + [j] && !e.limited && !e.disturbed;
    LaneFull(c, LaneTo(c, u, to), |PeerOf(y, to).sent|, e.session.core.receivingChain.value, e);
  }

  /** One more outstanding message, whose keys are bound to fit. */
  lemma LastDelivery(c: Provider, w: Framing, u: Setup, acts: seq<Action>, to: Party, j: nat)
    requires Lawful(c) && Faithful(w) && FreshKeys(c, u)
    requires
      var y := Run(c, w, Initial(c, u), acts);
      && !EndOf(y, to).limited && !EndOf(y, to).disturbed && Ready(y, to, j) && j !in EndOf(y, to).got
      && j < |PeerOf(y, to).sent| && Fits(u.limits, |PeerOf(y, to).sent|)
    ensures
      var y := Run(c, w, Initial(c, u), acts);
      Drained(y, Step(c, w, y, Deliver(to, j)), to, [j])
  {
    hide Inv, Verdict, Run, Initial, Step, Drained, LaneOk, Decrypt, L.Arrive;
    var y := Run(c, w, Initial(c, u), acts);
    AcceptedExactlyOnce(c, w, u, acts, to, j);
    RunInv(c, w, u, acts);
    DeliverInv(c, w, u, y, to, j);
    AcceptedDrains(c, w, u, y, to, j);
  }

  // ---- past a store limit

  function Other(p: Party): Party {
    if p == Initiator then Responder else Initiator
  }

  function Repeated(act: Action, n: nat): (acts: seq<Action>)
    ensures |acts| == n
  {
    seq(n, _ => act)
  }

  lemma RunNone(c: Provider, w: Framing, y: System)
    ensures Run(c, w, y, []) == y
  {
  }

  /** A party sends n messages; its peer does nothing. */
  lemma {:induction false} ManySends(c: Provider, w: Framing, u: Setup, to: Party, send: Action, n: nat)
    requires send.Send? && send.from == Other(to)
    ensures
      var y := Run(c, w, Initial(c, u), Repeated(send, n));
      |PeerOf(y, to).sent| == n && EndOf(y, to) == EndOf(Initial(c, u), to)
    decreases n
  {
    hide Run, Encrypt, Initial;
    if n == 0 {
      assert Repeated(send, n) == [];
      RunNone(c, w, Initial(c, u));
      InitialSilent(c, u);
    } else {
      assert Repeated(send, n) == Repeated(send, n - 1) + [send];
      RunSnoc(c, w, Initial(c, u), Repeated(send, n - 1), send);
      ManySends(c, w, u, to, send, n - 1);
    }
  }

  lemma InitialSilent(c: Provider, u: Setup)
    ensures Initial(c, u).initiator.sent == [] && Initial(c, u).responder.sent == []
  {
  }

  /** What one delivery does to a ready party, in terms of its lane. */
  lemma OneDelivery(c: Provider, w: Framing, u: Setup, y: System, to: Party, j: nat)
    requires Lawful(c) && Faithful(w) && FreshKeys(c, u) && Inv(c, w, u, y)
    requires j < |PeerOf(y, to).sent| && Ready(y, to, j)
    ensures
      var e, y' := EndOf(y, to), Step(c, w, y, Deliver(to, j));
      var e', chain := EndOf(y', to), ChainMet(c, u, y, to);
      var o := L.Arrive(c, LaneTo(c, u, to), chain, u.limits, e.session.store, j);
      && PeerOf(y', to) == PeerOf(y, to)
      && e'.session.store == o.store
      && e'.got == (if o.result.Ok? then e.got + [j] else e.got)
      && (o.result.Ok? ==> e'.limited == e.limited) && e'.disturbed == e.disturbed
      && ChainMet(c, u, y', to) == (if o.result.Ok? then o.result.value.1 else chain)
      && (o.result.Ok? || e.session.core.receivingChain.Some? ==> e'.session.core.receivingChain.Some?)
  {
    hide Stamped, L.Receiving, L.Following, L.Exact, L.Arrive, Encrypt, RatchetStep, L.ChainAt, Decrypt;
    var lane, e, p, sent := LaneTo(c, u, to), EndOf(y, to), PeerOf(y, to).sent[j], |PeerOf(y, to).sent|;
    var dh := if to == Initiator then Announced(u, j) else None;
    StampedHeader(c, w, lane, j, dh, p);
    if to == Initiator && Waiting(u, e) {
      CrossedChains(c, u, e.session.core, p.envelope.ratchet);
    }
    DeliverStamped(c, w, lane, sent, e, p, j, dh);
  }

  /** The messages a run of three sends and three deliveries at these limits accepts: message 2 fails
      at the store limit, after which message 0 is accepted twice. */
  lemma StoreLimitRun(c: Provider, w: Framing, u: Setup, id: string, now: int, payload: Bytes)
    requires Lawful(c) && Faithful(w) && FreshKeys(c, u) && u.limits == Limits(2, 1, 64)
    ensures
      var send := Send(Initiator, id, now, payload);
      var two, zero := Deliver(Responder, 2), Deliver(Responder, 0);
      Run(c, w, Initial(c, u), [send, send, send, two, zero, zero]).responder.got == [0, 0]
  {
    hide Run, Step, Inv, L.Arrive;
    var send := Send(Initiator, id, now, payload);
    var sends := [send, send, send];
    assert Repeated(send, 3) == sends;
    ManySends(c, w, u, Responder, send, 3);
    RunInv(c, w, u, sends);
    Stranded(c, w, u, sends, Responder);
    assert sends + [Deliver(Responder, 2), Deliver(Responder, 0), Deliver(Responder, 0)] ==
      [send, send, send, Deliver(Responder, 2), Deliver(Responder, 0), Deliver(Responder, 0)];
  }

  /** From a state with room for one key more: the message two ahead hits the store limit, and the
      next message is then accepted twice. */
  lemma Stranded(c: Provider, w: Framing, u: Setup, acts: seq<Action>, to: Party)
    requires Lawful(c) && Faithful(w) && FreshKeys(c, u) && L.Strands(u.limits)
    requires
      var y := Run(c, w, Initial(c, u), acts);
      var e, i := EndOf(y, to), ChainMet(c, u, y, to).messageIndex;
      && e.session.core.receivingChain.Some? && Settled(e)
      && i + 2 < |PeerOf(y, to).sent| && |e.session.store| + 1 == L.Capacity(u.limits)
    ensures
      var y := Run(c, w, Initial(c, u), acts);
      var i := ChainMet(c, u, y, to).messageIndex;
      EndOf(Run(c, w, Initial(c, u), acts + [Deliver(to, i + 2), Deliver(to, i), Deliver(to, i)]), to).got ==
        EndOf(y, to).got + [i, i]
  {
    hide Run, Step, Inv, L.Arrive, L.Receiving, L.Exact, L.ChainAt, Initial, L.Held, L.Capacity, ChainMet, LaneTo,
      PeerOf, L.KeyOf;
    var y0 := Initial(c, u);
    var y := Run(c, w, y0, acts);
    var chain := ChainMet(c, u, y, to);
    var i := chain.messageIndex;
    var ahead, next := Deliver(to, i + 2), Deliver(to, i);
    RunInv(c, w, u, acts);
    ReceivingHere(c, w, u, y, to);
    L.StoreLimitStrands(c, LaneTo(c, u, to), |PeerOf(y, to).sent|, chain, u.limits, EndOf(y, to).session.store);
    OneDelivery(c, w, u, y, to, i + 2);
    RunSnoc(c, w, y0, acts, ahead);
    RunInv(c, w, u, acts + [ahead]);
    var y1 := Run(c, w, y0, acts + [ahead]);
    OneDelivery(c, w, u, y1, to, i);
    RunSnoc(c, w, y0, acts + [ahead], next);
    RunInv(c, w, u, acts + [ahead] + [next]);
    var y2 := Run(c, w, y0, acts + [ahead] + [next]);
    OneDelivery(c, w, u, y2, to, i);
    RunSnoc(c, w, y0, acts + [ahead] + [next], next);
    assert acts + [ahead] + [next] + [next] == acts + [ahead, next, next];
    assert EndOf(y, to).got + [i] + [i] == EndOf(y, to).got + [i, i];
  }

  lemma ReceivingHere(c: Provider, w: Framing, u: Setup, y: System, to: Party)
    requires Inv(c, w, u, y)
    ensures
      var e, chain := EndOf(y, to), ChainMet(c, u, y, to);
      && L.Following(c, LaneTo(c, u, to), |PeerOf(y, to).sent|, chain, e.session.store, u.limits)
      && LaneOk(c, LaneTo(c, u, to), |PeerOf(y, to).sent|, chain, e) && e.session.core.limits == u.limits
      && (Settled(e) ==> forall n: nat :: n >= chain.messageIndex ==>
            L.Held(e.session.store, LaneTo(c, u, to), n).None?)
  {
    hide L.Receiving, L.Following, L.ChainAt, L.Held, Stamped;
  }

  /** The even numbers up to 2k. */
  function Evens(k: nat): (s: seq<nat>)
    ensures |s| == k + 1
  {
    seq(k + 1, i => 2 * i)
  }

  /** A message at most one ahead of the chain is accepted while there is room. */
  lemma NearAccepted(c: Provider, w: Framing, u: Setup, acts: seq<Action>, to: Party, j: nat)
    requires Lawful(c) && Faithful(w) && FreshKeys(c, u) && L.Strands(u.limits)
    requires
      var y := Run(c, w, Initial(c, u), acts);
      var e, i := EndOf(y, to), ChainMet(c, u, y, to).messageIndex;
      && j < |PeerOf(y, to).sent| && Ready(y, to, j) && Settled(e)
      && i <= j <= i + 1 && j - |e.got| <= L.Capacity(u.limits)
    ensures
      var y := Run(c, w, Initial(c, u), acts);
      var o := L.Arrive(c, LaneTo(c, u, to), ChainMet(c, u, y, to), u.limits, EndOf(y, to).session.store, j);
      o.result.Ok? && o.result.value.1.messageIndex == j + 1
  {
    hide Run, Step, Inv, L.Arrive, L.Receiving, L.ChainAt, Initial, Verdict, L.Held;
    var y := Run(c, w, Initial(c, u), acts);
    RunInv(c, w, u, acts);
    DeliverInv(c, w, u, y, to, j);
    ReceivingHere(c, w, u, y, to);
    AcceptedExactlyOnce(c, w, u, acts, to, j);
    var e := EndOf(y, to);
    L.ArriveMoves(c, LaneTo(c, u, to), |PeerOf(y, to).sent|, ChainMet(c, u, y, to), u.limits, e.session.store, j);
  }

  /** Every other message is skipped: each takes one place in the store. */
  lemma {:induction false} Climb(c: Provider, w: Framing, u: Setup, to: Party, send: Action, n: nat, k: nat)
    requires Lawful(c) && Faithful(w) && FreshKeys(c, u) && L.Strands(u.limits)
    requires send.Send? && send.from == Other(to) && k < L.Capacity(u.limits) && 2 * k < n
    ensures
      var y := Run(c, w, Initial(c, u), Repeated(send, n) + Deliveries(to, Evens(k)));
      && |PeerOf(y, to).sent| == n && !EndOf(y, to).limited && !EndOf(y, to).disturbed && EndOf(y, to).got == Evens(k)
      && EndOf(y, to).session.core.receivingChain.Some? && ChainMet(c, u, y, to).messageIndex == 2 * k + 1
  {
    hide Run, Step, Inv, L.Arrive, L.Receiving, L.Exact, L.ChainAt, Initial, Verdict;
    var y0, sends, order := Initial(c, u), Repeated(send, n), Evens(k);
    var before := sends + Deliveries(to, order[..k]);
    ManySends(c, w, u, to, send, n);
    DeliveriesSnoc(sends, to, order);
    RunSnoc(c, w, y0, before, Deliver(to, 2 * k));
    if k == 0 {
      assert before == sends;
      InitialChain(c, u, to);
    } else {
      assert order[..k] == Evens(k - 1);
      Climb(c, w, u, to, send, n, k - 1);
    }
    assert order == order[..k] + [2 * k];
    RunInv(c, w, u, before);
    var y := Run(c, w, y0, before);
    NearAccepted(c, w, u, before, to, 2 * k);
    OneDelivery(c, w, u, y, to, 2 * k);
  }

  /** Where a party's chain starts. */
  lemma InitialChain(c: Provider, u: Setup, to: Party)
    ensures
      var e := EndOf(Initial(c, u), to);
      && e.got == [] && !e.limited && !e.disturbed && Ready(Initial(c, u), to, 0)
      && ChainMet(c, u, Initial(c, u), to).messageIndex == 0
  {
  }

  /** The party accepts some message twice along this run. */
  ghost predicate Twice(c: Provider, w: Framing, u: Setup, acts: seq<Action>, to: Party) {
    !Distinct(EndOf(Run(c, w, Initial(c, u), acts), to).got)
  }

  lemma NeverTwice(c: Provider, w: Framing, u: Setup, acts: seq<Action>, to: Party)
    requires Lawful(c) && Faithful(w) && FreshKeys(c, u) && Settled(EndOf(Run(c, w, Initial(c, u), acts), to))
    ensures !Twice(c, w, u, acts, to)
  {
    hide Run, Initial, Stamped, L.Receiving, L.Following, L.Held;
    RunInv(c, w, u, acts);
    var y := Run(c, w, Initial(c, u), acts);
    ReceivingHere(c, w, u, y, to);
  }

  /** No envelope is slipped in. */
  predicate NoneInjected(acts: seq<Action>) {
    forall i :: 0 <= i < |acts| ==> !acts[i].Inject?
  }

  lemma {:induction false} InjectionFree(c: Provider, w: Framing, u: Setup, acts: seq<Action>)
    requires Lawful(c) && Faithful(w) && FreshKeys(c, u)
    ensures
      var y := Run(c, w, Initial(c, u), acts);
      && y.initiator.session.core.limits == u.limits && y.responder.session.core.limits == u.limits
      && (NoneInjected(acts) ==> !y.initiator.disturbed && !y.responder.disturbed)
  {
    hide Encrypt, Decrypt, Stamped, LaneOk;
    RunInv(c, w, u, acts);
    if acts != [] { InjectionFree(c, w, u, acts[..|acts| - 1]); }
  }

  /** The run that fills the store up to one key, strands the next one and delivers it twice. */
  function StrandingRun(u: Setup, to: Party): seq<Action> {
    var room := L.Capacity(u.limits);
    var send := Send(Other(to), "", 0, []);
    var climb := Repeated(send, 2 * room + 2) + Deliveries(to, Evens(if room > 0 then room - 1 else 0));
    var next := Deliver(to, if room > 0 then 2 * room - 1 else 0);
    climb + [Deliver(to, 2 * room + 1), next, next]
  }

  lemma StrandingRunAccepts(c: Provider, w: Framing, u: Setup, to: Party)
    requires Lawful(c) && Faithful(w) && FreshKeys(c, u) && L.Strands(u.limits)
    ensures Twice(c, w, u, StrandingRun(u, to), to)
  {
    hide Run, Initial, Stamped, L.Receiving, L.Held, Inv;
    var room := L.Capacity(u.limits);
    var send := Send(Other(to), "", 0, []);
    var climb := Repeated(send, 2 * room + 2) + Deliveries(to, Evens(room - 1));
    Climb(c, w, u, to, send, 2 * room + 2, room - 1);
    RunInv(c, w, u, climb);
    var y := Run(c, w, Initial(c, u), climb);
    ReceivingHere(c, w, u, y, to);
    Stranded(c, w, u, climb, to);
    var i := 2 * room - 1;
    var got := EndOf(y, to).got + [i, i];
    assert got[|got| - 2] == got[|got| - 1];
  }

  lemma StrandingInjectsNone(u: Setup, to: Party)
    ensures NoneInjected(StrandingRun(u, to))
  {
  }

  /** Which limits break exactly-once without foreign envelopes: some run makes the party accept a message
      twice if and only if a skip may pass over two messages and the store has room for one key. */
  lemma TwiceExactlyWhen(c: Provider, w: Framing, u: Setup, to: Party)
    requires Lawful(c) && Faithful(w) && FreshKeys(c, u)
    ensures (exists acts :: NoneInjected(acts) && Twice(c, w, u, acts, to)) <==> L.Strands(u.limits)
  {
    hide Twice, StrandingRun, NoneInjected, Run, Initial;
    if L.Strands(u.limits) {
      StrandingRunAccepts(c, w, u, to);
      StrandingInjectsNone(u, to);
    } else {
      forall acts | NoneInjected(acts) ensures !Twice(c, w, u, acts, to) {
        InjectionFree(c, w, u, acts);
        NeverTwice(c, w, u, acts, to);
      }
    }
  }

  // ---- after a foreign envelope

  /** The envelope's header points at this slot of the store. */
  predicate Hits(c: Provider, s: Session, h: Header, slot: string) {
    var m := Accept(c, s.core, h);
    m.receivingChain.Some? && LookupKey(s.sid, c.hash(m.remote), h.n) == slot
  }

  lemma TouchedHeld(c: Provider, lane: L.Lane, s: Session, h: Header, after: seq<Entry>, j: nat)
    requires L.Trusty(c, lane, s.store) && L.Trusty(c, lane, after) && Touched(c, s, h, after)
    ensures L.Held(s.store, lane, j).Some? ==>
      (L.Held(after, lane, j).None? <==> Hits(c, s, h, L.Slot(lane, j)))
  {
    hide Accept, LookupKey, L.Slot, L.KeyOf, Get, KeyFor;
    var m := Accept(c, s.core, h);
    if L.Held(s.store, lane, j).Some? && m.receivingChain.Some? {
      var hash := c.hash(m.remote);
      if Get(s.store, LookupKey(s.sid, hash, h.n)).None? && after != s.store {
        var stop :| m.receivingChain.value.messageIndex <= stop <= h.n &&
          FiledUpTo(c, m.receivingChain.value, s.sid, hash, stop, s.store, after);
        FiledStays(c, m.receivingChain.value, s.sid, hash, stop, s.store, after, L.Slot(lane, j));
      }
    }
  }

  lemma FiledStays(
    c: Provider, chain: Chain, sid: Bytes, dhHash: Bytes, stop: nat, before: seq<Entry>, after: seq<Entry>, k: string)
    requires FiledUpTo(c, chain, sid, dhHash, stop, before, after) && Get(before, k).Some?
    ensures Get(after, k).Some?
  {
    hide LookupKey, Get, KeyFor;
  }

  /** What an envelope that does not open changes: the store, as its header makes it, and nothing else at
      either end. A genuine message is accepted afterwards if and only if its key is held in that store
      or the skip to it fits; and of the keys held before, exactly the one the header points at is gone. */
  lemma AcceptedAfterForeign(
    c: Provider, w: Framing, u: Setup, acts: seq<Action>, to: Party, env: Envelope, j: nat)
    requires Lawful(c) && Faithful(w) && FreshKeys(c, u)
    requires Admissible(c, w, Run(c, w, Initial(c, u), acts), to, env)
    requires j < |PeerOf(Run(c, w, Initial(c, u), acts), to).sent|
    ensures
      var y, y' := Run(c, w, Initial(c, u), acts), Run(c, w, Initial(c, u), acts + [Inject(to, env)]);
      var s, store', lane := EndOf(y, to).session, EndOf(y', to).session.store, LaneTo(c, u, to);
      && PeerOf(y', to) == PeerOf(y, to)
      && EndOf(y', to) == EndOf(y, to).(session := s.(store := store'), disturbed := true)
      && Touched(c, s, env.ratchet, store')
      && (L.Held(s.store, lane, j).Some? ==>
            (L.Held(store', lane, j).None? <==> Hits(c, s, env.ratchet, L.Slot(lane, j))))
      && (Verdict(c, w, y', to, j).Ok? <==>
            Ready(y, to, j) && L.Acceptable(u.limits, store', lane, ChainMet(c, u, y, to).messageIndex, j))
  {
    hide Run, Initial, Decrypt, Inv, Touched, Hits, L.Acceptable, L.Trusty, L.Held, L.Slot, Verdict;
    var y := Run(c, w, Initial(c, u), acts);
    var act := Inject(to, env);
    RunInv(c, w, u, acts);
    InjectInv(c, w, u, y, to, env);
    RunSnoc(c, w, Initial(c, u), acts, act);
    var y' := Step(c, w, y, act);
    ReceivingHere(c, w, u, y, to);
    ReceivingHere(c, w, u, y', to);
    TrustyKeyed(c, LaneTo(c, u, to), EndOf(y, to).session.store);
    DecryptTouches(c, w, EndOf(y, to).session, env);
    TouchedHeld(c, LaneTo(c, u, to), EndOf(y, to).session, env.ratchet, EndOf(y', to).session.store, j);
    AcceptedDecided(c, w, u, acts + [act], to, j);
  }

  lemma TrustyKeyed(c: Provider, lane: L.Lane, store: seq<Entry>)
    requires L.Trusty(c, lane, store)
    ensures Keyed(store)
  {
  }

  /** An envelope for number n with nothing in it: it never opens. */
  function Blank(sid: Bytes, n: nat): Envelope {
    Envelope(OuterHeader("", 0), Header(sid, None, "raw", 0, n), [], [])
  }

  lemma BlankAdmissible(c: Provider, w: Framing, y: System, to: Party, sid: Bytes, n: nat)
    ensures Admissible(c, w, y, to, Blank(sid, n))
  {
    hide Derive;
  }

  /** What it leaves in the store of a party that has a receiving chain. */
  lemma BlankStore(c: Provider, w: Framing, u: Setup, y: System, to: Party, sid: Bytes, n: nat)
    requires Lawful(c) && FreshKeys(c, u) && Inv(c, w, u, y) && EndOf(y, to).session.core.receivingChain.Some?
    ensures
      EndOf(Step(c, w, y, Inject(to, Blank(sid, n))), to).session.store ==
      L.Arrive(c, LaneTo(c, u, to), ChainMet(c, u, y, to), u.limits, EndOf(y, to).session.store, n).store
  {
    hide Stamped, LaneOk, L.Arrive, OpenWith, PayloadOf, L.ChainAt, ReplyBase;
    BlankAdmissible(c, w, y, to, sid, n);
    var s := EndOf(y, to).session;
    L.DeriveIsArrive(c, s.core, s.store, Blank(sid, n).ratchet, LaneTo(c, u, to));
  }

  /** A party with message 0 accepted and nothing else delivered. */
  lemma FirstAccepted(c: Provider, w: Framing, u: Setup, to: Party, n: nat)
    requires Lawful(c) && Faithful(w) && FreshKeys(c, u) && n > 0
    ensures
      var y := Run(c, w, Initial(c, u), Repeated(Send(Other(to), "", 0, []), n) + [Deliver(to, 0)]);
      var e := EndOf(y, to);
      && Inv(c, w, u, y) && |PeerOf(y, to).sent| == n && Settled(e) && e.got == [0] && e.session.store == []
      && e.session.core.receivingChain.Some? && ChainMet(c, u, y, to).messageIndex == 1
  {
    hide Run, Step, Inv, L.Arrive, L.Receiving, L.Following, L.ChainAt, Initial, Verdict, L.Held, Decrypt;
    var y0, send := Initial(c, u), Send(Other(to), "", 0, []);
    var sends := Repeated(send, n);
    ManySends(c, w, u, to, send, n);
    InitialChain(c, u, to);
    RunInv(c, w, u, sends);
    var y := Run(c, w, y0, sends);
    RunSnoc(c, w, y0, sends, Deliver(to, 0));
    FirstChain(c, w, u, y, to);
    OneDelivery(c, w, u, y, to, 0);
    RunInv(c, w, u, sends + [Deliver(to, 0)]);
    ReceivingHere(c, w, u, Step(c, w, y, Deliver(to, 0)), to);
  }

  lemma FirstChain(c: Provider, w: Framing, u: Setup, y: System, to: Party)
    requires Inv(c, w, u, y) && ChainMet(c, u, y, to).messageIndex == 0 && !EndOf(y, to).limited
    requires !EndOf(y, to).disturbed && EndOf(y, to).got == []
    ensures
      var o := L.Arrive(c, LaneTo(c, u, to), ChainMet(c, u, y, to), u.limits, EndOf(y, to).session.store, 0);
      o.result.Ok? && o.result.value.1.messageIndex == 1
  {
    hide Stamped, L.Held, L.Trusty, L.Receiving;
    ReceivingHere(c, w, u, y, to);
    var chain, lane := ChainMet(c, u, y, to), LaneTo(c, u, to);
    FirstArrives(c, lane, u.limits, EndOf(y, to).session.store);
    L.ArriveMoves(c, lane, |PeerOf(y, to).sent|, chain, u.limits, EndOf(y, to).session.store, 0);
  }

  /** Two messages, the first delivered; a blank envelope names a third; the second is delivered twice. */
  function ForeignRun(u: Setup, c: Provider, to: Party): seq<Action> {
    Repeated(Send(Other(to), "", 0, []), 2) + [Deliver(to, 0)] +
    [Inject(to, Blank(c.hash(u.secret), 2))] + [Deliver(to, 1)] + [Deliver(to, 1)]
  }

  lemma ForeignRunAccepts(c: Provider, w: Framing, u: Setup, to: Party)
    requires Lawful(c) && Faithful(w) && FreshKeys(c, u) && L.Files(u.limits)
    ensures EndOf(Run(c, w, Initial(c, u), ForeignRun(u, c, to)), to).got == [0, 1, 1]
  {
    hide Run, Step, Inv, L.Arrive, L.Receiving, L.ChainAt, Initial, Verdict, Decrypt, Blank, Stamped, L.Files;
    var y0 := Initial(c, u);
    var acts := Repeated(Send(Other(to), "", 0, []), 2) + [Deliver(to, 0)];
    var act, next := Inject(to, Blank(c.hash(u.secret), 2)), Deliver(to, 1);
    FirstAccepted(c, w, u, to, 2);
    var y := Run(c, w, y0, acts);
    ReceivingHere(c, w, u, y, to);
    L.AheadStrands(c, LaneTo(c, u, to), 2, ChainMet(c, u, y, to), u.limits);
    BlankAdmissible(c, w, y, to, c.hash(u.secret), 2);
    BlankStore(c, w, u, y, to, c.hash(u.secret), 2);
    InjectInv(c, w, u, y, to, Blank(c.hash(u.secret), 2));
    RunSnoc(c, w, y0, acts, act);
    var y1 := Step(c, w, y, act);
    InjectPeer(c, w, y, to, act.e);
    OneDelivery(c, w, u, y1, to, 1);
    RunSnoc(c, w, y0, acts + [act], next);
    RunInv(c, w, u, acts + [act] + [next]);
    OneDelivery(c, w, u, Step(c, w, y1, next), to, 1);
    RunSnoc(c, w, y0, acts + [act] + [next], next);
  }

  lemma InjectPeer(c: Provider, w: Framing, y: System, to: Party, e: Envelope)
    ensures
      var y' := Step(c, w, y, Inject(to, e));
      PeerOf(y', to) == PeerOf(y, to) && EndOf(y', to).got == EndOf(y, to).got
  {
    hide Decrypt;
  }

  /** With foreign envelopes exactly-once breaks at more limits: some run makes the party accept a message
      twice if and only if keys are filed at all. */
  lemma TwiceWithForeign(c: Provider, w: Framing, u: Setup, to: Party)
    requires Lawful(c) && Faithful(w) && FreshKeys(c, u)
    ensures (exists acts :: Twice(c, w, u, acts, to)) <==> L.Files(u.limits)
  {
    hide Run, Initial, ForeignRun;
    if L.Files(u.limits) {
      ForeignRunAccepts(c, w, u, to);
      var got := EndOf(Run(c, w, Initial(c, u), ForeignRun(u, c, to)), to).got;
      assert got[1] == got[2];
      assert Twice(c, w, u, ForeignRun(u, c, to), to);
    } else {
      forall acts ensures !Twice(c, w, u, acts, to) {
        InjectionFree(c, w, u, acts);
        NeverTwice(c, w, u, acts, to);
      }
    }
  }

  /** And a message can be lost: its filed key is taken out by a blank envelope of its number. */
  lemma ForeignLoses(c: Provider, w: Framing, u: Setup, id: string, now: int, payload: Bytes)
    requires Lawful(c) && Faithful(w) && FreshKeys(c, u) && L.Files(u.limits)
    ensures
      var send := Send(Initiator, id, now, payload);
      var acts := Repeated(send, 2) + [Deliver(Responder, 1)];
      && |Run(c, w, Initial(c, u), acts).initiator.sent| == 2
      && Verdict(c, w, Run(c, w, Initial(c, u), acts), Responder, 0).Ok?
      && var lost := Run(c, w, Initial(c, u), acts + [Inject(Responder, Blank(c.hash(u.secret), 0))]);
         |lost.initiator.sent| == 2 && Verdict(c, w, lost, Responder, 0).Err?
  {
    hide Run, Step, Inv, L.Arrive, L.Receiving, L.ChainAt, Initial, Verdict, Decrypt, Stamped, L.Trusty;
    var y0, send := Initial(c, u), Send(Initiator, id, now, payload);
    var sends := Repeated(send, 2);
    ManySends(c, w, u, Responder, send, 2);
    InitialChain(c, u, Responder);
    RunInv(c, w, u, sends);
    var y := Run(c, w, y0, sends);
    SkipOne(c, w, u, y);
    OneDelivery(c, w, u, y, Responder, 1);
    RunSnoc(c, w, y0, sends, Deliver(Responder, 1));
    var acts := sends + [Deliver(Responder, 1)];
    RunInv(c, w, u, acts);
    var z := Run(c, w, y0, acts);
    ReceivingHere(c, w, u, z, Responder);
    AcceptedDecided(c, w, u, acts, Responder, 0);
    BlankAdmissible(c, w, z, Responder, c.hash(u.secret), 0);
    BlankHits(c, w, u, z);
    AcceptedAfterForeign(c, w, u, acts, Responder, Blank(c.hash(u.secret), 0), 0);
  }

  lemma SkipOne(c: Provider, w: Framing, u: Setup, y: System)
    requires Lawful(c) && Inv(c, w, u, y) && L.Files(u.limits) && |y.initiator.sent| == 2
    requires ChainMet(c, u, y, Responder).messageIndex == 0 && y.responder.got == []
    requires !y.responder.limited && !y.responder.disturbed
    ensures
      var o := L.Arrive(c, Forward(c, u), ChainMet(c, u, y, Responder), u.limits, y.responder.session.store, 1);
      o.result.Ok? && o.result.value.1.messageIndex == 2
  {
    hide Stamped, L.Held, L.Trusty, L.Arrive, L.ChainAt;
    ReceivingHere(c, w, u, y, Responder);
    var chain, store := ChainMet(c, u, y, Responder), y.responder.session.store;
    L.ArriveExact(c, Forward(c, u), 2, chain, u.limits, store, 1, []);
    L.ArriveMoves(c, Forward(c, u), 2, chain, u.limits, store, 1);
  }

  lemma BlankHits(c: Provider, w: Framing, u: Setup, y: System)
    requires Inv(c, w, u, y)
    ensures Hits(c, y.responder.session, Blank(c.hash(u.secret), 0).ratchet, L.Slot(Forward(c, u), 0))
  {
    hide Stamped, LaneOk;
  }
}
