/** The device-link ceremony: request, sealed response and key confirmation
    (`protocol/deviceLinkV1.js`). */
module DeviceLink {
  import opened Basics
  import opened Crypto
  import opened CanonicalJson
  import opened DeviceKeys
  import opened JsonFields
  import opened LinkRequest
  import opened Ordering
  import Base64
  import Text
  import X3dh

  const CEREMONY_PURPOSE := "rez:device-link-ceremony:v1"
  const SIGN_KEY := "accountSignPublicKeyB64"
  const RENDEZVOUS := "rendezvousPublicKeyB64"
  const TH_REQUEST := "thRequestB64"
  const EPHEMERAL := "ephemeralDhPublicKeyB64"
  const MASTER_LABEL := "rez:link:v1:master:"
  const CONFIRM_LABEL := "rez:link:v1:confirm:"
  const MAX_PAYLOAD: nat := 15000

  function RequestInfo(): Bytes { Text.Ascii("rez:link:v1:request-key") }
  function ResponseInfo(): Bytes { Text.Ascii("rez:link:v1:response-key") }

  // ---- associated data and transcripts

  function AadJson(account: string, rendezvous: string, step: string, extra: Fields): Json {
    Obj([Pair("v", Num("1")), Pair("purpose", Str(CEREMONY_PURPOSE)), Pair(SIGN_KEY, Str(account)),
         Pair(RENDEZVOUS, Str(rendezvous)), Pair("step", Str(step))] + extra)
  }

  function RequestJson(account: string, rendezvous: string): Json {
    AadJson(account, rendezvous, "request", [])
  }

  function ResponseJson(account: string, rendezvous: string, th: string, eB: string): Json {
    AadJson(account, rendezvous, "response", [Pair(TH_REQUEST, Str(th)), Pair(EPHEMERAL, Str(eB))])
  }

  function Transcript(c: Provider, aad: Bytes, nonce: Bytes, ciphertext: Bytes): string {
    Base64.Encode(c.hash(aad + nonce + ciphertext))
  }

  // ---- derivations

  function RequestKey(c: Provider, psk: Bytes): Bytes {
    c.hkdf(psk, Salt(), RequestInfo(), 32)
  }

  function Master(c: Provider, psk: Bytes, secret: Bytes, th: string): Bytes {
    c.hkdf(secret + psk, Salt(), Text.Utf8(MASTER_LABEL + th), 32)
  }

  function ResponseKey(c: Provider, master: Bytes): Bytes {
    c.hkdf(master, [], ResponseInfo(), 32)
  }

  function ConfirmTag(c: Provider, master: Bytes, th: string): Bytes {
    c.hkdf(master, [], Text.Utf8(CONFIRM_LABEL + th), 32)
  }

  // ---- the wire bundle

  datatype Bundle = Bundle(account: string, dhPublic: string, dhPrivate: string, certChain: seq<Json>, cached: Json)

  function DhPairJson(b: Bundle): Json {
    Obj([Pair("publicKeyB64", Str(b.dhPublic)), Pair("privateKeyB64", Str(b.dhPrivate))])
  }

  function BundleFields(b: Bundle): Fields {
    [Pair(SIGN_KEY, Str(b.account)), Pair("accountDhKeyPair", DhPairJson(b)),
     Pair("certChain", Arr(b.certChain)), Pair("cachedDeviceSet", b.cached)]
  }

  function BundleJson(b: Bundle): Json {
    Obj(BundleFields(b))
  }

  /** No secret may ride along. */
  predicate NothingForbidden(src: Json) {
    && Field(src, "deviceKeyPair").None? && Field(src, "accountSignPrivateKeyB64").None?
    && Field(src, "accountSignKeyPair").None? && Field(src, "mnemonic").None? && Field(src, "seed").None?
  }

  predicate DhOk(dh: Option<Json>) {
    dh.Some? &&
    match (Field(dh.value, "publicKeyB64"), Field(dh.value, "privateKeyB64"))
    case (Some(Str(p)), Some(Str(s))) => X25519Ok(p) && Base64.RequireCanonicalB64(s, None).Ok?
    case _ => false
  }

  /** Takes the four fields out of a received or given object, or refuses it. */
  function Validated(src: Json, account: string): Option<Bundle> {
    var dh, chain := Field(src, "accountDhKeyPair"), Field(src, "certChain");
    var cachedField := Field(src, "cachedDeviceSet");
    var cached := if cachedField.Some? then cachedField.value else Null;
    if !NothingForbidden(src) || Field(src, SIGN_KEY) != Some(Str(account)) || !DhOk(dh) then None
    else if !(chain.Some? && chain.value.Arr? && chain.value.items != []) then None
    else if !(cached.Null? || cached.Obj?) then None
    else Some(Bundle(account, StrOf(Field(dh.value, "publicKeyB64")), StrOf(Field(dh.value, "privateKeyB64")),
                     chain.value.items, cached))
  }

  ghost predicate BundleOk(b: Bundle) {
    && X25519Ok(b.dhPublic) && Base64.RequireCanonicalB64(b.dhPrivate, None).Ok?
    && b.certChain != [] && (b.cached.Null? || b.cached.Obj?)
  }

  /** The bundle with every JSON part in canonical key order. */
  ghost function CanonicalBundle(b: Bundle): Bundle {
    b.(certChain := CanonicalItems(b.certChain), cached := Canonical(b.cached))
  }

  lemma ValidatedOk(src: Json, account: string)
    requires Validated(src, account).Some?
    ensures BundleOk(Validated(src, account).value) && Validated(src, account).value.account == account
  {
    hide Field, X25519Ok, Base64.RequireCanonicalB64, NothingForbidden;
  }

  lemma BundleKeys(b: Bundle)
    ensures DistinctKeys(BundleFields(b)) && DistinctKeys(DhPairJson(b).fields)
    ensures forall i :: 0 <= i < 4 ==> BundleFields(b)[i].key != "__proto__"
    ensures forall i :: 0 <= i < 2 ==> DhPairJson(b).fields[i].key != "__proto__"
  {
    assert |SIGN_KEY| == 23 && |"accountDhKeyPair"| == 16 && |"certChain"| == 9 && |"cachedDeviceSet"| == 15;
    assert |"publicKeyB64"| == 12 && |"privateKeyB64"| == 13 && |"__proto__"| == 9;
    assert "certChain"[0] == 'c' && "__proto__"[0] == '_';
  }

  lemma BundleLookups(b: Bundle)
    ensures FieldIn(BundleFields(b), SIGN_KEY) == Some(Str(b.account))
    ensures FieldIn(BundleFields(b), "accountDhKeyPair") == Some(DhPairJson(b))
    ensures FieldIn(BundleFields(b), "certChain") == Some(Arr(b.certChain))
    ensures FieldIn(BundleFields(b), "cachedDeviceSet") == Some(b.cached)
    ensures FieldIn(DhPairJson(b).fields, "publicKeyB64") == Some(Str(b.dhPublic))
    ensures FieldIn(DhPairJson(b).fields, "privateKeyB64") == Some(Str(b.dhPrivate))
  {
    hide FieldIn;
    BundleKeys(b);
    var f, d := BundleFields(b), DhPairJson(b).fields;
    assert f[0] in f && f[1] in f && f[2] in f && f[3] in f && d[0] in d && d[1] in d;
    FieldIs(f, SIGN_KEY, Str(b.account));
    FieldIs(f, "accountDhKeyPair", DhPairJson(b));
    FieldIs(f, "certChain", Arr(b.certChain));
    FieldIs(f, "cachedDeviceSet", b.cached);
    FieldIs(d, "publicKeyB64", Str(b.dhPublic));
    FieldIs(d, "privateKeyB64", Str(b.dhPrivate));
  }

  predicate BundleKey(key: string) {
    key == SIGN_KEY || key == "accountDhKeyPair" || key == "certChain" || key == "cachedDeviceSet"
  }

  lemma NoSuchField(b: Bundle, key: string)
    requires !BundleKey(key)
    ensures Field(Canonical(BundleJson(b)), key).None?
  {
    hide Canonical;
    BundleKeys(b);
    CanonicalField(BundleFields(b), key);
    FieldMember(BundleFields(b), key);
  }

  lemma NotBundleKeys()
    ensures !BundleKey("deviceKeyPair") && !BundleKey("accountSignPrivateKeyB64") && !BundleKey("accountSignKeyPair")
    ensures !BundleKey("mnemonic") && !BundleKey("seed")
  {
    assert |"deviceKeyPair"| == 13 && |"accountSignPrivateKeyB64"| == 24 && |"accountSignKeyPair"| == 18;
    assert |"mnemonic"| == 8 && |"seed"| == 4;
  }

  lemma BundleClean(b: Bundle)
    ensures NothingForbidden(Canonical(BundleJson(b)))
  {
    hide Canonical, BundleKey, BundleJson, Field;
    NotBundleKeys();
    NoSuchField(b, "deviceKeyPair");
    NoSuchField(b, "accountSignPrivateKeyB64");
    NoSuchField(b, "accountSignKeyPair");
    NoSuchField(b, "mnemonic");
    NoSuchField(b, "seed");
  }

  /** A validated bundle, printed canonically and read back, validates to itself. */
  lemma BundleRoundTrip(b: Bundle)
    requires BundleOk(b)
    ensures Validated(Canonical(BundleJson(b)), b.account) == Some(CanonicalBundle(b))
  {
    hide Canonical, FieldIn, X25519Ok, Base64.RequireCanonicalB64, NothingForbidden, Field;
    BundleClean(b);
    BundleFieldsRead(b);
    DhRead(b);
    CanonicalKinds(b);
  }

  lemma BundleFieldsRead(b: Bundle)
    ensures
      var v := Canonical(BundleJson(b));
      && Field(v, SIGN_KEY) == Some(Str(b.account))
      && Field(v, "accountDhKeyPair") == Some(Canonical(DhPairJson(b)))
      && Field(v, "certChain") == Some(Canonical(Arr(b.certChain)))
      && Field(v, "cachedDeviceSet") == Some(Canonical(b.cached))
  {
    hide FieldIn, Field, Canonical;
    BundleKeys(b);
    BundleLookups(b);
    var f := BundleFields(b);
    CanonicalField(f, SIGN_KEY);
    CanonicalField(f, "accountDhKeyPair");
    CanonicalField(f, "certChain");
    CanonicalField(f, "cachedDeviceSet");
    CanonicalStr(b.account);
  }

  lemma DhRead(b: Bundle)
    ensures
      var v := Canonical(DhPairJson(b));
      Field(v, "publicKeyB64") == Some(Str(b.dhPublic)) && Field(v, "privateKeyB64") == Some(Str(b.dhPrivate))
  {
    hide FieldIn, Field, Canonical;
    BundleKeys(b);
    BundleLookups(b);
    CanonicalField(DhPairJson(b).fields, "publicKeyB64");
    CanonicalField(DhPairJson(b).fields, "privateKeyB64");
    CanonicalStr(b.dhPublic);
    CanonicalStr(b.dhPrivate);
  }

  lemma CanonicalKinds(b: Bundle)
    ensures Canonical(Arr(b.certChain)) == Arr(CanonicalItems(b.certChain))
    ensures Canonical(b.cached).Null? <==> b.cached.Null?
    ensures Canonical(b.cached).Obj? <==> b.cached.Obj?
  {
  }

  // ---- the three steps

  datatype LinkError =
    | BadInput
    | WrongStep
    | BadEncoding
    | SecretRejected
    | Undecryptable
    | NotJson
    | BadRequest
    | RequestRefused(reason: RequestError)
    | BadBundle
    | TooLarge

  datatype RequestPayload = RequestPayload(v: int, step: string, nonceB64: string, ciphertextB64: string)
  datatype ResponsePayload = ResponsePayload(v: int, step: string, ephemeral: string, nonceB64: string,
    ciphertextB64: string)
  datatype ConfirmPayload = ConfirmPayload(v: int, step: string, tagB64: string)

  datatype Request = Request(payload: RequestPayload, th: string)
  datatype OpenedRequest = OpenedRequest(linkRequest: LinkRequest, ephemeral: string, th: string)
  datatype Sealed = Sealed(payload: ResponsePayload, th: string)
  datatype Response = Response(sealed: Sealed, master: Bytes, confirmTagB64: string)
  datatype Opened = Opened(bundle: Bundle, master: Bytes, th: string)

  /** The ceremony both sides were given: the secret of the code, the account and the meeting point. */
  datatype Ceremony = Ceremony(psk: Bytes, account: string, rendezvous: string)

  predicate CeremonyOk(y: Ceremony) {
    |y.psk| == 32 && SpkiOk(y.account) && SpkiOk(y.rendezvous)
  }

  predicate HashTextOk(th: string) {
    Base64.RequireCanonicalB64(th, Some(32)).Ok?
  }

  function InnerRequest(linkRequest: Json, eA: string): Json {
    Obj([Pair("linkRequest", linkRequest), Pair(EPHEMERAL, Str(eA))])
  }

  /** Nonce and ciphertext of a payload, when both are canonical base64. */
  function Unpacked(nonceB64: string, ciphertextB64: string): Option<(Bytes, Bytes)> {
    if Base64.RequireCanonicalB64(nonceB64, Some(12)).Ok? && Base64.RequireCanonicalB64(ciphertextB64, None).Ok? then
      match (Base64.Decode(nonceB64), Base64.Decode(ciphertextB64))
      case (Ok(n), Ok(ct)) => Some((n, ct))
      case _ => None
    else None
  }

  /** What the requesting device brings: its key, its inbox binding and the request's times. */
  datatype Requester = Requester(device: Device, binding: Json, issued: string, expires: string)

  ghost function LinkRequestOf(c: Provider, y: Ceremony, q: Requester): LinkRequest {
    Made(c, y.psk, y.account, q.device, q.binding, q.issued, q.expires)
  }

  ghost function BuildRequest(
    c: Provider, num: Numbers, y: Ceremony, ephA: Bytes, q: Requester, nonce: Bytes): Result<Request, LinkError>
  {
    var eA := Base64.Encode(c.publicOf(ephA));
    var r := LinkRequestOf(c, y, q);
    if !CeremonyOk(y) || !X25519Ok(eA) || |nonce| != 12 then Err(BadInput)
    else if !RecordOk(c, num, r) then Err(BadRequest)
    else
      var aad := TextBytes(RequestJson(y.account, y.rendezvous));
      var ct := c.seal(RequestKey(c, y.psk), nonce, TextBytes(InnerRequest(RecordJson(r), eA)), aad);
      Ok(Request(RequestPayload(1, "request", Base64.Encode(nonce), Base64.Encode(ct)), Transcript(c, aad, nonce, ct)))
  }

  /** `read` is text decoding followed by JSON parsing. */
  ghost function OpenRequest(
    c: Provider, num: Numbers, read: Bytes -> Option<Json>, y: Ceremony, payload: RequestPayload, now: real, skew: real
  ): Result<OpenedRequest, LinkError> {
    if !CeremonyOk(y) then Err(BadInput)
    else if payload.v != 1 || payload.step != "request" then Err(WrongStep)
    else match Unpacked(payload.nonceB64, payload.ciphertextB64)
      case None => Err(BadEncoding)
      case Some((nonce, ct)) =>
        var aad := TextBytes(RequestJson(y.account, y.rendezvous));
        var plain := if |ct| < 16 then None else c.open(RequestKey(c, y.psk), nonce, ct, aad);
        if plain.None? then Err(Undecryptable)
        else if read(plain.value).None? then Err(NotJson)
        else
          var inner := read(plain.value).value;
          var raw := Field(inner, "linkRequest");
          var eA := StrOf(Field(inner, EPHEMERAL));
          if raw.None? then Err(BadRequest)
          else match Accepted(c, num, y.psk, y.account, raw.value, now, skew)
            case Err(e) => Err(RequestRefused(e))
            case Ok(r) =>
              if !X25519Ok(eA) then Err(BadRequest) else Ok(OpenedRequest(r, eA, Transcript(c, aad, nonce, ct)))
  }

  ghost function SealOnce(
    c: Provider, master: Bytes, y: Ceremony, th: string, eB: string, b: Bundle, nonce: Bytes): Sealed
  {
    var aad := TextBytes(ResponseJson(y.account, y.rendezvous, th, eB));
    var ct := c.seal(ResponseKey(c, master), nonce, TextBytes(Obj([Pair("delegationBundle", BundleJson(b))])), aad);
    Sealed(ResponsePayload(1, "response", eB, Base64.Encode(nonce), Base64.Encode(ct)), Transcript(c, aad, nonce, ct))
  }

  /** The size the durable record has to carry. */
  function PayloadSize(p: ResponsePayload): nat {
    |Base64.Encode(Text.Utf8(Print(Obj([
      Pair("v", Num("1")), Pair("step", Str(p.step)), Pair(EPHEMERAL, Str(p.ephemeral)),
      Pair("nonceB64", Str(p.nonceB64)), Pair("ciphertextB64", Str(p.ciphertextB64))]))))|
  }

  /** Seals the whole bundle, or if that is too large the bundle without its cached device set. */
  ghost function BuildResponse(
    c: Provider, y: Ceremony, th: string, eA: string, src: Json, ephB: Bytes, nonce: Bytes, nonce2: Bytes
  ): Result<Response, LinkError> {
    if !CeremonyOk(y) || !HashTextOk(th) || !X25519Ok(eA) || |nonce| != 12 || |nonce2| != 12 then Err(BadInput)
    else if Validated(src, y.account).None? then Err(BadBundle)
    else
      var b := Validated(src, y.account).value;
      var eB := Base64.Encode(c.publicOf(ephB));
      var secret := c.dh(ephB, KeyBytes(eA));
      if !X3dh.SecretOk(secret) then Err(SecretRejected)
      else
        var master := Master(c, y.psk, secret, th);
        var first := SealOnce(c, master, y, th, eB, b, nonce);
        var sealed :=
          if PayloadSize(first.payload) > MAX_PAYLOAD && !b.cached.Null?
          then SealOnce(c, master, y, th, eB, b.(cached := Null), nonce2) else first;
        if PayloadSize(sealed.payload) > MAX_PAYLOAD then Err(TooLarge)
        else Ok(Response(sealed, master, Base64.Encode(ConfirmTag(c, master, sealed.th))))
  }

  function KeyBytes(key: string): Bytes {
    match Base64.Decode(key) case Ok(b) => b case Err(_) => []
  }

  ghost function OpenResponse(
    c: Provider, read: Bytes -> Option<Json>, y: Ceremony, th: string, ephA: Bytes, payload: ResponsePayload
  ): Result<Opened, LinkError> {
    if !CeremonyOk(y) || !HashTextOk(th) then Err(BadInput)
    else if payload.v != 1 || payload.step != "response" then Err(WrongStep)
    else if !X25519Ok(payload.ephemeral) then Err(BadEncoding)
    else match Unpacked(payload.nonceB64, payload.ciphertextB64)
      case None => Err(BadEncoding)
      case Some((nonce, ct)) =>
        var secret := c.dh(ephA, KeyBytes(payload.ephemeral));
        if !X3dh.SecretOk(secret) then Err(SecretRejected)
        else
          var master := Master(c, y.psk, secret, th);
          var aad := TextBytes(ResponseJson(y.account, y.rendezvous, th, payload.ephemeral));
          var plain := if |ct| < 16 then None else c.open(ResponseKey(c, master), nonce, ct, aad);
          if plain.None? then Err(Undecryptable)
          else if read(plain.value).None? then Err(NotJson)
          else
            var src := Field(read(plain.value).value, "delegationBundle");
            if src.None? || Validated(src.value, y.account).None? then Err(BadBundle)
            else Ok(Opened(Validated(src.value, y.account).value, master, Transcript(c, aad, nonce, ct)))
  }

  function BuildConfirm(c: Provider, master: Bytes, th: string): Result<ConfirmPayload, LinkError> {
    if |master| != 32 || !HashTextOk(th) then Err(BadInput)
    else Ok(ConfirmPayload(1, "confirm", Base64.Encode(ConfirmTag(c, master, th))))
  }

  function VerifyConfirm(c: Provider, master: Bytes, th: string, payload: ConfirmPayload): Result<bool, LinkError> {
    if |master| != 32 || !HashTextOk(th) then Err(BadInput)
    else if payload.v != 1 || payload.step != "confirm" then Ok(false)
    else match Base64.Decode(payload.tagB64)
      case Err(_) => Ok(false)
      case Ok(claimed) => Ok(claimed == ConfirmTag(c, master, th))
  }

  // ---- agreement

  lemma AadWell(account: string, rendezvous: string, step: string, extra: Fields)
    requires extra == [] || (|extra| == 2 && extra[0].key == TH_REQUEST && extra[1].key == EPHEMERAL &&
      extra[0].value.Str? && extra[1].value.Str?)
    ensures WellFormed(AadJson(account, rendezvous, step, extra))
  {
    var f := AadJson(account, rendezvous, step, extra).fields;
    assert |"v"| == 1 && |"purpose"| == 7 && |SIGN_KEY| == 23 && |RENDEZVOUS| == 22 && |"step"| == 4 &&
      |"__proto__"| == 9;
    assert |TH_REQUEST| == 12 && |EPHEMERAL| == 23 && SIGN_KEY[0] == 'a' && EPHEMERAL[0] == 'e';
    forall i, j | 0 <= i < j < |f| ensures f[i].key != f[j].key { }
    assert WellFormed(Num("1"));
  }

  /** Text of one JSON object followed by anything determines the object. */
  lemma ObjectPrefix(v: Json, x: Bytes, w: Json, y: Bytes)
    requires v.Obj? && w.Obj? && WellFormed(v) && WellFormed(w)
    requires TextBytes(v) + x == TextBytes(w) + y
    ensures Canonical(v) == Canonical(w) && x == y
  {
    hide Canonical, Print, Text.Utf8, WellFormed;
    var s, t := CanonicalText(v), CanonicalText(w);
    Text.Utf8Prefix(s, x, t, y);
    assert Utf8Nothing() + x == x && Utf8Nothing() + y == y;
    if s <= t && x == Text.Utf8(t[|s|..]) + y {
      ObjectContinues(v, w, t[|s|..]);
    } else {
      ObjectContinues(w, v, s[|t|..]);
    }
  }

  function Utf8Nothing(): (b: Bytes)
    ensures b == [] == Text.Utf8("")
  {
    []
  }

  lemma ObjectContinues(v: Json, w: Json, z: string)
    requires v.Obj? && w.Obj? && WellFormed(v) && WellFormed(w)
    requires CanonicalText(w) == CanonicalText(v) + z
    ensures Canonical(v) == Canonical(w) && z == ""
  {
    hide Print, Canonical;
    CanonicalWell(v);
    CanonicalWell(w);
    CanonicalIs(v.fields);
    CanonicalIs(w.fields);
    var a, b := Canonical(v).fields, Canonical(w).fields;
    assert Print(Obj(b)) + "" == Print(Obj(a)) + z;
    FieldsPrefix(b, "", a, z);
  }

  lemma ResponseJsonInjective(
    account: string, rendezvous: string, th: string, eB: string, account': string, rendezvous': string, th': string,
    eB': string)
    requires Canonical(ResponseJson(account, rendezvous, th, eB)) ==
      Canonical(ResponseJson(account', rendezvous', th', eB'))
    ensures account == account' && rendezvous == rendezvous' && th == th' && eB == eB'
  {
    hide Canonical, ResponseJson, Field;
    ResponseFields(account, rendezvous, th, eB);
    ResponseFields(account', rendezvous', th', eB');
  }

  lemma ResponseFields(account: string, rendezvous: string, th: string, eB: string)
    ensures
      var v := Canonical(ResponseJson(account, rendezvous, th, eB));
      && Field(v, SIGN_KEY) == Some(Str(account)) && Field(v, RENDEZVOUS) == Some(Str(rendezvous))
      && Field(v, TH_REQUEST) == Some(Str(th)) && Field(v, EPHEMERAL) == Some(Str(eB))
  {
    hide Canonical, Field, FieldIn;
    AadWell(account, rendezvous, "response", [Pair(TH_REQUEST, Str(th)), Pair(EPHEMERAL, Str(eB))]);
    var f := ResponseJson(account, rendezvous, th, eB).fields;
    assert f[2] in f && f[3] in f && f[5] in f && f[6] in f;
    FieldReads(f, SIGN_KEY, account);
    FieldReads(f, RENDEZVOUS, rendezvous);
    FieldReads(f, TH_REQUEST, th);
    FieldReads(f, EPHEMERAL, eB);
  }

  lemma RequestFields(account: string, rendezvous: string)
    ensures
      var v := Canonical(RequestJson(account, rendezvous));
      Field(v, SIGN_KEY) == Some(Str(account)) && Field(v, RENDEZVOUS) == Some(Str(rendezvous))
  {
    hide Canonical, Field, FieldIn;
    AadWell(account, rendezvous, "request", []);
    var f := RequestJson(account, rendezvous).fields;
    assert f[2] in f && f[3] in f;
    FieldReads(f, SIGN_KEY, account);
    FieldReads(f, RENDEZVOUS, rendezvous);
  }

  lemma TranscriptInput(c: Provider, v: Json, n: Bytes, ct: Bytes, v': Json, n': Bytes, ct': Bytes)
    requires v.Obj? && v'.Obj? && WellFormed(v) && WellFormed(v') && |n| == |n'|
    requires Transcript(c, TextBytes(v), n, ct) == Transcript(c, TextBytes(v'), n', ct')
    requires NoHashCollision(c, TextBytes(v) + n + ct, TextBytes(v') + n' + ct')
    ensures Canonical(v) == Canonical(v') && n == n' && ct == ct'
  {
    hide Canonical, TextBytes, WellFormed, Base64.Encode, Base64.Decode;
    var x, x' := TextBytes(v) + n + ct, TextBytes(v') + n' + ct';
    Base64.DecodeEncode(c.hash(x));
    Base64.DecodeEncode(c.hash(x'));
    assert x == x';
    assert x == TextBytes(v) + (n + ct) && x' == TextBytes(v') + (n' + ct');
    ObjectPrefix(v, n + ct, v', n' + ct');
    assert (n + ct)[..|n|] == n && (n' + ct')[..|n|] == n';
    assert (n + ct)[|n|..] == ct && (n' + ct')[|n|..] == ct';
  }

  /** The hash does not collide on this pair. */
  ghost predicate NoHashCollision(c: Provider, x: Bytes, y: Bytes) {
    c.hash(x) == c.hash(y) ==> x == y
  }

  lemma LabelledInjective(prefix: string, th: string, th': string)
    requires Text.Utf8(prefix + th) == Text.Utf8(prefix + th')
    ensures th == th'
  {
    hide Text.Utf8;
    Text.Utf8Injective(prefix + th, prefix + th');
    assert (prefix + th)[|prefix|..] == th && (prefix + th')[|prefix|..] == th';
  }

  /** One side's view when the response is in place. */
  datatype View = View(account: string, rendezvous: string, thRequest: string, eB: string, nonce: Bytes,
    ciphertext: Bytes, master: Bytes)

  ghost function Aad(w: View): Bytes {
    TextBytes(ResponseJson(w.account, w.rendezvous, w.thRequest, w.eB))
  }

  ghost function ThResponse(c: Provider, w: View): string {
    Transcript(c, Aad(w), w.nonce, w.ciphertext)
  }

  /** An accepted confirmation means that the two sides agree on everything: account, rendezvous,
      request transcript, ephemeral key, sealed response and master secret. */
  lemma ConfirmAgreement(c: Provider, approver: View, requester: View)
    requires |approver.nonce| == |requester.nonce|
    requires
      var confirm := BuildConfirm(c, requester.master, ThResponse(c, requester));
      confirm.Ok? && VerifyConfirm(c, approver.master, ThResponse(c, approver), confirm.value) == Ok(true)
    requires NoHkdfCollision(c, KdfInput(requester.master, [], Text.Utf8(CONFIRM_LABEL + ThResponse(c, requester))),
                             KdfInput(approver.master, [], Text.Utf8(CONFIRM_LABEL + ThResponse(c, approver))), 32)
    requires NoHashCollision(c, Aad(approver) + approver.nonce + approver.ciphertext,
                             Aad(requester) + requester.nonce + requester.ciphertext)
    ensures approver == requester
  {
    hide Text.Utf8, Aad, Transcript, HashTextOk, Base64.Encode, Base64.Decode, Canonical, ResponseJson;
    var a, r := ThResponse(c, approver), ThResponse(c, requester);
    Base64.DecodeEncode(ConfirmTag(c, requester.master, r));
    LabelledInjective(CONFIRM_LABEL, a, r);
    SameTranscript(c, approver, requester);
  }

  lemma SameTranscript(c: Provider, a: View, r: View)
    requires |a.nonce| == |r.nonce| && ThResponse(c, a) == ThResponse(c, r)
    requires NoHashCollision(c, Aad(a) + a.nonce + a.ciphertext, Aad(r) + r.nonce + r.ciphertext)
    ensures a == r.(master := a.master)
  {
    hide TextBytes, Transcript, Canonical, WellFormed;
    AadWell(a.account, a.rendezvous, "response", [Pair(TH_REQUEST, Str(a.thRequest)), Pair(EPHEMERAL, Str(a.eB))]);
    AadWell(r.account, r.rendezvous, "response", [Pair(TH_REQUEST, Str(r.thRequest)), Pair(EPHEMERAL, Str(r.eB))]);
    var v, w := ResponseJson(a.account, a.rendezvous, a.thRequest, a.eB),
      ResponseJson(r.account, r.rendezvous, r.thRequest, r.eB);
    TranscriptInput(c, v, a.nonce, a.ciphertext, w, r.nonce, r.ciphertext);
    ResponseJsonInjective(a.account, a.rendezvous, a.thRequest, a.eB, r.account, r.rendezvous, r.thRequest, r.eB);
  }

  /** Equal request transcripts stand for the same sealed request of the same account and rendezvous. */
  lemma RequestAgreement(c: Provider, y: Ceremony, n: Bytes, ct: Bytes, y': Ceremony, n': Bytes, ct': Bytes)
    requires |n| == |n'|
    requires
      var aad, aad' := TextBytes(RequestJson(y.account, y.rendezvous)),
        TextBytes(RequestJson(y'.account, y'.rendezvous));
      Transcript(c, aad, n, ct) == Transcript(c, aad', n', ct') && NoHashCollision(c, aad + n + ct, aad' + n' + ct')
    ensures y.account == y'.account && y.rendezvous == y'.rendezvous && n == n' && ct == ct'
  {
    hide TextBytes, Transcript, Canonical, WellFormed, Field;
    AadWell(y.account, y.rendezvous, "request", []);
    AadWell(y'.account, y'.rendezvous, "request", []);
    var v, w := RequestJson(y.account, y.rendezvous), RequestJson(y'.account, y'.rendezvous);
    TranscriptInput(c, v, n, ct, w, n', ct');
    RequestFields(y.account, y.rendezvous);
    RequestFields(y'.account, y'.rendezvous);
  }

  /** Equal master secrets stand for the same agreement output, code secret and request transcript. */
  lemma MasterAgreement(c: Provider, psk: Bytes, secret: Bytes, th: string, psk': Bytes, secret': Bytes, th': string)
    requires X3dh.SecretOk(secret) && X3dh.SecretOk(secret')
    requires Master(c, psk, secret, th) == Master(c, psk', secret', th')
    requires NoHkdfCollision(c, KdfInput(secret + psk, Salt(), Text.Utf8(MASTER_LABEL + th)),
                             KdfInput(secret' + psk', Salt(), Text.Utf8(MASTER_LABEL + th')), 32)
    ensures psk == psk' && secret == secret' && th == th'
  {
    hide Text.Utf8, Salt;
    LabelledInjective(MASTER_LABEL, th, th');
    assert (secret + psk)[..32] == secret && (secret' + psk')[..32] == secret';
    assert (secret + psk)[32..] == psk && (secret' + psk')[32..] == psk';
  }

  /** The request key depends on the code's secret. */
  lemma RequestKeyBinds(c: Provider, psk: Bytes, psk': Bytes)
    requires RequestKey(c, psk) == RequestKey(c, psk')
    requires NoHkdfCollision(c, KdfInput(psk, Salt(), RequestInfo()), KdfInput(psk', Salt(), RequestInfo()), 32)
    ensures psk == psk'
  {
  }

  /** The response key depends on the master secret. */
  lemma ResponseKeyBinds(c: Provider, master: Bytes, master': Bytes)
    requires ResponseKey(c, master) == ResponseKey(c, master')
    requires NoHkdfCollision(c, KdfInput(master, [], ResponseInfo()), KdfInput(master', [], ResponseInfo()), 32)
    ensures master == master'
  {
  }

  // ---- the ceremony's own values, as the two sides hold them

  /** What the approver holds once the response is built. */
  ghost function ApproverView(c: Provider, y: Ceremony, th: string, response: Response): View {
    ViewOf(y, th, response.sealed.payload, response.master)
  }

  ghost function ViewOf(y: Ceremony, th: string, p: ResponsePayload, master: Bytes): View {
    View(y.account, y.rendezvous, th, p.ephemeral, KeyBytes(p.nonceB64), KeyBytes(p.ciphertextB64), master)
  }

  lemma CanonicalOf(b: Bytes)
    ensures Base64.Decode(Base64.Encode(b)) == Ok(b) && KeyBytes(Base64.Encode(b)) == b
    ensures b != [] ==> Base64.RequireCanonicalB64(Base64.Encode(b), None).Ok?
    ensures b != [] ==> Base64.RequireCanonicalB64(Base64.Encode(b), Some(|b|)).Ok?
  {
    hide Base64.Encode, Base64.Decode;
    Base64.DecodeEncode(b);
    if b != [] { Base64.EncodingAccepted(b); }
  }

  lemma UnpackedOf(n: Bytes, ct: Bytes)
    requires |n| == 12 && ct != []
    ensures Unpacked(Base64.Encode(n), Base64.Encode(ct)) == Some((n, ct))
  {
    hide Base64.Encode, Base64.Decode, Base64.RequireCanonicalB64;
    CanonicalOf(n);
    CanonicalOf(ct);
  }

  lemma BuiltTranscript(c: Provider, y: Ceremony, th: string, eA: string, src: Json, ephB: Bytes, n: Bytes, n2: Bytes)
    requires BuildResponse(c, y, th, eA, src, ephB, n, n2).Ok?
    ensures
      var r := BuildResponse(c, y, th, eA, src, ephB, n, n2).value;
      var w := ApproverView(c, y, th, r);
      r.sealed.th == ThResponse(c, w) && |w.nonce| == 12 && w.master == r.master
  {
    hide Base64.Encode, Base64.Decode, CeremonyOk, HashTextOk, X25519Ok, Validated, X3dh.SecretOk, Master, TextBytes,
      ConfirmTag, PayloadSize, Transcript, BundleJson, ResponseKey;
    var r := BuildResponse(c, y, th, eA, src, ephB, n, n2).value;
    var b, eB := Validated(src, y.account).value, Base64.Encode(c.publicOf(ephB));
    SealedTranscript(c, r.master, y, th, eB, b, n);
    SealedTranscript(c, r.master, y, th, eB, b.(cached := Null), n2);
  }

  lemma SealedTranscript(c: Provider, master: Bytes, y: Ceremony, th: string, eB: string, b: Bundle, n: Bytes)
    ensures
      var s := SealOnce(c, master, y, th, eB, b, n);
      s.th == ThResponse(c, ViewOf(y, th, s.payload, master)) && KeyBytes(s.payload.nonceB64) == n
  {
    hide Base64.Encode, Base64.Decode, TextBytes, Transcript, BundleJson, KeyBytes, ResponseKey;
    CanonicalOf(n);
    var aad := TextBytes(ResponseJson(y.account, y.rendezvous, th, eB));
    CanonicalOf(c.seal(ResponseKey(c, master), n, TextBytes(Obj([Pair("delegationBundle", BundleJson(b))])), aad));
  }

  lemma OpenedTranscript(
    c: Provider, read: Bytes -> Option<Json>, y: Ceremony, th: string, ephA: Bytes, p: ResponsePayload)
    requires OpenResponse(c, read, y, th, ephA, p).Ok?
    ensures
      var o := OpenResponse(c, read, y, th, ephA, p).value;
      var w := ViewOf(y, th, p, o.master);
      o.th == ThResponse(c, w) && |w.nonce| == 12
  {
    hide Base64.Encode, Base64.Decode, CeremonyOk, HashTextOk, X25519Ok, Validated, X3dh.SecretOk, Master, TextBytes,
      Transcript, ResponseKey, Field;
    UnpackedLength(p.nonceB64, p.ciphertextB64);
  }

  lemma UnpackedLength(nonceB64: string, ciphertextB64: string)
    requires Unpacked(nonceB64, ciphertextB64).Some?
    ensures
      var (n, ct) := Unpacked(nonceB64, ciphertextB64).value;
      |n| == 12 && KeyBytes(nonceB64) == n && KeyBytes(ciphertextB64) == ct
  {
    hide Base64.Encode, Base64.Decode;
  }

  /** If the approver, having built a response, accepts the confirmation of a requester that opened
      one, then both hold the same account key, rendezvous key, request transcript, response
      transcript and master secret. */
  lemma CeremonyAgreement(
    c: Provider, read: Bytes -> Option<Json>,
    ya: Ceremony, thA: string, eA: string, src: Json, ephB: Bytes, n: Bytes, n2: Bytes,
    yr: Ceremony, thR: string, ephA: Bytes, p: ResponsePayload)
    requires BuildResponse(c, ya, thA, eA, src, ephB, n, n2).Ok? && OpenResponse(c, read, yr, thR, ephA, p).Ok?
    requires
      var built, got := BuildResponse(c, ya, thA, eA, src, ephB, n, n2).value,
        OpenResponse(c, read, yr, thR, ephA, p).value;
      var a, r := ApproverView(c, ya, thA, built), ViewOf(yr, thR, p, got.master);
      var confirm := BuildConfirm(c, got.master, got.th);
      && confirm.Ok? && VerifyConfirm(c, built.master, built.sealed.th, confirm.value) == Ok(true)
      && NoHkdfCollision(c, KdfInput(r.master, [], Text.Utf8(CONFIRM_LABEL + got.th)),
                         KdfInput(a.master, [], Text.Utf8(CONFIRM_LABEL + built.sealed.th)), 32)
      && NoHashCollision(c, Aad(a) + a.nonce + a.ciphertext, Aad(r) + r.nonce + r.ciphertext)
    ensures
      var built, got := BuildResponse(c, ya, thA, eA, src, ephB, n, n2).value,
        OpenResponse(c, read, yr, thR, ephA, p).value;
      && ya.account == yr.account && ya.rendezvous == yr.rendezvous && thA == thR
      && built.sealed.th == got.th && built.master == got.master
  {
    hide BuildResponse, OpenResponse, BuildConfirm, VerifyConfirm, Text.Utf8, ThResponse, Aad, KeyBytes;
    BuiltTranscript(c, ya, thA, eA, src, ephB, n, n2);
    OpenedTranscript(c, read, yr, thR, ephA, p);
    var built, got := BuildResponse(c, ya, thA, eA, src, ephB, n, n2).value,
      OpenResponse(c, read, yr, thR, ephA, p).value;
    ConfirmAgreement(c, ApproverView(c, ya, thA, built), ViewOf(yr, thR, p, got.master));
  }

  // ---- the honest run

  /** Reading back what was printed canonically. */
  ghost predicate ReadsCanonical(read: Bytes -> Option<Json>) {
    forall v :: WellFormed(v) ==> read(TextBytes(v)) == Some(Canonical(v))
  }

  /** The value that some printed bytes stand for, if any. */
  ghost function ReadBack(b: Bytes): Option<Json> {
    if exists v :: WellFormed(v) && TextBytes(v) == b then
      var v :| WellFormed(v) && TextBytes(v) == b; Some(Canonical(v))
    else None
  }

  /** The assumption on reading is consistent. */
  lemma ReaderExists() returns (read: Bytes -> Option<Json>)
    ensures ReadsCanonical(read)
  {
    read := b => ReadBack(b);
    forall v | WellFormed(v) ensures read(TextBytes(v)) == Some(Canonical(v)) {
      var w :| WellFormed(w) && TextBytes(w) == TextBytes(v) && ReadBack(TextBytes(v)) == Some(Canonical(w));
      TextBytesFaithful(v, w);
    }
  }

  lemma TranscriptOk(c: Provider, aad: Bytes, n: Bytes, ct: Bytes)
    requires Digests(c.hash)
    ensures HashTextOk(Transcript(c, aad, n, ct))
  {
    hide Base64.Encode, Base64.RequireCanonicalB64;
    CanonicalOf(c.hash(aad + n + ct));
  }

  lemma InnerRead(linkRequest: Json, eA: string)
    requires WellFormed(linkRequest)
    ensures
      var v := InnerRequest(linkRequest, eA);
      && WellFormed(v) && Field(Canonical(v), "linkRequest") == Some(Canonical(linkRequest))
      && Field(Canonical(v), EPHEMERAL) == Some(Str(eA))
  {
    hide Canonical, Field, FieldIn;
    var f := InnerRequest(linkRequest, eA).fields;
    assert |"linkRequest"| == 11 && |EPHEMERAL| == 23 && |"__proto__"| == 9;
    assert f[0] in f && f[1] in f;
    FieldIs(f, "linkRequest", linkRequest);
    CanonicalField(f, "linkRequest");
    FieldReads(f, EPHEMERAL, eA);
  }

  /** The approver opens the request the device built exactly within its time window, with the same
      record (its binding in canonical key order) and the same transcript. */
  lemma RequestOpens(
    c: Provider, num: Numbers, read: Bytes -> Option<Json>, y: Ceremony, ephA: Bytes, q: Requester, n: Bytes,
    now: real, skew: real)
    requires Lawful(c) && ReadsCanonical(read) && HonestRequester(c, q)
    requires BuildRequest(c, num, y, ephA, q, n).Ok?
    ensures
      var built, eA := BuildRequest(c, num, y, ephA, q, n).value, Base64.Encode(c.publicOf(ephA));
      OpenRequest(c, num, read, y, built.payload, now, skew) ==
        if num(q.expires) <= now then Err(RequestRefused(Expired))
        else if num(q.issued) > now + skew then Err(RequestRefused(FromFuture))
        else Ok(OpenedRequest(LinkRequestOf(c, y, q).(binding := Canonical(q.binding)), eA, built.th))
  {
    hide TextBytes, Canonical, WellFormed, Base64.Encode, Base64.Decode, Base64.RequireCanonicalB64, CeremonyOk,
      X25519Ok,
      Transcript, InnerRequest, RequestJson, Field, Unpacked, RecordOk, RecordJson, Made, Accepted;
    var eA, r := Base64.Encode(c.publicOf(ephA)), LinkRequestOf(c, y, q);
    var aad := TextBytes(RequestJson(y.account, y.rendezvous));
    var plain := TextBytes(InnerRequest(RecordJson(r), eA));
    var ct := c.seal(RequestKey(c, y.psk), n, plain, aad);
    assert |ct| == |plain| + 16 && c.open(RequestKey(c, y.psk), n, ct, aad) == Some(plain);
    UnpackedOf(n, ct);
    MadeTimes(c, y, q);
    RecordWell(r);
    InnerRead(RecordJson(r), eA);
    MadeIsAccepted(c, num, y.psk, y.account, q.device, q.binding, q.issued, q.expires, now, skew);
  }

  /** What a requester that opens a response, whoever sent it, has in hand: a bundle of its own account
      without any of the forbidden secrets, sealed for this account, meeting point, request and ephemeral
      key under the master secret of its own code and key. */
  lemma OpenedIsBound(
    c: Provider, read: Bytes -> Option<Json>, y: Ceremony, th: string, ephA: Bytes, payload: ResponsePayload)
    requires OpenResponse(c, read, y, th, ephA, payload).Ok?
    ensures
      var o := OpenResponse(c, read, y, th, ephA, payload).value;
      var secret, ct := c.dh(ephA, KeyBytes(payload.ephemeral)), KeyBytes(payload.ciphertextB64);
      var aad := TextBytes(ResponseJson(y.account, y.rendezvous, th, payload.ephemeral));
      var plain := c.open(ResponseKey(c, o.master), KeyBytes(payload.nonceB64), ct, aad);
      && X3dh.SecretOk(secret) && o.master == Master(c, y.psk, secret, th)
      && o.th == ThResponse(c, ViewOf(y, th, payload, o.master))
      && BundleOk(o.bundle) && o.bundle.account == y.account
      && plain.Some? && read(plain.value).Some?
      && var src := Field(read(plain.value).value, "delegationBundle");
         src.Some? && NothingForbidden(src.value) && Validated(src.value, y.account) == Some(o.bundle)
  {
    hide TextBytes, Base64.Decode, Base64.RequireCanonicalB64, CeremonyOk, X25519Ok, Transcript, ResponseJson, Field,
      Master, ResponseKey, NothingForbidden;
    var src := Field(read(c.open(ResponseKey(c, OpenResponse(c, read, y, th, ephA, payload).value.master),
      KeyBytes(payload.nonceB64), KeyBytes(payload.ciphertextB64),
      TextBytes(ResponseJson(y.account, y.rendezvous, th, payload.ephemeral))).value).value, "delegationBundle").value;
    ValidatedOk(src, y.account);
  }

  /** A device that holds its own key pair, with JSON it can print. */
  ghost predicate HonestRequester(c: Provider, q: Requester) {
    && Base64.Decode(q.device.publicB64) == Ok(c.signingPublicOf(q.device.private))
    && WellFormed(q.binding) && WellFormed(Num(q.issued)) && WellFormed(Num(q.expires))
  }

  lemma MadeTimes(c: Provider, y: Ceremony, q: Requester)
    ensures
      var r := LinkRequestOf(c, y, q);
      r.binding == q.binding && r.issued == q.issued && r.expires == q.expires
  {
  }

  lemma BundleWell(b: Bundle)
    requires (forall i :: 0 <= i < |b.certChain| ==> WellFormed(b.certChain[i])) && WellFormed(b.cached)
    ensures
      var v := Obj([Pair("delegationBundle", BundleJson(b))]);
      WellFormed(v) && Field(Canonical(v), "delegationBundle") == Some(Canonical(BundleJson(b)))
  {
    hide Canonical, Field, FieldIn;
    BundleKeys(b);
    assert WellFormed(DhPairJson(b));
    assert WellFormed(Arr(b.certChain));
    assert WellFormed(BundleJson(b));
    var f := [Pair("delegationBundle", BundleJson(b))];
    assert |"delegationBundle"| == 16 && |"__proto__"| == 9 && f[0] in f;
    FieldIs(f, "delegationBundle", BundleJson(b));
    CanonicalField(f, "delegationBundle");
  }

  ghost predicate BundleWellFormed(b: Bundle) {
    (forall i :: 0 <= i < |b.certChain| ==> WellFormed(b.certChain[i])) && WellFormed(b.cached)
  }

  /** What was sealed for a requester opens for it. */
  lemma SealedOpens(
    c: Provider, read: Bytes -> Option<Json>, y: Ceremony, th: string, ephA: Bytes, ephB: Bytes, b: Bundle, n: Bytes)
    requires Lawful(c) && ReadsCanonical(read) && BundleOk(b) && BundleWellFormed(b) && b.account == y.account
    requires CeremonyOk(y) && HashTextOk(th) && |n| == 12
    requires X25519Ok(Base64.Encode(c.publicOf(ephB))) && X3dh.SecretOk(c.dh(ephB, c.publicOf(ephA)))
    ensures
      var master := Master(c, y.psk, c.dh(ephB, c.publicOf(ephA)), th);
      var s := SealOnce(c, master, y, th, Base64.Encode(c.publicOf(ephB)), b, n);
      OpenResponse(c, read, y, th, ephA, s.payload) == Ok(Opened(CanonicalBundle(b), master, s.th))
  {
    hide TextBytes, Canonical, WellFormed, Base64.Encode, Base64.Decode, Base64.RequireCanonicalB64, CeremonyOk,
      HashTextOk,
      X25519Ok, Transcript, BundleJson, ResponseJson, Field, Unpacked, X3dh.SecretOk, Master, Validated, BundleOk,
      CanonicalBundle, KeyBytes, BundleWellFormed;
    var eB := Base64.Encode(c.publicOf(ephB));
    var secret := c.dh(ephB, c.publicOf(ephA));
    assert secret == c.dh(ephA, c.publicOf(ephB));
    CanonicalOf(c.publicOf(ephB));
    var master := Master(c, y.psk, secret, th);
    var aad := TextBytes(ResponseJson(y.account, y.rendezvous, th, eB));
    var inner := Obj([Pair("delegationBundle", BundleJson(b))]);
    var plain := TextBytes(inner);
    var ct := c.seal(ResponseKey(c, master), n, plain, aad);
    assert |ct| == |plain| + 16 && c.open(ResponseKey(c, master), n, ct, aad) == Some(plain);
    UnpackedOf(n, ct);
    assert WellFormed(inner) && Field(Canonical(inner), "delegationBundle") == Some(Canonical(BundleJson(b))) by {
      UnfoldWell(b);
      BundleWell(b);
    }
    BundleRoundTrip(b);
  }

  lemma UnfoldWell(b: Bundle)
    requires BundleWellFormed(b)
    ensures (forall i :: 0 <= i < |b.certChain| ==> WellFormed(b.certChain[i])) && WellFormed(b.cached)
  {
  }

  /** The cached device set is left out exactly when there is one and the payload with it is over
      the limit. */
  ghost predicate DropsCached(
    c: Provider, y: Ceremony, th: string, ephA: Bytes, given: Bundle, ephB: Bytes, n: Bytes)
  {
    var master := Master(c, y.psk, c.dh(ephB, c.publicOf(ephA)), th);
    var whole := SealOnce(c, master, y, th, Base64.Encode(c.publicOf(ephB)), given, n);
    !given.cached.Null? && PayloadSize(whole.payload) > MAX_PAYLOAD
  }

  ghost function Delivered(
    c: Provider, y: Ceremony, th: string, ephA: Bytes, src: Json, ephB: Bytes, n: Bytes): Bundle
    requires Validated(src, y.account).Some?
  {
    var given := Validated(src, y.account).value;
    CanonicalBundle(if DropsCached(c, y, th, ephA, given, ephB, n) then given.(cached := Null) else given)
  }

  /** Whatever the approver built, the honest requester opens: the bundle is the given one in
      canonical key order, without its cached device set exactly when that was too large, and secrets
      and transcripts agree. */
  lemma ResponseOpens(
    c: Provider, read: Bytes -> Option<Json>, y: Ceremony, th: string, ephA: Bytes, src: Json, ephB: Bytes,
    n: Bytes, n2: Bytes)
    requires Lawful(c) && ReadsCanonical(read) && X25519Ok(Base64.Encode(c.publicOf(ephB)))
    requires BuildResponse(c, y, th, Base64.Encode(c.publicOf(ephA)), src, ephB, n, n2).Ok?
    requires BundleWellFormed(Validated(src, y.account).value)
    ensures
      var r := BuildResponse(c, y, th, Base64.Encode(c.publicOf(ephA)), src, ephB, n, n2).value;
      OpenResponse(c, read, y, th, ephA, r.sealed.payload) ==
        Ok(Opened(Delivered(c, y, th, ephA, src, ephB, n), r.master, r.sealed.th))
  {
    hide Canonical, WellFormed, Base64.Encode, Base64.Decode, CeremonyOk, HashTextOk, X25519Ok, X3dh.SecretOk, Master,
      Validated, BundleOk, CanonicalBundle, KeyBytes, BundleWellFormed, SealOnce, PayloadSize, ConfirmTag, OpenResponse,
      Lawful;
    var eA := Base64.Encode(c.publicOf(ephA));
    CanonicalOf(c.publicOf(ephA));
    ValidatedOk(src, y.account);
    var given := Validated(src, y.account).value;
    DropCached(given);
    SealedOpens(c, read, y, th, ephA, ephB, given, n);
    SealedOpens(c, read, y, th, ephA, ephB, given.(cached := Null), n2);
  }

  lemma DropCached(b: Bundle)
    requires BundleOk(b) && BundleWellFormed(b)
    ensures BundleOk(b.(cached := Null)) && BundleWellFormed(b.(cached := Null))
  {
    hide X25519Ok, Base64.RequireCanonicalB64;
    assert WellFormed(Null);
  }

  /** An honest ceremony from request to confirmation, at any time within the request's window. */
  lemma HonestRun(
    c: Provider, num: Numbers, read: Bytes -> Option<Json>, y: Ceremony, ephA: Bytes, ephB: Bytes, q: Requester,
    now: real, skew: real, src: Json, n0: Bytes, n: Bytes, n2: Bytes)
    requires Lawful(c) && Digests(c.hash) && ReadsCanonical(read) && HonestRequester(c, q)
    requires BuildRequest(c, num, y, ephA, q, n0).Ok? && num(q.issued) - skew <= now < num(q.expires)
    requires X25519Ok(Base64.Encode(c.publicOf(ephB)))
    requires
      var request := BuildRequest(c, num, y, ephA, q, n0).value;
      BuildResponse(c, y, request.th, Base64.Encode(c.publicOf(ephA)), src, ephB, n, n2).Ok?
    requires BundleWellFormed(Validated(src, y.account).value)
    ensures
      var request := BuildRequest(c, num, y, ephA, q, n0).value;
      var asked := OpenRequest(c, num, read, y, request.payload, now, skew);
      && asked.Ok? && asked.value.th == request.th
      && asked.value.linkRequest == LinkRequestOf(c, y, q).(binding := Canonical(q.binding))
      && var r := BuildResponse(c, y, asked.value.th, asked.value.ephemeral, src, ephB, n, n2);
         && r.Ok?
         && OpenResponse(c, read, y, request.th, ephA, r.value.sealed.payload) ==
              Ok(Opened(Delivered(c, y, request.th, ephA, src, ephB, n), r.value.master, r.value.sealed.th))
         && BuildConfirm(c, r.value.master, r.value.sealed.th) ==
            Ok(ConfirmPayload(1, "confirm", r.value.confirmTagB64))
         && VerifyConfirm(c, r.value.master, r.value.sealed.th, ConfirmPayload(1, "confirm", r.value.confirmTagB64)) ==
              Ok(true)
  {
    hide BuildRequest, OpenRequest, Canonical, WellFormed, X25519Ok, Base64.Encode, Base64.Decode, BundleWellFormed,
      Validated, OpenResponse, Delivered, Lawful, BuildResponse, LinkRequestOf;
    RequestOpens(c, num, read, y, ephA, q, n0, now, skew);
    var request := BuildRequest(c, num, y, ephA, q, n0).value;
    var eA := Base64.Encode(c.publicOf(ephA));
    ResponseOpens(c, read, y, request.th, ephA, src, ephB, n, n2);
    ConfirmClosed(c, y, request.th, eA, src, ephB, n, n2);
  }

  /** The tag handed to the approver is the one an agreeing requester sends, and it is accepted. */
  lemma ConfirmClosed(c: Provider, y: Ceremony, th: string, eA: string, src: Json, ephB: Bytes, n: Bytes, n2: Bytes)
    requires Lawful(c) && Digests(c.hash) && BuildResponse(c, y, th, eA, src, ephB, n, n2).Ok?
    ensures
      var r := BuildResponse(c, y, th, eA, src, ephB, n, n2).value;
      && BuildConfirm(c, r.master, r.sealed.th) == Ok(ConfirmPayload(1, "confirm", r.confirmTagB64))
      && VerifyConfirm(c, r.master, r.sealed.th, ConfirmPayload(1, "confirm", r.confirmTagB64)) == Ok(true)
  {
    hide TextBytes, Base64.Encode, Base64.Decode, CeremonyOk, HashTextOk, X25519Ok, X3dh.SecretOk, Validated,
      KeyBytes, SealOnce,
      PayloadSize, ConfirmTag, ThResponse, ApproverView;
    BuiltTranscript(c, y, th, eA, src, ephB, n, n2);
    var r := BuildResponse(c, y, th, eA, src, ephB, n, n2).value;
    ThOk(c, ApproverView(c, y, th, r));
    CanonicalOf(ConfirmTag(c, r.master, r.sealed.th));
    assert |r.master| == 32;
  }

  lemma ThOk(c: Provider, w: View)
    requires Digests(c.hash)
    ensures HashTextOk(ThResponse(c, w))
  {
    hide Transcript, HashTextOk, Aad;
    TranscriptOk(c, Aad(w), w.nonce, w.ciphertext);
  }
}
