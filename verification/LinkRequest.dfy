/** The link request a new device signs, and the approver's checks on it
    (`objects/device/DeviceLinkRequestV2.js`, `DeviceInboxBindingV1.js`, `openCeremonyRequest` of
    `protocol/deviceLinkV1.js`). */
module LinkRequest {
  import opened Basics
  import opened Crypto
  import opened CanonicalJson
  import opened DeviceKeys
  import opened JsonFields
  import opened Ordering
  import Base64
  import Text

  const PURPOSE := "rez:device-link-request:v2"
  const BINDING_PURPOSE := "rez:device-inbox-binding:v1"
  const ACCOUNT := "accountIdentityPublicKeyB64"
  const DEVICE := "newDevicePublicKeyB64"
  const DEVICE_ID := "newDeviceId"
  const BINDING := "deviceInboxBinding"
  const NONCE := "ceremonyNonceB64"
  const ISSUED := "issuedAtMs"
  const EXPIRES := "expiresAtMs"

  /** The numeric value of a JSON number token. */
  type Numbers = string -> real

  datatype LinkRequest = LinkRequest(
    account: string,
    devicePublic: string,
    deviceId: string,
    binding: Json,
    nonceB64: string,
    issued: string,
    expires: string,
    sigAlg: string,
    sigB64: string)

  function DeviceIdFor(c: Provider, devicePublic: string): string {
    "rez:dev:" + Text.Hex(c.hash(Text.Utf8(devicePublic)))
  }

  function Salt(): Bytes { Text.Ascii("rez:link:v1") }
  function NonceInfo(): Bytes { Text.Ascii("rez:link:v1:ceremony-nonce") }

  /** Both sides derive the ceremony nonce from the code's secret. */
  function CeremonyNonce(c: Provider, psk: Bytes): Bytes {
    c.hkdf(psk, Salt(), NonceInfo(), 32)
  }

  // ---- the record as JSON

  function SigJson(alg: string, sigB64: string): Json {
    Obj([Pair("alg", Str(alg)), Pair("sigB64", Str(sigB64))])
  }

  function BodyFields(r: LinkRequest): Fields {
    [Pair("v", Num("2")), Pair("purpose", Str(PURPOSE)), Pair(ACCOUNT, Str(r.account)),
     Pair(DEVICE, Str(r.devicePublic)), Pair(DEVICE_ID, Str(r.deviceId)), Pair(BINDING, r.binding),
     Pair(NONCE, Str(r.nonceB64)), Pair(ISSUED, Num(r.issued)), Pair(EXPIRES, Num(r.expires))]
  }

  function RecordFields(r: LinkRequest): Fields {
    BodyFields(r) + [Pair("sig", SigJson(r.sigAlg, r.sigB64))]
  }

  function RecordJson(r: LinkRequest): Json {
    Obj(RecordFields(r))
  }

  /** Everything but the signature. */
  ghost function Signable(r: LinkRequest): Bytes {
    TextBytes(Obj(BodyFields(r)))
  }

  function Or(f: Option<Json>, default: Json): Json {
    if f.Some? then f.value else default
  }

  function SigOf(v: Json): Option<(string, string)> {
    var sig := Field(v, "sig");
    if sig.None? then None
    else match (Field(sig.value, "alg"), Field(sig.value, "sigB64"))
      case (Some(Str(alg)), Some(Str(s))) => Some((alg, s))
      case _ => None
  }

  function NumOf(f: Option<Json>): string {
    match f case Some(Num(token)) => token case _ => ""
  }

  /** The typed fields of a received object. A missing version or purpose takes its default. */
  function Parsed(v: Json): Option<LinkRequest> {
    var sig := SigOf(v);
    if Or(Field(v, "v"), Num("2")) != Num("2") || Or(Field(v, "purpose"), Str(PURPOSE)) != Str(PURPOSE) then None
    else if Field(v, BINDING).None? || sig.None? then None
    else match (Field(v, ACCOUNT), Field(v, DEVICE), Field(v, DEVICE_ID), Field(v, NONCE), Field(v, ISSUED),
      Field(v, EXPIRES))
      case (Some(Str(account)), Some(Str(device)), Some(Str(id)), Some(Str(nonce)), Some(Num(issued)),
        Some(Num(expires))) =>
        Some(LinkRequest(account, device, id, Field(v, BINDING).value, nonce, issued, expires, sig.value.0,
          sig.value.1))
      case _ => None
  }

  predicate SigShape(alg: string, sigB64: string) {
    alg == "ed25519" && Base64.CanonicalPattern(sigB64)
  }

  /** The inbox binding carried inside, for this very device. */
  predicate BindingOk(num: Numbers, b: Json, deviceId: string, devicePublic: string) {
    && Or(Field(b, "v"), Num("1")) == Num("1")
    && Or(Field(b, "purpose"), Str(BINDING_PURPOSE)) == Str(BINDING_PURPOSE)
    && Field(b, "devicePublicKeyB64") == Some(Str(devicePublic))
    && Field(b, "deviceId") == Some(Str(deviceId))
    && Text.Trim(StrOf(Field(b, "inboxId"))) != ""
    && NumOf(Field(b, ISSUED)) != "" && NumOf(Field(b, EXPIRES)) != ""
    && num(NumOf(Field(b, EXPIRES))) > num(NumOf(Field(b, ISSUED)))
    && SigOf(b).Some? && SigShape(SigOf(b).value.0, SigOf(b).value.1)
  }

  predicate RecordOk(c: Provider, num: Numbers, r: LinkRequest) {
    && SpkiOk(r.account) && SpkiOk(r.devicePublic)
    && r.deviceId == DeviceIdFor(c, r.devicePublic)
    && BindingOk(num, r.binding, r.deviceId, r.devicePublic)
    && Base64.RequireCanonicalB64(r.nonceB64, Some(32)).Ok?
    && num(r.expires) > num(r.issued)
    && SigShape(r.sigAlg, r.sigB64)
  }

  // ---- making and accepting a request

  datatype Device = Device(publicB64: string, private: Bytes)

  ghost function Unsigned(
    c: Provider, psk: Bytes, account: string, device: Device, binding: Json, issued: string, expires: string
  ): LinkRequest
  {
    LinkRequest(account, device.publicB64, DeviceIdFor(c, device.publicB64), binding,
                Base64.Encode(CeremonyNonce(c, psk)), issued, expires, "ed25519", "")
  }

  ghost function Made(
    c: Provider, psk: Bytes, account: string, device: Device, binding: Json, issued: string, expires: string
  ): LinkRequest
  {
    var body := Unsigned(c, psk, account, device, binding, issued, expires);
    body.(sigB64 := Base64.Encode(c.sign(device.private, Signable(body))))
  }

  datatype RequestError =
    | UpgradeRequired
    | Malformed
    | BadSignature
    | OtherAccount
    | OtherCeremony
    | Expired
    | FromFuture

  ghost predicate SignedByDevice(c: Provider, r: LinkRequest) {
    match (Base64.Decode(r.devicePublic), Base64.Decode(r.sigB64))
    case (Ok(key), Ok(sig)) => c.verify(key, Signable(r), sig)
    case _ => false
  }

  /** The approver's checks, in the order of the source. */
  ghost function Accepted(
    c: Provider, num: Numbers, psk: Bytes, account: string, v: Json, now: real, skew: real
  ): Result<LinkRequest, RequestError> {
    if Field(v, "v") == Some(Num("1")) then Err(UpgradeRequired)
    else if Parsed(v).None? || !RecordOk(c, num, Parsed(v).value) then Err(Malformed)
    else
      var r := Parsed(v).value;
      if !SignedByDevice(c, r) then Err(BadSignature)
      else if r.account != account then Err(OtherAccount)
      else if Base64.Decode(r.nonceB64) != Ok(CeremonyNonce(c, psk)) then Err(OtherCeremony)
      else if num(r.expires) <= now then Err(Expired)
      else if num(r.issued) > now + skew then Err(FromFuture)
      else Ok(r)
  }

  // ---- reading back what was printed

  lemma RecordKeys(r: LinkRequest)
    ensures DistinctKeys(RecordFields(r)) && DistinctKeys(BodyFields(r)) && |RecordFields(r)| == 10
    ensures forall i :: 0 <= i < 10 ==> RecordFields(r)[i].key != "__proto__"
  {
    var f := RecordFields(r);
    assert |"v"| == 1 && |"purpose"| == 7 && |ACCOUNT| == 27 && |DEVICE| == 21 && |DEVICE_ID| == 11 && |BINDING| == 18;
    assert |NONCE| == 16 && |ISSUED| == 10 && |EXPIRES| == 11 && |"sig"| == 3 && |"__proto__"| == 9;
    assert DEVICE_ID[0] == 'n' && EXPIRES[0] == 'e';
    assert forall i :: 0 <= i < 9 ==> f[i] == BodyFields(r)[i];
  }

  lemma SigKeys(alg: string, sigB64: string)
    ensures
      var f := SigJson(alg, sigB64).fields;
      && DistinctKeys(f) && WellFormed(SigJson(alg, sigB64))
      && Field(Canonical(SigJson(alg, sigB64)), "alg") == Some(Str(alg))
      && Field(Canonical(SigJson(alg, sigB64)), "sigB64") == Some(Str(sigB64))
  {
    hide Canonical, Field, FieldIn;
    var f := SigJson(alg, sigB64).fields;
    assert |"alg"| == 3 && |"sigB64"| == 6 && |"__proto__"| == 9;
    assert f[0] in f && f[1] in f;
    FieldReads(f, "alg", alg);
    FieldReads(f, "sigB64", sigB64);
  }

  lemma FieldKept(f: Fields, key: string, v: Json)
    requires DistinctKeys(f) && Pair(key, v) in f
    ensures Field(Canonical(Obj(f)), key) == Some(Canonical(v))
  {
    hide Canonical, Field, FieldIn;
    FieldIs(f, key, v);
    CanonicalField(f, key);
  }

  lemma CanonicalNum(token: string)
    ensures Canonical(Num(token)) == Num(token)
  {
  }

  /** The scalar fields of a printed record. */
  lemma ScalarsRead(r: LinkRequest)
    ensures
      var v := Canonical(RecordJson(r));
      && Field(v, "v") == Some(Num("2")) && Field(v, "purpose") == Some(Str(PURPOSE))
      && Field(v, ACCOUNT) == Some(Str(r.account)) && Field(v, DEVICE) == Some(Str(r.devicePublic))
      && Field(v, DEVICE_ID) == Some(Str(r.deviceId)) && Field(v, NONCE) == Some(Str(r.nonceB64))
      && Field(v, ISSUED) == Some(Num(r.issued)) && Field(v, EXPIRES) == Some(Num(r.expires))
  {
    hide Canonical, Field, FieldIn;
    RecordKeys(r);
    var f := RecordFields(r);
    assert f[0] in f && f[1] in f && f[2] in f && f[3] in f && f[4] in f && f[6] in f && f[7] in f && f[8] in f;
    FieldKept(f, "v", Num("2"));
    FieldKept(f, ISSUED, Num(r.issued));
    FieldKept(f, EXPIRES, Num(r.expires));
    CanonicalNum("2");
    CanonicalNum(r.issued);
    CanonicalNum(r.expires);
    FieldReads(f, "purpose", PURPOSE);
    FieldReads(f, ACCOUNT, r.account);
    FieldReads(f, DEVICE, r.devicePublic);
    FieldReads(f, DEVICE_ID, r.deviceId);
    FieldReads(f, NONCE, r.nonceB64);
  }

  lemma PartsRead(r: LinkRequest)
    ensures
      var v := Canonical(RecordJson(r));
      Field(v, BINDING) == Some(Canonical(r.binding)) && SigOf(v) == Some((r.sigAlg, r.sigB64))
  {
    hide Canonical, Field, FieldIn;
    RecordKeys(r);
    var f := RecordFields(r);
    assert f[5] in f && f[9] in f;
    FieldKept(f, BINDING, r.binding);
    FieldKept(f, "sig", SigJson(r.sigAlg, r.sigB64));
    SigKeys(r.sigAlg, r.sigB64);
  }

  /** A record, printed canonically and read back, is itself with its binding in canonical order. */
  lemma RecordRoundTrip(r: LinkRequest)
    ensures Parsed(Canonical(RecordJson(r))) == Some(r.(binding := Canonical(r.binding)))
  {
    hide Canonical, Field, SigOf, RecordJson;
    ScalarsRead(r);
    PartsRead(r);
  }

  lemma RecordWell(r: LinkRequest)
    requires WellFormed(r.binding) && WellFormed(Num(r.issued)) && WellFormed(Num(r.expires))
    ensures WellFormed(RecordJson(r))
  {
    hide WellFormed, Canonical, Field, SigJson, RecordFields;
    RecordKeys(r);
    forall i | 0 <= i < 10 ensures WellFormed(RecordFields(r)[i].value) {
      ValueWell(r, i);
    }
    ObjectWell(RecordFields(r));
  }

  lemma ValueWell(r: LinkRequest, i: nat)
    requires WellFormed(r.binding) && WellFormed(Num(r.issued)) && WellFormed(Num(r.expires)) && i < 10
    ensures WellFormed(RecordFields(r)[i].value)
  {
    hide Canonical, Field, SigJson;
    var f := RecordFields(r);
    if i == 9 {
      SigKeys(r.sigAlg, r.sigB64);
    } else {
      assert f[i] == BodyFields(r)[i];
      assert i == 0 ==> f[i].value == Num("2");
      assert i in {1, 2, 3, 4, 6} ==> f[i].value.Str?;
    }
  }

  lemma ObjectWell(f: Fields)
    requires DistinctKeys(f)
    requires forall i :: 0 <= i < |f| ==> f[i].key != "__proto__" && WellFormed(f[i].value)
    ensures WellFormed(Obj(f))
  {
  }

  /** Key order inside the binding does not matter to the signature. */
  lemma SignableCanonical(r: LinkRequest)
    requires WellFormed(r.binding)
    ensures Signable(r.(binding := Canonical(r.binding))) == Signable(r)
  {
    hide Canonical, Arrange, Sort;
    var s := r.(binding := Canonical(r.binding));
    CanonicalIdempotent(r.binding);
    assert CanonicalFields(BodyFields(s)) == CanonicalFields(BodyFields(r));
    CanonicalIs(BodyFields(s));
    CanonicalIs(BodyFields(r));
  }

  /** A field of a canonical object, scalar by scalar. */
  lemma ScalarField(b: Json, key: string)
    requires b.Obj? && WellFormed(b)
    ensures
      var f, g := Field(b, key), Field(Canonical(b), key);
      && (f.None? <==> g.None?)
      && (f.Some? ==> g.value == Canonical(f.value))
      && (f.Some? && (f.value.Str? || f.value.Num?) ==> g == f)
      && (f.Some? && f.value.Obj? ==> g.value.Obj? && WellFormed(f.value))
  {
    hide Sort, Arrange;
    CanonicalField(b.fields, key);
    FieldMember(b.fields, key);
  }

  lemma SigKept(b: Json)
    requires b.Obj? && WellFormed(b) && SigOf(b).Some?
    ensures SigOf(Canonical(b)) == SigOf(b)
  {
    hide Canonical, Field, WellFormed;
    ScalarField(b, "sig");
    var sig := Field(b, "sig").value;
    NotObject(sig, "alg");
    ScalarField(sig, "alg");
    ScalarField(sig, "sigB64");
  }

  lemma NotObject(v: Json, key: string)
    ensures Field(v, key).Some? ==> v.Obj?
  {
  }

  lemma BindingKept(num: Numbers, b: Json, deviceId: string, devicePublic: string)
    requires WellFormed(b) && BindingOk(num, b, deviceId, devicePublic)
    ensures BindingOk(num, Canonical(b), deviceId, devicePublic)
  {
    hide Canonical, Field, WellFormed, SigOf, Text.Trim;
    NotObject(b, "deviceId");
    ScalarField(b, "v");
    ScalarField(b, "purpose");
    ScalarField(b, "devicePublicKeyB64");
    ScalarField(b, "deviceId");
    ScalarField(b, "inboxId");
    ScalarField(b, ISSUED);
    ScalarField(b, EXPIRES);
    SigKept(b);
    TrimNothing();
  }

  lemma TrimNothing()
    ensures Text.Trim("") == ""
  {
  }

  // ---- acceptance

  /** A request made for this code and account is accepted exactly within its time window. */
  lemma MadeIsAccepted(
    c: Provider, num: Numbers, psk: Bytes, account: string, device: Device, binding: Json, issued: string,
    expires: string, now: real, skew: real)
    requires Lawful(c) && WellFormed(binding)
    requires Base64.Decode(device.publicB64) == Ok(c.signingPublicOf(device.private))
    requires RecordOk(c, num, Made(c, psk, account, device, binding, issued, expires))
    ensures
      var r := Made(c, psk, account, device, binding, issued, expires);
      Accepted(c, num, psk, account, Canonical(RecordJson(r)), now, skew) ==
        if num(expires) <= now then Err(Expired)
        else if num(issued) > now + skew then Err(FromFuture)
        else Ok(r.(binding := Canonical(binding)))
  {
    hide Canonical, Field, WellFormed, Signable, Base64.Encode, Base64.Decode, BindingOk, Parsed, RecordJson,
      DeviceIdFor,
      Base64.RequireCanonicalB64, SpkiOk, SigShape, CeremonyNonce;
    var r := Made(c, psk, account, device, binding, issued, expires);
    var s := r.(binding := Canonical(binding));
    ScalarsRead(r);
    RecordRoundTrip(r);
    BindingKept(num, binding, r.deviceId, r.devicePublic);
    var body := Unsigned(c, psk, account, device, binding, issued, expires);
    assert Signable(r) == Signable(body) by { SameBody(r, body); }
    SignableCanonical(r);
    Base64.DecodeEncode(c.sign(device.private, Signable(body)));
    Base64.DecodeEncode(CeremonyNonce(c, psk));
    assert SignedByDevice(c, s);
  }

  lemma SameBody(r: LinkRequest, s: LinkRequest)
    requires r == s.(sigB64 := r.sigB64)
    ensures Signable(r) == Signable(s)
  {
  }

  /** What acceptance of any received object guarantees. */
  lemma AcceptedIsBound(c: Provider, num: Numbers, psk: Bytes, account: string, v: Json, now: real, skew: real)
    requires Accepted(c, num, psk, account, v, now, skew).Ok?
    ensures
      var r := Accepted(c, num, psk, account, v, now, skew).value;
      && r.account == account && r.deviceId == DeviceIdFor(c, r.devicePublic)
      && BindingOk(num, r.binding, r.deviceId, r.devicePublic)
      && r.nonceB64 == Base64.Encode(CeremonyNonce(c, psk)) && SignedByDevice(c, r)
      && num(r.issued) - skew <= now < num(r.expires)
  {
    hide Field, Parsed, BindingOk, Base64.Encode, Base64.Decode, SignedByDevice, SpkiOk, DeviceIdFor, CeremonyNonce;
  }

  lemma AcceptedIsParsed(c: Provider, num: Numbers, psk: Bytes, account: string, v: Json, now: real, skew: real)
    requires Accepted(c, num, psk, account, v, now, skew).Ok?
    ensures Parsed(v) == Some(Accepted(c, num, psk, account, v, now, skew).value)
  {
    hide Field, Parsed, RecordOk, Base64.Decode, SignedByDevice, CeremonyNonce;
  }

  /** A received object is accepted under one code only. */
  lemma AcceptedForOneCode(
    c: Provider, num: Numbers, psk: Bytes, psk': Bytes, account: string, v: Json, now: real, skew: real)
    requires Accepted(c, num, psk, account, v, now, skew).Ok? && Accepted(c, num, psk', account, v, now, skew).Ok?
    requires NoHkdfCollision(c, KdfInput(psk, Salt(), NonceInfo()), KdfInput(psk', Salt(), NonceInfo()), 32)
    ensures psk == psk'
  {
    hide Accepted, BindingOk, Base64.Encode, Base64.Decode, Parsed, SignedByDevice, Salt, NonceInfo, DeviceIdFor;
    AcceptedIsParsed(c, num, psk, account, v, now, skew);
    AcceptedIsParsed(c, num, psk', account, v, now, skew);
    AcceptedIsBound(c, num, psk, account, v, now, skew);
    AcceptedIsBound(c, num, psk', account, v, now, skew);
    Base64.DecodeEncode(CeremonyNonce(c, psk));
    Base64.DecodeEncode(CeremonyNonce(c, psk'));
  }

  /** A device id stands for one device key. */
  lemma DeviceIdBinds(c: Provider, key: string, key': string)
    requires DeviceIdFor(c, key) == DeviceIdFor(c, key')
    requires c.hash(Text.Utf8(key)) == c.hash(Text.Utf8(key')) ==> Text.Utf8(key) == Text.Utf8(key')
    ensures key == key'
  {
    hide Text.Utf8, Text.Hex;
    var x, y := Text.Hex(c.hash(Text.Utf8(key))), Text.Hex(c.hash(Text.Utf8(key')));
    assert DeviceIdFor(c, key)[8..] == x && DeviceIdFor(c, key')[8..] == y;
    Text.HexInjective(c.hash(Text.Utf8(key)), c.hash(Text.Utf8(key')));
    Text.Utf8Injective(key, key');
  }
}
