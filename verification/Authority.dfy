/** Account authority: who may act for an account, directly or through a chain of capability
    certificates (`objects/device/verifyAccountAuthority.js`, `AccountDeviceCapabilityV1.js`). */
module Authority {
  import opened Basics
  import opened DeviceKeys
  import Base64
  import Text

  datatype Cert = Cert(
    v: int,
    purpose: string,
    account: string,
    parentCertId: Option<string>,
    grantee: string,
    granteeDeviceId: string,
    capabilities: seq<string>,
    depth: int,
    issuedAt: real,
    expiresAt: real,
    certId: string,
    signer: string,
    sigAlg: string,
    sigB64: string)

  /** The derived identifiers, the signed bytes and the signature scheme. */
  datatype Scheme = Scheme(
    certIdOf: Cert -> string,
    deviceIdOf: string -> string,
    signable: Cert -> Bytes,
    verify: (Bytes, Bytes, Bytes) -> bool)

  const PURPOSE := "rez:account-device-capability:v1"
  const DELEGATE := "capability.delegate"
  const ACTIONS := [
    "peerLink.create", "deviceSet.publish", "device.add", "device.revoke", DELEGATE, "capability.revoke"]

  // ---- structural validation of one certificate

  /** `rez:cap:` and 64 lowercase hexadecimal digits. */
  predicate CertIdOk(id: string) {
    |id| == 72 && id[..8] == "rez:cap:" && forall i :: 8 <= i < 72 ==> Text.IsHexDigit(id[i])
  }

  predicate CapabilitiesOk(caps: seq<string>) {
    && caps != []
    && (forall i :: 0 <= i < |caps| ==> caps[i] in ACTIONS)
    && (forall i, j :: 0 <= i < j < |caps| ==> caps[i] != caps[j])
  }

  predicate CertOk(s: Scheme, c: Cert) {
    && c.v == 1 && c.purpose == PURPOSE
    && SpkiOk(c.account)
    && (c.parentCertId.Some? ==> CertIdOk(c.parentCertId.value))
    && SpkiOk(c.grantee) && c.granteeDeviceId != "" && c.granteeDeviceId == s.deviceIdOf(c.grantee)
    && CapabilitiesOk(c.capabilities)
    && c.depth >= 0
    && SpkiOk(c.signer)
    && c.expiresAt > c.issuedAt
    && c.certId != "" && c.certId == s.certIdOf(c)
    && c.sigAlg == "ed25519" && c.sigB64 != "" && Base64.CanonicalPattern(c.sigB64)
  }

  datatype Raw = NotObject | Object(cert: Cert)

  datatype Reason =
    | AnchorRequired
    | SignerRequired
    | UnknownCapability
    | NotAccountRoot
    | CertNotObject
    | PurposeMismatch
    | StructurallyInvalid
    | AccountMismatch
    | DuplicateCert
    | Revoked
    | PredatesCutoff
    | NotYetValid
    | Expired
    | MalformedSignature
    | SignatureInvalid
    | RootHasParent
    | RootNotSignedByAccount
    | ParentNotLinked
    | SignerNotParentGrantee
    | ParentCannotDelegate
    | NoDepthLeft
    | DepthNotConsumed
    | NotHeldByParent
    | OutlivesParent
    | SignerNotLeafGrantee
    | CapabilityNotGranted

  datatype Verdict =
    | Rejected(reason: Reason, failedAt: Option<nat>)
    | Direct(granted: seq<string>)
    | Delegated(granted: seq<string>, leafCertId: string, chainExpiresAt: real)

  /** The question, apart from the chain itself. */
  datatype Query = Query(
    expected: string,
    required: Option<string>,
    opSigner: string,
    now: real,
    revoked: set<string>,
    cutoff: Option<real>)

  // ---- the checks of one link, in the order the source makes them

  predicate Included(child: seq<string>, parent: seq<string>) {
    forall i :: 0 <= i < |child| ==> child[i] in parent
  }

  predicate SeenBefore(recs: seq<Cert>, i: nat)
    requires i < |recs|
  {
    exists j :: 0 <= j < i && recs[j].certId == recs[i].certId
  }

  function WindowCheck(q: Query, rec: Cert): Option<Reason> {
    if rec.certId in q.revoked then Some(Revoked)
    else if q.cutoff.Some? && rec.issuedAt < q.cutoff.value then Some(PredatesCutoff)
    else if q.now < rec.issuedAt then Some(NotYetValid)
    else if q.now >= rec.expiresAt then Some(Expired)
    else None
  }

  function SignatureCheck(s: Scheme, rec: Cert): Option<Reason> {
    match (Base64.Decode(rec.sigB64), Base64.Decode(rec.signer))
    case (Ok(sig), Ok(key)) => if s.verify(key, s.signable(rec), sig) then None else Some(SignatureInvalid)
    case _ => Some(MalformedSignature)
  }

  function RootCheck(q: Query, rec: Cert): Option<Reason> {
    if rec.parentCertId.Some? then Some(RootHasParent)
    else if Text.Trim(rec.signer) != Text.Trim(q.expected) then Some(RootNotSignedByAccount)
    else None
  }

  function ParentCheck(parent: Cert, rec: Cert): Option<Reason> {
    if rec.parentCertId != Some(parent.certId) then Some(ParentNotLinked)
    else if rec.signer != parent.grantee then Some(SignerNotParentGrantee)
    else if DELEGATE !in parent.capabilities then Some(ParentCannotDelegate)
    else if parent.depth < 1 then Some(NoDepthLeft)
    else if rec.depth > parent.depth - 1 then Some(DepthNotConsumed)
    else if !Included(rec.capabilities, parent.capabilities) then Some(NotHeldByParent)
    else if rec.expiresAt > parent.expiresAt then Some(OutlivesParent)
    else None
  }

  function Then(a: Option<Reason>, b: Option<Reason>): Option<Reason> {
    if a.Some? then a else b
  }

  function LinkCheck(s: Scheme, q: Query, recs: seq<Cert>, i: nat): Option<Reason>
    requires i < |recs|
  {
    var rec := recs[i];
    if Text.Trim(rec.account) != Text.Trim(q.expected) then Some(AccountMismatch)
    else if SeenBefore(recs, i) then Some(DuplicateCert)
    else Then(WindowCheck(q, rec), Then(SignatureCheck(s, rec),
              if i == 0 then RootCheck(q, rec) else ParentCheck(recs[i - 1], rec)))
  }

  function RawCheck(s: Scheme, raw: Raw): Option<Reason> {
    if raw.NotObject? then Some(CertNotObject)
    else if raw.cert.purpose != PURPOSE then Some(PurposeMismatch)
    else if !CertOk(s, raw.cert) then Some(StructurallyInvalid)
    else None
  }

  /** First failing position from i on. */
  function FirstBadRaw(s: Scheme, chain: seq<Raw>, i: nat): (r: Option<(Reason, nat)>)
    requires i <= |chain|
    ensures r.None? <==> forall j :: i <= j < |chain| ==> RawCheck(s, chain[j]).None?
    decreases |chain| - i
  {
    if i == |chain| then None
    else match RawCheck(s, chain[i])
      case Some(e) => Some((e, i))
      case None => FirstBadRaw(s, chain, i + 1)
  }

  function FirstBadLink(s: Scheme, q: Query, recs: seq<Cert>, i: nat): (r: Option<(Reason, nat)>)
    requires i <= |recs|
    decreases |recs| - i
  {
    if i == |recs| then None
    else match LinkCheck(s, q, recs, i)
      case Some(e) => Some((e, i))
      case None => FirstBadLink(s, q, recs, i + 1)
  }

  ghost predicate LinksOk(s: Scheme, q: Query, recs: seq<Cert>) {
    forall j :: 0 <= j < |recs| ==> LinkCheck(s, q, recs, j).None?
  }

  lemma {:induction false} NoBadLink(s: Scheme, q: Query, recs: seq<Cert>, i: nat)
    requires i <= |recs|
    ensures FirstBadLink(s, q, recs, i).None? <==> forall j :: i <= j < |recs| ==> LinkCheck(s, q, recs, j).None?
    decreases |recs| - i
  {
    hide LinkCheck;
    if i < |recs| { NoBadLink(s, q, recs, i + 1); }
  }

  function Certs(chain: seq<Raw>): (recs: seq<Cert>)
    requires forall i :: 0 <= i < |chain| ==> chain[i].Object?
    ensures |recs| == |chain| && forall i :: 0 <= i < |recs| ==> recs[i] == chain[i].cert
  {
    seq(|chain|, i requires 0 <= i < |chain| => chain[i].cert)
  }

  function MinExpiry(recs: seq<Cert>, n: nat): real
    requires 0 < n <= |recs|
  {
    if n == 1 then recs[0].expiresAt
    else
      var m := MinExpiry(recs, n - 1);
      if recs[n - 1].expiresAt < m then recs[n - 1].expiresAt else m
  }

  function LeafVerdict(q: Query, recs: seq<Cert>): Verdict
    requires recs != []
  {
    var leaf := recs[|recs| - 1];
    if leaf.grantee != q.opSigner then Rejected(SignerNotLeafGrantee, Some(|recs| - 1))
    else if q.required.Some? && q.required.value !in leaf.capabilities
      then Rejected(CapabilityNotGranted, Some(|recs| - 1))
    else Delegated(leaf.capabilities, leaf.certId, MinExpiry(recs, |recs|))
  }

  function ChainVerdict(s: Scheme, q: Query, chain: seq<Raw>): Verdict
    requires chain != []
  {
    hide RawCheck;
    var raw := FirstBadRaw(s, chain, 0);
    if raw.Some? then Rejected(raw.value.0, Some(raw.value.1))
    else
      RawAreObjects(s, chain);
      var recs := Certs(chain);
      var bad := FirstBadLink(s, q, recs, 0);
      if bad.Some? then Rejected(bad.value.0, Some(bad.value.1)) else LeafVerdict(q, recs)
  }

  lemma RawAreObjects(s: Scheme, chain: seq<Raw>)
    requires forall j :: 0 <= j < |chain| ==> RawCheck(s, chain[j]).None?
    ensures forall j :: 0 <= j < |chain| ==> chain[j].Object?
  {
    forall j | 0 <= j < |chain| ensures chain[j].Object? {
      RawIsObject(s, chain[j]);
    }
  }

  function Verify(s: Scheme, q: Query, chain: seq<Raw>): Verdict {
    if Text.Trim(q.expected) == "" then Rejected(AnchorRequired, None)
    else if Text.Trim(q.opSigner) == "" then Rejected(SignerRequired, None)
    else if q.required.Some? && q.required.value !in ACTIONS then Rejected(UnknownCapability, None)
    else if chain == [] then
      if Text.Trim(q.opSigner) == Text.Trim(q.expected) then Direct(ACTIONS) else Rejected(NotAccountRoot, None)
    else ChainVerdict(s, q, chain)
  }

  // ---- the loops of the source

  method VerifyAccountAuthority(s: Scheme, q: Query, chain: seq<Raw>) returns (v: Verdict)
    ensures v == Verify(s, q, chain)
  {
    hide Text.Trim, ChainVerdict;
    if Text.Trim(q.expected) == "" {
      return Rejected(AnchorRequired, None);
    }
    if Text.Trim(q.opSigner) == "" {
      return Rejected(SignerRequired, None);
    }
    if q.required.Some? && q.required.value !in ACTIONS {
      return Rejected(UnknownCapability, None);
    }
    if chain == [] {
      if Text.Trim(q.opSigner) == Text.Trim(q.expected) {
        return Direct(ACTIONS);
      }
      return Rejected(NotAccountRoot, None);
    }
    v := VerifyChain(s, q, chain);
  }

  method VerifyChain(s: Scheme, q: Query, chain: seq<Raw>) returns (v: Verdict)
    requires chain != []
    ensures v == ChainVerdict(s, q, chain)
  {
    hide RawCheck, FirstBadRaw, FirstBadLink, LeafVerdict;
    var recs: seq<Cert>, i := [], 0;
    while i < |chain|
      invariant 0 <= i <= |chain| && |recs| == i
      invariant forall j :: 0 <= j < i ==> chain[j].Object? && recs[j] == chain[j].cert
      invariant FirstBadRaw(s, chain, 0) == FirstBadRaw(s, chain, i)
    {
      RawFirstBad(s, chain, i);
      var bad := RawCheck(s, chain[i]);
      if bad.Some? {
        return Rejected(bad.value, Some(i));
      }
      RawIsObject(s, chain[i]);
      recs := recs + [chain[i].cert];
      i := i + 1;
    }
    RawFirstBad(s, chain, i);
    assert recs == Certs(chain);
    v := VerifyLinks(s, q, recs);
  }

  lemma RawFirstBad(s: Scheme, chain: seq<Raw>, i: nat)
    requires i <= |chain|
    ensures i == |chain| ==> FirstBadRaw(s, chain, i).None?
    ensures i < |chain| ==>
      FirstBadRaw(s, chain, i) == (match RawCheck(s, chain[i])
        case Some(e) => Some((e, i))
        case None => FirstBadRaw(s, chain, i + 1))
  {
    hide RawCheck;
  }

  lemma RawIsObject(s: Scheme, raw: Raw)
    requires RawCheck(s, raw).None?
    ensures raw.Object? && CertOk(s, raw.cert)
  {
  }

  /** The link the loop is at, check by check. */
  lemma LinkFirstBad(s: Scheme, q: Query, recs: seq<Cert>, i: nat)
    requires i < |recs|
    ensures
      var bad, rest := LinkCheck(s, q, recs, i), FirstBadLink(s, q, recs, i + 1);
      FirstBadLink(s, q, recs, i) == if bad.Some? then Some((bad.value, i)) else rest
  {
    hide LinkCheck;
  }

  method VerifyLinks(s: Scheme, q: Query, recs: seq<Cert>) returns (v: Verdict)
    requires recs != []
    ensures
      var bad := FirstBadLink(s, q, recs, 0);
      v == if bad.Some? then Rejected(bad.value.0, Some(bad.value.1)) else LeafVerdict(q, recs)
  {
    hide WindowCheck, SignatureCheck, RootCheck, ParentCheck, FirstBadLink, Text.Trim;
    var chainExpiresAt: Option<real> := None;
    var seen: set<string> := {};
    var i := 0;
    while i < |recs|
      invariant 0 <= i <= |recs|
      invariant seen == set j | 0 <= j < i :: recs[j].certId
      invariant FirstBadLink(s, q, recs, 0) == FirstBadLink(s, q, recs, i)
      invariant if i == 0 then chainExpiresAt == None else chainExpiresAt == Some(MinExpiry(recs, i))
    {
      LinkFirstBad(s, q, recs, i);
      var rec := recs[i];
      if Text.Trim(rec.account) != Text.Trim(q.expected) {
        return Rejected(AccountMismatch, Some(i));
      }
      if rec.certId in seen {
        return Rejected(DuplicateCert, Some(i));
      }
      assert !SeenBefore(recs, i);
      seen := seen + {rec.certId};
      var window := WindowCheck(q, rec);
      if window.Some? {
        return Rejected(window.value, Some(i));
      }
      if chainExpiresAt.None? || rec.expiresAt < chainExpiresAt.value {
        chainExpiresAt := Some(rec.expiresAt);
      }
      var signature := SignatureCheck(s, rec);
      if signature.Some? {
        return Rejected(signature.value, Some(i));
      }
      var link := if i == 0 then RootCheck(q, rec) else ParentCheck(recs[i - 1], rec);
      if link.Some? {
        return Rejected(link.value, Some(i));
      }
      i := i + 1;
    }
    NoBadLink(s, q, recs, i);
    var leaf := recs[|recs| - 1];
    if leaf.grantee != q.opSigner {
      return Rejected(SignerNotLeafGrantee, Some(|recs| - 1));
    }
    if q.required.Some? && q.required.value !in leaf.capabilities {
      return Rejected(CapabilityNotGranted, Some(|recs| - 1));
    }
    return Delegated(leaf.capabilities, leaf.certId, chainExpiresAt.value);
  }

  // ---- what an accepted chain is, stated over the whole chain

  /** The first grant comes from the expected account, and every grant names it. */
  ghost predicate Anchored(q: Query, recs: seq<Cert>) {
    && recs != []
    && recs[0].parentCertId.None?
    && recs[0].signer == Text.Trim(q.expected)
    && forall i :: 0 <= i < |recs| ==> recs[i].account == Text.Trim(q.expected)
  }

  /** Each later grant is made by the receiver of the one before it. */
  ghost predicate Linked(recs: seq<Cert>) {
    forall i :: 0 < i < |recs| ==>
      recs[i].parentCertId == Some(recs[i - 1].certId) && recs[i].signer == recs[i - 1].grantee
  }

  /** Between any ancestor and any descendant, authority only narrows. */
  ghost predicate Narrows(ancestor: Cert, descendant: Cert, hops: nat) {
    && DELEGATE in ancestor.capabilities
    && Included(descendant.capabilities, ancestor.capabilities)
    && descendant.depth + hops <= ancestor.depth
    && descendant.expiresAt <= ancestor.expiresAt
  }

  ghost predicate Attenuated(recs: seq<Cert>) {
    forall j, i :: 0 <= j < i < |recs| ==> Narrows(recs[j], recs[i], i - j)
  }

  ghost predicate DistinctIds(recs: seq<Cert>) {
    forall j, i :: 0 <= j < i < |recs| ==> recs[j].certId != recs[i].certId
  }

  ghost predicate SignedBy(s: Scheme, rec: Cert) {
    && Base64.Decode(rec.signer).Ok? && Base64.Decode(rec.sigB64).Ok?
    && s.verify(Base64.Decode(rec.signer).value, s.signable(rec), Base64.Decode(rec.sigB64).value)
  }

  ghost predicate Unrevoked(q: Query, rec: Cert) {
    rec.certId !in q.revoked && (q.cutoff.Some? ==> q.cutoff.value <= rec.issuedAt)
  }

  ghost predicate InWindow(now: real, rec: Cert) {
    rec.issuedAt <= now < rec.expiresAt
  }

  ghost predicate Standing(s: Scheme, q: Query, recs: seq<Cert>) {
    forall i :: 0 <= i < |recs| ==>
      SignedBy(s, recs[i]) && Unrevoked(q, recs[i]) && InWindow(q.now, recs[i])
  }

  ghost predicate Authorized(s: Scheme, q: Query, recs: seq<Cert>) {
    && Anchored(q, recs) && Linked(recs) && Attenuated(recs) && DistinctIds(recs)
    && Standing(s, q, recs)
    && (forall i :: 0 <= i < |recs| ==> CertOk(s, recs[i]))
    && var leaf := recs[|recs| - 1];
       leaf.grantee == q.opSigner && (q.required.Some? ==> q.required.value in leaf.capabilities)
  }

  /** One link's checks pass exactly when these hold. */
  ghost predicate LinkHolds(s: Scheme, q: Query, recs: seq<Cert>, i: nat)
    requires i < |recs|
  {
    && Text.Trim(recs[i].account) == Text.Trim(q.expected)
    && (forall j :: 0 <= j < i ==> recs[j].certId != recs[i].certId)
    && Unrevoked(q, recs[i]) && InWindow(q.now, recs[i]) && SignedBy(s, recs[i])
    && (i == 0 ==> recs[0].parentCertId.None? && Text.Trim(recs[0].signer) == Text.Trim(q.expected))
    && (0 < i ==>
          && recs[i].parentCertId == Some(recs[i - 1].certId) && recs[i].signer == recs[i - 1].grantee
          && recs[i - 1].depth >= 1 && Narrows(recs[i - 1], recs[i], 1))
  }

  lemma LinkCheckExact(s: Scheme, q: Query, recs: seq<Cert>, i: nat)
    requires i < |recs|
    ensures LinkCheck(s, q, recs, i).None? <==> LinkHolds(s, q, recs, i)
  {
    hide Text.Trim, Included;
    assert WindowCheck(q, recs[i]).None? <==> Unrevoked(q, recs[i]) && InWindow(q.now, recs[i]);
    assert SignatureCheck(s, recs[i]).None? <==> SignedBy(s, recs[i]);
  }

  lemma {:induction false} NarrowsAlong(recs: seq<Cert>, j: nat, i: nat)
    requires j < i < |recs|
    requires forall k :: 0 < k < |recs| ==> Narrows(recs[k - 1], recs[k], 1)
    ensures Narrows(recs[j], recs[i], i - j)
  {
    if j + 1 < i {
      NarrowsAlong(recs, j, i - 1);
      assert Narrows(recs[i - 1], recs[i], 1);
    } else {
      assert i - j == 1;
    }
  }

  ghost predicate AllLinksHold(s: Scheme, q: Query, recs: seq<Cert>) {
    forall i :: 0 <= i < |recs| ==> LinkHolds(s, q, recs, i)
  }

  ghost predicate KeysTrimmed(recs: seq<Cert>) {
    forall i :: 0 <= i < |recs| ==>
      && Text.Trim(recs[i].account) == recs[i].account
      && Text.Trim(recs[i].signer) == recs[i].signer
      && recs[i].depth >= 0
  }

  lemma LinksMakeChain(s: Scheme, q: Query, recs: seq<Cert>)
    requires recs != [] && KeysTrimmed(recs) && AllLinksHold(s, q, recs)
    ensures Anchored(q, recs) && Linked(recs) && Attenuated(recs) && DistinctIds(recs) && Standing(s, q, recs)
  {
    hide Text.Trim, SignedBy, Unrevoked, InWindow, Narrows;
    assert LinkHolds(s, q, recs, 0);
    forall k | 0 <= k < |recs|
      ensures recs[k].account == Text.Trim(q.expected)
      ensures SignedBy(s, recs[k]) && Unrevoked(q, recs[k]) && InWindow(q.now, recs[k])
      ensures forall j :: 0 <= j < k ==> recs[j].certId != recs[k].certId
      ensures 0 < k ==>
        && recs[k].parentCertId == Some(recs[k - 1].certId) && recs[k].signer == recs[k - 1].grantee
        && Narrows(recs[k - 1], recs[k], 1)
    {
      assert LinkHolds(s, q, recs, k);
    }
    forall j, i | 0 <= j < i < |recs| ensures Narrows(recs[j], recs[i], i - j) {
      NarrowsAlong(recs, j, i);
    }
  }

  lemma ChainMakesLink(s: Scheme, q: Query, recs: seq<Cert>, i: nat)
    requires i < |recs| && KeysTrimmed(recs)
    requires Anchored(q, recs) && Linked(recs) && Attenuated(recs) && DistinctIds(recs) && Standing(s, q, recs)
    ensures LinkHolds(s, q, recs, i)
  {
    hide Text.Trim, SignedBy, Unrevoked, InWindow, Included;
    if 0 < i {
      var j := i - 1;
      assert Narrows(recs[j], recs[i], i - j);
      assert recs[i].depth >= 0;
    }
  }

  lemma CertKeys(s: Scheme, c: Cert)
    requires CertOk(s, c)
    ensures Text.Trim(c.account) == c.account != "" && Text.Trim(c.signer) == c.signer &&
      Text.Trim(c.grantee) == c.grantee != ""
    ensures c.depth >= 0 && Included(c.capabilities, ACTIONS)
  {
    hide Text.Trim, SpkiOk;
    TrimKey(c.account);
    TrimKey(c.signer);
    TrimKey(c.grantee);
  }

  lemma {:induction false} LeafExpiresFirst(recs: seq<Cert>, n: nat)
    requires 0 < n <= |recs| && Attenuated(recs)
    ensures MinExpiry(recs, n) == recs[n - 1].expiresAt
    ensures forall i :: 0 <= i < n ==> recs[n - 1].expiresAt <= recs[i].expiresAt
  {
    hide Included;
    if n > 1 {
      LeafExpiresFirst(recs, n - 1);
      assert Narrows(recs[n - 2], recs[n - 1], 1) by { assert Narrows(recs[n - 2], recs[n - 1], n - 1 - (n - 2)); }
    }
  }

  /** Acceptance in delegated mode, characterised over the whole chain. */
  lemma DelegatedExactly(s: Scheme, q: Query, recs: seq<Cert>)
    requires recs != []
    ensures Verify(s, q, Objects(recs)).Delegated? <==> Authorized(s, q, recs)
    ensures Authorized(s, q, recs) ==>
      var leaf := recs[|recs| - 1];
      Verify(s, q, Objects(recs)) == Delegated(leaf.capabilities, leaf.certId, leaf.expiresAt)
  {
    hide Text.Trim, CertOk, Anchored, Linked, Attenuated, DistinctIds, Standing, LinkCheck, MinExpiry;
    var chain := Objects(recs);
    if forall i :: 0 <= i < |recs| ==> CertOk(s, recs[i]) {
      RawOk(s, recs);
      assert Certs(chain) == recs;
      NoBadLink(s, q, recs, 0);
      LinksExact(s, q, recs);
      GuardsFollow(s, q, recs);
      if Attenuated(recs) { LeafExpiresFirst(recs, |recs|); }
    } else {
      RawBad(s, recs);
    }
  }

  /** A chain with an entry that is not an object is never accepted. */
  lemma AcceptedChainsAreCerts(s: Scheme, q: Query, chain: seq<Raw>)
    requires Verify(s, q, chain).Delegated?
    ensures forall i :: 0 <= i < |chain| ==> chain[i].Object?
    ensures chain == Objects(Certs(chain)) && chain != []
  {
    hide Text.Trim, RawCheck, FirstBadLink, LeafVerdict;
    RawAreObjects(s, chain);
  }

  function Objects(recs: seq<Cert>): (chain: seq<Raw>)
    ensures |chain| == |recs| && forall i :: 0 <= i < |recs| ==> chain[i] == Object(recs[i])
  {
    seq(|recs|, i requires 0 <= i < |recs| => Object(recs[i]))
  }

  lemma RawOk(s: Scheme, recs: seq<Cert>)
    requires forall i :: 0 <= i < |recs| ==> CertOk(s, recs[i])
    ensures FirstBadRaw(s, Objects(recs), 0).None?
  {
    forall i | 0 <= i < |recs| ensures RawCheck(s, Objects(recs)[i]).None? {
      CertPurpose(s, recs[i]);
    }
  }

  lemma CertPurpose(s: Scheme, c: Cert)
    requires CertOk(s, c)
    ensures RawCheck(s, Object(c)).None?
  {
    hide SpkiOk;
  }

  lemma RawBad(s: Scheme, recs: seq<Cert>)
    requires exists i :: 0 <= i < |recs| && !CertOk(s, recs[i])
    ensures FirstBadRaw(s, Objects(recs), 0).Some?
  {
    hide CertOk;
    var i :| 0 <= i < |recs| && !CertOk(s, recs[i]);
    assert RawCheck(s, Objects(recs)[i]).Some?;
  }

  lemma LinksExact(s: Scheme, q: Query, recs: seq<Cert>)
    requires recs != [] && forall i :: 0 <= i < |recs| ==> CertOk(s, recs[i])
    ensures LinksOk(s, q, recs) <==>
      Anchored(q, recs) && Linked(recs) && Attenuated(recs) && DistinctIds(recs) && Standing(s, q, recs)
  {
    hide Text.Trim, CertOk, Anchored, Linked, Attenuated, DistinctIds, Standing, LinkCheck, LinkHolds;
    forall i | 0 <= i < |recs| ensures LinkCheck(s, q, recs, i).None? <==> LinkHolds(s, q, recs, i) {
      LinkCheckExact(s, q, recs, i);
    }
    forall i | 0 <= i < |recs|
      ensures Text.Trim(recs[i].account) == recs[i].account && Text.Trim(recs[i].signer) == recs[i].signer
      ensures recs[i].depth >= 0
    {
      CertKeys(s, recs[i]);
    }
    if AllLinksHold(s, q, recs) { LinksMakeChain(s, q, recs); }
    if Anchored(q, recs) && Linked(recs) && Attenuated(recs) && DistinctIds(recs) && Standing(s, q, recs) {
      forall i | 0 <= i < |recs| ensures LinkHolds(s, q, recs, i) { ChainMakesLink(s, q, recs, i); }
    }
  }

  /** The entry guards add nothing to a chain that is otherwise in order. */
  lemma GuardsFollow(s: Scheme, q: Query, recs: seq<Cert>)
    requires recs != [] && forall i :: 0 <= i < |recs| ==> CertOk(s, recs[i])
    ensures Anchored(q, recs) ==> Text.Trim(q.expected) != ""
    ensures
      var leaf := recs[|recs| - 1];
      && (leaf.grantee == q.opSigner ==> Text.Trim(q.opSigner) != "")
      && (q.required.Some? && q.required.value in leaf.capabilities ==> q.required.value in ACTIONS)
  {
    hide Text.Trim, CertOk;
    CertKeys(s, recs[0]);
    CertKeys(s, recs[|recs| - 1]);
  }

  /** A chain holds at most one certificate more than the root's delegation depth. */
  lemma ChainLengthBound(s: Scheme, q: Query, recs: seq<Cert>)
    requires Authorized(s, q, recs)
    ensures |recs| <= recs[0].depth + 1
  {
    hide Text.Trim, CertOk, Included;
    var n := |recs| - 1;
    CertKeys(s, recs[n]);
    if n > 0 { assert Narrows(recs[0], recs[n], n - 0); }
  }

  // ---- acceptance over every chain

  /** Who may act without a chain: the account itself. */
  predicate IsAccount(q: Query) {
    Text.Trim(q.expected) != "" && Text.Trim(q.opSigner) == Text.Trim(q.expected)
  }

  /** Direct mode: only without a chain, only for the account itself, and then for every action. */
  lemma DirectExactly(s: Scheme, q: Query, chain: seq<Raw>)
    ensures
      Verify(s, q, chain).Direct? <==>
        chain == [] && IsAccount(q) && (q.required.Some? ==> q.required.value in ACTIONS)
    ensures Verify(s, q, chain).Direct? ==> Verify(s, q, chain).granted == ACTIONS
  {
    hide Text.Trim, ChainVerdict;
    if chain != [] { ChainVerdictKinds(s, q, chain); }
  }

  /** Acceptance over every chain: the signer is the account itself and there is no chain, or the chain
      consists of authorized certificates that end at the signer. What is required is then granted, and
      nothing outside the six actions is. */
  lemma AcceptedExactly(s: Scheme, q: Query, chain: seq<Raw>)
    ensures
      !Verify(s, q, chain).Rejected? <==>
        || (chain == [] && IsAccount(q) && (q.required.Some? ==> q.required.value in ACTIONS))
        || (exists recs :: recs != [] && chain == Objects(recs) && Authorized(s, q, recs))
    ensures
      var v := Verify(s, q, chain);
      !v.Rejected? ==>
        Included(v.granted, ACTIONS) && (q.required.Some? ==> q.required.value in v.granted)
  {
    hide Verify, Authorized, Objects, IsAccount;
    var v := Verify(s, q, chain);
    DirectExactly(s, q, chain);
    if v.Delegated? {
      AcceptedChainsAreCerts(s, q, chain);
      AuthorizedGrants(s, q, Certs(chain));
    }
    forall recs | recs != [] && chain == Objects(recs) ensures v.Delegated? <==> Authorized(s, q, recs) {
      DelegatedExactly(s, q, recs);
    }
  }

  lemma AuthorizedGrants(s: Scheme, q: Query, recs: seq<Cert>)
    requires recs != [] && Verify(s, q, Objects(recs)).Delegated?
    ensures Authorized(s, q, recs)
    ensures
      var granted := Verify(s, q, Objects(recs)).granted;
      Included(granted, ACTIONS) && (q.required.Some? ==> q.required.value in granted)
  {
    hide Verify, Objects, CertOk, Anchored, Linked, Attenuated, DistinctIds, Standing, Text.Trim;
    DelegatedExactly(s, q, recs);
    CertKeys(s, recs[|recs| - 1]);
  }

  /** Whoever is accepted is the account itself or the last receiver of an authorized chain. */
  lemma AcceptedSigner(s: Scheme, q: Query, chain: seq<Raw>)
    requires !Verify(s, q, chain).Rejected?
    ensures
      if chain == [] then IsAccount(q)
      else
        && (forall i :: 0 <= i < |chain| ==> chain[i].Object?)
        && Authorized(s, q, Certs(chain))
        && chain[|chain| - 1].cert.grantee == q.opSigner && chain[0].cert.signer == Text.Trim(q.expected)
  {
    hide Verify, Objects, IsAccount, CertOk, Linked, Attenuated, DistinctIds, Standing, Text.Trim;
    DirectExactly(s, q, chain);
    if chain != [] {
      AcceptedChainsAreCerts(s, q, chain);
      DelegatedExactly(s, q, Certs(chain));
    } else {
      AcceptedExactly(s, q, chain);
    }
  }

  // ---- where a rejection points

  /** A chain of well-formed certificates is rejected at a position: every link before it is in order, and
      either its own is not, or all are and the leaf does not serve this signer and action. */
  lemma RejectedAt(s: Scheme, q: Query, recs: seq<Cert>, i: nat)
    requires recs != [] && forall k :: 0 <= k < |recs| ==> CertOk(s, recs[k])
    requires Verify(s, q, Objects(recs)).Rejected? && Verify(s, q, Objects(recs)).failedAt == Some(i)
    ensures i < |recs| && forall k :: 0 <= k < i ==> LinkHolds(s, q, recs, k)
    ensures LinkHolds(s, q, recs, i) ==>
      var leaf := recs[|recs| - 1];
      && i == |recs| - 1
      && (leaf.grantee != q.opSigner || (q.required.Some? && q.required.value !in leaf.capabilities))
  {
    hide Text.Trim, CertOk, LinkCheck, LinkHolds, MinExpiry;
    RawOk(s, recs);
    assert Certs(Objects(recs)) == recs;
    FirstBadIs(s, q, recs, 0);
    forall k | 0 <= k < |recs| ensures LinkCheck(s, q, recs, k).None? <==> LinkHolds(s, q, recs, k) {
      LinkCheckExact(s, q, recs, k);
    }
  }

  lemma {:induction false} FirstBadIs(s: Scheme, q: Query, recs: seq<Cert>, i: nat)
    requires i <= |recs|
    ensures
      var bad := FirstBadLink(s, q, recs, i);
      if bad.None? then forall k :: i <= k < |recs| ==> LinkCheck(s, q, recs, k).None?
      else
        && i <= bad.value.1 < |recs| && LinkCheck(s, q, recs, bad.value.1) == Some(bad.value.0)
        && forall k :: i <= k < bad.value.1 ==> LinkCheck(s, q, recs, k).None?
    decreases |recs| - i
  {
    hide LinkCheck;
    if i < |recs| { FirstBadIs(s, q, recs, i + 1); }
  }

  // ---- time and revocation

  function LatestIssue(recs: seq<Cert>): (t: real)
    requires recs != []
    ensures forall i :: 0 <= i < |recs| ==> recs[i].issuedAt <= t
    ensures exists i :: 0 <= i < |recs| && recs[i].issuedAt == t
  {
    var last := recs[|recs| - 1].issuedAt;
    if |recs| == 1 then last
    else
      var m := LatestIssue(recs[..|recs| - 1]);
      if last < m then m else last
  }

  /** An accepted chain keeps its verdict exactly from its latest issue to its earliest expiry. */
  lemma AcceptedExactlyInWindow(s: Scheme, q: Query, recs: seq<Cert>, later: real)
    requires recs != [] && Verify(s, q, Objects(recs)).Delegated?
    ensures
      var v, v' := Verify(s, q, Objects(recs)), Verify(s, q.(now := later), Objects(recs));
      && (LatestIssue(recs) <= later < v.chainExpiresAt ==> v' == v)
      && (later < LatestIssue(recs) || v.chainExpiresAt <= later ==> v'.Rejected?)
  {
    hide Verify, Objects, CertOk, Linked, Text.Trim, SignedBy, Unrevoked, LatestIssue;
    var q' := q.(now := later);
    DelegatedExactly(s, q, recs);
    DelegatedExactly(s, q', recs);
    VerdictKinds(s, q', recs);
    LeafExpiresFirst(recs, |recs|);
    assert InWindow(later, recs[|recs| - 1]) ==> later < recs[|recs| - 1].expiresAt;
    if LatestIssue(recs) <= later < recs[|recs| - 1].expiresAt {
      assert Standing(s, q', recs) by {
        forall i | 0 <= i < |recs| ensures SignedBy(s, recs[i]) && Unrevoked(q', recs[i]) && InWindow(later, recs[i]) {
          assert Unrevoked(q, recs[i]);
          SameRevocation(q, q', recs[i]);
        }
      }
    }
  }

  lemma SameRevocation(q: Query, q': Query, rec: Cert)
    requires q.revoked == q'.revoked && q.cutoff == q'.cutoff
    ensures Unrevoked(q, rec) == Unrevoked(q', rec)
  {
  }

  lemma VerdictKinds(s: Scheme, q: Query, recs: seq<Cert>)
    requires recs != []
    ensures !Verify(s, q, Objects(recs)).Direct?
  {
    hide Text.Trim, ChainVerdict;
    assert Objects(recs) != [];
    ChainVerdictKinds(s, q, Objects(recs));
  }

  lemma ChainVerdictKinds(s: Scheme, q: Query, chain: seq<Raw>)
    requires chain != []
    ensures !ChainVerdict(s, q, chain).Direct?
  {
    hide RawCheck, FirstBadRaw, FirstBadLink, MinExpiry;
  }

  /** At least as much revoked, and a cutoff at least as high. */
  ghost predicate StricterThan(strict: Query, q: Query) {
    && strict == q.(revoked := strict.revoked, cutoff := strict.cutoff)
    && q.revoked <= strict.revoked
    && (q.cutoff.Some? ==> strict.cutoff.Some? && q.cutoff.value <= strict.cutoff.value)
  }

  /** Revoking more or raising the cutoff never turns a rejection into acceptance. */
  lemma RevocationMonotone(s: Scheme, q: Query, strict: Query, recs: seq<Cert>)
    requires recs != [] && StricterThan(strict, q)
    requires Verify(s, strict, Objects(recs)).Delegated?
    ensures Verify(s, q, Objects(recs)) == Verify(s, strict, Objects(recs))
  {
    hide Verify, Objects, CertOk, Linked, Attenuated, Text.Trim, SignedBy, InWindow;
    DelegatedExactly(s, strict, recs);
    DelegatedExactly(s, q, recs);
    assert forall i :: 0 <= i < |recs| ==> Unrevoked(strict, recs[i]) ==> Unrevoked(q, recs[i]);
    assert Standing(s, q, recs);
  }

  /** A revoked member stops the chain it is in and every longer chain built on it. */
  lemma RevokedMemberStopsExtensions(s: Scheme, q: Query, recs: seq<Cert>, more: seq<Cert>, i: nat)
    requires i < |recs| && recs[i].certId in q.revoked
    ensures Verify(s, q, Objects(recs + more)).Rejected?
  {
    hide Verify, Objects, CertOk, Linked, Attenuated, Text.Trim, SignedBy, InWindow;
    var all := recs + more;
    assert all[i] == recs[i];
    DelegatedExactly(s, q, all);
    VerdictKinds(s, q, all);
    assert !Unrevoked(q, all[i]);
  }
}
