/** The JSON texts of onion layers, inner envelopes and associated data: the assumptions made on those
    codecs hold of them, with any reader that inverts the printer. */
module WireFormats {
  import opened Basics
  import opened CanonicalJson
  import opened JsonFields
  import opened Ordering
  import Onion
  import Ratchet
  import SecureChannel
  import Text

  function IntText(n: int): string {
    if n < 0 then "-" + Text.Decimal(-n) else Text.Decimal(n)
  }

  lemma IntTextInjective(m: int, n: int)
    requires IntText(m) == IntText(n)
    ensures m == n
  {
    hide Text.Decimal;
    var s, t := IntText(m), IntText(n);
    assert s[0] == '-' <==> m < 0;
    assert t[0] == '-' <==> n < 0;
    if m < 0 {
      assert s[1..] == Text.Decimal(-m) && t[1..] == Text.Decimal(-n);
      Text.DecimalInjective(-m, -n);
    } else {
      Text.DecimalInjective(m, n);
    }
  }

  lemma IntWell(n: int)
    ensures WellFormed(Num(IntText(n)))
  {
    hide Text.Decimal;
  }

  /** `new TextEncoder().encode(JSON.stringify(v))` */
  function JsonBytes(v: Json): Bytes {
    Text.Utf8(Print(v))
  }

  lemma JsonBytesInjective(v: Json, w: Json)
    requires WellFormed(v) && WellFormed(w) && JsonBytes(v) == JsonBytes(w)
    ensures v == w
  {
    hide Print, WellFormed, Text.Utf8;
    Text.Utf8Injective(Print(v), Print(w));
    PrintInjective(v, w);
  }

  // ---- printed objects end in a brace and contain their strings

  lemma {:induction false} FieldsEnd(fields: Fields)
    ensures var s := PrintFields(fields); s != [] && s[|s| - 1] == '}'
  {
    hide Print, Quote;
    if fields != [] { FieldsEnd(fields[1..]); }
  }

  lemma {:induction false} Utf8Last(s: string)
    requires s != [] && s[|s| - 1] == '}'
    ensures Onion.EndsNonZero(Text.Utf8(s))
  {
    if |s| == 1 {
      assert s[1..] == [];
      assert Text.Utf8(s) == Text.Utf8Char('}') + [];
    } else {
      hide Text.Utf8Char;
      Utf8Last(s[1..]);
    }
  }

  lemma ObjectEnds(fields: Fields)
    ensures Onion.EndsNonZero(JsonBytes(Obj(fields)))
  {
    hide Quote, Text.Utf8;
    if fields != [] { FieldsEnd(fields[1..]); }
    Utf8Last(Print(Obj(fields)));
  }

  lemma {:induction false} Utf8Longer(s: string)
    ensures |Text.Utf8(s)| >= |s|
  {
    hide Text.Utf8Char;
    if s != [] { Utf8Longer(s[1..]); }
  }

  lemma {:induction false} EscapedLonger(s: string)
    ensures |Escaped(s)| >= |s|
  {
    hide Escape;
    if s != [] { EscapedLonger(s[1..]); }
  }

  lemma {:induction false} FieldLonger(fields: Fields, i: nat)
    requires i < |fields|
    ensures |PrintFields(fields)| >= |Print(fields[i].value)|
  {
    hide Print, Quote;
    if i > 0 { FieldLonger(fields[1..], i - 1); }
  }

  lemma StringFits(fields: Fields, i: nat)
    requires i < |fields| && fields[i].value.Str?
    ensures |JsonBytes(Obj(fields))| >= |fields[i].value.s|
  {
    hide Text.Utf8, Escaped;
    var s := fields[i].value.s;
    assert Print(fields[i].value) == Quote(s);
    EscapedLonger(s);
    if i > 0 { FieldLonger(fields[1..], i - 1); }
    Utf8Longer(Print(Obj(fields)));
  }

  /** The same for canonical text. */
  lemma TextHolds(fields: Fields, key: string, s: string)
    requires WellFormed(Obj(fields)) && Pair(key, Str(s)) in fields
    ensures Onion.EndsNonZero(TextBytes(Obj(fields))) && |TextBytes(Obj(fields))| >= |s|
  {
    hide Canonical, Arrange, Sort, Print, Text.Utf8, Onion.EndsNonZero;
    var r := Arrange(Sort(CanonicalFields(fields)));
    CanonicalIs(fields);
    CanonicalObjectFields(fields);
    CanonicalMember(fields, key, Str(s));
    CanonicalStr(s);
    var i :| 0 <= i < |r| && r[i] == Pair(key, Str(s));
    assert TextBytes(Obj(fields)) == JsonBytes(Obj(r));
    ObjectEnds(r);
    StringFits(r, i);
  }

  /** Leaves are their own canonical form. */
  lemma LeafAgrees(f: Fields, g: Fields, key: string, v: Json, w: Json)
    requires DistinctKeys(f) && DistinctKeys(g) && Canonical(Obj(f)) == Canonical(Obj(g))
    requires Pair(key, v) in f && Pair(key, w) in g && (v.Str? || v.Num?) && (w.Str? || w.Num?)
    ensures v == w
  {
    hide DistinctKeys;
    FieldsAgree(f, g, key, v, w);
  }

  // ---- onion layers

  function Int(n: int): Json {
    Num(IntText(n))
  }

  function PlainFields(p: Onion.LayerPlain): Fields {
    [Pair("v", Int(p.v)), Pair("ttl", Int(p.ttl)), Pair("next", Str(p.next)),
     Pair("flags", Str(p.flags)), Pair("inner", Str(p.inner))]
  }

  function CipherFields(x: Onion.Cipher): Fields {
    [Pair("v", Int(x.v)), Pair("hopIndex", Int(x.hopIndex)), Pair("onionKeyId", Str(x.keyId)),
     Pair("ttl", Int(x.ttl)), Pair("ephPub", Str(x.ephPub)), Pair("ct", Str(x.ct))]
  }

  function LayerAadFields(hopIndex: int, ttl: int, keyId: string): Fields {
    [Pair("v", Int(2)), Pair("hopIndex", Int(hopIndex)), Pair("ttl", Int(ttl)), Pair("onionKeyId", Str(keyId))]
  }

  lemma IntAgrees(f: Fields, g: Fields, key: string, m: int, n: int)
    requires DistinctKeys(f) && DistinctKeys(g) && Canonical(Obj(f)) == Canonical(Obj(g))
    requires Pair(key, Int(m)) in f && Pair(key, Int(n)) in g
    ensures m == n
  {
    hide DistinctKeys, Canonical, IntText;
    LeafAgrees(f, g, key, Int(m), Int(n));
    IntTextInjective(m, n);
  }

  lemma PlainWell(p: Onion.LayerPlain)
    ensures WellFormed(Obj(PlainFields(p)))
  {
    hide IntText;
    IntWell(p.v);
    IntWell(p.ttl);
    var f := PlainFields(p);
    assert |"v"| == 1 && |"ttl"| == 3 && |"next"| == 4 && |"flags"| == 5 && |"inner"| == 5 && |"__proto__"| == 9;
    assert "flags"[0] == 'f' && "inner"[0] == 'i';
    forall i, j | 0 <= i < j < |f| ensures f[i].key != f[j].key { }
  }

  lemma CipherWell(x: Onion.Cipher)
    ensures WellFormed(Obj(CipherFields(x)))
  {
    hide IntText;
    IntWell(x.v);
    IntWell(x.hopIndex);
    IntWell(x.ttl);
    var f := CipherFields(x);
    assert |"v"| == 1 && |"hopIndex"| == 8 && |"onionKeyId"| == 10 && |"ttl"| == 3 && |"ephPub"| == 6 && |"ct"| == 2;
    assert |"__proto__"| == 9;
    forall i, j | 0 <= i < j < |f| ensures f[i].key != f[j].key { }
  }

  lemma LayerAadWell(hopIndex: int, ttl: int, keyId: string)
    ensures WellFormed(Obj(LayerAadFields(hopIndex, ttl, keyId)))
  {
    hide IntText;
    IntWell(2);
    IntWell(hopIndex);
    IntWell(ttl);
    var f := LayerAadFields(hopIndex, ttl, keyId);
    assert |"v"| == 1 && |"hopIndex"| == 8 && |"ttl"| == 3 && |"onionKeyId"| == 10 && |"__proto__"| == 9;
    forall i, j | 0 <= i < j < |f| ensures f[i].key != f[j].key { }
  }

  lemma PlainInjective(p: Onion.LayerPlain, q: Onion.LayerPlain)
    requires TextBytes(Obj(PlainFields(p))) == TextBytes(Obj(PlainFields(q)))
    ensures p == q
  {
    hide Int, TextBytes, Canonical, DistinctKeys;
    PlainWell(p);
    PlainWell(q);
    var f, g := PlainFields(p), PlainFields(q);
    TextBytesFaithful(Obj(f), Obj(g));
    assert f[0] in f && f[1] in f && f[2] in f && f[3] in f && f[4] in f;
    assert g[0] in g && g[1] in g && g[2] in g && g[3] in g && g[4] in g;
    IntAgrees(f, g, "v", p.v, q.v);
    IntAgrees(f, g, "ttl", p.ttl, q.ttl);
    LeafAgrees(f, g, "next", Str(p.next), Str(q.next));
    LeafAgrees(f, g, "flags", Str(p.flags), Str(q.flags));
    LeafAgrees(f, g, "inner", Str(p.inner), Str(q.inner));
  }

  lemma CipherInjective(x: Onion.Cipher, y: Onion.Cipher)
    requires TextBytes(Obj(CipherFields(x))) == TextBytes(Obj(CipherFields(y)))
    ensures x == y
  {
    hide Int, TextBytes, Canonical, DistinctKeys;
    CipherWell(x);
    CipherWell(y);
    var f, g := CipherFields(x), CipherFields(y);
    TextBytesFaithful(Obj(f), Obj(g));
    assert f[0] in f && f[1] in f && f[2] in f && f[3] in f && f[4] in f && f[5] in f;
    assert g[0] in g && g[1] in g && g[2] in g && g[3] in g && g[4] in g && g[5] in g;
    IntAgrees(f, g, "v", x.v, y.v);
    IntAgrees(f, g, "hopIndex", x.hopIndex, y.hopIndex);
    IntAgrees(f, g, "ttl", x.ttl, y.ttl);
    LeafAgrees(f, g, "onionKeyId", Str(x.keyId), Str(y.keyId));
    LeafAgrees(f, g, "ephPub", Str(x.ephPub), Str(y.ephPub));
    LeafAgrees(f, g, "ct", Str(x.ct), Str(y.ct));
  }

  /** A layer's associated data pins down its hop, ttl and key id. */
  lemma LayerAadBinds(hop: int, ttl: int, keyId: string, hop': int, ttl': int, keyId': string)
    requires TextBytes(Obj(LayerAadFields(hop, ttl, keyId))) == TextBytes(Obj(LayerAadFields(hop', ttl', keyId')))
    ensures hop == hop' && ttl == ttl' && keyId == keyId'
  {
    hide Int, TextBytes, Canonical, DistinctKeys;
    LayerAadWell(hop, ttl, keyId);
    LayerAadWell(hop', ttl', keyId');
    var f, g := LayerAadFields(hop, ttl, keyId), LayerAadFields(hop', ttl', keyId');
    TextBytesFaithful(Obj(f), Obj(g));
    assert f[1] in f && f[2] in f && f[3] in f && g[1] in g && g[2] in g && g[3] in g;
    IntAgrees(f, g, "hopIndex", hop, hop');
    IntAgrees(f, g, "ttl", ttl, ttl');
    LeafAgrees(f, g, "onionKeyId", Str(keyId), Str(keyId'));
  }

  ghost function ReadPlain(b: Bytes): Option<Onion.LayerPlain> {
    if exists p :: TextBytes(Obj(PlainFields(p))) == b then
      var p :| TextBytes(Obj(PlainFields(p))) == b; Some(p)
    else None
  }

  ghost function ReadCipher(b: Bytes): Option<Onion.Cipher> {
    if exists x :: TextBytes(Obj(CipherFields(x))) == b then
      var x :| TextBytes(Obj(CipherFields(x))) == b; Some(x)
    else None
  }

  /** Canonical JSON text satisfies what the onion proofs assume of their codec. */
  lemma CodecExists() returns (k: Onion.Codec)
    ensures Onion.CodecOk(k)
    ensures forall p :: k.printPlain(p) == TextBytes(Obj(PlainFields(p)))
    ensures forall x :: k.printCipher(x) == TextBytes(Obj(CipherFields(x)))
    ensures forall hop, ttl, keyId :: k.aad(hop, ttl, keyId) == TextBytes(Obj(LayerAadFields(hop, ttl, keyId)))
  {
    hide TextBytes, PlainFields, CipherFields, LayerAadFields;
    k := Onion.Codec(
      p => TextBytes(Obj(PlainFields(p))),
      b => ReadPlain(b),
      x => TextBytes(Obj(CipherFields(x))),
      b => ReadCipher(b),
      (hop: int, ttl: int, keyId: string) => TextBytes(Obj(LayerAadFields(hop, ttl, keyId))));
    forall p ensures k.parsePlain(k.printPlain(p)) == Some(p) && |k.printPlain(p)| >= |p.inner| {
      PlainLaws(p);
    }
    forall x ensures k.parseCipher(k.printCipher(x)) == Some(x)
      ensures Onion.EndsNonZero(k.printCipher(x)) && |k.printCipher(x)| >= |x.ct|
    {
      CipherLaws(x);
    }
  }

  lemma PlainLaws(p: Onion.LayerPlain)
    ensures
      var b := TextBytes(Obj(PlainFields(p)));
      ReadPlain(b) == Some(p) && |b| >= |p.inner|
  {
    hide TextBytes, Int, WellFormed;
    var q := ReadPlain(TextBytes(Obj(PlainFields(p)))).value;
    PlainInjective(p, q);
    PlainWell(p);
    assert PlainFields(p)[4] in PlainFields(p);
    TextHolds(PlainFields(p), "inner", p.inner);
  }

  lemma CipherLaws(x: Onion.Cipher)
    ensures
      var b := TextBytes(Obj(CipherFields(x)));
      ReadCipher(b) == Some(x) && Onion.EndsNonZero(b) && |b| >= |x.ct|
  {
    hide TextBytes, Int, WellFormed, Onion.EndsNonZero;
    var y := ReadCipher(TextBytes(Obj(CipherFields(x)))).value;
    CipherInjective(x, y);
    CipherWell(x);
    assert CipherFields(x)[5] in CipherFields(x);
    TextHolds(CipherFields(x), "ct", x.ct);
  }

  // ---- inner envelopes, printed in the order of their fields

  function HeaderFields(id: string, kind: string, createdAt: int): Fields {
    [Pair("schemaVersion", Int(1)), Pair("id", Str(id)), Pair("type", Str(kind)),
     Pair("createdAt", Int(createdAt)), Pair("links", Arr([]))]
  }

  function InnerFields(e: SecureChannel.Inner): Fields {
    [Pair("schemaVersion", Int(1)), Pair("header", Obj(HeaderFields(e.id, "rez.payload", e.createdAt))),
     Pair("body", Obj([Pair("raw", Str(e.raw))]))]
  }

  lemma HeaderWell(id: string, kind: string, createdAt: int)
    ensures WellFormed(Obj(HeaderFields(id, kind, createdAt)))
  {
    hide IntText;
    IntWell(1);
    IntWell(createdAt);
    var f := HeaderFields(id, kind, createdAt);
    assert |"schemaVersion"| == 13 && |"id"| == 2 && |"type"| == 4 && |"createdAt"| == 9 && |"links"| == 5;
    assert |"__proto__"| == 9 && "createdAt"[0] == 'c' && "__proto__"[0] == '_';
    forall i, j | 0 <= i < j < |f| ensures f[i].key != f[j].key { }
  }

  lemma InnerWell(e: SecureChannel.Inner)
    ensures WellFormed(Obj(InnerFields(e)))
  {
    hide IntText, HeaderFields;
    IntWell(1);
    HeaderWell(e.id, "rez.payload", e.createdAt);
    assert |"schemaVersion"| == 13 && |"header"| == 6 && |"body"| == 4 && |"raw"| == 3 && |"__proto__"| == 9;
    assert WellFormed(Obj([Pair("raw", Str(e.raw))]));
  }

  lemma InnerInjective(e: SecureChannel.Inner, d: SecureChannel.Inner)
    requires JsonBytes(Obj(InnerFields(e))) == JsonBytes(Obj(InnerFields(d)))
    ensures e == d
  {
    hide IntText, JsonBytes;
    InnerWell(e);
    InnerWell(d);
    var f, g := InnerFields(e), InnerFields(d);
    JsonBytesInjective(Obj(f), Obj(g));
    assert f[1] == g[1] && f[2] == g[2];
    var h, i := f[1].value.fields, g[1].value.fields;
    assert h[1] == i[1] && h[3] == i[3] && f[2].value.fields[0] == g[2].value.fields[0];
    IntTextInjective(e.createdAt, d.createdAt);
  }

  ghost function ReadInner(b: Bytes): Option<SecureChannel.Inner> {
    if exists e :: JsonBytes(Obj(InnerFields(e))) == b then
      var e :| JsonBytes(Obj(InnerFields(e))) == b; Some(e)
    else None
  }

  // ---- associated data of an encrypted envelope

  /** `Array.from(bytes)` */
  function ByteArray(b: Bytes): Json {
    Arr(seq(|b|, i requires 0 <= i < |b| => Int(b[i])))
  }

  function RatchetFields(h: Ratchet.Header): Fields {
    [Pair("v", Int(1)), Pair("sid", ByteArray(h.sid)),
     Pair("dh", if h.dh.Some? then ByteArray(h.dh.value) else Null),
     Pair("dhAlg", Str("X25519")), Pair("dhFmt", Str(h.dhFmt)), Pair("pn", Int(h.pn)), Pair("n", Int(h.n))]
  }

  function EncryptedFields(h: Ratchet.Header): Fields {
    [Pair("v", Int(1)), Pair("suite", Str("HKDF-SHA256/AES-256-GCM")), Pair("ratchetHeader", Obj(RatchetFields(h)))]
  }

  function AadFields(o: SecureChannel.OuterHeader, h: Ratchet.Header): Fields {
    [Pair("envSchemaVersion", Int(1)), Pair("header", Obj(HeaderFields(o.id, "rez.encrypted.v1", o.createdAt))),
     Pair("encrypted", Obj(EncryptedFields(h)))]
  }

  lemma ByteArrayWell(b: Bytes)
    ensures WellFormed(ByteArray(b))
  {
    hide IntText;
    forall i | 0 <= i < |b| ensures WellFormed(Int(b[i])) { IntWell(b[i]); }
  }

  lemma RatchetWell(h: Ratchet.Header)
    ensures WellFormed(Obj(RatchetFields(h)))
  {
    hide IntText, ByteArray;
    IntWell(1);
    IntWell(h.pn);
    IntWell(h.n);
    ByteArrayWell(h.sid);
    if h.dh.Some? { ByteArrayWell(h.dh.value); }
    var f := RatchetFields(h);
    assert |"v"| == 1 && |"sid"| == 3 && |"dh"| == 2 && |"dhAlg"| == 5 && |"dhFmt"| == 5 && |"pn"| == 2 && |"n"| == 1;
    assert "dh"[0] == 'd' && "pn"[0] == 'p' && "dhAlg"[2] == 'A' && "dhFmt"[2] == 'F' && "v"[0] == 'v' && "n"[0] == 'n';
    assert |"__proto__"| == 9;
    forall i, j | 0 <= i < j < |f| ensures f[i].key != f[j].key { }
  }

  lemma EncryptedWell(h: Ratchet.Header)
    ensures WellFormed(Obj(EncryptedFields(h)))
  {
    hide IntText, RatchetFields;
    IntWell(1);
    RatchetWell(h);
    assert |"v"| == 1 && |"suite"| == 5 && |"ratchetHeader"| == 13 && |"__proto__"| == 9;
  }

  lemma AadWell(o: SecureChannel.OuterHeader, h: Ratchet.Header)
    ensures WellFormed(Obj(AadFields(o, h)))
  {
    hide IntText, HeaderFields, EncryptedFields;
    IntWell(1);
    HeaderWell(o.id, "rez.encrypted.v1", o.createdAt);
    EncryptedWell(h);
    assert |"envSchemaVersion"| == 16 && |"header"| == 6 && |"encrypted"| == 9 && |"__proto__"| == 9;
    assert "encrypted"[0] == 'e' && "__proto__"[0] == '_';
  }

  lemma ByteArrayAgrees(a: Bytes, b: Bytes)
    requires Canonical(ByteArray(a)) == Canonical(ByteArray(b))
    ensures a == b
  {
    hide IntText;
    var x, y := ByteArray(a).items, ByteArray(b).items;
    assert CanonicalItems(x) == CanonicalItems(y);
    forall i | 0 <= i < |a| ensures a[i] == b[i] {
      assert CanonicalItems(x)[i] == Int(a[i]) && CanonicalItems(y)[i] == Int(b[i]);
      IntTextInjective(a[i], b[i]);
    }
  }

  lemma HeaderAgrees(o: SecureChannel.OuterHeader, o': SecureChannel.OuterHeader, kind: string)
    requires Canonical(Obj(HeaderFields(o.id, kind, o.createdAt))) ==
      Canonical(Obj(HeaderFields(o'.id, kind, o'.createdAt)))
    ensures o == o'
  {
    hide Int, Canonical, DistinctKeys;
    HeaderWell(o.id, kind, o.createdAt);
    HeaderWell(o'.id, kind, o'.createdAt);
    var f, g := HeaderFields(o.id, kind, o.createdAt), HeaderFields(o'.id, kind, o'.createdAt);
    assert f[1] in f && f[3] in f && g[1] in g && g[3] in g;
    LeafAgrees(f, g, "id", Str(o.id), Str(o'.id));
    IntAgrees(f, g, "createdAt", o.createdAt, o'.createdAt);
  }

  lemma RatchetAgrees(h: Ratchet.Header, h': Ratchet.Header)
    requires Canonical(Obj(RatchetFields(h))) == Canonical(Obj(RatchetFields(h')))
    ensures h == h'
  {
    hide Int, Canonical, DistinctKeys, ByteArray;
    RatchetWell(h);
    RatchetWell(h');
    var f, g := RatchetFields(h), RatchetFields(h');
    assert f[1] in f && f[2] in f && f[4] in f && f[5] in f && f[6] in f;
    assert g[1] in g && g[2] in g && g[4] in g && g[5] in g && g[6] in g;
    FieldsAgree(f, g, "sid", f[1].value, g[1].value);
    ByteArrayAgrees(h.sid, h'.sid);
    FieldsAgree(f, g, "dh", f[2].value, g[2].value);
    DhAgrees(h.dh, h'.dh);
    LeafAgrees(f, g, "dhFmt", Str(h.dhFmt), Str(h'.dhFmt));
    IntAgrees(f, g, "pn", h.pn, h'.pn);
    IntAgrees(f, g, "n", h.n, h'.n);
  }

  lemma DhAgrees(a: Option<Bytes>, b: Option<Bytes>)
    requires Canonical(if a.Some? then ByteArray(a.value) else Null) ==
      Canonical(if b.Some? then ByteArray(b.value) else Null)
    ensures a == b
  {
    hide Int;
    if a.Some? && b.Some? { ByteArrayAgrees(a.value, b.value); }
  }

  /** The associated data pins down the outer header and the ratchet header. */
  lemma AadBinds(o: SecureChannel.OuterHeader, h: Ratchet.Header, o': SecureChannel.OuterHeader, h': Ratchet.Header)
    requires TextBytes(Obj(AadFields(o, h))) == TextBytes(Obj(AadFields(o', h')))
    ensures o == o' && h == h'
  {
    hide Int, TextBytes, Canonical, DistinctKeys, HeaderFields, RatchetFields;
    AadWell(o, h);
    AadWell(o', h');
    EncryptedWell(h);
    EncryptedWell(h');
    var f, g := AadFields(o, h), AadFields(o', h');
    TextBytesFaithful(Obj(f), Obj(g));
    assert f[1] in f && f[2] in f && g[1] in g && g[2] in g;
    FieldsAgree(f, g, "header", f[1].value, g[1].value);
    HeaderAgrees(o, o', "rez.encrypted.v1");
    FieldsAgree(f, g, "encrypted", f[2].value, g[2].value);
    var x, y := EncryptedFields(h), EncryptedFields(h');
    assert x[2] in x && y[2] in y;
    FieldsAgree(x, y, "ratchetHeader", x[2].value, y[2].value);
    RatchetAgrees(h, h');
  }

  /** JSON text satisfies what the channel proofs assume of their framing. */
  lemma FramingExists() returns (w: SecureChannel.Framing)
    ensures SecureChannel.Faithful(w)
    ensures forall e :: w.encodeInner(e) == JsonBytes(Obj(InnerFields(e)))
    ensures forall o, h :: w.aad(o, h) == TextBytes(Obj(AadFields(o, h)))
  {
    hide JsonBytes, TextBytes, InnerFields, AadFields;
    w := SecureChannel.Framing(
      e => JsonBytes(Obj(InnerFields(e))),
      b => ReadInner(b),
      (o, h) => TextBytes(Obj(AadFields(o, h))));
    forall e ensures w.decodeInner(w.encodeInner(e)) == Some(e) {
      InnerInjective(e, ReadInner(JsonBytes(Obj(InnerFields(e)))).value);
    }
  }
}
