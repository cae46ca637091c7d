/** The device-link code shown on the primary device (`protocol/deviceLinkV1.js`). */
module LinkCode {
  import opened Basics
  import opened DeviceKeys
  import Base32
  import Base64
  import Text

  const PREFIX := "rez:link:v1:"
  const PSK_BYTES: nat := 32

  datatype CodeError = MissingPrefix | NoSeparator | BadPsk | PskLength | BadAccountKey

  function Body(psk: Bytes, account: string): string {
    Base32.Encode(psk) + ['.'] + account
  }

  function Encode(psk: Bytes, account: string): Result<string, CodeError> {
    if |psk| != PSK_BYTES then Err(PskLength)
    else if !SpkiOk(account) then Err(BadAccountKey)
    else Ok(PREFIX + Body(psk, account))
  }

  /** `indexOf(".")`, with the length standing for "none". */
  function DotAt(s: string): (i: nat)
    ensures i <= |s| && '.' !in s[..i] && (i < |s| ==> s[i] == '.')
  {
    if s == [] || s[0] == '.' then 0
    else
      var i := DotAt(s[1..]);
      assert s[..i + 1] == [s[0]] + s[1..][..i];
      i + 1
  }

  function ParseBody(body: string): Result<(Bytes, string), CodeError> {
    var dot := DotAt(body);
    if dot == |body| || dot == 0 || dot == |body| - 1 then Err(NoSeparator)
    else
      var account := body[dot + 1..];
      match Base32.Decode(body[..dot])
      case Err(_) => Err(BadPsk)
      case Ok(psk) =>
        if |psk| != PSK_BYTES then Err(PskLength)
        else if !SpkiOk(account) then Err(BadAccountKey)
        else Ok((psk, account))
  }

  function Parse(code: string): Result<(Bytes, string), CodeError> {
    if !(PREFIX <= code) then Err(MissingPrefix) else ParseBody(Text.Trim(code[|PREFIX|..]))
  }

  predicate Base32Char(c: char) {
    'a' <= c <= 'z' || '2' <= c <= '7'
  }

  lemma Base32Text(psk: Bytes)
    ensures forall i :: 0 <= i < |Base32.Encode(psk)| ==> Base32Char(Base32.Encode(psk)[i])
  {
    hide Base32.Encode, Base32.Symbols;
    Base32.EncodeValid(psk);
    var s := Base32.Encode(psk);
    forall i | 0 <= i < |s| ensures Base32Char(s[i]) { assert Base32.IndexOf(s[i]) >= 0; }
  }

  /** The body of an encoded code is left alone by trimming. */
  lemma BodyPlain(psk: Bytes, account: string)
    requires SpkiOk(account)
    ensures Text.Trim(Body(psk, account)) == Body(psk, account)
  {
    hide Text.Trim, Base32.Encode, Base64.Decode, Base64.Encode;
    Base32Text(psk);
    PatternHasNoSpace(account);
    Text.TrimPlain(Body(psk, account));
  }

  lemma DotUnique(left: string, right: string)
    requires '.' !in left
    ensures var s := left + ['.'] + right;
      DotAt(s) == |left| && s[..|left|] == left && s[|left| + 1..] == right
  {
    var s := left + ['.'] + right;
    var i := DotAt(s);
    assert s[|left|] == '.';
    assert forall k :: 0 <= k < |left| ==> s[k] == left[k];
  }

  lemma ParseBodyExactly(body: string, psk: Bytes, account: string)
    ensures ParseBody(body) == Ok((psk, account)) <==>
      |psk| == PSK_BYTES && SpkiOk(account) && body == Body(psk, account)
  {
    hide SpkiOk, Base32.Encode, Base32.Decode;
    if ParseBody(body) == Ok((psk, account)) {
      var dot := DotAt(body);
      Base32.DecodeIffEncode(body[..dot], psk);
      assert body == body[..dot] + ['.'] + body[dot + 1..];
    }
    if |psk| == PSK_BYTES && SpkiOk(account) && body == Body(psk, account) {
      var left := Base32.Encode(psk);
      Base32Text(psk);
      Base32.DecodeIffEncode(left, psk);
      DotUnique(left, account);
      KeyNotEmpty(account);
      PskTextNotEmpty(psk);
    }
  }

  lemma KeyNotEmpty(account: string)
    requires SpkiOk(account)
    ensures account != ""
  {
  }

  lemma PskTextNotEmpty(psk: Bytes)
    requires |psk| == PSK_BYTES
    ensures Base32.Encode(psk) != ""
  {
    hide Base32.Encode, Base32.Decode;
    Base32.DecodeIffEncode(Base32.Encode(psk), psk);
    Base32.DecodeIffEncode("", []);
    EmptyDecodes();
  }

  lemma EmptyDecodes()
    ensures Base32.Encode([]) == ""
  {
  }

  /** A code parses to a secret and an account key exactly when it is the prefix and the encoded body,
      up to white space around the body. */
  lemma ParseExactly(code: string, psk: Bytes, account: string)
    ensures Parse(code) == Ok((psk, account)) <==>
      && PREFIX <= code && Text.Trim(code[|PREFIX|..]) == Body(psk, account)
      && Encode(psk, account) == Ok(PREFIX + Body(psk, account))
  {
    hide SpkiOk, Base32.Encode, Text.Trim, ParseBody, Body;
    if PREFIX <= code { ParseBodyExactly(Text.Trim(code[|PREFIX|..]), psk, account); }
  }

  /** Parsing inverts encoding. */
  lemma ParseEncode(psk: Bytes, account: string)
    requires Encode(psk, account).Ok?
    ensures Parse(Encode(psk, account).value) == Ok((psk, account))
  {
    hide SpkiOk, Base32.Encode, Text.Trim, ParseBody, Body;
    var code := PREFIX + Body(psk, account);
    assert code[|PREFIX|..] == Body(psk, account);
    BodyPlain(psk, account);
    ParseBodyExactly(Body(psk, account), psk, account);
  }

  /** Encoding inverts parsing, for codes with nothing to trim. */
  lemma EncodeParse(code: string)
    requires Parse(code).Ok? && Text.Trim(code[|PREFIX|..]) == code[|PREFIX|..]
    ensures Encode(Parse(code).value.0, Parse(code).value.1) == Ok(code)
  {
    hide SpkiOk, Base32.Encode, Text.Trim, ParseBody, Body;
    var (psk, account) := Parse(code).value;
    ParseExactly(code, psk, account);
    assert code == PREFIX + code[|PREFIX|..];
  }
}
