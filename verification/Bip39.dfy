/** BIP-39 mnemonics (`crypto/bip39.js`) and their browser twin (`keystore/BrowserRecovery.js`):
    entropy, checksum and words as one bit string cut two ways. */
module Bip39 {
  import opened Basics
  import opened JsInt
  import opened Bits
  import Crypto

  /** The word list, the SHA-256 digest and the text normalization are given. */
  datatype World = World(words: seq<string>, digest: Bytes -> Bytes, normalize: string -> string)

  ghost predicate Sound(u: World) {
    && |u.words| == 2048 && Distinct(u.words)
    && (forall i :: 0 <= i < 2048 ==> u.words[i] != "" && ' ' !in u.words[i])
    && Crypto.Digests(u.digest)
  }

  datatype MnemonicError = BadEntropyLength | EmptyText | BadWordCount(n: nat) | UnknownWord(i: nat) | ChecksumMismatch

  // ---- binary numerals

  /** `n.toString(2)`: no leading zeros. */
  function Binary(n: nat): (b: seq<Bit>)
    ensures b != []
  {
    if n < 2 then [n] else Binary(n / 2) + [n % 2]
  }

  /** `s.padStart(w, "0")` */
  function PadStart(b: seq<Bit>, w: nat): seq<Bit> {
    if |b| < w then ZeroBits(w - |b|) + b else b
  }

  lemma {:induction false} PadBinary(v: nat, w: nat)
    requires v < Pow2(w) && w > 0
    ensures PadStart(Binary(v), w) == ToBits(v, w)
    decreases w
  {
    if v < 2 {
      ZeroNumeral(w - 1);
      assert ToBits(v, w) == ToBits(0, w - 1) + [v];
      assert PadStart([v], w) == ZeroBits(w - 1) + [v];
    } else {
      assert w > 1;
      PadBinary(v / 2, w - 1);
      var h := Binary(v / 2);
      assert PadStart(Binary(v), w) == PadStart(h, w - 1) + [v % 2];
    }
  }

  // ---- words and text

  function Join(ws: seq<string>): string {
    if ws == [] then "" else if |ws| == 1 then ws[0] else ws[0] + " " + Join(ws[1..])
  }

  /** `s.split(" ")` */
  function Split(s: string): (ws: seq<string>)
    ensures |ws| >= 1
    ensures forall i :: 0 <= i < |ws| ==> ' ' !in ws[i]
  {
    if s == [] then [""]
    else
      var rest := Split(s[1..]);
      if s[0] == ' ' then [""] + rest else [[s[0]] + rest[0]] + rest[1..]
  }

  lemma {:induction false} JoinSplit(s: string)
    ensures Join(Split(s)) == s
  {
    if s != [] {
      var rest := Split(s[1..]);
      JoinSplit(s[1..]);
      if s[0] == ' ' {
        assert Split(s)[1..] == rest;
        assert Join(Split(s)) == "" + " " + Join(rest);
      } else {
        assert Split(s)[1..] == rest[1..];
        assert Join(Split(s)) == [s[0]] + Join(rest);
      }
    }
  }

  lemma {:induction false} SplitWord(w: string, tail: string)
    requires ' ' !in w
    ensures Split(w + " " + tail) == [w] + Split(tail)
    ensures Split(w) == [w]
  {
    if w == [] {
      assert w + " " + tail == " " + tail;
      assert (" " + tail)[1..] == tail;
    } else {
      SplitWord(w[1..], tail);
      assert (w + " " + tail)[1..] == w[1..] + " " + tail;
      assert [w[0]] + w[1..] == w;
    }
  }

  lemma {:induction false} SplitJoin(ws: seq<string>)
    requires ws != [] && forall i :: 0 <= i < |ws| ==> ' ' !in ws[i]
    ensures Split(Join(ws)) == ws
  {
    if |ws| == 1 {
      SplitWord(ws[0], "");
    } else {
      SplitJoin(ws[1..]);
      SplitWord(ws[0], Join(ws[1..]));
    }
  }

  /** Position of a word in the list, or -1. */
  function IndexIn(words: seq<string>, w: string): (i: int)
    ensures -1 <= i < |words|
    ensures i >= 0 ==> words[i] == w
    ensures i < 0 ==> w !in words
  {
    if words == [] then -1
    else if words[|words| - 1] == w then |words| - 1
    else IndexIn(words[..|words| - 1], w)
  }

  lemma IndexOfWord(words: seq<string>, i: nat)
    requires Distinct(words) && i < |words|
    ensures IndexIn(words, words[i]) == i
  {
  }

  // ---- the two directions as functions

  predicate GoodLength(n: nat) {
    16 <= n <= 32 && n % 4 == 0
  }

  predicate GoodCount(n: nat) {
    n == 12 || n == 15 || n == 18 || n == 21 || n == 24
  }

  function Checksum(u: World, e: Bytes): (b: seq<Bit>)
    requires |u.digest(e)| == 32 && |e| <= 32
    ensures |b| == |e| / 4
  {
    PackLength(u.digest(e), 8);
    Pack(u.digest(e), 8)[..|e| / 4]
  }

  function AllBits(u: World, e: Bytes): seq<Bit>
    requires |u.digest(e)| == 32 && |e| <= 32
  {
    Pack(e, 8) + Checksum(u, e)
  }

  lemma AllBitsLength(u: World, e: Bytes)
    requires |u.digest(e)| == 32 && GoodLength(|e|)
    ensures |AllBits(u, e)| == 11 * (3 * (|e| / 4)) && |Pack(e, 8)| == 32 * (|e| / 4)
    ensures GoodCount(3 * (|e| / 4))
  {
    PackLength(e, 8);
  }

  function Indices(u: World, e: Bytes): (ix: seq<nat>)
    requires |u.digest(e)| == 32 && GoodLength(|e|)
    ensures |ix| == 3 * (|e| / 4)
    ensures forall i :: 0 <= i < |ix| ==> ix[i] < 2048
    ensures Pack(ix, 11) == AllBits(u, e)
  {
    AllBitsLength(u, e);
    PackUnpack(AllBits(u, e), 11, 3 * (|e| / 4));
    Pow2Eleven();
    Unpack(AllBits(u, e), 11)
  }

  /** The k-th bit of a byte string, most significant bit of each byte first. */
  function BitOf(b: Bytes, k: nat): nat
    requires k < 8 * |b|
  {
    b[k / 8] / Pow2(7 - k % 8) % 2
  }

  /** Bit by bit: the words' eleven-bit indices, read one after the other, are the entropy followed by the
      leading bits of its digest, one for every 32 bits of entropy. */
  lemma IndexBits(u: World, e: Bytes, i: nat, j: nat)
    requires |u.digest(e)| == 32 && GoodLength(|e|) && i < 3 * (|e| / 4) && j < 11
    ensures
      var k := 11 * i + j;
      && k < 8 * |e| + |e| / 4
      && Indices(u, e)[i] / Pow2(10 - j) % 2 == if k < 8 * |e| then BitOf(e, k) else BitOf(u.digest(e), k - 8 * |e|)
  {
    hide Pack, Unpack, Pow2;
    var k, ix := 11 * i + j, Indices(u, e);
    PackAt(ix, 11, i, j);
    AllBitsLength(u, e);
    if k < 8 * |e| {
      PackAt(e, 8, k / 8, k % 8);
    } else {
      var q := k - 8 * |e|;
      PackLength(u.digest(e), 8);
      PackAt(u.digest(e), 8, q / 8, q % 8);
      assert AllBits(u, e)[k] == Checksum(u, e)[q] == Pack(u.digest(e), 8)[q];
    }
  }

  lemma Pow2Eleven()
    ensures Pow2(11) == 2048
  {
    Pow2Small();
    Pow2Add(3, 8);
  }

  function WordsAt(words: seq<string>, ix: seq<nat>): (ws: seq<string>)
    requires forall i :: 0 <= i < |ix| ==> ix[i] < |words|
    ensures |ws| == |ix| && forall i :: 0 <= i < |ws| ==> ws[i] == words[ix[i]]
  {
    seq(|ix|, i requires 0 <= i < |ix| => words[ix[i]])
  }

  function Mnemonic(u: World, e: Bytes): Result<string, MnemonicError>
    requires |u.words| == 2048 && |u.digest(e)| == 32
  {
    if !GoodLength(|e|) then Err(BadEntropyLength)
    else Ok(Join(WordsAt(u.words, Indices(u, e))))
  }

  predicate Known(words: seq<string>, ws: seq<string>) {
    forall i :: 0 <= i < |ws| ==> IndexIn(words, ws[i]) >= 0
  }

  function Positions(words: seq<string>, ws: seq<string>): (ix: seq<nat>)
    requires Known(words, ws)
    ensures |ix| == |ws| && forall i :: 0 <= i < |ix| ==> ix[i] < |words| && ix[i] == IndexIn(words, ws[i])
  {
    seq(|ws|, i requires 0 <= i < |ws| => IndexIn(words, ws[i]))
  }

  /** The entropy and checksum test on known words. */
  function CheckWords(u: World, ix: seq<nat>): Result<Bytes, MnemonicError>
    requires GoodCount(|ix|) && Crypto.Digests(u.digest)
  {
    var bits, cs := Pack(ix, 11), |ix| / 3;
    PackLength(ix, 11);
    var entropy := Octets(bits[..|bits| - cs], 4 * cs);
    if Checksum(u, entropy) != bits[|bits| - cs..] then Err(ChecksumMismatch) else Ok(entropy)
  }

  ghost function Validate(u: World, text: string): Result<Bytes, MnemonicError>
    requires Crypto.Digests(u.digest)
  {
    var t := u.normalize(text);
    if t == "" then Err(EmptyText)
    else
      var ws := Split(t);
      if !GoodCount(|ws|) then Err(BadWordCount(|ws|))
      else if !Known(u.words, ws) then Err(UnknownWord(FirstUnknown(u.words, ws, 0)))
      else CheckWords(u, Positions(u.words, ws))
  }

  function FirstUnknown(words: seq<string>, ws: seq<string>, i: nat): (k: nat)
    requires i <= |ws| && !Known(words, ws[i..])
    ensures i <= k < |ws| && IndexIn(words, ws[k]) < 0
    ensures forall j :: i <= j < k ==> IndexIn(words, ws[j]) >= 0
    decreases |ws| - i
  {
    if IndexIn(words, ws[i]) < 0 then i
    else
      assert ws[i..][0] == ws[i] && ws[i..][1..] == ws[i + 1..];
      assert !Known(words, ws[i + 1..]) by {
        var j :| 0 <= j < |ws[i..]| && IndexIn(words, ws[i..][j]) < 0;
        assert ws[i + 1..][j - 1] == ws[i..][j];
      }
      FirstUnknown(words, ws, i + 1)
  }

  // ---- round trips

  /** The mnemonic of an entropy validates to that entropy. */
  lemma ValidateMnemonicOf(u: World, e: Bytes)
    requires Sound(u) && GoodLength(|e|)
    requires u.normalize(Mnemonic(u, e).value) == Mnemonic(u, e).value
    ensures Validate(u, Mnemonic(u, e).value) == Ok(e)
  {
    var ix := Indices(u, e);
    var ws := WordsAt(u.words, ix);
    AllBitsLength(u, e);
    SplitJoin(ws);
    assert Join(ws) != "" by { if |ws| == 1 {} else { assert |Join(ws)| >= |ws[0]|; } }
    forall i | 0 <= i < |ws|
      ensures IndexIn(u.words, ws[i]) == ix[i]
    {
      IndexOfWord(u.words, ix[i]);
    }
    assert Positions(u.words, ws) == ix;
    var bits, cs := Pack(ix, 11), |ix| / 3;
    assert bits[..|bits| - cs] == Pack(e, 8) && bits[|bits| - cs..] == Checksum(u, e);
    Pow2Small();
    UnpackPack(e, 8);
  }

  /** An accepted text is, once normalized, exactly the mnemonic of the entropy it returns. */
  lemma ValidatedIsMnemonic(u: World, text: string)
    requires Sound(u) && Validate(u, text).Ok?
    ensures
      var e := Validate(u, text).value;
      GoodLength(|e|) && Mnemonic(u, e) == Ok(u.normalize(text))
  {
    var t := u.normalize(text);
    var ws := Split(t);
    var ix := Positions(u.words, ws);
    var e := Validate(u, text).value;
    var bits, cs := Pack(ix, 11), |ix| / 3;
    PackLength(ix, 11);
    assert bits == bits[..|bits| - cs] + bits[|bits| - cs..];
    assert Pack(ix, 11) == AllBits(u, e);
    Pow2Eleven();
    UnpackPack(ix, 11);
    UnpackPack(Indices(u, e), 11);
    assert WordsAt(u.words, ix) == ws;
    JoinSplit(t);
  }

  // ---- the loops

  method NumeralsToBits(vals: seq<nat>, w: nat) returns (bits: seq<Bit>)
    requires w > 0 && forall i :: 0 <= i < |vals| ==> vals[i] < Pow2(w)
    ensures bits == Pack(vals, w)
  {
    bits := [];
    var i := 0;
    while i < |vals|
      invariant 0 <= i <= |vals|
      invariant bits == Pack(vals[..i], w)
    {
      PadBinary(vals[i], w);
      PackSnoc(vals[..i], vals[i], w);
      assert vals[..i + 1] == vals[..i] + [vals[i]];
      bits := bits + PadStart(Binary(vals[i]), w);
      i := i + 1;
    }
    assert vals[..i] == vals;
  }

  method BytesToBitString(bytes: Bytes) returns (bits: seq<Bit>)
    ensures bits == Pack(bytes, 8)
  {
    Pow2Small();
    bits := NumeralsToBits(bytes, 8);
  }

  method BitsToBytes(bits: seq<Bit>, n: nat) returns (out: Bytes)
    requires |bits| == 8 * n
    ensures out == Octets(bits, n)
  {
    hide Unpack, FromBits, Pack;
    var buffer := new byte[n](_ => 0);
    var i := 0;
    ghost var all := Octets(bits, n);
    while i < n
      invariant 0 <= i <= n
      invariant buffer[..i] == all[..i]
    {
      OctetAt(bits, n, i);
      buffer[i] := FromBits(bits[i * 8..i * 8 + 8]);
      i := i + 1;
    }
    out := buffer[..];
  }

  lemma OctetAt(bits: seq<Bit>, n: nat, i: nat)
    requires |bits| == 8 * n && i < n
    ensures FromBits(bits[i * 8..i * 8 + 8]) == Octets(bits, n)[i]
  {
    UnpackAt(bits, 8, i, 8 * i);
  }

  method EntropyToMnemonic(u: World, e: Bytes) returns (r: Result<string, MnemonicError>)
    requires Sound(u)
    ensures r == Mnemonic(u, e)
  {
    hide Unpack, FromBits, Pack, Join;
    if |e| < 16 || |e| > 32 || |e| % 4 != 0 {
      return Err(BadEntropyLength);
    }
    var body := BytesToBitString(e);
    var hash := BytesToBitString(u.digest(e));
    PackLength(u.digest(e), 8);
    var bits := body + hash[..|e| * 8 / 32];
    AllBitsLength(u, e);
    var words: seq<string>, i := [], 0;
    ghost var ix, k := Indices(u, e), 0;
    while i < |bits|
      invariant i == 11 * k && k <= |ix| && words == WordsAt(u.words, ix[..k])
    {
      UnpackAt(bits, 11, k, i);
      var index := FromBits(bits[i..i + 11]);
      assert ix[..k + 1] == ix[..k] + [index];
      words := words + [u.words[index]];
      i := i + 11;
      k := k + 1;
    }
    assert ix[..k] == ix;
    return Ok(Join(words));
  }

  /** Both validators test the same bits; they differ in how they look a word up and in what
      they report. */
  method CheckPhrase(u: World, ix: seq<nat>) returns (r: Result<Bytes, MnemonicError>)
    requires Sound(u) && GoodCount(|ix|) && forall i :: 0 <= i < |ix| ==> ix[i] < 2048
    ensures r == CheckWords(u, ix)
  {
    hide Pack, Unpack, FromBits;
    Pow2Eleven();
    var bits := NumeralsToBits(ix, 11);
    PackLength(ix, 11);
    var checksumLength := |ix| * 11 / 33;
    assert checksumLength == |ix| / 3;
    var entropy := BitsToBytes(bits[..|bits| - checksumLength], 4 * checksumLength);
    var hash := BytesToBitString(u.digest(entropy));
    PackLength(u.digest(entropy), 8);
    if hash[..|entropy| * 8 / 32] != bits[|bits| - checksumLength..] {
      return Err(ChecksumMismatch);
    }
    return Ok(entropy);
  }

  method ValidateMnemonic(u: World, text: string) returns (r: Result<Bytes, MnemonicError>)
    requires Sound(u)
    ensures r == Validate(u, text)
  {
    hide Split, IndexIn, CheckWords;
    var t := u.normalize(text);
    if t == "" {
      return Err(EmptyText);
    }
    var ws := Split(t);
    if !GoodCount(|ws|) {
      return Err(BadWordCount(|ws|));
    }
    var ix: seq<nat>, i := [], 0;
    while i < |ws|
      invariant 0 <= i <= |ws| && |ix| == i
      invariant forall j :: 0 <= j < i ==> 0 <= IndexIn(u.words, ws[j]) == ix[j]
    {
      var k := IndexIn(u.words, ws[i]);
      if k < 0 {
        assert ws[0..] == ws;
        return Err(UnknownWord(i));
      }
      ix := ix + [k];
      i := i + 1;
    }
    assert ix == Positions(u.words, ws);
    r := CheckPhrase(u, ix);
  }

  /** `BIP39_ENGLISH.indexOf(word)`: the first position. */
  function FirstIndex(words: seq<string>, w: string): (i: int)
    ensures -1 <= i < |words|
    ensures i >= 0 ==> words[i] == w
    ensures i < 0 ==> w !in words
  {
    if words == [] then -1
    else if words[0] == w then 0
    else var i := FirstIndex(words[1..], w); if i < 0 then -1 else i + 1
  }

  /** The browser validator accepts exactly the same texts. */
  method ValidateBrowserMnemonic(u: World, text: string) returns (ok: bool)
    requires Sound(u)
    ensures ok <==> Validate(u, text).Ok?
  {
    hide Split, IndexIn, FirstIndex, CheckWords;
    var t := u.normalize(text);
    var ws := if t == "" then [] else Split(t);
    if !GoodCount(|ws|) {
      return false;
    }
    var ix: seq<nat>, i := [], 0;
    while i < |ws|
      invariant 0 <= i <= |ws| && |ix| == i
      invariant forall j :: 0 <= j < i ==> 0 <= IndexIn(u.words, ws[j]) == ix[j]
    {
      var k := FirstIndex(u.words, ws[i]);
      if k < 0 {
        return false;
      }
      IndexOfWord(u.words, k);
      ix := ix + [k];
      i := i + 1;
    }
    assert ix == Positions(u.words, ws);
    var r := CheckPhrase(u, ix);
    return r.Ok?;
  }
}
