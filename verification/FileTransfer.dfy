/** Splitting a file into hashed chunks, putting it back together, and tracking what arrived
    (`filetransfer/FileChunker.js`, `FileManifestV1.js`, `FileChunkV1.js`, `FileTransferSessionV1.js`). */
module FileTransfer {
  import opened Basics
  import Base64
  import Crypto
  import Text

  datatype Chunk = Chunk(transferId: string, index: nat, dataB64: string, hashHex: string)

  datatype Manifest = Manifest(
    transferId: string,
    fileName: string,
    mimeType: string,
    fileSize: int,
    chunkSize: int,
    chunkCount: int,
    fileHashHex: string,
    chunkHashesHex: seq<string>,
    text: string)

  datatype Error =
    | EmptyFile
    | BadFileName
    | BadManifest
    | IndexOutOfRange(index: nat)
    | MissingChunk(index: nat)
    | BadBase64(index: nat)
    | ChunkHashMismatch(index: nat)
    | FileHashMismatch

  type Hash = Bytes -> Bytes

  /** Number of pieces, the quotient rounded up. */
  function Count(len: nat, size: nat): nat
    requires size > 0
  {
    (len + size - 1) / size
  }

  function Start(size: nat, i: nat): nat {
    i * size
  }

  predicate HexOk(s: string) {
    |s| == 64 && forall i :: 0 <= i < 64 ==> Text.IsHexDigit(s[i])
  }

  /** What the manifest's constructor demands. */
  predicate ManifestOk(m: Manifest) {
    && m.transferId != "" && 0 < |m.fileName| <= 255 && 0 < |m.mimeType| <= 255
    && m.fileSize > 0 && 1024 <= m.chunkSize <= 1048576
    && m.chunkCount == Count(m.fileSize, m.chunkSize)
    && HexOk(m.fileHashHex)
    && |m.chunkHashesHex| == m.chunkCount
    && forall i :: 0 <= i < |m.chunkHashesHex| ==> HexOk(m.chunkHashesHex[i])
  }

  // ---- arithmetic of the cuts

  lemma StartStep(size: nat, i: nat)
    ensures Start(size, i + 1) == Start(size, i) + size && Start(size, 0) == 0
  {
  }

  lemma {:induction false} StartGrows(size: nat, i: nat, j: nat)
    requires i <= j
    ensures Start(size, i) <= Start(size, j)
    decreases j - i
  {
    if i < j {
      StartStep(size, j - 1);
      StartGrows(size, i, j - 1);
    }
  }

  lemma CountBounds(len: nat, size: nat)
    requires size > 0 && len > 0
    ensures var n := Count(len, size); n > 0 && Start(size, n - 1) < len <= Start(size, n)
  {
    var x, n := len + size - 1, Count(len, size);
    assert x == n * size + x % size;
    StartStep(size, n);
    if n > 0 { StartStep(size, n - 1); }
  }

  function Cut(file: Bytes, size: nat, i: nat): nat {
    if Start(size, i) < |file| then Start(size, i) else |file|
  }

  lemma CutOrder(file: Bytes, size: nat, i: nat)
    ensures Cut(file, size, i) <= Cut(file, size, i + 1) <= |file|
    ensures Start(size, i) < |file| ==>
      Cut(file, size, i + 1) == if Start(size, i) + size < |file| then Start(size, i) + size else |file|
  {
    StartStep(size, i);
  }

  function Piece(file: Bytes, size: nat, i: nat): (p: Bytes)
    ensures size > 0 && Start(size, i) < |file| ==> p != []
  {
    CutOrder(file, size, i);
    file[Cut(file, size, i)..Cut(file, size, i + 1)]
  }

  // ---- cutting

  function ChunkOf(hash: Hash, file: Bytes, size: nat, transferId: string, i: nat): Chunk {
    var raw := Piece(file, size, i);
    Chunk(transferId, i, Base64.Encode(raw), Text.Hex(hash(raw)))
  }

  function Chunks(hash: Hash, file: Bytes, size: nat, transferId: string): (cs: seq<Chunk>)
    requires size > 0
    ensures |cs| == Count(|file|, size)
    ensures forall i :: 0 <= i < |cs| ==> cs[i] == ChunkOf(hash, file, size, transferId, i)
  {
    seq(Count(|file|, size), i requires 0 <= i < Count(|file|, size) => ChunkOf(hash, file, size, transferId, i))
  }

  ghost predicate Describes(hash: Hash, m: Manifest, file: Bytes) {
    && m.fileSize == |file| > 0 && ManifestOk(m)
    && m.fileHashHex == Text.Hex(hash(file))
    && forall i :: 0 <= i < m.chunkCount ==> m.chunkHashesHex[i] == Text.Hex(hash(Piece(file, m.chunkSize, i)))
  }

  /** Succeeds exactly for a non-empty file, acceptable names and a legal chunk size; the manifest
      then describes the file and the chunks are its pieces in order. */
  method ChunkFile(
    hash: Hash, file: Bytes, transferId: string, fileName: string, mimeType: string, size: int, text: string)
    returns (r: Result<(Manifest, seq<Chunk>), Error>)
    requires Crypto.Digests(hash) && transferId != ""
    ensures r.Ok? <==> file != [] && 0 < |fileName| <= 255 && 0 < |mimeType| <= 255 && 1024 <= size <= 1048576
    ensures r.Ok? ==>
      var (m, cs) := r.value;
      && Describes(hash, m, file) && m.chunkSize == size
      && cs == Chunks(hash, file, size, transferId)
      && (m.transferId, m.fileName, m.mimeType, m.text) == (transferId, fileName, mimeType, text)
  {
    hide Piece, Count, Start, Cut;
    if file == [] {
      return Err(EmptyFile);
    }
    if fileName == "" {
      return Err(BadFileName);
    }
    if size <= 0 {
      // Zero: the first chunk would be empty. Negative: the manifest has no chunks.
      return Err(BadManifest);
    }
    var count := Count(|file|, size);
    var hashes: seq<string>, chunks: seq<Chunk>, i := [], [], 0;
    while i < count
      invariant 0 <= i <= count && |hashes| == |chunks| == i
      invariant forall j :: 0 <= j < i ==> hashes[j] == Text.Hex(hash(Piece(file, size, j)))
      invariant forall j :: 0 <= j < i ==> chunks[j] == ChunkOf(hash, file, size, transferId, j)
    {
      var raw := CutPiece(file, size, i);
      var hashHex := Text.Hex(hash(raw));
      hashes := hashes + [hashHex];
      var data := Base64.BytesToBase64(raw);
      chunks := chunks + [Chunk(transferId, i, data, hashHex)];
      i := i + 1;
    }
    var m := Manifest(transferId, fileName, mimeType, |file|, size, count, Text.Hex(hash(file)), hashes, text);
    if |fileName| > 255 || mimeType == "" || |mimeType| > 255 || size < 1024 || size > 1048576 {
      return Err(BadManifest);
    }
    HashesAreHex(hash);
    CountBounds(|file|, size);
    return Ok((m, chunks));
  }

  method CutPiece(file: Bytes, size: nat, i: nat) returns (raw: Bytes)
    requires file != [] && size > 0 && i < Count(|file|, size)
    ensures raw == Piece(file, size, i)
  {
    CutInside(file, size, i);
    CutOrder(file, size, i);
    var start := i * size;
    var end := Min(start + size, |file|);
    raw := file[start..end];
  }

  lemma CutInside(file: Bytes, size: nat, i: nat)
    requires file != [] && size > 0 && i < Count(|file|, size)
    ensures Start(size, i) < |file|
  {
    CountBounds(|file|, size);
    StartGrows(size, i, Count(|file|, size) - 1);
  }

  lemma HashesAreHex(hash: Hash)
    requires Crypto.Digests(hash)
    ensures forall b :: HexOk(Text.Hex(hash(b)))
  {
    forall b ensures HexOk(Text.Hex(hash(b))) { assert |hash(b)| == 32; }
  }

  // ---- putting back together

  function FirstOutOfRange(chunks: seq<Chunk>, count: int): (r: Option<nat>)
    ensures r.None? <==> forall k :: 0 <= k < |chunks| ==> chunks[k].index < count
  {
    if chunks == [] then None
    else if chunks[0].index >= count then Some(chunks[0].index)
    else
      var r := FirstOutOfRange(chunks[1..], count);
      assert chunks == [chunks[0]] + chunks[1..];
      r
  }

  /** The slot of index i after all chunks are placed: the last one listed. */
  function Placed(chunks: seq<Chunk>, i: nat): Option<Chunk> {
    if chunks == [] then None
    else if chunks[|chunks| - 1].index == i then Some(chunks[|chunks| - 1])
    else Placed(chunks[..|chunks| - 1], i)
  }

  predicate AllPlaced(chunks: seq<Chunk>, count: int, from: nat) {
    forall j :: from <= j < count ==> Placed(chunks, j).Some?
  }

  function FirstMissing(chunks: seq<Chunk>, count: int, i: nat): (r: Option<nat>)
    ensures r.None? <==> AllPlaced(chunks, count, i)
    decreases count - i
  {
    if i >= count then None
    else if Placed(chunks, i).None? then
      assert !AllPlaced(chunks, count, i);
      Some(i)
    else FirstMissing(chunks, count, i + 1)
  }

  function PartOf(hash: Hash, expected: string, chunk: Chunk, i: nat): Result<Bytes, Error> {
    match Base64.Decode(chunk.dataB64)
    case Err(_) => Err(BadBase64(i))
    case Ok(raw) => if Text.Hex(hash(raw)) != expected then Err(ChunkHashMismatch(i)) else Ok(raw)
  }

  function Parts(hash: Hash, m: Manifest, chunks: seq<Chunk>, n: nat): (r: Result<seq<Bytes>, Error>)
    requires n <= |m.chunkHashesHex| && forall i :: 0 <= i < n ==> Placed(chunks, i).Some?
    ensures r.Ok? ==> |r.value| == n
  {
    if n == 0 then Ok([])
    else match Parts(hash, m, chunks, n - 1)
      case Err(e) => Err(e)
      case Ok(parts) =>
        match PartOf(hash, m.chunkHashesHex[n - 1], Placed(chunks, n - 1).value, n - 1)
        case Err(e) => Err(e)
        case Ok(raw) => Ok(parts + [raw])
  }

  function Flat(parts: seq<Bytes>): Bytes {
    if parts == [] then [] else Flat(parts[..|parts| - 1]) + parts[|parts| - 1]
  }

  function Assembled(hash: Hash, m: Manifest, chunks: seq<Chunk>): Result<Bytes, Error>
    requires ManifestOk(m)
  {
    var bad := FirstOutOfRange(chunks, m.chunkCount);
    if bad.Some? then Err(IndexOutOfRange(bad.value))
    else
      var gap := FirstMissing(chunks, m.chunkCount, 0);
      if gap.Some? then Err(MissingChunk(gap.value))
      else match Parts(hash, m, chunks, m.chunkCount)
        case Err(e) => Err(e)
        case Ok(parts) =>
          if Text.Hex(hash(Flat(parts))) != m.fileHashHex then Err(FileHashMismatch) else Ok(Flat(parts))
  }

  lemma PlacedStep(chunks: seq<Chunk>, k: nat, i: nat)
    requires k < |chunks|
    ensures Placed(chunks[..k + 1], i) == if chunks[k].index == i then Some(chunks[k]) else Placed(chunks[..k], i)
  {
    assert chunks[..k + 1][..k] == chunks[..k];
  }

  lemma RangeStep(chunks: seq<Chunk>, count: int, k: nat)
    requires k < |chunks|
    ensures FirstOutOfRange(chunks[k..], count) ==
      if chunks[k].index >= count then Some(chunks[k].index) else FirstOutOfRange(chunks[k + 1..], count)
  {
    assert chunks[k..][1..] == chunks[k + 1..];
  }

  /** First loop: every chunk into the slot of its index. */
  method Place(chunks: seq<Chunk>, count: nat, indexed: array<Option<Chunk>>) returns (bad: Option<nat>)
    requires indexed.Length == count && forall i :: 0 <= i < count ==> indexed[i] == None
    modifies indexed
    ensures bad == FirstOutOfRange(chunks, count)
    ensures bad.None? ==> forall i :: 0 <= i < count ==> indexed[i] == Placed(chunks, i)
  {
    hide Placed, FirstOutOfRange;
    var k := 0;
    assert chunks[0..] == chunks;
    PlacedNone(chunks);
    while k < |chunks|
      invariant 0 <= k <= |chunks|
      invariant FirstOutOfRange(chunks, count) == FirstOutOfRange(chunks[k..], count)
      invariant forall i :: 0 <= i < count ==> indexed[i] == Placed(chunks[..k], i)
    {
      RangeStep(chunks, count, k);
      if chunks[k].index >= count {
        return Some(chunks[k].index);
      }
      indexed[chunks[k].index] := Some(chunks[k]);
      forall i | 0 <= i < count ensures indexed[i] == Placed(chunks[..k + 1], i) {
        PlacedStep(chunks, k, i);
      }
      k := k + 1;
    }
    assert chunks[..k] == chunks && chunks[k..] == [];
    NoneOutOfRange(count);
    return None;
  }

  lemma PlacedNone(chunks: seq<Chunk>)
    ensures forall i :: Placed(chunks[..0], i) == None
  {
  }

  lemma NoneOutOfRange(count: int)
    ensures FirstOutOfRange([], count) == None
  {
  }

  /** Last loop: copy the parts one after another. */
  method Concatenate(parts: seq<Bytes>, totalLen: nat) returns (out: Bytes)
    requires totalLen == |Flat(parts)|
    ensures out == Flat(parts)
  {
    var output := new byte[totalLen](_ => 0);
    var offset, i := 0, 0;
    while i < |parts|
      invariant 0 <= i <= |parts| && offset == |Flat(parts[..i])| <= totalLen
      invariant output[..offset] == Flat(parts[..i])
    {
      FlatStep(parts, i);
      FlatFits(parts, i + 1);
      Blit(output, parts[i], offset);
      offset := offset + |parts[i]|;
      i := i + 1;
    }
    assert parts[..i] == parts;
    return output[..];
  }

  method Blit(output: array<byte>, part: Bytes, offset: nat)
    requires offset + |part| <= output.Length
    modifies output
    ensures output[..offset + |part|] == old(output[..offset]) + part
  {
    var j := 0;
    while j < |part|
      invariant 0 <= j <= |part|
      invariant output[..offset + j] == old(output[..offset]) + part[..j]
    {
      output[offset + j] := part[j];
      j := j + 1;
      assert output[..offset + j] == output[..offset + j - 1] + [part[j - 1]];
      assert part[..j] == part[..j - 1] + [part[j - 1]];
    }
    assert part[..j] == part;
  }

  lemma FlatNone()
    ensures Flat([]) == []
  {
  }

  lemma FlatSnoc(parts: seq<Bytes>, part: Bytes)
    ensures Flat(parts + [part]) == Flat(parts) + part
  {
    assert (parts + [part])[..|parts|] == parts;
  }

  lemma FlatStep(parts: seq<Bytes>, i: nat)
    requires i < |parts|
    ensures Flat(parts[..i + 1]) == Flat(parts[..i]) + parts[i]
  {
    assert parts[..i + 1][..i] == parts[..i];
  }

  lemma {:induction false} FlatFits(parts: seq<Bytes>, i: nat)
    requires i <= |parts|
    ensures |Flat(parts[..i])| <= |Flat(parts)|
    decreases |parts| - i
  {
    if i < |parts| {
      FlatStep(parts, i);
      FlatFits(parts, i + 1);
    } else {
      assert parts[..i] == parts;
    }
  }

  method Reassemble(hash: Hash, m: Manifest, chunks: seq<Chunk>) returns (r: Result<Bytes, Error>)
    requires ManifestOk(m)
    ensures r == Assembled(hash, m, chunks)
  {
    hide HexOk, Count, Placed, FirstOutOfRange, Parts, Flat;
    var indexed := new Option<Chunk>[m.chunkCount](_ => None);
    var bad := Place(chunks, m.chunkCount, indexed);
    if bad.Some? {
      return Err(IndexOutOfRange(bad.value));
    }
    var gap := FindGap(chunks, indexed);
    if gap.Some? {
      return Err(MissingChunk(gap.value));
    }
    var collected := Collect(hash, m, chunks, indexed);
    if collected.Err? {
      return Err(collected.error);
    }
    var out := Concatenate(collected.value.0, collected.value.1);
    if Text.Hex(hash(out)) != m.fileHashHex {
      return Err(FileHashMismatch);
    }
    return Ok(out);
  }

  method FindGap(chunks: seq<Chunk>, indexed: array<Option<Chunk>>) returns (gap: Option<nat>)
    requires forall i :: 0 <= i < indexed.Length ==> indexed[i] == Placed(chunks, i)
    ensures gap == FirstMissing(chunks, indexed.Length, 0)
  {
    hide Placed;
    var i := 0;
    while i < indexed.Length
      invariant 0 <= i <= indexed.Length
      invariant FirstMissing(chunks, indexed.Length, 0) == FirstMissing(chunks, indexed.Length, i)
    {
      if indexed[i].None? {
        return Some(i);
      }
      i := i + 1;
    }
    return None;
  }

  /** Second loop: decode, check and collect. */
  method Collect(hash: Hash, m: Manifest, chunks: seq<Chunk>, indexed: array<Option<Chunk>>)
    returns (r: Result<(seq<Bytes>, nat), Error>)
    requires indexed.Length <= |m.chunkHashesHex|
    requires forall i :: 0 <= i < indexed.Length ==> indexed[i] == Placed(chunks, i) && indexed[i].Some?
    ensures
      var parts := Parts(hash, m, chunks, indexed.Length);
      if parts.Ok? then r == Ok((parts.value, |Flat(parts.value)|)) else r == Err(parts.error)
  {
    hide Placed, Base64.Decode, Flat, Text.Hex;
    FlatNone();
    var parts: seq<Bytes>, totalLen, i := [], 0, 0;
    while i < indexed.Length
      invariant 0 <= i <= indexed.Length
      invariant Parts(hash, m, chunks, i) == Ok(parts) && totalLen == |Flat(parts)|
    {
      var raw := Base64.Base64ToBytes(indexed[i].value.dataB64);
      if raw.Err? {
        PartsFail(hash, m, chunks, i, indexed.Length);
        return Err(BadBase64(i));
      }
      if Text.Hex(hash(raw.value)) != m.chunkHashesHex[i] {
        PartsFail(hash, m, chunks, i, indexed.Length);
        return Err(ChunkHashMismatch(i));
      }
      FlatSnoc(parts, raw.value);
      parts := parts + [raw.value];
      totalLen := totalLen + |raw.value|;
      i := i + 1;
    }
    return Ok((parts, totalLen));
  }

  /** The first bad part decides. */
  lemma {:induction false} PartsFail(hash: Hash, m: Manifest, chunks: seq<Chunk>, i: nat, n: nat)
    requires i < n <= |m.chunkHashesHex| && forall j :: 0 <= j < n ==> Placed(chunks, j).Some?
    requires Parts(hash, m, chunks, i).Ok?
    requires PartOf(hash, m.chunkHashesHex[i], Placed(chunks, i).value, i).Err?
    ensures Parts(hash, m, chunks, n) == Err(PartOf(hash, m.chunkHashesHex[i], Placed(chunks, i).value, i).error)
    decreases n
  {
    hide Placed, PartOf;
    if i + 1 < n { PartsFail(hash, m, chunks, i, n - 1); }
  }

  // ---- the round trip

  lemma {:induction false} PlacedFrom(chunks: seq<Chunk>, i: nat)
    ensures Placed(chunks, i).Some? ==> Placed(chunks, i).value in chunks && Placed(chunks, i).value.index == i
    ensures Placed(chunks, i).Some? <==> HasIndex(chunks, i)
  {
    if chunks != [] {
      var before := chunks[..|chunks| - 1];
      PlacedFrom(before, i);
      assert forall k :: 0 <= k < |before| ==> before[k] == chunks[k];
      assert HasIndex(chunks, i) ==> HasIndex(before, i) || chunks[|chunks| - 1].index == i;
    }
  }

  function PiecesUpTo(file: Bytes, size: nat, n: nat): (ps: seq<Bytes>)
    ensures |ps| == n && forall i :: 0 <= i < n ==> ps[i] == Piece(file, size, i)
  {
    seq(n, i requires 0 <= i < n => Piece(file, size, i))
  }

  lemma {:induction false} PiecesJoin(file: Bytes, size: nat, n: nat)
    ensures Flat(PiecesUpTo(file, size, n)) == file[..Cut(file, size, n)]
  {
    if n > 0 {
      var ps := PiecesUpTo(file, size, n);
      assert ps[..n - 1] == PiecesUpTo(file, size, n - 1);
      PiecesJoin(file, size, n - 1);
      CutOrder(file, size, n - 1);
      assert file[..Cut(file, size, n)] == file[..Cut(file, size, n - 1)] + Piece(file, size, n - 1);
    } else {
      StartStep(size, 0);
    }
  }

  ghost predicate Genuine(hash: Hash, file: Bytes, size: nat, transferId: string, chunks: seq<Chunk>)
    requires size > 0
  {
    forall k :: 0 <= k < |chunks| ==> chunks[k] in Chunks(hash, file, size, transferId)
  }

  ghost predicate HasIndex(chunks: seq<Chunk>, i: int) {
    exists k :: 0 <= k < |chunks| && chunks[k].index == i
  }

  ghost predicate Covers(chunks: seq<Chunk>, count: int) {
    forall i :: 0 <= i < count ==> HasIndex(chunks, i)
  }

  ghost predicate PartsGenuine(hash: Hash, m: Manifest, file: Bytes, chunks: seq<Chunk>)
    requires |m.chunkHashesHex| == m.chunkCount && m.chunkSize > 0
  {
    forall i :: 0 <= i < m.chunkCount ==>
      && Placed(chunks, i).Some?
      && PartOf(hash, m.chunkHashesHex[i], Placed(chunks, i).value, i) == Ok(Piece(file, m.chunkSize, i))
  }

  lemma {:induction false} GenuineParts(hash: Hash, m: Manifest, file: Bytes, chunks: seq<Chunk>, n: nat)
    requires |m.chunkHashesHex| == m.chunkCount && m.chunkSize > 0 && n <= m.chunkCount
    requires PartsGenuine(hash, m, file, chunks)
    ensures Parts(hash, m, chunks, n) == Ok(PiecesUpTo(file, m.chunkSize, n))
  {
    hide Piece, Placed, PartOf, PiecesUpTo;
    if n == 0 {
      assert PiecesUpTo(file, m.chunkSize, 0) == [];
    } else {
      GenuineParts(hash, m, file, chunks, n - 1);
      assert PiecesUpTo(file, m.chunkSize, n) ==
        PiecesUpTo(file, m.chunkSize, n - 1) + [Piece(file, m.chunkSize, n - 1)];
    }
  }

  lemma GenuinePlaced(hash: Hash, m: Manifest, file: Bytes, transferId: string, chunks: seq<Chunk>)
    requires Describes(hash, m, file)
    requires Genuine(hash, file, m.chunkSize, transferId, chunks) && Covers(chunks, m.chunkCount)
    ensures PartsGenuine(hash, m, file, chunks)
  {
    hide Piece, Placed, HexOk, Count, PartOf, HasIndex;
    forall i | 0 <= i < m.chunkCount
      ensures Placed(chunks, i).Some?
      ensures PartOf(hash, m.chunkHashesHex[i], Placed(chunks, i).value, i) == Ok(Piece(file, m.chunkSize, i))
    {
      PlacedFrom(chunks, i);
      GenuinePart(hash, m, file, transferId, Placed(chunks, i).value);
    }
  }

  lemma GenuinePart(hash: Hash, m: Manifest, file: Bytes, transferId: string, c: Chunk)
    requires Describes(hash, m, file) && c in Chunks(hash, file, m.chunkSize, transferId)
    ensures c.index < m.chunkCount
    ensures PartOf(hash, m.chunkHashesHex[c.index], c, c.index) == Ok(Piece(file, m.chunkSize, c.index))
  {
    hide Piece, HexOk, Count;
    Base64.DecodeEncode(Piece(file, m.chunkSize, c.index));
  }

  /** Any list of the file's own chunks that has each at least once, in any order and with
      repeats, gives the file back. */
  lemma ReassembleChunks(hash: Hash, m: Manifest, file: Bytes, transferId: string, chunks: seq<Chunk>)
    requires Describes(hash, m, file)
    requires Genuine(hash, file, m.chunkSize, transferId, chunks) && Covers(chunks, m.chunkCount)
    ensures Assembled(hash, m, chunks) == Ok(file)
  {
    hide Piece, Placed, HexOk, Count, PiecesUpTo, PartOf, Flat, Cut;
    forall k | 0 <= k < |chunks| ensures chunks[k].index < m.chunkCount {
      GenuinePart(hash, m, file, transferId, chunks[k]);
    }
    GenuinePlaced(hash, m, file, transferId, chunks);
    GenuineParts(hash, m, file, chunks, m.chunkCount);
    PiecesJoin(file, m.chunkSize, m.chunkCount);
    WholeCut(m, file);
    assert file[..|file|] == file;
  }

  lemma WholeCut(m: Manifest, file: Bytes)
    requires m.fileSize == |file| && ManifestOk(m)
    ensures Cut(file, m.chunkSize, m.chunkCount) == |file|
  {
    hide HexOk;
    CountBounds(|file|, m.chunkSize);
  }

  /** Dropping every copy of some chunk is noticed. */
  lemma MissingChunkRefused(hash: Hash, m: Manifest, chunks: seq<Chunk>, i: nat)
    requires ManifestOk(m) && i < m.chunkCount
    requires !HasIndex(chunks, i)
    ensures Assembled(hash, m, chunks).Err?
  {
    hide HexOk, Count;
    PlacedFrom(chunks, i);
  }

  /** Whatever chunks arrive, an accepted result is the described file unless the hash collides on it. */
  lemma AcceptedIsTheFile(hash: Hash, m: Manifest, file: Bytes, chunks: seq<Chunk>)
    requires Describes(hash, m, file) && Assembled(hash, m, chunks).Ok?
    ensures
      var out := Assembled(hash, m, chunks).value;
      hash(out) == hash(file) && (out != file ==> exists other :: other != file && hash(other) == hash(file))
  {
    hide HexOk, Count, Placed, Piece, Parts, Flat;
    var out := Assembled(hash, m, chunks).value;
    Text.HexInjective(hash(out), hash(file));
  }

  // ---- the receiving session

  datatype State = Pending | Receiving | Complete | Failed

  datatype Session = Session(transferId: string, manifest: Manifest, received: seq<bool>, state: State,
    createdAt: real, updatedAt: real)

  predicate SessionOk(s: Session) {
    ManifestOk(s.manifest) && |s.received| == s.manifest.chunkCount
  }

  function Trues(received: seq<bool>): (n: nat)
    ensures n <= |received|
  {
    if received == [] then 0 else Trues(received[..|received| - 1]) + (if received[|received| - 1] then 1 else 0)
  }

  method ReceivedCount(s: Session) returns (count: nat)
    ensures count == Trues(s.received)
  {
    count := 0;
    var i := 0;
    while i < |s.received|
      invariant 0 <= i <= |s.received| && count == Trues(s.received[..i])
    {
      assert s.received[..i + 1][..i] == s.received[..i];
      if s.received[i] {
        count := count + 1;
      }
      i := i + 1;
    }
    assert s.received[..i] == s.received;
  }

  predicate IsComplete(s: Session) {
    Trues(s.received) == s.manifest.chunkCount
  }

  function MarkChunkReceived(s: Session, index: int, now: real): Result<Session, ()>
    requires SessionOk(s)
  {
    if index < 0 || index >= s.manifest.chunkCount then Err(())
    else
      var received := s.received[index := true];
      Ok(s.(received := received, state := if false in received then Receiving else Complete, updatedAt := now))
  }

  /** A mark that throws leaves the session it was called on in use. */
  function Marked(s: Session, marks: seq<(int, real)>): (r: Session)
    requires SessionOk(s)
    ensures SessionOk(r) && r.manifest == s.manifest
  {
    if marks == [] then s
    else
      var before := Marked(s, marks[..|marks| - 1]);
      var m := marks[|marks| - 1];
      match MarkChunkReceived(before, m.0, m.1)
      case Ok(next) => next
      case Err(_) => before
  }

  ghost predicate Hit(marks: seq<(int, real)>, i: nat) {
    exists k :: 0 <= k < |marks| && marks[k].0 == i
  }

  lemma {:induction false} ReceivedIffHit(s: Session, marks: seq<(int, real)>, i: nat)
    requires SessionOk(s) && i < s.manifest.chunkCount
    ensures Marked(s, marks).received[i] <==> s.received[i] || Hit(marks, i)
  {
    hide ManifestOk;
    if marks != [] {
      var before, m := marks[..|marks| - 1], marks[|marks| - 1];
      ReceivedIffHit(s, before, i);
      assert Hit(marks, i) <==> Hit(before, i) || m.0 == i by {
        assert forall k :: 0 <= k < |before| ==> before[k] == marks[k];
        if Hit(marks, i) {
          var k :| 0 <= k < |marks| && marks[k].0 == i;
          assert k < |before| ==> before[k].0 == i;
        }
      }
    }
  }

  lemma {:induction false} TruesFull(received: seq<bool>)
    ensures Trues(received) == |received| <==> forall i :: 0 <= i < |received| ==> received[i]
  {
    if received != [] { TruesFull(received[..|received| - 1]); }
  }

  lemma {:induction false} StateTracks(s: Session, marks: seq<(int, real)>)
    requires SessionOk(s) && exists k :: 0 <= k < |marks| && 0 <= marks[k].0 < s.manifest.chunkCount
    ensures var r := Marked(s, marks);
      && (r.state == Complete <==> forall i :: 0 <= i < |r.received| ==> r.received[i])
      && (r.state == Receiving <==> exists i :: 0 <= i < |r.received| && !r.received[i])
  {
    hide ManifestOk;
    var m := marks[|marks| - 1];
    if !(0 <= m.0 < s.manifest.chunkCount) {
      var before := marks[..|marks| - 1];
      var k :| 0 <= k < |marks| && 0 <= marks[k].0 < s.manifest.chunkCount;
      assert before[k] == marks[k];
      StateTracks(s, before);
    }
  }

  /** A session started all-false is complete, by count and after a valid mark by state, exactly
      when the marks cover every index. */
  lemma CompleteIffCovered(s: Session, marks: seq<(int, real)>)
    requires SessionOk(s) && forall i :: 0 <= i < |s.received| ==> !s.received[i]
    ensures
      var r, covered := Marked(s, marks), forall i :: 0 <= i < s.manifest.chunkCount ==> Hit(marks, i);
      && (IsComplete(r) <==> covered)
      && ((exists k :: 0 <= k < |marks| && 0 <= marks[k].0 < s.manifest.chunkCount) ==>
            (r.state == Complete <==> covered) && (r.state == Receiving <==> !covered))
  {
    hide ManifestOk, Marked;
    var r := Marked(s, marks);
    forall i | 0 <= i < s.manifest.chunkCount ensures r.received[i] <==> Hit(marks, i) {
      ReceivedIffHit(s, marks, i);
    }
    TruesFull(r.received);
    if exists k :: 0 <= k < |marks| && 0 <= marks[k].0 < s.manifest.chunkCount {
      StateTracks(s, marks);
    }
  }
}
