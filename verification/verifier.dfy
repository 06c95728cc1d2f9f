/**
 * Copy validation: `get_file_hash` streams a file into the hasher in
 * 4096-byte chunks and `validate_file_copy` compares the two digests.
 * SHA-256 itself is the uninterpreted function `hash`; since a streaming
 * hash object digests the concatenation of everything it was updated with,
 * the hasher's state is modelled as the bytes fed to it so far.
 */
module Verifier {
  import opened FileTypes

  /** The size of each `file.read` in `get_file_hash`. */
  const ChunkSize: nat := 4096

  function Min(a: nat, b: nat): (m: nat)
  {
    if a <= b then a else b
  }

  /**
   * `file.read(ChunkSize)` on a file positioned at `pos`: at most `ChunkSize`
   * bytes, and the empty read once the end is reached.
   */
  function Read(data: Bytes, pos: nat): (chunk: Bytes)
    requires pos <= |data|
    ensures |chunk| <= ChunkSize && pos + |chunk| <= |data|
    ensures chunk == data[pos..pos + |chunk|]
    ensures chunk == [] <==> pos == |data|
    ensures |chunk| < ChunkSize ==> pos + |chunk| == |data|
  {
    data[pos..pos + Min(ChunkSize, |data| - pos)]
  }

  /** The chunks `iter(lambda: file.read(ChunkSize), b'')` yields, in order. */
  function Chunks(data: Bytes): (chunks: seq<Bytes>)
    ensures forall i :: 0 <= i < |chunks| ==> 0 < |chunks[i]| <= ChunkSize
    decreases |data|
  {
    if |data| == 0 then [] else [Read(data, 0)] + Chunks(data[|Read(data, 0)|..])
  }

  /** The bytes of a sequence of chunks laid end to end. */
  function Flatten(chunks: seq<Bytes>): (bytes: Bytes)
  {
    if chunks == [] then [] else chunks[0] + Flatten(chunks[1..])
  }

  lemma {:induction false} FlattenAppend(chunks: seq<Bytes>, chunk: Bytes)
    ensures Flatten(chunks + [chunk]) == Flatten(chunks) + chunk
  {
    if chunks == [] {
      assert [] + [chunk] == [chunk];
    } else {
      assert (chunks + [chunk])[1..] == chunks[1..] + [chunk];
      FlattenAppend(chunks[1..], chunk);
    }
  }

  /**
   * The chunk stream covers the file exactly: laid end to end the chunks are
   * the file, none is empty (the empty read ends the stream), none is longer
   * than `ChunkSize`, and all but the last are full.
   */
  lemma {:induction false} ChunksCoverFile(data: Bytes)
    ensures Flatten(Chunks(data)) == data
    ensures forall i :: 0 <= i < |Chunks(data)| ==> 0 < |Chunks(data)[i]| <= ChunkSize
    ensures forall i :: 0 <= i < |Chunks(data)| - 1 ==> |Chunks(data)[i]| == ChunkSize
    ensures |Chunks(data)| == (|data| + ChunkSize - 1) / ChunkSize
    decreases |data|
  {
    if |data| != 0 {
      var head := Read(data, 0);
      var rest := data[|head|..];
      ChunksCoverFile(rest);
      var cs := Chunks(data);
      assert cs == [head] + Chunks(rest);
      assert cs[1..] == Chunks(rest);
      assert Flatten(cs) == head + Flatten(Chunks(rest));
      assert head + rest == data;
      if |data| < ChunkSize {
        assert rest == [];
      }
    }
  }

  /** Reading one chunk at `pos` peels the first chunk off the rest of the stream. */
  lemma ChunksStep(data: Bytes, pos: nat)
    requires pos < |data|
    ensures Read(data, pos) != []
    ensures Chunks(data[pos..]) == [Read(data, pos)] + Chunks(data[pos + |Read(data, pos)|..])
  {
    var rest := data[pos..];
    assert Read(rest, 0) == Read(data, pos);
    assert rest[|Read(data, pos)|..] == data[pos + |Read(data, pos)|..];
  }

  /**
   * The state of the read loop after `pos` bytes: the hasher has been fed
   * exactly those bytes, as the chunks `fedChunks`, and the chunks still to
   * come complete the file's chunk stream.
   */
  ghost predicate ReadSoFar(data: Bytes, pos: nat, fed: Bytes, fedChunks: seq<Bytes>)
  {
    && pos <= |data|
    && fed == data[..pos] == Flatten(fedChunks)
    && fedChunks + Chunks(data[pos..]) == Chunks(data)
  }

  /** A non-empty read moves the loop on by one chunk. */
  lemma ReadStep(data: Bytes, pos: nat, fed: Bytes, fedChunks: seq<Bytes>)
    requires ReadSoFar(data, pos, fed, fedChunks) && pos < |data|
    ensures Read(data, pos) != []
    ensures ReadSoFar(data, pos + |Read(data, pos)|, fed + Read(data, pos), fedChunks + [Read(data, pos)])
  {
    var chunk := Read(data, pos);
    ChunksStep(data, pos);
    FlattenAppend(fedChunks, chunk);
    assert data[..pos + |chunk|] == data[..pos] + chunk;
    assert (fedChunks + [chunk]) + Chunks(data[pos + |chunk|..]) == fedChunks + Chunks(data[pos..]);
  }

  /** The empty read comes exactly at the end of the file, when everything has been fed. */
  lemma ReadDone(data: Bytes, pos: nat, fed: Bytes, fedChunks: seq<Bytes>)
    requires ReadSoFar(data, pos, fed, fedChunks) && Read(data, pos) == []
    ensures fed == data && fedChunks == Chunks(data)
  {
    assert data[pos..] == [];
    assert fedChunks + [] == fedChunks;
  }

  /**
   * `get_file_hash`: reads the file chunk by chunk until the empty read,
   * feeding each chunk to the hasher, and returns the digest. The digest is
   * that of the whole file, and the chunks fed are exactly `Chunks(data)`.
   */
  method GetFileHash(hash: Bytes -> Digest, data: Bytes) returns (digest: Digest, ghost fedChunks: seq<Bytes>)
    ensures digest == hash(data)
    ensures fedChunks == Chunks(data) && Flatten(fedChunks) == data
  {
    var fed: Bytes := [];
    var pos: nat := 0;
    fedChunks := [];
    while true
      invariant ReadSoFar(data, pos, fed, fedChunks)
      decreases |data| - pos
    {
      var chunk := Read(data, pos);
      if chunk == [] {
        break;
      }
      ReadStep(data, pos, fed, fedChunks);
      fed, fedChunks, pos := fed + chunk, fedChunks + [chunk], pos + |chunk|;
    }
    ReadDone(data, pos, fed, fedChunks);
    digest := hash(fed);
  }

  /**
   * `validate_file_copy`: hashes both files and warns exactly when the
   * digests differ; a faithful copy never draws the warning.
   */
  method ValidateFileCopy(hash: Bytes -> Digest, sourceFile: Bytes, destFile: Bytes) returns (warn: bool)
    ensures warn <==> hash(sourceFile) != hash(destFile)
    ensures sourceFile == destFile ==> !warn
  {
    var sourceHash, _ := GetFileHash(hash, sourceFile);
    var destHash, _ := GetFileHash(hash, destFile);
    warn := sourceHash != destHash;
  }
}
