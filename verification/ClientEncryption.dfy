/** The caller's side of the encrypted source, and what the decryptor's acceptance
    says about where the bytes came from. */
module ClientEncryption {
  import opened Wrappers
  import opened Sequences
  import opened ChunkBudget
  import opened Encryption
  import opened BatchDecryption

  /** One chunk as its encryptor issued it. */
  datatype Chunk = Chunk(iv: Bytes, body: Bytes, plain: Bytes) {
    function Blob(): Bytes { iv + body }
  }

  /** One encryption of one file: all its chunks, in order. */
  datatype Sent = Sent(fileId: string, chunks: seq<Chunk>)

  /** The caller's encryptor, slice by slice: slice `i` under `ivs[i]`, its associated data
      naming place `i + 1` out of all. */
  function EncryptFile(seal: Sealer, key: Bytes, fileId: string, chunkSize: nat, ivs: seq<Bytes>, plain: Bytes): Sent
    requires chunkSize >= 1 && |ivs| == |Split(plain, chunkSize)|
  {
    var slices := Split(plain, chunkSize);
    Sent(fileId, seq(|slices|, i requires 0 <= i < |slices| =>
      Chunk(ivs[i], seal(key, ivs[i], slices[i], Aad(fileId, i + 1, |slices|)), slices[i])))
  }

  function Blobs(chunks: seq<Chunk>): (r: seq<Bytes>)
    ensures |r| == |chunks| && forall i :: 0 <= i < |chunks| ==> r[i] == chunks[i].Blob()
  {
    seq(|chunks|, i requires 0 <= i < |chunks| => chunks[i].Blob())
  }

  function Plains(chunks: seq<Chunk>): (r: seq<Bytes>)
    ensures |r| == |chunks| && forall i :: 0 <= i < |chunks| ==> r[i] == chunks[i].plain
  {
    seq(|chunks|, i requires 0 <= i < |chunks| => chunks[i].plain)
  }

  /** What the caller stores: the chunks concatenated. */
  function Stored(sent: Sent): Bytes {
    Concat(Blobs(sent.chunks))
  }

  /** The caller's `parts`: the number of slices is the rounded-up quotient. */
  lemma SliceCount(plain: Bytes, chunkSize: nat)
    requires chunkSize >= 1
    ensures |Split(plain, chunkSize)| == CeilDiv(|plain|, chunkSize)
  {
    var slices := Split(plain, chunkSize);
    SplitIsWellCut(plain, chunkSize);
    PieceCount(slices, chunkSize);
    if slices == [] {
      CeilDivUnique(0, chunkSize, 0);
    } else {
      CeilDivUnique(|plain|, chunkSize, |slices|);
    }
  }

  /** The stored format, byte for byte: stored chunk `i` is twelve bytes of IV and then the
      sealing of plaintext bytes `i * chunkSize` and on, under the file id, the 1-based place
      and the total; and storing costs 28 bytes a chunk, for a sealer that adds 16. */
  lemma StoredLayout(seal: Sealer, key: Bytes, fileId: string, chunkSize: nat, ivs: seq<Bytes>, plain: Bytes, i: nat)
    requires chunkSize >= 1 && |ivs| == |Split(plain, chunkSize)| && i < |ivs|
    requires forall iv :: iv in ivs ==> |iv| == 12
    ensures 0 <= i * chunkSize < |plain|
    ensures var sent := EncryptFile(seal, key, fileId, chunkSize, ivs, plain);
      var blob := Blobs(sent.chunks)[i];
      var rest := plain[i * chunkSize..];
      && |blob| >= 12 && blob[..12] == ivs[i]
      && blob[12..] == seal(key, ivs[i], if |rest| < chunkSize then rest else rest[..chunkSize],
                            fileId + ":" + Decimal(i + 1) + ":" + Decimal(|ivs|))
  {
    SplitAt(plain, chunkSize, i);
    assert ivs[i] in ivs;
    hide Decimal, Concat;
    var slice := Split(plain, chunkSize)[i];
    hide Split;
    var blob := Blobs(EncryptFile(seal, key, fileId, chunkSize, ivs, plain).chunks)[i];
    assert blob == ivs[i] + seal(key, ivs[i], slice, Aad(fileId, i + 1, |ivs|));
  }

  lemma StoredSize(seal: Sealer, key: Bytes, fileId: string, chunkSize: nat, ivs: seq<Bytes>, plain: Bytes)
    requires chunkSize >= 1 && |ivs| == |Split(plain, chunkSize)|
    requires forall iv :: iv in ivs ==> |iv| == 12
    requires forall iv, p, aad :: |seal(key, iv, p, aad)| == |p| + 16
    ensures |Stored(EncryptFile(seal, key, fileId, chunkSize, ivs, plain))| == |plain| + 28 * |ivs|
  {
    var sent := EncryptFile(seal, key, fileId, chunkSize, ivs, plain);
    SplitIsWellCut(plain, chunkSize);
    assert Plains(sent.chunks) == Split(plain, chunkSize);
    forall i | 0 <= i < |sent.chunks|
      ensures |Blobs(sent.chunks)[i]| == |Plains(sent.chunks)[i]| + 28
    {
      assert ivs[i] in ivs;
    }
    LongerByEach(Plains(sent.chunks), Blobs(sent.chunks));
  }

  lemma {:induction false} LongerByEach(a: seq<Bytes>, b: seq<Bytes>)
    requires |a| == |b| && forall i :: 0 <= i < |a| ==> |b[i]| == |a[i]| + 28
    ensures |Concat(b)| == |Concat(a)| + 28 * |a|
  {
    if a == [] {
    } else {
      LongerByEach(a[1..], b[1..]);
      assert |b[0]| == |a[0]| + 28;
    }
  }

  /** Slices of the plaintext and blobs on the wire are cut alike. */
  lemma BlobsWellCut(slices: seq<Bytes>, blobs: seq<Bytes>, chunkSize: nat)
    requires chunkSize >= 1 && |blobs| == |slices|
    requires forall i :: 0 <= i < |slices| ==> |blobs[i]| == |slices[i]| + OVERHEAD_PER_CHUNK
    requires WellCut(slices, chunkSize)
    ensures WellCut(blobs, chunkSize + OVERHEAD_PER_CHUNK)
  {
    forall i | 0 <= i < |blobs|
      ensures if i == |blobs| - 1 then 1 <= |blobs[i]| <= chunkSize + OVERHEAD_PER_CHUNK
              else |blobs[i]| == chunkSize + OVERHEAD_PER_CHUNK
    {
      assert |blobs[i]| == |slices[i]| + OVERHEAD_PER_CHUNK;
    }
  }

  /** Pieces that all open make a decryption, up to the counts and the cap. */
  lemma AcceptsOpened(open: Opener, cap: nat, plan: Plan, blobs: seq<Bytes>, slices: seq<Bytes>)
    requires plan.Valid() && TagLengthExact(open)
    requires WellCut(blobs, plan.BlobSize()) && |blobs| == plan.parts
    requires OpenTo(open, plan, blobs, 0, slices)
    ensures BatchDecrypt(open, cap, plan, Concat(blobs))
         == if |Concat(slices)| <= cap then Some(Concat(slices)) else None
  {
    SplitOfWellCut(blobs, plan.BlobSize());
    OpenAllOfOpenTo(open, plan, blobs, 0, slices);
    OpenedWireSize(open, plan, blobs);
    FitsWireIffFitsCap(|Concat(slices)|, plan.chunkSize, cap);
  }

  // ----- The ideal AEAD, under one key and the files issued under it

  ghost predicate Issued(files: set<Sent>, c: Chunk, aad: string) {
    exists f, i {:trigger f.chunks[i]} ::
      f in files && 0 <= i < |f.chunks| && f.chunks[i] == c && aad == Aad(f.fileId, i + 1, |f.chunks|)
  }

  /** What was issued opens, in its place. */
  ghost predicate OpensIssued(open: Opener, key: Bytes, files: set<Sent>) {
    forall c: Chunk, aad :: |c.iv| == IV_BYTES && Issued(files, c, aad) ==>
      open(key, c.iv, c.body, aad) == Some(c.plain)
  }

  /** Nothing else does. */
  ghost predicate OpensNothingElse(open: Opener, key: Bytes, files: set<Sent>) {
    forall iv: Bytes, body, aad :: |iv| == IV_BYTES && open(key, iv, body, aad).Some? ==>
      Issued(files, Chunk(iv, body, open(key, iv, body, aad).value), aad)
  }

  ghost predicate Ideal(open: Opener, key: Bytes, files: set<Sent>) {
    TagLengthExact(open) && OpensIssued(open, key, files) && OpensNothingElse(open, key, files)
  }

  /** An AEAD whose ciphertext is the plaintext and a fixed tag, and whose opener looks
      up what was issued. */
  function TagSealer(tag: Bytes): Sealer {
    (key, iv, plain, aad) => plain + tag
  }

  ghost function LookupOpener(files: set<Sent>): Opener {
    (key, iv, body, aad) =>
      if |body| >= GCM_TAG_BYTES && Issued(files, Chunk(iv, body, body[..|body| - GCM_TAG_BYTES]), aad)
      then Some(body[..|body| - GCM_TAG_BYTES]) else None
  }

  /** It is ideal, for any set of files sealed with that tag. */
  lemma LookupOpenerIsIdeal(files: set<Sent>, key: Bytes, tag: Bytes)
    requires |tag| == GCM_TAG_BYTES
    requires forall f, c :: f in files && c in f.chunks ==> c.body == c.plain + tag
    ensures Ideal(LookupOpener(files), key, files)
  {
    hide Aad;
    var open := LookupOpener(files);
    forall c: Chunk, aad | Issued(files, c, aad)
      ensures open(key, c.iv, c.body, aad) == Some(c.plain)
    {
      var f, i :| f in files && 0 <= i < |f.chunks| && f.chunks[i] == c && aad == Aad(f.fileId, i + 1, |f.chunks|);
      assert f.chunks[i] in f.chunks;
      assert c.body[..|c.body| - GCM_TAG_BYTES] == c.plain;
      assert c == Chunk(c.iv, c.body, c.plain);
    }
  }

  /** What the results below assume can be met all at once, by one AEAD, for any file. */
  lemma HypothesesMet(key: Bytes, fileId: string, chunkSize: nat, ivs: seq<Bytes>, plain: Bytes, tag: Bytes)
    requires chunkSize >= 1 && |ivs| == |Split(plain, chunkSize)| && |tag| == GCM_TAG_BYTES
    ensures var files := {EncryptFile(TagSealer(tag), key, fileId, chunkSize, ivs, plain)};
      Ideal(LookupOpener(files), key, files) && IssuedOnce(files, fileId, |ivs|)
  {
    hide Ideal, Aad, LookupOpener;
    LookupOpenerIsIdeal({EncryptFile(TagSealer(tag), key, fileId, chunkSize, ivs, plain)}, key, tag);
  }

  // ----- Round trip

  /** Chunks that open in their places make a decryption, up to the cap. */
  lemma AcceptsOpening(open: Opener, cap: nat, plan: Plan, chunks: seq<Chunk>)
    requires plan.Valid() && TagLengthExact(open)
    requires |chunks| == plan.parts && WellCut(Plains(chunks), plan.chunkSize)
    requires forall i :: 0 <= i < |chunks| ==> |chunks[i].iv| == IV_BYTES && Opens(open, plan, chunks[i], i)
    ensures BatchDecrypt(open, cap, plan, Concat(Blobs(chunks)))
         == if |Concat(Plains(chunks))| <= cap then Some(Concat(Plains(chunks))) else None
  {
    var blobs, plains := Blobs(chunks), Plains(chunks);
    forall i | 0 <= i < |chunks|
      ensures |blobs[i]| == |plains[i]| + OVERHEAD_PER_CHUNK
      ensures OpenPiece(open, plan, blobs[i], 0 + i + 1) == Some(plains[i])
    {
      var c := chunks[i];
      assert open(plan.key, c.iv, c.body, Aad(plan.fileId, i + 1, plan.parts)).Some?;
      assert blobs[i][..IV_BYTES] == c.iv && blobs[i][IV_BYTES..] == c.body;
      assert |plains[i]| >= 1;
    }
    BlobsWellCut(plains, blobs, plan.chunkSize);
    AcceptsOpened(open, cap, plan, blobs, plains);
  }

  /** The chunk opens at 0-based place `i` of the plan. */
  ghost predicate Opens(open: Opener, plan: Plan, c: Chunk, i: nat) {
    open(plan.key, c.iv, c.body, Aad(plan.fileId, i + 1, plan.parts)) == Some(c.plain)
  }

  /** Round trip: decrypting what was encrypted by the caller contract returns the
      plaintext exactly when the plaintext is within the cap, which the wire cap then
      never gets in the way of. Every plaintext, the empty one included. */
  lemma RoundTrip(seal: Sealer, open: Opener, cap: nat, key: Bytes, fileId: string, chunkSize: nat, ivs: seq<Bytes>,
                  plain: Bytes, files: set<Sent>)
    requires chunkSize >= 1 && |ivs| == |Split(plain, chunkSize)|
    requires forall iv :: iv in ivs ==> |iv| == IV_BYTES
    requires EncryptFile(seal, key, fileId, chunkSize, ivs, plain) in files
    requires TagLengthExact(open) && OpensIssued(open, key, files)
    ensures var wire := Stored(EncryptFile(seal, key, fileId, chunkSize, ivs, plain));
      BatchDecrypt(open, cap, Plan(key, fileId, chunkSize, |ivs|), wire) == if |plain| <= cap then Some(plain) else None
  {
    SplitIsWellCut(plain, chunkSize);
    var sent := EncryptFile(seal, key, fileId, chunkSize, ivs, plain);
    var plan := Plan(key, fileId, chunkSize, |ivs|);
    assert Plains(sent.chunks) == Split(plain, chunkSize);
    forall i | 0 <= i < |sent.chunks|
      ensures |sent.chunks[i].iv| == IV_BYTES && Opens(open, plan, sent.chunks[i], i)
    {
      assert ivs[i] in ivs;
      assert Issued(files, sent.chunks[i], Aad(fileId, i + 1, |sent.chunks|));
    }
    AcceptsOpening(open, cap, plan, sent.chunks);
  }

  // ----- Exactness: what acceptance says

  /** `c` stands at 0-based place `i` of some encryption of the planned file. */
  ghost predicate InPlace(files: set<Sent>, plan: Plan, c: Chunk, i: nat) {
    exists f :: f in files && f.fileId == plan.fileId && |f.chunks| == plan.parts && i < plan.parts && f.chunks[i] == c
  }

  /** The wire is made of issued chunks of this file, each in its own place, cut to
      the plan's chunk size, within the cap. */
  ghost predicate MadeOf(files: set<Sent>, cap: nat, plan: Plan, wire: Bytes, chunks: seq<Chunk>) {
    && |chunks| == plan.parts
    && (forall i :: 0 <= i < |chunks| ==> |chunks[i].iv| == IV_BYTES && InPlace(files, plan, chunks[i], i))
    && WellCut(Plains(chunks), plan.chunkSize)
    && wire == Concat(Blobs(chunks))
    && |Concat(Plains(chunks))| <= cap
  }

  /** A piece opens in a place exactly when it is the blob issued for that place. */
  lemma OpensInPlace(open: Opener, plan: Plan, files: set<Sent>, c: Chunk, i: nat)
    requires Ideal(open, plan.key, files) && |c.iv| == IV_BYTES && i < plan.parts
    ensures Opens(open, plan, c, i) <==> InPlace(files, plan, c, i)
  {
    var aad := Aad(plan.fileId, i + 1, plan.parts);
    assert c == Chunk(c.iv, c.body, c.plain);
    if Issued(files, c, aad) {
      var f, j :| f in files && 0 <= j < |f.chunks| && f.chunks[j] == c && aad == Aad(f.fileId, j + 1, |f.chunks|);
      AadInjective(plan.fileId, i + 1, plan.parts, f.fileId, j + 1, |f.chunks|);
    }
    if InPlace(files, plan, c, i) {
      var f :| f in files && f.fileId == plan.fileId && |f.chunks| == plan.parts && f.chunks[i] == c;
      assert Issued(files, c, aad);
    }
  }

  lemma MadeOfIsAccepted(open: Opener, cap: nat, plan: Plan, files: set<Sent>, wire: Bytes, chunks: seq<Chunk>)
    requires plan.Valid() && Ideal(open, plan.key, files)
    requires MadeOf(files, cap, plan, wire, chunks)
    ensures BatchDecrypt(open, cap, plan, wire) == Some(Concat(Plains(chunks)))
  {
    forall i | 0 <= i < |chunks| ensures |chunks[i].iv| == IV_BYTES && Opens(open, plan, chunks[i], i) {
      OpensInPlace(open, plan, files, chunks[i], i);
    }
    AcceptsOpening(open, cap, plan, chunks);
  }

  lemma AcceptedIsMadeOf(open: Opener, cap: nat, plan: Plan, files: set<Sent>, wire: Bytes) returns (chunks: seq<Chunk>)
    requires plan.Valid() && Ideal(open, plan.key, files)
    requires BatchDecrypt(open, cap, plan, wire).Some?
    ensures MadeOf(files, cap, plan, wire, chunks)
    ensures BatchDecrypt(open, cap, plan, wire) == Some(Concat(Plains(chunks)))
  {
    var pieces := Split(wire, plan.BlobSize());
    SplitIsWellCut(wire, plan.BlobSize());
    var plains := OpenToOfOpenAll(open, plan, pieces, 0);
    chunks := seq(|pieces|, i requires 0 <= i < |pieces| => ChunkOf(pieces[i], plains, i));
    forall i | 0 <= i < |chunks|
      ensures chunks[i].Blob() == pieces[i] && chunks[i].plain == plains[i]
      ensures |chunks[i].iv| == IV_BYTES && InPlace(files, plan, chunks[i], i)
      ensures |plains[i]| + OVERHEAD_PER_CHUNK == |pieces[i]| && |plains[i]| >= 1
    {
      OpenedLength(open, plan, pieces[i], 0 + i + 1);
      assert pieces[i] == pieces[i][..IV_BYTES] + pieces[i][IV_BYTES..];
      OpensInPlace(open, plan, files, chunks[i], i);
    }
    assert Blobs(chunks) == pieces && Plains(chunks) == plains;
    forall i | 0 <= i < |plains|
      ensures if i == |plains| - 1 then 1 <= |plains[i]| <= plan.chunkSize else |plains[i]| == plan.chunkSize
    {
      assert |plains[i]| + OVERHEAD_PER_CHUNK == |pieces[i]|;
    }
  }

  function ChunkOf(piece: Bytes, plains: seq<Bytes>, i: nat): Chunk {
    Chunk(if |piece| >= IV_BYTES then piece[..IV_BYTES] else piece,
          if |piece| >= IV_BYTES then piece[IV_BYTES..] else [],
          if i < |plains| then plains[i] else [])
  }

  /** Acceptance is exactly being made of issued chunks, position by position: no
      chunk of another file, another place or another total gets in. */
  lemma AcceptedIffMadeOf(open: Opener, cap: nat, plan: Plan, files: set<Sent>, wire: Bytes)
    requires plan.Valid() && Ideal(open, plan.key, files)
    ensures BatchDecrypt(open, cap, plan, wire).Some? <==> exists chunks :: MadeOf(files, cap, plan, wire, chunks)
  {
    if BatchDecrypt(open, cap, plan, wire).Some? {
      var chunks := AcceptedIsMadeOf(open, cap, plan, files, wire);
      assert MadeOf(files, cap, plan, wire, chunks);
    }
    if exists chunks :: MadeOf(files, cap, plan, wire, chunks) {
      var chunks :| MadeOf(files, cap, plan, wire, chunks);
      MadeOfIsAccepted(open, cap, plan, files, wire, chunks);
    }
  }

  /** The wire is one issued file, as it was issued. */
  ghost predicate FromOneFile(files: set<Sent>, cap: nat, plan: Plan, wire: Bytes) {
    exists f :: f in files && f.fileId == plan.fileId && MadeOf(files, cap, plan, wire, f.chunks)
  }

  /** This file id is encrypted at most once with this number of chunks. */
  ghost predicate IssuedOnce(files: set<Sent>, fileId: string, parts: nat) {
    forall f, g :: f in files && g in files ==>
      f.fileId == g.fileId == fileId && |f.chunks| == |g.chunks| == parts ==> f == g
  }

  /** Exactness: when the file id is not re-issued with the same total, acceptance means
      the wire is precisely the issued chunks 1..parts in order and the plaintext is what
      their encryptor put in them. Dropping, duplicating, reordering, extending or
      altering a chunk is refused. A plan for zero parts accepts the empty wire,
      which no chunk vouches for, and nothing else. */
  lemma Exactness(open: Opener, cap: nat, plan: Plan, files: set<Sent>, wire: Bytes, plain: Bytes)
    requires plan.Valid() && Ideal(open, plan.key, files) && IssuedOnce(files, plan.fileId, plan.parts)
    ensures BatchDecrypt(open, cap, plan, wire) == Some(plain) <==>
      if plan.parts == 0 then wire == [] && plain == []
      else exists f ::
        && f in files && f.fileId == plan.fileId
        && plain == Concat(Plains(f.chunks)) && MadeOf(files, cap, plan, wire, f.chunks)
  {
    if BatchDecrypt(open, cap, plan, wire) == Some(plain) {
      var chunks := AcceptedIsMadeOf(open, cap, plan, files, wire);
      if plan.parts > 0 {
        var f := OneSource(files, plan, chunks);
        assert f in files && f.fileId == plan.fileId && MadeOf(files, cap, plan, wire, f.chunks);
      }
    }
    if plan.parts == 0 && wire == [] {
      assert MadeOf(files, cap, plan, [], []);
      MadeOfIsAccepted(open, cap, plan, files, [], []);
    }
    if f :| f in files && plain == Concat(Plains(f.chunks)) && MadeOf(files, cap, plan, wire, f.chunks) {
      MadeOfIsAccepted(open, cap, plan, files, wire, f.chunks);
    }
  }

  /** Chunks in their places, without re-issue, are all of one encryption. */
  lemma OneSource(files: set<Sent>, plan: Plan, chunks: seq<Chunk>) returns (f: Sent)
    requires IssuedOnce(files, plan.fileId, plan.parts) && plan.parts > 0 && |chunks| == plan.parts
    requires forall i :: 0 <= i < |chunks| ==> InPlace(files, plan, chunks[i], i)
    ensures f in files && f.fileId == plan.fileId && f.chunks == chunks
  {
    assert InPlace(files, plan, chunks[0], 0);
    f :| f in files && f.fileId == plan.fileId && |f.chunks| == plan.parts && f.chunks[0] == chunks[0];
    forall i | 0 <= i < |chunks| ensures f.chunks[i] == chunks[i] {
      assert InPlace(files, plan, chunks[i], i);
      var g :| g in files && g.fileId == plan.fileId && |g.chunks| == plan.parts && g.chunks[i] == chunks[i];
      assert f == g;
    }
  }

  /** Round trip and exactness under one AEAD: for a file encrypted by the contract, once,
      the decryptor returns a plaintext exactly when the wire is what the encryptor stored,
      the plaintext is the encryptor's, and it is within the cap. */
  lemma OnlyWhatWasStored(seal: Sealer, open: Opener, cap: nat, key: Bytes, fileId: string, chunkSize: nat,
                          ivs: seq<Bytes>, plain: Bytes, files: set<Sent>, wire: Bytes, result: Bytes)
    requires chunkSize >= 1 && |ivs| == |Split(plain, chunkSize)|
    requires forall iv :: iv in ivs ==> |iv| == IV_BYTES
    requires EncryptFile(seal, key, fileId, chunkSize, ivs, plain) in files && IssuedOnce(files, fileId, |ivs|)
    requires Ideal(open, key, files)
    ensures BatchDecrypt(open, cap, Plan(key, fileId, chunkSize, |ivs|), wire) == Some(result) <==>
      wire == Stored(EncryptFile(seal, key, fileId, chunkSize, ivs, plain)) && result == plain && |plain| <= cap
  {
    var sent, plan := EncryptFile(seal, key, fileId, chunkSize, ivs, plain), Plan(key, fileId, chunkSize, |ivs|);
    RoundTrip(seal, open, cap, key, fileId, chunkSize, ivs, plain, files);
    Exactness(open, cap, plan, files, wire, result);
    SplitIsWellCut(plain, chunkSize);
    assert Plains(sent.chunks) == Split(plain, chunkSize);
    hide BatchDecrypt, OpensIssued, OpensNothingElse, EncryptFile;
    assert |sent.chunks| == |ivs| && sent.fileId == fileId;
  }
}
