/** Encrypting one file id twice: exactly when an accepted source is still one file as it
    was issued. */
module Reissue {
  import opened Wrappers
  import opened Sequences
  import opened ChunkBudget
  import opened Encryption
  import opened BatchDecryption
  import opened ClientEncryption

  /** A chunk can stand at place `i` of an accepted source: it was issued for that place,
      is as long as the place asks and, in the last one, keeps the whole within the cap. */
  ghost predicate Fits(files: set<Sent>, cap: nat, plan: Plan, c: Chunk, i: nat) {
    i < plan.parts && |c.iv| == IV_BYTES && InPlace(files, plan, c, i) && SizeFits(cap, plan, |c.plain|, i)
  }

  predicate SizeFits(cap: nat, plan: Plan, size: nat, i: nat) {
    if i < plan.parts - 1 then size == plan.chunkSize
    else 1 <= size <= plan.chunkSize && (plan.parts - 1) * plan.chunkSize + size <= cap
  }

  ghost predicate AllFit(files: set<Sent>, cap: nat, plan: Plan, chunks: seq<Chunk>) {
    |chunks| == plan.parts && forall i :: 0 <= i < |chunks| ==> Fits(files, cap, plan, chunks[i], i)
  }

  /** A file issued for the plan, cut to its chunk size and within the cap. */
  ghost predicate Usable(files: set<Sent>, cap: nat, plan: Plan, f: Sent) {
    f in files && f.fileId == plan.fileId && AllFit(files, cap, plan, f.chunks)
  }

  /** Exactness for one plan: whatever is accepted is one issued file. */
  ghost predicate Exact(open: Opener, cap: nat, plan: Plan, files: set<Sent>)
    requires plan.Valid()
  {
    forall wire :: BatchDecrypt(open, cap, plan, wire).Some? ==> FromOneFile(files, cap, plan, wire)
  }

  ghost predicate Fillable(files: set<Sent>, cap: nat, plan: Plan, i: nat) {
    exists c :: Fits(files, cap, plan, c, i)
  }

  /** Putting any fitting chunk into its place in a usable file gives a file that was
      itself issued; and if every place has a fitting chunk, there is a usable file. */
  ghost predicate SwapClosed(files: set<Sent>, cap: nat, plan: Plan) {
    && (forall g, c, i: nat :: Usable(files, cap, plan, g) && Fits(files, cap, plan, c, i) ==>
          Sent(plan.fileId, g.chunks[i := c]) in files)
    && ((forall i: nat :: i < plan.parts ==> Fillable(files, cap, plan, i)) ==>
          exists g :: Usable(files, cap, plan, g))
  }

  lemma WellCutLength(plains: seq<Bytes>, chunkSize: nat)
    requires WellCut(plains, chunkSize) && plains != []
    ensures |Concat(plains)| == (|plains| - 1) * chunkSize + |plains[|plains| - 1]|
  {
    var n := |plains|;
    assert plains == plains[..n - 1] + [plains[n - 1]];
    ConcatAppend(plains[..n - 1], [plains[n - 1]]);
    assert Concat([plains[n - 1]]) == plains[n - 1] + Concat([]);
    FullPiecesLength(plains[..n - 1], chunkSize);
  }

  /** Of chunks in their places, sizes and cap on the whole amount to a size for each. */
  lemma SizesFit(cap: nat, plan: Plan, plains: seq<Bytes>)
    requires |plains| == plan.parts
    ensures WellCut(plains, plan.chunkSize) && |Concat(plains)| <= cap <==>
      forall i :: 0 <= i < |plains| ==> SizeFits(cap, plan, |plains[i]|, i)
  {
    if WellCut(plains, plan.chunkSize) && plains != [] {
      WellCutLength(plains, plan.chunkSize);
    }
    if forall i :: 0 <= i < |plains| ==> SizeFits(cap, plan, |plains[i]|, i) {
      forall i | 0 <= i < |plains|
        ensures if i == |plains| - 1 then 1 <= |plains[i]| <= plan.chunkSize else |plains[i]| == plan.chunkSize
      {
        assert SizeFits(cap, plan, |plains[i]|, i);
      }
      if plains != [] {
        WellCutLength(plains, plan.chunkSize);
        assert SizeFits(cap, plan, |plains[plan.parts - 1]|, plan.parts - 1);
      }
    }
  }

  /** The cap on the whole is a cap on the last chunk: what fits is decided place by place. */
  lemma MadeOfFits(files: set<Sent>, cap: nat, plan: Plan, wire: Bytes, chunks: seq<Chunk>)
    ensures MadeOf(files, cap, plan, wire, chunks) <==>
      AllFit(files, cap, plan, chunks) && wire == Concat(Blobs(chunks))
  {
    hide Concat, InPlace, SizeFits, WellCut;
    if |chunks| == plan.parts {
      var plains := Plains(chunks);
      SizesFit(cap, plan, plains);
      forall i | 0 <= i < |chunks|
        ensures SizeFits(cap, plan, |plains[i]|, i) <==> SizeFits(cap, plan, |chunks[i].plain|, i) {}
      if forall i :: 0 <= i < |chunks| ==> SizeFits(cap, plan, |chunks[i].plain|, i) {
        assert forall i :: 0 <= i < |plains| ==> SizeFits(cap, plan, |plains[i]|, i);
      }
    }
  }

  /** A source is made of its chunks in one way only. */
  lemma MadeOneWay(open: Opener, cap: nat, plan: Plan, files: set<Sent>, wire: Bytes, a: seq<Chunk>, b: seq<Chunk>)
    requires plan.Valid() && Ideal(open, plan.key, files)
    requires MadeOf(files, cap, plan, wire, a) && MadeOf(files, cap, plan, wire, b)
    ensures a == b
  {
    BlobsOf(open, cap, plan, files, wire, a);
    BlobsOf(open, cap, plan, files, wire, b);
    forall i | 0 <= i < |a| ensures a[i] == b[i] {
      OpensInPlace(open, plan, files, a[i], i);
      OpensInPlace(open, plan, files, b[i], i);
      assert Blobs(a)[i] == Blobs(b)[i];
      assert a[i].iv == a[i].Blob()[..IV_BYTES] && a[i].body == a[i].Blob()[IV_BYTES..];
      assert b[i].iv == b[i].Blob()[..IV_BYTES] && b[i].body == b[i].Blob()[IV_BYTES..];
    }
  }

  lemma BlobsOf(open: Opener, cap: nat, plan: Plan, files: set<Sent>, wire: Bytes, chunks: seq<Chunk>)
    requires plan.Valid() && Ideal(open, plan.key, files)
    requires MadeOf(files, cap, plan, wire, chunks)
    ensures Blobs(chunks) == Split(wire, plan.BlobSize())
  {
    forall i | 0 <= i < |chunks|
      ensures |Blobs(chunks)[i]| == |Plains(chunks)[i]| + OVERHEAD_PER_CHUNK
    {
      OpensInPlace(open, plan, files, chunks[i], i);
      assert open(plan.key, chunks[i].iv, chunks[i].body, Aad(plan.fileId, i + 1, plan.parts)).Some?;
    }
    BlobsWellCut(Plains(chunks), Blobs(chunks), plan.chunkSize);
    SplitOfWellCut(Blobs(chunks), plan.BlobSize());
  }

  /** Fitting chunks are accepted; under exactness they are then one issued file. */
  lemma FittingIsIssued(open: Opener, cap: nat, plan: Plan, files: set<Sent>, chunks: seq<Chunk>)
    requires plan.Valid() && Ideal(open, plan.key, files)
    requires Exact(open, cap, plan, files) && AllFit(files, cap, plan, chunks)
    ensures Sent(plan.fileId, chunks) in files && Usable(files, cap, plan, Sent(plan.fileId, chunks))
  {
    var wire := Concat(Blobs(chunks));
    MadeOfFits(files, cap, plan, wire, chunks);
    MadeOfIsAccepted(open, cap, plan, files, wire, chunks);
    var f :| f in files && f.fileId == plan.fileId && MadeOf(files, cap, plan, wire, f.chunks);
    MadeOneWay(open, cap, plan, files, wire, f.chunks, chunks);
    assert f == Sent(plan.fileId, chunks);
  }

  lemma SwapOne(files: set<Sent>, cap: nat, plan: Plan, g: Sent, c: Chunk, i: nat)
    requires SwapClosed(files, cap, plan)
    requires Usable(files, cap, plan, g) && Fits(files, cap, plan, c, i)
    ensures Usable(files, cap, plan, Sent(plan.fileId, g.chunks[i := c]))
  {
    assert i < plan.parts;
    hide Fits;
    var swapped := Sent(plan.fileId, g.chunks[i := c]);
    assert swapped in files;
    forall j | 0 <= j < |swapped.chunks| ensures Fits(files, cap, plan, swapped.chunks[j], j) {
      assert j != i ==> swapped.chunks[j] == g.chunks[j];
    }
  }

  /** Swapping place by place turns a usable file into any choice of fitting chunks. */
  lemma {:induction false} SwapAll(files: set<Sent>, cap: nat, plan: Plan, g: Sent, chunks: seq<Chunk>, k: nat)
    requires SwapClosed(files, cap, plan)
    requires Usable(files, cap, plan, g) && AllFit(files, cap, plan, chunks) && k <= plan.parts
    ensures Usable(files, cap, plan, Sent(plan.fileId, chunks[..k] + g.chunks[k..]))
  {
    hide SwapClosed, Fits;
    if k == 0 {
      assert chunks[..0] + g.chunks[0..] == g.chunks;
      assert g == Sent(plan.fileId, g.chunks);
    } else {
      SwapAll(files, cap, plan, g, chunks, k - 1);
      var before := chunks[..k - 1] + g.chunks[k - 1..];
      assert Fits(files, cap, plan, chunks[k - 1], k - 1);
      SwapOne(files, cap, plan, Sent(plan.fileId, before), chunks[k - 1], k - 1);
      assert before[k - 1 := chunks[k - 1]] == chunks[..k] + g.chunks[k..];
    }
  }

  /** Acceptance is exact for a plan, its zero-part case included, exactly when the issued
      files are closed under swapping chunks in place. */
  lemma ExactIffSwapClosed(open: Opener, cap: nat, plan: Plan, files: set<Sent>)
    requires plan.Valid() && Ideal(open, plan.key, files)
    ensures Exact(open, cap, plan, files) <==> SwapClosed(files, cap, plan)
  {
    hide Ideal, MadeOf, BatchDecrypt;
    if Exact(open, cap, plan, files) {
      forall g, c, i: nat | Usable(files, cap, plan, g) && Fits(files, cap, plan, c, i)
        ensures Sent(plan.fileId, g.chunks[i := c]) in files
      {
        FittingIsIssued(open, cap, plan, files, g.chunks[i := c]);
      }
      if forall i: nat :: i < plan.parts ==> Fillable(files, cap, plan, i) {
        var chunks := ChooseFitting(files, cap, plan, plan.parts);
        FittingIsIssued(open, cap, plan, files, chunks);
      }
    }
    if SwapClosed(files, cap, plan) {
      forall wire | BatchDecrypt(open, cap, plan, wire).Some? ensures FromOneFile(files, cap, plan, wire) {
        var chunks := AcceptedIsMadeOf(open, cap, plan, files, wire);
        MadeOfFits(files, cap, plan, wire, chunks);
        forall i: nat | i < plan.parts ensures Fillable(files, cap, plan, i) {
          assert Fits(files, cap, plan, chunks[i], i);
        }
        var g :| Usable(files, cap, plan, g);
        SwapAll(files, cap, plan, g, chunks, plan.parts);
        assert chunks[..plan.parts] + g.chunks[plan.parts..] == chunks;
        assert Sent(plan.fileId, chunks) in files;
        assert MadeOf(files, cap, plan, wire, Sent(plan.fileId, chunks).chunks);
      }
    }
  }

  lemma {:induction false} ChooseFitting(files: set<Sent>, cap: nat, plan: Plan, n: nat) returns (chunks: seq<Chunk>)
    requires n <= plan.parts
    requires forall i: nat :: i < plan.parts ==> Fillable(files, cap, plan, i)
    ensures |chunks| == n && forall i :: 0 <= i < n ==> Fits(files, cap, plan, chunks[i], i)
  {
    if n == 0 {
      chunks := [];
    } else {
      var init := ChooseFitting(files, cap, plan, n - 1);
      assert Fillable(files, cap, plan, n - 1);
      var c :| Fits(files, cap, plan, c, n - 1);
      chunks := init + [c];
    }
  }

  /** A file in one chunk can be encrypted again and again. */
  lemma SinglePartIsExact(open: Opener, cap: nat, plan: Plan, files: set<Sent>)
    requires plan.Valid() && Ideal(open, plan.key, files) && plan.parts == 1
    ensures Exact(open, cap, plan, files)
  {
    forall g, c, i: nat | Usable(files, cap, plan, g) && Fits(files, cap, plan, c, i)
      ensures Sent(plan.fileId, g.chunks[i := c]) in files
    {
      var f := IssuedAlone(files, cap, plan, c, i);
      assert g.chunks[i := c] == [c];
    }
    if forall i: nat :: i < plan.parts ==> Fillable(files, cap, plan, i) {
      assert Fillable(files, cap, plan, 0);
      var c :| Fits(files, cap, plan, c, 0);
      var f := IssuedAlone(files, cap, plan, c, 0);
      assert Usable(files, cap, plan, f);
    }
    ExactIffSwapClosed(open, cap, plan, files);
  }

  lemma IssuedAlone(files: set<Sent>, cap: nat, plan: Plan, c: Chunk, i: nat) returns (f: Sent)
    requires plan.parts == 1 && Fits(files, cap, plan, c, i)
    ensures f in files && f == Sent(plan.fileId, [c])
  {
    f :| f in files && f.fileId == plan.fileId && |f.chunks| == plan.parts && f.chunks[i] == c;
    assert f.chunks == [c];
  }

  /** In two chunks it cannot: of two encryptions that differ in both places, the first
      half of one and the second half of the other are accepted, though nobody issued
      that file. */
  lemma SpliceIsAccepted(open: Opener, cap: nat, plan: Plan, f: Sent, g: Sent)
    requires plan.Valid() && Ideal(open, plan.key, {f, g}) && plan.parts == 2
    requires Usable({f, g}, cap, plan, f) && Usable({f, g}, cap, plan, g)
    requires f.chunks[0] != g.chunks[0] && f.chunks[1] != g.chunks[1]
    ensures var wire := f.chunks[0].Blob() + g.chunks[1].Blob();
      && BatchDecrypt(open, cap, plan, wire) == Some(f.chunks[0].plain + g.chunks[1].plain)
      && !FromOneFile({f, g}, cap, plan, wire)
  {
    var spliced := [f.chunks[0], g.chunks[1]];
    var wire := f.chunks[0].Blob() + g.chunks[1].Blob();
    assert Blobs(spliced) == [spliced[0].Blob(), spliced[1].Blob()];
    assert Plains(spliced) == [spliced[0].plain, spliced[1].plain];
    ConcatOfTwo(spliced[0].Blob(), spliced[1].Blob());
    ConcatOfTwo(spliced[0].plain, spliced[1].plain);
    MadeOfFits({f, g}, cap, plan, wire, spliced);
    MadeOfIsAccepted(open, cap, plan, {f, g}, wire, spliced);
    if h :| h in {f, g} && MadeOf({f, g}, cap, plan, wire, h.chunks) {
      MadeOneWay(open, cap, plan, {f, g}, wire, h.chunks, spliced);
    }
  }

  /** Two one-byte slices. */
  lemma SplitOfTwo(a: byte, b: byte)
    ensures Split([a, b], 1) == [[a], [b]]
  {
    assert [a, b][..1] == [a] && [a, b][1..] == [b] && [b][..1] == [b] && [b][1..] == [];
    assert Split([], 1) == [] && Split([b], 1) == [[b]];
  }

  /** A file of the same byte twice, encrypted by the contract in two chunks. */
  function Doubled(key: Bytes, fileId: string, ivs: seq<Bytes>, tag: Bytes, b: byte): (f: Sent)
    requires |ivs| == 2
    ensures f.fileId == fileId && |f.chunks| == 2
    ensures forall i :: 0 <= i < 2 ==> f.chunks[i] == Chunk(ivs[i], [b] + tag, [b])
  {
    SplitOfTwo(b, b);
    EncryptFile(TagSealer(tag), key, fileId, 1, ivs, [b, b])
  }

  /** It happens: a caller who follows the wire format, but encrypts two files under one id
      and key, lets their halves be recombined. */
  lemma SpliceExists(key: Bytes, fileId: string, ivs: seq<Bytes>, others: seq<Bytes>, tag: Bytes)
    requires |ivs| == |others| == 2 && |tag| == GCM_TAG_BYTES
    requires forall i :: 0 <= i < 2 ==> |ivs[i]| == |others[i]| == IV_BYTES
    ensures var f, g := Doubled(key, fileId, ivs, tag, 0), Doubled(key, fileId, others, tag, 1);
      var open, plan := LookupOpener({f, g}), Plan(key, fileId, 1, 2);
      && Ideal(open, key, {f, g})
      && BatchDecrypt(open, 2, plan, f.chunks[0].Blob() + g.chunks[1].Blob()) == Some([0] + [1])
      && !Exact(open, 2, plan, {f, g})
  {
    hide Ideal, LookupOpener, BatchDecrypt, Doubled;
    var f, g := Doubled(key, fileId, ivs, tag, 0), Doubled(key, fileId, others, tag, 1);
    var files, plan := {f, g}, Plan(key, fileId, 1, 2);
    LookupOpenerIsIdeal(files, key, tag);
    forall i | 0 <= i < 2 ensures Fits(files, 2, plan, f.chunks[i], i) && Fits(files, 2, plan, g.chunks[i], i) {
      assert InPlace(files, plan, f.chunks[i], i) && InPlace(files, plan, g.chunks[i], i);
    }
    SpliceIsAccepted(LookupOpener(files), 2, plan, f, g);
  }

  lemma ConcatOfTwo(a: Bytes, b: Bytes)
    ensures Concat([a, b]) == a + b
  {
    assert [a, b][1..] == [b] && [b][1..] == [];
    assert Concat([b]) == b + Concat([]);
  }
}
