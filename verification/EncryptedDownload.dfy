/** The encrypted path from the caller's encryptor to the file on disk. */
module EncryptedDownload {
  import opened Wrappers
  import opened Sequences
  import opened ChunkBudget
  import opened Encryption
  import opened BatchDecryption
  import opened ClientEncryption
  import opened Download

  /** End to end, under one AEAD. A file encrypted by the contract is on disk in the clear
      after a download of its bytes, in any reads whatever, on time, exactly when it is
      within the cap; one byte over, it is refused. If its id was not re-issued, and only
      what was issued opens, nothing else that could be served is ever accepted. */
  method DownloadEncrypted(ghost seal: Sealer, open: Opener, cfg: Config, response: Response, f: File, start: real,
                           enc: EncParams, ghost key: Bytes, ghost fileId: string, ghost chunkSize: nat,
                           ghost ivs: seq<Bytes>, ghost plain: Bytes, ghost files: set<Sent>)
      returns (r: Result<nat, Failure>)
    requires cfg.Valid() && cfg.minChunk <= chunkSize <= cfg.maxChunk
    requires Requests(enc, key, fileId, chunkSize, |ivs|)
    requires |ivs| == |Split(plain, chunkSize)| && forall iv :: iv in ivs ==> |iv| == IV_BYTES
    requires EncryptFile(seal, key, fileId, chunkSize, ivs, plain) in files
    requires TagLengthExact(open) && OpensIssued(open, key, files)
    modifies response, f
    ensures response.closed && |f.data| <= cfg.maxUrlSize
    ensures var stored := Stored(EncryptFile(seal, key, fileId, chunkSize, ivs, plain));
      && (Arrives(response.body, response.breaks, start, cfg) && Wire(response.body) == stored ==>
            (r.Ok? <==> |plain| <= cfg.maxUrlSize))
      && (r.Ok? && Wire(response.body) == stored ==> f.data == plain)
      && (r.Ok? && OpensNothingElse(open, key, files) && IssuedOnce(files, fileId, |ivs|) ==>
            Wire(response.body) == stored && f.data == plain)
  {
    ghost var wire := Wire(response.body);
    RoundTrip(seal, open, cfg.maxUrlSize, key, fileId, chunkSize, ivs, plain, files);
    assert Validate(cfg, enc) == Some(Plan(key, fileId, chunkSize, |ivs|));
    hide EncryptFile, OpenAll, Split, Concat, EncryptedWireCap, OpensIssued, OpensNothingElse, IssuedOnce;
    ghost var done, buffer;
    r, done, buffer := WriteDecrypted(open, response, f, start, enc, cfg);
    if OpensNothingElse(open, key, files) && IssuedOnce(files, fileId, |ivs|) {
      OnlyWhatWasStored(seal, open, cfg.maxUrlSize, key, fileId, chunkSize, ivs, plain, files, wire, f.data);
    }
  }

  /** Tampered with: whatever is served under a file id that was issued once, what
      lands on disk without an error is that file's own plaintext, or nothing for a
      request that promises no chunks. */
  method DownloadAuthentic(open: Opener, cfg: Config, response: Response, f: File, start: real,
                           enc: EncParams, ghost key: Bytes, ghost fileId: string, ghost chunkSize: nat,
                           ghost parts: nat, ghost files: set<Sent>)
      returns (r: Result<nat, Failure>, ghost source: Option<Sent>)
    requires Ideal(open, key, files) && IssuedOnce(files, fileId, parts)
    requires cfg.Valid() && cfg.minChunk <= chunkSize <= cfg.maxChunk
    requires Requests(enc, key, fileId, chunkSize, parts)
    modifies response, f
    ensures r.Ok? && parts > 0 ==>
      && source.Some? && source.value in files && source.value.fileId == fileId && |source.value.chunks| == parts
      && Wire(response.body) == Stored(source.value) && f.data == Concat(Plains(source.value.chunks))
    ensures r.Ok? && parts == 0 ==> Wire(response.body) == [] && f.data == []
  {
    ghost var plan := Plan(key, fileId, chunkSize, parts);
    assert Validate(cfg, enc) == Some(plan);
    ghost var done, buffer;
    r, done, buffer := WriteDecrypted(open, response, f, start, enc, cfg);
    source := None;
    if r.Ok? {
      Exactness(open, cfg.maxUrlSize, plan, files, Wire(response.body), f.data);
      if parts > 0 {
        ghost var wire := Wire(response.body);
        ghost var sent :|
          && sent in files && sent.fileId == plan.fileId
          && f.data == Concat(Plains(sent.chunks)) && MadeOf(files, cfg.maxUrlSize, plan, wire, sent.chunks);
        source := Some(sent);
      }
    }
  }
}
