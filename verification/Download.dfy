/** Writing a download to disk under its byte and time budgets: as it comes, or
    decrypting it chunk by chunk as it streams in. */
module Download {
  import opened Wrappers
  import opened Sequences
  import opened ChunkBudget
  import opened Encryption
  import opened BatchDecryption

  const SCHEME: string := "aes-256-gcm-chunked-v1"

  /** `minChunk` is the positive floor on a caller's chunk size. */
  datatype Config = Config(maxUrlSize: nat, minChunk: nat, maxChunk: nat, maxSeconds: real) {
    predicate Valid() { minChunk >= 1 }
  }

  /** The request's encryption object; None is a key that is missing or a value that
      does not convert (`key`: does not decode to 32 bytes). */
  datatype EncParams = EncParams(scheme: Option<string>, key: Option<Bytes>, fileId: Option<string>,
                                 chunkSize: Option<int>, parts: Option<int>)

  /** The request object of a caller who follows the contract: the scheme named, or left
      to the default. */
  ghost predicate Requests(enc: EncParams, key: Bytes, fileId: string, chunkSize: nat, parts: nat) {
    && (enc.scheme.None? || enc.scheme.value == "aes-256-gcm-chunked-v1")
    && enc.key == Some(key) && enc.fileId == Some(fileId)
    && enc.chunkSize == Some(chunkSize) && enc.parts == Some(parts)
  }

  /** `NetworkError` is whatever a read of the response raises. */
  datatype Failure = FileError | DecryptionError | NetworkError

  /** One network read and the clock when it was checked. */
  datatype Read = Read(data: Bytes, at: real)

  /** The bytes of the reads from the `i`-th on, whatever their boundaries. */
  function WireFrom(body: seq<Read>, i: nat): Bytes
    requires i <= |body|
    decreases |body| - i
  {
    if i == |body| then [] else body[i].data + WireFrom(body, i + 1)
  }

  function Wire(body: seq<Read>): Bytes {
    WireFrom(body, 0)
  }

  function LongestRead(body: seq<Read>): (n: nat)
    ensures forall i :: 0 <= i < |body| ==> |body[i].data| <= n
  {
    if body == [] then 0
    else
      var n := LongestRead(body[1..]);
      assert forall i :: 1 <= i < |body| ==> body[i] == body[1..][i - 1];
      if |body[0].data| > n then |body[0].data| else n
  }

  ghost predicate OnTime(body: seq<Read>, start: real, cfg: Config) {
    forall i :: 0 <= i < |body| ==> body[i].at - start <= cfg.maxSeconds
  }

  /** The response being streamed: the reads that come through and, if the connection
      `breaks`, one more that raises. `closed` records the release of the connection. */
  class Response {
    const body: seq<Read>
    const breaks: bool
    var closed: bool

    constructor (body: seq<Read>, breaks: bool)
      ensures this.body == body && this.breaks == breaks && !closed
    {
      this.body, this.breaks := body, breaks;
      closed := false;
    }
  }

  /** All of the response comes through, on time. */
  ghost predicate Arrives(body: seq<Read>, breaks: bool, start: real, cfg: Config) {
    !breaks && OnTime(body, start, cfg)
  }

  /** The file on the scratch volume. */
  class File {
    var data: Bytes

    constructor ()
      ensures data == []
    {
      data := [];
    }
  }

  /** The buffer of wire bytes. `peak` is the most it ever held, as its own methods keep it. */
  class Buffer {
    var data: Bytes
    ghost var peak: nat

    ghost predicate Valid()
      reads this
    {
      |data| <= peak
    }

    constructor ()
      ensures Valid() && data == [] && peak == 0
    {
      data, peak := [], 0;
    }

    method Extend(chunk: Bytes)
      requires Valid()
      modifies this
      ensures Valid() && data == old(data) + chunk
      ensures peak == if |data| > old(peak) then |data| else old(peak)
    {
      data := data + chunk;
      peak := if |data| > peak then |data| else peak;
    }

    method Drop(n: nat)
      requires Valid() && n <= |data|
      modifies this`data
      ensures Valid() && data == old(data)[n..]
    {
      data := data[n..];
    }
  }

  /** The cap on the wire. Parameters that make no sense earn no room for chunking. */
  function WireCap(cfg: Config, enc: Option<EncParams>): nat {
    if enc.None? || enc.value.chunkSize.None? || enc.value.chunkSize.value <= 0 then cfg.maxUrlSize
    else EncryptedWireCap(cfg.maxUrlSize, enc.value.chunkSize.value)
  }

  /** Parameter validation; None is a DecryptionError before anything is opened. */
  function Validate(cfg: Config, enc: EncParams): (plan: Option<Plan>)
    requires cfg.Valid()
    ensures plan.Some? ==> plan.value.Valid()
    ensures plan.Some? ==> WireCap(cfg, Some(enc)) == EncryptedWireCap(cfg.maxUrlSize, plan.value.chunkSize)
  {
    if enc.scheme.Some? && enc.scheme.value != SCHEME then None
    else if enc.key.None? || enc.fileId.None? || enc.chunkSize.None? || enc.parts.None? then None
    else if !(cfg.minChunk <= enc.chunkSize.value <= cfg.maxChunk) then None
    else if enc.parts.value < 0 then None
    else Some(Plan(enc.key.value, enc.fileId.value, enc.chunkSize.value, enc.parts.value))
  }

  /** Parameters are accepted exactly when they name this scheme or none, are all there,
      with a chunk size within the deployment's bounds and no negative total; and they then
      say what to decrypt. */
  lemma ValidateExactly(cfg: Config, enc: EncParams)
    requires cfg.Valid()
    ensures Validate(cfg, enc).Some? <==>
      && (enc.scheme.None? || enc.scheme.value == "aes-256-gcm-chunked-v1")
      && enc.key.Some? && enc.fileId.Some? && enc.chunkSize.Some? && enc.parts.Some?
      && cfg.minChunk <= enc.chunkSize.value <= cfg.maxChunk && enc.parts.value >= 0
    ensures Validate(cfg, enc).Some? ==>
      Requests(enc, Validate(cfg, enc).value.key, Validate(cfg, enc).value.fileId, Validate(cfg, enc).value.chunkSize,
               Validate(cfg, enc).value.parts)
  {
  }

  /** The cap on the wire is that of the file, but for parameters with a positive chunk
      size, which earn 28 bytes for each chunk a file at the cap takes. */
  lemma WireCapExactly(cfg: Config, enc: Option<EncParams>, chunks: nat)
    ensures var c := if enc.Some? && enc.value.chunkSize.Some? then enc.value.chunkSize.value else 0;
      var cap := cfg.maxUrlSize;
      if c <= 0 then WireCap(cfg, enc) == cap
      else (chunks - 1) * c < cap <= chunks * c ==> WireCap(cfg, enc) == cap + 28 * (if chunks == 0 then 1 else chunks)
  {
    var c := if enc.Some? && enc.value.chunkSize.Some? then enc.value.chunkSize.value else 0;
    if c > 0 && (chunks - 1) * c < cfg.maxUrlSize <= chunks * c {
      CapInBytes(cfg.maxUrlSize, c, chunks);
    }
  }

  method CheckLimits(readBytes: nat, at: real, start: real, wireCap: nat, cfg: Config) returns (failed: bool)
    ensures failed <==> at - start > cfg.maxSeconds || readBytes > wireCap
  {
    failed := false;
    if at - start > cfg.maxSeconds {
      return true;
    }
    if readBytes > wireCap {
      return true;
    }
  }

  /** Writes one decrypted slice, unless it would take the file over the cap. */
  method WritePlain(f: File, plain: Bytes, written: nat, cfg: Config) returns (r: Result<nat, Failure>)
    requires written == |f.data|
    modifies f
    ensures r.Ok? <==> written + |plain| <= cfg.maxUrlSize
    ensures r == if r.Ok? then Ok(written + |plain|) else Err(FileError)
    ensures f.data == if r.Ok? then old(f.data) + plain else old(f.data)
  {
    var total := written + |plain|;
    if total > cfg.maxUrlSize {
      return Err(FileError);
    }
    f.data := f.data + plain;
    return Ok(total);
  }

  /** Streams the body straight to disk. */
  method WritePlaintext(response: Response, f: File, start: real, cfg: Config) returns (r: Result<nat, Failure>)
    modifies response, f
    ensures response.closed
    ensures r.Ok? <==> Arrives(response.body, response.breaks, start, cfg) && |Wire(response.body)| <= cfg.maxUrlSize
    ensures r.Ok? ==> r.value == |f.data| && f.data == Wire(response.body)
    ensures r.Err? ==>
      if OnTime(response.body, start, cfg) && |Wire(response.body)| <= cfg.maxUrlSize
      then r.error == NetworkError && f.data == Wire(response.body)
      else r.error == FileError
    ensures f.data <= Wire(response.body) && |f.data| <= cfg.maxUrlSize
  {
    var body := response.body;
    var read := 0;
    f.data := [];
    for i := 0 to |body|
      invariant f.data + WireFrom(body, i) == Wire(body)
      invariant read == |f.data| <= cfg.maxUrlSize
      invariant forall j :: 0 <= j < i ==> body[j].at - start <= cfg.maxSeconds
    {
      var chunk := body[i].data;
      read := read + |chunk|;
      var failed := CheckLimits(read, body[i].at, start, cfg.maxUrlSize, cfg);
      if failed {
        response.closed := true;
        assert f.data <= Wire(body);
        return Err(FileError);
      }
      ghost var rest := WireFrom(body, i + 1);
      assert (f.data + chunk) + rest == f.data + (chunk + rest);
      f.data := f.data + chunk;
    }
    response.closed := true;
    if response.breaks {
      return Err(NetworkError);
    }
    r := Ok(read);
  }

  lemma SplitHead(piece: Bytes, more: Bytes, blobSize: nat)
    requires |piece| == blobSize > 0 || (0 < |piece| < blobSize && more == [])
    ensures Split(piece + more, blobSize) == [piece] + Split(more, blobSize)
  {
    if |piece| == blobSize {
      assert (piece + more)[..blobSize] == piece && (piece + more)[blobSize..] == more;
    } else {
      assert piece + more == piece;
    }
  }

  /** Pieces already opened, extended by one. */
  lemma OpenOneMore(open: Opener, plan: Plan, pieces: seq<Bytes>, k: nat)
    requires k < |pieces|
    requires OpenAll(open, plan, pieces[..k], 0).Some?
    ensures OpenAll(open, plan, pieces[..k + 1], 0) ==
      match OpenPiece(open, plan, pieces[k], k + 1)
      case Some(plain) => Some(OpenAll(open, plan, pieces[..k], 0).value + plain)
      case None => None
  {
    assert pieces[..k + 1] == pieces[..k] + [pieces[k]];
    OpenAllAppend(open, plan, pieces[..k], [pieces[k]], 0);
    match OpenPiece(open, plan, pieces[k], k + 1)
    case Some(plain) => assert plain + [] == plain;
    case None =>
  }

  /** What the first `k` pieces decide about the first `m`. */
  lemma PrefixDecides(open: Opener, plan: Plan, pieces: seq<Bytes>, k: nat, m: nat)
    requires k <= m <= |pieces|
    ensures OpenAll(open, plan, pieces[..m], 0).Some? ==>
      OpenAll(open, plan, pieces[..k], 0).Some? &&
      OpenAll(open, plan, pieces[..k], 0).value <= OpenAll(open, plan, pieces[..m], 0).value
  {
    assert pieces[..m] == pieces[..k] + pieces[k..m];
    OpenAllAppend(open, plan, pieces[..k], pieces[k..m], 0);
  }

  /** The first `m` pieces do not open to anything that fits the cap. */
  ghost predicate CannotOpen(open: Opener, plan: Plan, pieces: seq<Bytes>, m: nat, cap: nat)
    requires m <= |pieces|
  {
    var plain := OpenAll(open, plan, pieces[..m], 0);
    plain.None? || |plain.value| > cap
  }

  /** How many of the pieces are full: all, or all but a short tail. */
  function FullCount(pieces: seq<Bytes>, blobSize: nat): (n: nat)
    ensures n <= |pieces|
  {
    if pieces != [] && |pieces[|pieces| - 1]| < blobSize then |pieces| - 1 else |pieces|
  }

  /** The state of a streaming decryption: `k` of the batch pieces are opened into
      `data`, and the rest of the pieces are what `buffer` and the unread `rest`
      still hold. */
  ghost predicate Progress(open: Opener, plan: Plan, wire: Bytes, k: nat, data: Bytes, buffer: Bytes, rest: Bytes)
    requires plan.Valid()
  {
    var pieces := Split(wire, plan.BlobSize());
    && k <= |pieces|
    && pieces[k..] == Split(buffer + rest, plan.BlobSize())
    && OpenAll(open, plan, pieces[..k], 0) == Some(data)
  }

  lemma ProgressAtStart(open: Opener, plan: Plan, wire: Bytes)
    requires plan.Valid()
    ensures Progress(open, plan, wire, 0, [], [], wire)
  {
    assert [] + wire == wire;
  }

  lemma ProgressOnRead(open: Opener, plan: Plan, wire: Bytes, k: nat, data: Bytes, buffer: Bytes, chunk: Bytes,
                       rest: Bytes)
    requires plan.Valid() && Progress(open, plan, wire, k, data, buffer, chunk + rest)
    ensures Progress(open, plan, wire, k, data, buffer + chunk, rest)
  {
    assert buffer + (chunk + rest) == (buffer + chunk) + rest;
  }

  /** Opening the next piece either advances, or settles that the whole fails. */
  lemma ProgressOnPiece(open: Opener, plan: Plan, wire: Bytes, k: nat, data: Bytes, piece: Bytes, buffer: Bytes,
                        rest: Bytes)
    requires plan.Valid() && Progress(open, plan, wire, k, data, piece + buffer, rest)
    requires |piece| == plan.BlobSize() || (0 < |piece| < plan.BlobSize() && buffer + rest == [])
    ensures k < |Split(wire, plan.BlobSize())| && Split(wire, plan.BlobSize())[k] == piece
    ensures match OpenPiece(open, plan, piece, k + 1)
      case Some(plain) => Progress(open, plan, wire, k + 1, data + plain, buffer, rest)
      case None => OpenAll(open, plan, Split(wire, plan.BlobSize())[..k + 1], 0).None?
  {
    var pieces := Split(wire, plan.BlobSize());
    assert (piece + buffer) + rest == piece + (buffer + rest);
    SplitHead(piece, buffer + rest, plan.BlobSize());
    assert pieces[k] == pieces[k..][0] == piece;
    assert pieces[k + 1..] == pieces[k..][1..];
    OpenOneMore(open, plan, pieces, k);
  }

  lemma PrefixWellCut(pieces: seq<Bytes>, k: nat, blobSize: nat)
    requires blobSize > 0 && WellCut(pieces, blobSize) && k <= |pieces|
    ensures WellCut(pieces[..k], blobSize)
  {
    forall i | 0 <= i < k
      ensures if i == k - 1 then 1 <= |pieces[..k][i]| <= blobSize else |pieces[..k][i]| == blobSize
    {
      assert pieces[..k][i] == pieces[i];
    }
  }

  /** What has been opened was cut from what has been read and is no longer buffered. */
  lemma ProgressConsumes(open: Opener, plan: Plan, wire: Bytes, k: nat, data: Bytes, buffer: Bytes, rest: Bytes)
    requires plan.Valid() && Progress(open, plan, wire, k, data, buffer, rest)
    ensures WellCut(Split(wire, plan.BlobSize())[..k], plan.BlobSize())
    ensures |Concat(Split(wire, plan.BlobSize())[..k])| + |buffer| + |rest| == |wire|
  {
    var b := plan.BlobSize();
    var pieces := Split(wire, b);
    SplitIsWellCut(wire, b);
    SplitIsWellCut(buffer + rest, b);
    assert pieces == pieces[..k] + pieces[k..];
    ConcatAppend(pieces[..k], pieces[k..]);
    PrefixWellCut(pieces, k, b);
  }

  /** For exact tags, what has been opened from the bytes read so far fits the cap. */
  lemma ProgressFitsCap(open: Opener, cap: nat, plan: Plan, wire: Bytes, k: nat, data: Bytes, buffer: Bytes,
                        rest: Bytes)
    requires plan.Valid() && TagLengthExact(open)
    requires Progress(open, plan, wire, k, data, buffer, rest)
    requires |wire| - |rest| <= EncryptedWireCap(cap, plan.chunkSize)
    ensures |data| <= cap
  {
    ProgressConsumes(open, plan, wire, k, data, buffer, rest);
    PlaintextCapImplied(open, cap, plan, Split(wire, plan.BlobSize())[..k]);
  }

  /** Conservation at every loop head: bytes read are bytes written, plus 28 for each
      piece opened, plus what is still buffered. */
  lemma ProgressConserves(open: Opener, plan: Plan, wire: Bytes, k: nat, data: Bytes, buffer: Bytes, rest: Bytes)
    requires plan.Valid() && TagLengthExact(open)
    requires Progress(open, plan, wire, k, data, buffer, rest)
    ensures |wire| - |rest| == |data| + OVERHEAD_PER_CHUNK * k + |buffer|
  {
    ProgressConsumes(open, plan, wire, k, data, buffer, rest);
    Conservation(open, plan, Split(wire, plan.BlobSize())[..k], 0);
  }

  /** At the end of the stream everything has been opened. */
  lemma ProgressAtEnd(open: Opener, plan: Plan, wire: Bytes, k: nat, data: Bytes)
    requires plan.Valid() && Progress(open, plan, wire, k, data, [], [])
    ensures k == |Split(wire, plan.BlobSize())| && OpenAll(open, plan, Split(wire, plan.BlobSize()), 0) == Some(data)
  {
    var pieces := Split(wire, plan.BlobSize());
    assert Split([] + [], plan.BlobSize()) == [];
    assert |pieces[k..]| == 0;
    assert pieces[..k] == pieces;
  }

  /** The reasons to refuse a source, whatever way it was read. */
  ghost predicate Refused(open: Opener, plan: Plan, wireCap: nat, body: seq<Read>, start: real, cfg: Config)
    requires plan.Valid()
  {
    var pieces := Split(Wire(body), plan.BlobSize());
    || !OnTime(body, start, cfg)
    || |Wire(body)| > wireCap
    || |pieces| != plan.parts
    || CannotOpen(open, plan, pieces, |pieces|, cfg.maxUrlSize)
  }

  /** When the stream ends between two pieces, what is opened is no less than all the full
      ones. */
  lemma ProgressOnBreak(open: Opener, plan: Plan, wire: Bytes, k: nat, data: Bytes, buffer: Bytes, cap: nat)
    requires plan.Valid() && Progress(open, plan, wire, k, data, buffer, [])
    requires |buffer| < plan.BlobSize() && |data| <= cap
    ensures var pieces := Split(wire, plan.BlobSize());
      !CannotOpen(open, plan, pieces, FullCount(pieces, plan.BlobSize()), cap)
  {
    var pieces := Split(wire, plan.BlobSize());
    assert buffer + [] == buffer;
    assert pieces[k..] == if buffer == [] then [] else [buffer];
    var full := FullCount(pieces, plan.BlobSize());
    assert full <= k by {
      if buffer != [] { assert pieces[k..][0] == buffer == pieces[|pieces| - 1]; }
    }
    PrefixDecides(open, plan, pieces, full, k);
  }

  /** The bytes of the first reads are the pieces opened and what the buffer holds. */
  ghost predicate Held(open: Opener, plan: Plan, body: seq<Read>, done: nat, data: Bytes, buffer: Bytes)
    requires plan.Valid()
  {
    exists i: nat :: i <= |body| && Progress(open, plan, Wire(body), done, data, buffer, WireFrom(body, i))
  }

  /** Piece number `n` is where the stream fails: no `n` or more pieces open within the cap,
      and the failure is that it does not open or, but never for exact tags, its size. */
  ghost predicate FailsAt(open: Opener, plan: Plan, wire: Bytes, n: nat, failure: Failure, cap: nat)
    requires plan.Valid()
  {
    var pieces := Split(wire, plan.BlobSize());
    && n <= |pieces|
    && (forall m :: n <= m <= |pieces| ==> CannotOpen(open, plan, pieces, m, cap))
    && match failure
       case DecryptionError => OpenAll(open, plan, pieces[..n], 0).None?
       case FileError => !TagLengthExact(open)
       case NetworkError => false
  }

  /** Decrypts one piece in its place and writes it. */
  method TakePiece(open: Opener, f: File, piece: Bytes, partNumber: nat, written: nat, plan: Plan, cfg: Config,
                   ghost wire: Bytes, ghost buffer: Bytes, ghost rest: Bytes)
      returns (r: Result<nat, Failure>)
    requires plan.Valid() && partNumber >= 1 && written == |f.data| <= cfg.maxUrlSize
    requires Progress(open, plan, wire, partNumber - 1, f.data, piece + buffer, rest)
    requires |piece| == plan.BlobSize() || (0 < |piece| < plan.BlobSize() && buffer + rest == [])
    requires |wire| - |rest| <= EncryptedWireCap(cfg.maxUrlSize, plan.chunkSize)
    modifies f
    ensures r.Ok? ==> Progress(open, plan, wire, partNumber, f.data, buffer, rest)
    ensures r.Ok? ==> r.value == |f.data| <= cfg.maxUrlSize
    ensures r.Err? ==> f.data == old(f.data) && FailsAt(open, plan, wire, partNumber, r.error, cfg.maxUrlSize)
    ensures r.Err? && |piece| == plan.BlobSize() ==>
      partNumber <= FullCount(Split(wire, plan.BlobSize()), plan.BlobSize())
  {
    ProgressOnPiece(open, plan, wire, partNumber - 1, f.data, piece, buffer, rest);
    var plain := DecryptChunk(open, plan.key, piece, plan.fileId, partNumber, plan.parts);
    ghost var pieces := Split(wire, plan.BlobSize());
    forall m | partNumber <= m <= |pieces|
      ensures plain.None? || written + |plain.value| > cfg.maxUrlSize ==>
        CannotOpen(open, plan, pieces, m, cfg.maxUrlSize)
    {
      PrefixDecides(open, plan, pieces, partNumber, m);
    }
    if plain.None? {
      return Err(DecryptionError);
    }
    if TagLengthExact(open) {
      ProgressFitsCap(open, cfg.maxUrlSize, plan, wire, partNumber, f.data + plain.value, buffer, rest);
    }
    r := WritePlain(f, plain.value, written, cfg);
  }

  /** The inner loop: opens and writes the full blobs that the buffer has come to hold. */
  method OpenFull(open: Opener, f: File, buffer: Buffer, taken: nat, plan: Plan, cfg: Config,
                  ghost wire: Bytes, ghost rest: Bytes)
      returns (r: Result<nat, Failure>, partNumber: nat)
    requires plan.Valid() && buffer.Valid() && |f.data| <= cfg.maxUrlSize
    requires Progress(open, plan, wire, taken, f.data, buffer.data, rest)
    requires |wire| - |rest| <= EncryptedWireCap(cfg.maxUrlSize, plan.chunkSize)
    modifies f, buffer`data
    ensures buffer.Valid() && |f.data| <= cfg.maxUrlSize
    ensures Progress(open, plan, wire, partNumber, f.data, buffer.data, rest)
    ensures r.Ok? ==> r.value == |f.data| && |buffer.data| < plan.BlobSize()
    ensures r.Err? ==>
      && FailsAt(open, plan, wire, partNumber + 1, r.error, cfg.maxUrlSize)
      && partNumber < FullCount(Split(wire, plan.BlobSize()), plan.BlobSize())
  {
    hide Split, OpenAll, EncryptedWireCap, OpenPiece, DecryptChunk, Progress, FailsAt;
    partNumber := taken;
    var written, blobSize := |f.data|, plan.BlobSize();
    while |buffer.data| >= blobSize
      invariant buffer.Valid() && written == |f.data| <= cfg.maxUrlSize
      invariant Progress(open, plan, wire, partNumber, f.data, buffer.data, rest)
      decreases |buffer.data|
    {
      ghost var held := buffer.data;
      assert held == held[..blobSize] + held[blobSize..];
      var w := TakePiece(open, f, buffer.data[..blobSize], partNumber + 1, written, plan, cfg, wire,
                         held[blobSize..], rest);
      if w.Err? {
        return w, partNumber;
      }
      partNumber := partNumber + 1;
      written := w.value;
      buffer.Drop(blobSize);
    }
    r := Ok(written);
  }

  /** The streaming loop: opens full blobs as the buffer comes to hold them, and what is
      left over at the end as the tail. */
  method StreamDecrypted(open: Opener, response: Response, f: File, start: real, plan: Plan, wireCap: nat, cfg: Config)
      returns (r: Result<nat, Failure>, ghost done: nat, ghost buffer: Buffer)
    requires plan.Valid() && wireCap == EncryptedWireCap(cfg.maxUrlSize, plan.chunkSize)
    modifies response, f
    ensures response.closed
    ensures r.Ok? <==> !response.breaks && !Refused(open, plan, wireCap, response.body, start, cfg)
    ensures r.Ok? ==> r.value == |Wire(response.body)| && done == |Split(Wire(response.body), plan.BlobSize())|
    ensures done <= |Split(Wire(response.body), plan.BlobSize())|
    ensures OpenAll(open, plan, Split(Wire(response.body), plan.BlobSize())[..done], 0) == Some(f.data)
    ensures |f.data| <= cfg.maxUrlSize
    ensures fresh(buffer) && buffer.Valid() && buffer.peak < plan.BlobSize() + LongestRead(response.body)
    ensures done == |Split(Wire(response.body), plan.BlobSize())| ||
      Held(open, plan, response.body, done, f.data, buffer.data)
    ensures r == Err(FileError) && TagLengthExact(open) ==>
      !OnTime(response.body, start, cfg) || |Wire(response.body)| > wireCap
    ensures r == Err(NetworkError) <==>
      var pieces := Split(Wire(response.body), plan.BlobSize());
      && response.breaks && OnTime(response.body, start, cfg) && |Wire(response.body)| <= wireCap
      && !CannotOpen(open, plan, pieces, FullCount(pieces, plan.BlobSize()), cfg.maxUrlSize)
    ensures r == Err(DecryptionError) ==>
      var pieces := Split(Wire(response.body), plan.BlobSize());
      || (done < |pieces| && OpenAll(open, plan, pieces[..done + 1], 0).None?)
      || (done == |pieces| != plan.parts && Arrives(response.body, response.breaks, start, cfg))
  {
    hide Split, OpenAll, WireCap, EncryptedWireCap, OpenPiece, DecryptChunk, LongestRead;
    var blobSize := plan.BlobSize();
    done := 0;
    var body := response.body;
    ghost var wire := Wire(body);

    var wireBytes := new Buffer();
    buffer := wireBytes;
    var partNumber: nat, read: nat, written: nat := 0, 0, 0;
    f.data := [];
    ProgressAtStart(open, plan, wire);
    for i := 0 to |body|
      invariant forall j :: 0 <= j < i ==> body[j].at - start <= cfg.maxSeconds
      invariant read + |WireFrom(body, i)| == |wire| && read <= wireCap
      invariant Progress(open, plan, wire, partNumber, f.data, wireBytes.data, WireFrom(body, i))
      invariant written == |f.data| <= cfg.maxUrlSize
      invariant wireBytes.Valid() && |wireBytes.data| < blobSize && wireBytes.peak < blobSize + LongestRead(body)
    {
      var chunk := body[i].data;
      ghost var rest := WireFrom(body, i + 1);
      read := read + |chunk|;
      var failed := CheckLimits(read, body[i].at, start, wireCap, cfg);
      if failed {
        response.closed := true;
        return Err(FileError), partNumber, wireBytes;
      }
      ProgressOnRead(open, plan, wire, partNumber, f.data, wireBytes.data, chunk, rest);
      wireBytes.Extend(chunk);
      var w;
      w, partNumber := OpenFull(open, f, wireBytes, partNumber, plan, cfg, wire, rest);
      if w.Err? {
        response.closed := true;
        return w, partNumber, wireBytes;
      }
      written := w.value;
    }
    if response.breaks {
      response.closed := true;
      ProgressOnBreak(open, plan, wire, partNumber, f.data, wireBytes.data, cfg.maxUrlSize);
      return Err(NetworkError), partNumber, wireBytes;
    }
    if wireBytes.data != [] {
      assert wireBytes.data == wireBytes.data + [];
      partNumber := partNumber + 1;
      var w := TakePiece(open, f, wireBytes.data, partNumber, written, plan, cfg, wire, [], []);
      if w.Err? {
        response.closed := true;
        return w, partNumber - 1, wireBytes;
      }
      written := w.value;
    }
    ProgressAtEnd(open, plan, wire, partNumber, f.data);
    response.closed := true;
    if partNumber != plan.parts {
      return Err(DecryptionError), partNumber, wireBytes;
    }
    return Ok(read), partNumber, wireBytes;
  }

  /** Validates the parameters, then streams, decrypts and writes the plaintext.

      Success, and what is then on disk, depend only on the concatenation of the
      reads: the method refines `BatchDecrypt`. Whatever happens, a read that raises
      included, the file holds the first `done` batch pieces opened and never exceeds the cap; `buffer` is the one
      the stream went through. Parameters are refused before the response is taken in
      charge, so a refused one leaves it open. */
  method WriteDecrypted(open: Opener, response: Response, f: File, start: real, enc: EncParams, cfg: Config)
      returns (r: Result<nat, Failure>, ghost done: nat, ghost buffer: Buffer)
    requires cfg.Valid()
    modifies response, f
    ensures response.closed == (old(response.closed) || Validate(cfg, enc).Some?)
    ensures Validate(cfg, enc).Some? <==>
      && (enc.scheme.None? || enc.scheme.value == "aes-256-gcm-chunked-v1")
      && enc.key.Some? && enc.fileId.Some? && enc.chunkSize.Some? && enc.parts.Some?
      && cfg.minChunk <= enc.chunkSize.value <= cfg.maxChunk && enc.parts.value >= 0
    ensures Validate(cfg, enc).None? ==> r == Err(DecryptionError) && f.data == old(f.data)
    ensures Validate(cfg, enc).Some? ==>
      var plan, wire := Validate(cfg, enc).value, Wire(response.body);
      var batch := BatchDecrypt(open, cfg.maxUrlSize, plan, wire);
      var pieces := Split(wire, plan.BlobSize());
      && (r.Ok? <==> Arrives(response.body, response.breaks, start, cfg) && batch.Some?)
      && (r.Ok? ==> f.data == batch.value && r.value == |wire|)
      && done <= |pieces| && OpenAll(open, plan, pieces[..done], 0) == Some(f.data)
      && |f.data| <= cfg.maxUrlSize
      && buffer.Valid() && buffer.peak < plan.BlobSize() + LongestRead(response.body)
      && (done == |pieces| || Held(open, plan, response.body, done, f.data, buffer.data))
      && (r == Err(FileError) && TagLengthExact(open) ==>
            !OnTime(response.body, start, cfg) || |wire| > WireCap(cfg, Some(enc)))
      && (r == Err(NetworkError) <==>
            && response.breaks && OnTime(response.body, start, cfg) && |wire| <= WireCap(cfg, Some(enc))
            && !CannotOpen(open, plan, pieces, FullCount(pieces, plan.BlobSize()), cfg.maxUrlSize))
      && (r == Err(DecryptionError) ==>
            || (done < |pieces| && OpenAll(open, plan, pieces[..done + 1], 0).None?)
            || (done == |pieces| != plan.parts && Arrives(response.body, response.breaks, start, cfg)))
  {
    var validated := Validate(cfg, enc);
    if validated.None? {
      var unused := new Buffer();
      return Err(DecryptionError), 0, unused;
    }
    var plan := validated.value;
    r, done, buffer := StreamDecrypted(open, response, f, start, plan, WireCap(cfg, Some(enc)), cfg);
    ghost var pieces := Split(Wire(response.body), plan.BlobSize());
    assert pieces[..|pieces|] == pieces;
  }
}
