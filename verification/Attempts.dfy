/** One attempt with its real parts: the guarded session, the two writers and the engines,
    from the URL to the record. */
module Attempts {
  import opened Wrappers
  import opened Sequences
  import opened ChunkBudget
  import opened Encryption
  import opened BatchDecryption
  import opened ClientEncryption
  import opened Report
  import opened WireFormat
  import opened Backends
  import opened Registry
  import opened ScanTask
  import ResultStore
  import Download
  import Redirects

  /** The body behind a response: its Content-Length, None when missing or malformed, and
      the reads of a download. */
  datatype Content = Content(declared: Option<int>, body: seq<Download.Read>, breaks: bool)

  /** What one attempt meets: the policy's verdict on the URLs, the network behind the URL,
      the body behind hop `n` of it, the clock at the start of the download, and what each
      engine replies to a file. `text` stands for the text of any exception. */
  datatype Source = Source(policy: Option<Exception>, world: Redirects.World, url: string, content: nat -> Content,
                           start: real, look: Bytes -> (nat -> Reply), text: string)

  /** The deployment's side of an attempt. */
  datatype Task = Task(d: Deployment, names: seq<string>, cfg: Download.Config, enc: Option<Download.EncParams>)

  /** A status that `raise_for_status` raises on. */
  predicate ErrorStatus(status: int) {
    400 <= status < 600
  }

  /** The redirects led to a response. */
  ghost predicate Landed(src: Source, hops: seq<Redirects.Hop>) {
    && hops != [] && hops[0].url == src.url && Redirects.Chain(src.world, hops)
    && Redirects.Final(src.world, |hops| - 1, hops[|hops| - 1], true)
  }

  /** One that may be downloaded. */
  ghost predicate Fetched(src: Source, hops: seq<Redirects.Hop>) {
    Landed(src, hops) && !ErrorStatus(StatusOfHop(src, hops))
  }

  function StatusOfHop(src: Source, hops: seq<Redirects.Hop>): int {
    if hops == [] then 0
    else
      var reply := src.world.serve(|hops| - 1, hops[|hops| - 1].url, hops[|hops| - 1].ip);
      if reply.Answered? then reply.status else 0
  }

  /** The file that the bytes of a body stand for, if they do. */
  function FileOf(open: Opener, task: Task, wire: Bytes): Option<Bytes>
    requires task.cfg.Valid()
  {
    match task.enc
    case None => if |wire| <= task.cfg.maxUrlSize then Some(wire) else None
    case Some(enc) =>
      match Download.Validate(task.cfg, enc)
      case None => None
      case Some(plan) => BatchDecrypt(open, task.cfg.maxUrlSize, plan, wire)
  }

  predicate TooLarge(task: Task, content: Content) {
    content.declared.Some? && content.declared.value > Download.WireCap(task.cfg, task.enc)
  }

  /** The parameters, when there are any, are refused before the response is taken in
      charge. */
  predicate Refuses(task: Task)
    requires task.cfg.Valid()
  {
    task.enc.Some? && Download.Validate(task.cfg, task.enc.value).None?
  }

  /** The body came in whole, on time, as announced, and makes a file. */
  ghost predicate Arrived(open: Opener, src: Source, task: Task, content: Content)
    requires task.cfg.Valid()
  {
    && !TooLarge(task, content)
    && Download.Arrives(content.body, content.breaks, src.start, task.cfg)
    && FileOf(open, task, Download.Wire(content.body)).Some?
  }

  /** The connection broke, and nothing is wrong with what had come through till then. */
  ghost predicate BrokeOff(open: Opener, src: Source, task: Task, body: seq<Download.Read>, breaks: bool)
    requires task.cfg.Valid()
  {
    && breaks && Download.OnTime(body, src.start, task.cfg) && !Refuses(task)
    && |Download.Wire(body)| <= Download.WireCap(task.cfg, task.enc)
    && (task.enc.Some? ==>
          var plan := Download.Validate(task.cfg, task.enc.value).value;
          var pieces := Split(Download.Wire(body), plan.BlobSize());
          var full := Download.FullCount(pieces, plan.BlobSize());
          !Download.CannotOpen(open, plan, pieces, full, task.cfg.maxUrlSize))
  }

  /** What arrives makes this file. */
  ghost predicate Makes(open: Opener, src: Source, task: Task, content: Content, plain: Bytes)
    requires task.cfg.Valid()
  {
    Arrived(open, src, task, content) && FileOf(open, task, Download.Wire(content.body)) == Some(plain)
  }

  /** The environment delivers this file: the policy allows the URLs, and some chain of
      requests leads to a response whose body makes it. */
  ghost predicate Delivers(open: Opener, src: Source, task: Task, plain: Bytes)
    requires task.cfg.Valid()
  {
    src.policy.None? && exists hops ::
      && |hops| <= Redirects.MAX_REDIRECTS + 1 && Fetched(src, hops)
      && Makes(open, src, task, src.content(|hops| - 1), plain)
  }

  /** That chain is the run from the URL: there is no other. */
  lemma DeliversByRun(open: Opener, src: Source, task: Task, hops: seq<Redirects.Hop>, plain: Bytes)
    requires task.cfg.Valid() && src.policy.None? && Redirects.Ran(src.world, src.url, true, hops)
    ensures Delivers(open, src, task, plain) <==>
      Fetched(src, hops) && Makes(open, src, task, src.content(|hops| - 1), plain)
  {
    hide Redirects.Chain, Redirects.Final, Makes;
    if h :| && |h| <= Redirects.MAX_REDIRECTS + 1 && Fetched(src, h)
            && Makes(open, src, task, src.content(|h| - 1), plain)
    {
      Redirects.FinalChainIsRun(src.world, src.url, h);
      Redirects.RunsOnce(src.world, src.url, true, h, hops);
    }
  }

  function FromSession(failure: Redirects.Failure, text: string): Exception {
    match failure
    case SsrfError => SsrfError(text)
    case NetworkFailure => RequestError(text)
    case ValueError => OtherError(text)
  }

  function FromWriter(failure: Download.Failure, text: string): Exception {
    match failure
    case FileError => FileError(text)
    case DecryptionError => DecryptionError(text)
    case NetworkError => RequestError(text)
  }

  /** Writes the body to the file, deciphered if need be. */
  method Write(open: Opener, src: Source, task: Task, response: Download.Response, f: Download.File)
      returns (r: Result<nat, Download.Failure>)
    requires task.cfg.Valid() && !response.closed
    modifies response, f
    ensures response.closed <==> !Refuses(task)
    ensures r.Ok? <==>
      && Download.Arrives(response.body, response.breaks, src.start, task.cfg)
      && FileOf(open, task, Download.Wire(response.body)).Some?
    ensures r.Ok? ==> Some(f.data) == FileOf(open, task, Download.Wire(response.body))
    ensures r == Err(Download.NetworkError) <==> BrokeOff(open, src, task, response.body, response.breaks)
    ensures Refuses(task) ==> r == Err(Download.DecryptionError)
  {
    if task.enc.None? {
      r := Download.WritePlaintext(response, f, src.start, task.cfg);
    } else {
      ghost var done, buffer;
      r, done, buffer := Download.WriteDecrypted(open, response, f, src.start, task.enc.value, task.cfg);
    }
  }

  /** The last request got no response. */
  ghost predicate RequestFailed(src: Source, hops: seq<Redirects.Hop>) {
    hops != [] && src.world.serve(|hops| - 1, hops[|hops| - 1].url, hops[|hops| - 1].ip).NetworkError?
  }

  /** Requests the URL, through its redirects. */
  method Fetch(src: Source, session: Redirects.Session)
      returns (r: Result<nat, Exception>, ghost hops: seq<Redirects.Hop>)
    requires session.open == {}
    modifies session
    ensures Redirects.Ran(src.world, src.url, true, hops)
    ensures r.Ok? <==> Fetched(src, hops)
    ensures r.Ok? ==> r.value == |hops| - 1
    ensures hops != [] && Redirects.Final(src.world, |hops| - 1, hops[|hops| - 1], true) ==>
      var status := src.world.serve(|hops| - 1, hops[|hops| - 1].url, hops[|hops| - 1].ip).status;
      if 400 <= status < 600 then r.Err? && r.error.RequestError? else r.Ok?
    ensures r.Err? ==> FetchFails(src, hops, r.error)
    ensures session.open ==
      if hops != [] && (Landed(src, hops) || Redirects.BrokenLocation(src.world, |hops| - 1, hops[|hops| - 1]))
      then {|hops| - 1} else {}
  {
    hide Redirects.Chain, Redirects.Pinned, Redirects.BrokenLocation, Redirects.DeadEnd, Redirects.EndsUnforeseen;
    var served, made;
    ghost var next;
    served, made, next := session.RequestWithRedirects(src.world, src.url, true);
    hops := made;
    if served.Err? {
      return Err(FromSession(served.error, src.text)), hops;
    }
    if ErrorStatus(StatusOfHop(src, made)) {
      return Err(RequestError(src.text)), hops;
    }
    return Ok(served.value), hops;
  }

  /** Which exception a fetch ends in: one of the network for a failed request or an error
      status, an unforeseen one where the run ends in a ValueError, else a refusal. */
  ghost predicate FetchFails(src: Source, hops: seq<Redirects.Hop>, e: Exception) {
    if Landed(src, hops) then ErrorStatus(StatusOfHop(src, hops)) && e.RequestError?
    else if RequestFailed(src, hops) then e.RequestError?
    else if Redirects.EndsUnforeseen(src.world, src.url, true, hops) then e.OtherError?
    else e.SsrfError?
  }

  /** Which one a download ends in: one of the network if the connection broke off, an
      unforeseen one if only the engines are wanting, else one about the file. */
  ghost predicate TakeFails(open: Opener, src: Source, task: Task, content: Content, e: Exception)
    requires task.cfg.Valid()
  {
    if TooLarge(task, content) then e.FileError?
    else if Refuses(task) then e.DecryptionError?
    else if BrokeOff(open, src, task, content.body, content.breaks) then e.RequestError?
    else if Arrived(open, src, task, content) then !Runnable(task) && e.OtherError?
    else e.FileError? || e.DecryptionError?
  }

  /** Downloads and scans what response `n` holds. */
  method Take(open: Opener, src: Source, task: Task, session: Redirects.Session, n: nat) returns (a: Attempt)
    requires task.cfg.Valid() && session.open == {n}
    modifies session
    ensures a.policy.None? && a.fetch.None?
    ensures Carried(a).Ok? <==> Arrived(open, src, task, src.content(n)) && Runnable(task)
    ensures Carried(a).Ok? ==>
      var plain := FileOf(open, task, Download.Wire(src.content(n).body)).value;
      Carried(a).value == RunScanners(task.d, task.names, src.look(plain)).value
    ensures Carried(a).Err? ==> TakeFails(open, src, task, src.content(n), Carried(a).error)
    ensures src.content(n).declared.Some? && src.content(n).declared.value > Download.WireCap(task.cfg, task.enc) ==>
      Carried(a).Err? && Carried(a).error.FileError?
    ensures session.open == if !TooLarge(task, src.content(n)) && Refuses(task) then {n} else {}
  {
    var content := src.content(n);
    a := Attempt(None, None, content.declared, Download.WireCap(task.cfg, task.enc), false, None,
                 Err(OtherError(src.text)));
    if TooLarge(task, content) {
      session.Close(n);
      return;
    }
    hide RunScanners, FileOf, Refuses, BrokeOff, Download.WireCap, Download.Arrives, Download.Wire;
    var response := new Download.Response(content.body, content.breaks);
    var f := new Download.File();
    var written := Write(open, src, task, response, f);
    if response.closed {
      session.Close(n);
    }
    a := a.(created := !Refuses(task));
    if written.Err? {
      a := a.(write := Some(FromWriter(written.error, src.text)));
      return;
    }
    var report := RunEach(task.d, task.names, src.look(f.data));
    a := a.(scan := if report.Ok? then Ok(report.value) else Err(OtherError(src.text)));
  }

  /** The engines can be built, and there are some. */
  predicate Runnable(task: Task) {
    task.names != [] && forall n :: n in task.names ==> Available(task.d, n)
  }

  /** Download and scan. It comes to a report exactly when the environment delivers a file
      and the engines can be built; and the report is then theirs on that file, no other.
      Each failure ends in its own exception. A response is left open exactly by an error
      status, by refused parameters and by a Location that raises. */
  method Perform(open: Opener, src: Source, task: Task, session: Redirects.Session)
      returns (a: Attempt, ghost hops: seq<Redirects.Hop>)
    requires task.cfg.Valid() && session.open == {}
    modifies session
    ensures a.policy == src.policy && (src.policy.Some? ==> Carried(a) == Err(src.policy.value))
    ensures src.policy.None? && hops != [] &&
            Redirects.Final(src.world, |hops| - 1, hops[|hops| - 1], true) ==>
      var status := src.world.serve(|hops| - 1, hops[|hops| - 1].url, hops[|hops| - 1].ip).status;
      if 400 <= status < 600 then Carried(a).Err? && Carried(a).error.RequestError? else a.fetch.None?
    ensures if src.policy.Some? then hops == [] else Redirects.Ran(src.world, src.url, true, hops)
    ensures Carried(a).Ok? <==> Runnable(task) && exists plain :: Delivers(open, src, task, plain)
    ensures forall plain :: Delivers(open, src, task, plain) && Runnable(task) ==>
      Carried(a).Ok? && Carried(a).value == RunScanners(task.d, task.names, src.look(plain)).value
    ensures src.policy.None? && Carried(a).Err? ==>
      if Fetched(src, hops) then TakeFails(open, src, task, src.content(|hops| - 1), Carried(a).error)
      else FetchFails(src, hops, Carried(a).error)
    ensures src.policy.None? && Fetched(src, hops) ==>
      var declared := src.content(|hops| - 1).declared;
      declared.Some? && declared.value > Download.WireCap(task.cfg, task.enc) ==>
        Carried(a).Err? && Carried(a).error.FileError?
    ensures session.open == if src.policy.None? && LeavesOpen(src, task, hops) then {|hops| - 1} else {}
  {
    hops := [];
    a := Attempt(src.policy, None, None, 0, false, None, Err(OtherError(src.text)));
    if src.policy.Some? {
      return;
    }
    hide Redirects.Final, Redirects.Chain, Redirects.Ran, Redirects.BrokenLocation, RunScanners, Arrived, BrokeOff;
    hide Refuses, FileOf, Delivers, TakeFails, FetchFails, TooLarge;
    var served;
    served, hops := Fetch(src, session);
    forall plain { DeliversByRun(open, src, task, hops, plain); }
    if served.Err? {
      a := a.(fetch := Some(served.error));
      return;
    }
    a := Take(open, src, task, session, served.value);
    var content := src.content(served.value);
    if Arrived(open, src, task, content) {
      ArrivedMakes(open, src, task, content);
      assert Delivers(open, src, task, FileOf(open, task, Download.Wire(content.body)).value);
    }
  }

  lemma ArrivedMakes(open: Opener, src: Source, task: Task, content: Content)
    requires task.cfg.Valid() && Arrived(open, src, task, content)
    ensures FileOf(open, task, Download.Wire(content.body)).Some?
    ensures Makes(open, src, task, content, FileOf(open, task, Download.Wire(content.body)).value)
  {
  }

  ghost predicate LeavesOpen(src: Source, task: Task, hops: seq<Redirects.Hop>)
    requires task.cfg.Valid()
  {
    hops != [] &&
    if Landed(src, hops) then
      ErrorStatus(StatusOfHop(src, hops)) || (!TooLarge(task, src.content(|hops| - 1)) && Refuses(task))
    else Redirects.BrokenLocation(src.world, |hops| - 1, hops[|hops| - 1])
  }

  // ----- What a record with a report is about

  /** The plaintext of the one file issued under this id with so many chunks; of no chunks
      at all, nothing. */
  ghost predicate IssuedPlaintext(files: set<Sent>, fileId: string, parts: nat, plain: Bytes) {
    if parts == 0 then plain == []
    else exists f :: f in files && f.fileId == fileId && |f.chunks| == parts && plain == Concat(Plains(f.chunks))
  }

  /** The record reports the engines' replies, and what it calls clean was affirmed in
      them, unless the axis is all scored. */
  ghost predicate Reports(job: Job, record: Payload, d: Deployment, names: seq<string>, replies: nat -> Reply) {
    && RunScanners(d, names, replies).Ok?
    && var results := RunScanners(d, names, replies).value;
    && record == ReportRecord(job, results, AllErrored(results))
    && forall c :: c in Categories(results) && VerdictsOf(results)[c].kind == Clean ==>
         Affirmed(d, names, replies, c) || ScoredAxis(d, names, c)
  }

  lemma ReportsReplies(job: Job, a: Attempt, exhausted: bool, d: Deployment, names: seq<string>, replies: nat -> Reply)
    requires Settle(job, a, exhausted).Final? && Carried(a).Ok?
    requires RunScanners(d, names, replies) == Ok(Carried(a).value)
    ensures Reports(job, Settle(job, a, exhausted).record, d, names, replies)
  {
    var results := RunScanners(d, names, replies).value;
    assert Settle(job, a, exhausted).record == ReportRecord(job, results, AllErrored(results));
    hide RunScanners, ReportRecord, AllErrored, Settle, VerdictsOf, Affirmed, ScoredAxis, ThreatNamed, Categories;
    forall c | c in Categories(results) && VerdictsOf(results)[c].kind == Clean
      ensures Affirmed(d, names, replies, c) || ScoredAxis(d, names, c)
    {
      CleanMeansAffirmed(d, names, replies, c);
    }
  }

  lemma FileIsIssued(open: Opener, task: Task, key: Bytes, fileId: string, chunkSize: nat, parts: nat, wire: Bytes,
                     files: set<Sent>)
    requires task.cfg.Valid() && task.cfg.minChunk <= chunkSize <= task.cfg.maxChunk
    requires task.enc.Some? && Download.Requests(task.enc.value, key, fileId, chunkSize, parts)
    requires Ideal(open, key, files) && IssuedOnce(files, fileId, parts)
    requires FileOf(open, task, wire).Some?
    ensures IssuedPlaintext(files, fileId, parts, FileOf(open, task, wire).value)
  {
    var plan := Plan(key, fileId, chunkSize, parts);
    assert Download.Validate(task.cfg, task.enc.value) == Some(plan);
    Exactness(open, task.cfg.maxUrlSize, plan, files, wire, FileOf(open, task, wire).value);
  }

  /** And an honest source gets there: what the contract's encryptor stored, announced at
      its true length, makes the file it was made from, when that is within the cap. */
  lemma HonestFile(seal: Sealer, open: Opener, task: Task, key: Bytes, fileId: string, chunkSize: nat,
                   ivs: seq<Bytes>, plain: Bytes, files: set<Sent>, content: Content)
    requires task.cfg.Valid() && task.cfg.minChunk <= chunkSize <= task.cfg.maxChunk
    requires |ivs| == |Split(plain, chunkSize)| && forall iv :: iv in ivs ==> |iv| == IV_BYTES
    requires EncryptFile(seal, key, fileId, chunkSize, ivs, plain) in files
    requires TagLengthExact(open) && OpensIssued(open, key, files)
    requires task.enc.Some? && Download.Requests(task.enc.value, key, fileId, chunkSize, |ivs|)
    requires Download.Wire(content.body) == Stored(EncryptFile(seal, key, fileId, chunkSize, ivs, plain))
    requires content.declared.None? || content.declared == Some(|Download.Wire(content.body)|)
    ensures FileOf(open, task, Download.Wire(content.body)) ==
      if |plain| <= task.cfg.maxUrlSize then Some(plain) else None
    ensures |plain| <= task.cfg.maxUrlSize ==> !TooLarge(task, content)
  {
    var plan := Plan(key, fileId, chunkSize, |ivs|);
    assert Download.Validate(task.cfg, task.enc.value) == Some(plan);
    RoundTrip(seal, open, task.cfg.maxUrlSize, key, fileId, chunkSize, ivs, plain, files);
  }

  /** Behind a URL that leads to it, on time and unbroken, the environment then delivers
      the file. */
  lemma HonestSource(seal: Sealer, open: Opener, src: Source, task: Task, key: Bytes, fileId: string, chunkSize: nat,
                     ivs: seq<Bytes>, plain: Bytes, files: set<Sent>, hops: seq<Redirects.Hop>)
    requires task.cfg.Valid() && task.cfg.minChunk <= chunkSize <= task.cfg.maxChunk
    requires |ivs| == |Split(plain, chunkSize)| && forall iv :: iv in ivs ==> |iv| == IV_BYTES
    requires EncryptFile(seal, key, fileId, chunkSize, ivs, plain) in files
    requires TagLengthExact(open) && OpensIssued(open, key, files)
    requires task.enc.Some? && Download.Requests(task.enc.value, key, fileId, chunkSize, |ivs|)
    requires src.policy.None? && |hops| <= Redirects.MAX_REDIRECTS + 1 && Fetched(src, hops)
    requires var content := src.content(|hops| - 1);
      && Download.Wire(content.body) == Stored(EncryptFile(seal, key, fileId, chunkSize, ivs, plain))
      && (content.declared.None? || content.declared == Some(|Download.Wire(content.body)|))
      && Download.Arrives(content.body, content.breaks, src.start, task.cfg)
    ensures |plain| <= task.cfg.maxUrlSize <==> Delivers(open, src, task, plain)
  {
    var content := src.content(|hops| - 1);
    HonestFile(seal, open, task, key, fileId, chunkSize, ivs, plain, files, content);
    hide FileOf, Fetched, TooLarge, Redirects.Ran, EncryptFile, OpensIssued, TagLengthExact;
    if |plain| <= task.cfg.maxUrlSize {
      assert Makes(open, src, task, content, plain);
    } else {
      FetchedIsRun(src, hops);
      DeliversByRun(open, src, task, hops, plain);
    }
  }

  lemma FetchedIsRun(src: Source, hops: seq<Redirects.Hop>)
    requires |hops| <= Redirects.MAX_REDIRECTS + 1 && Fetched(src, hops)
    ensures Redirects.Ran(src.world, src.url, true, hops)
  {
    Redirects.FinalChainIsRun(src.world, src.url, hops);
  }

  /** The worker's whole attempt at an encrypted job. Whatever the network serves, a record
      that carries a report, as a `done` one always does, carries the engines' report on a
      file that was delivered, and that is the very plaintext issued under the job's file
      id. And whenever a file is delivered and the engines can be built, the attempt reports
      on it, unless all that decides failed and it raises to be tried again. The record is
      what goes to the store and to the webhook. */
  method ScanEncrypted(w: Worker, job: Job, open: Opener, src: Source, session: Redirects.Session, task: Task,
                       ghost key: Bytes, ghost fileId: string, ghost chunkSize: nat, ghost parts: nat,
                       retries: Option<nat>, reachable: bool, ghost files: set<Sent>)
      returns (raised: bool, ghost record: Payload, ghost plain: Bytes)
    requires task.cfg.Valid() && task.cfg.minChunk <= chunkSize <= task.cfg.maxChunk
    requires task.enc.Some? && Download.Requests(task.enc.value, key, fileId, chunkSize, parts)
    requires Ideal(open, key, files) && IssuedOnce(files, fileId, parts)
    requires !w.tempFile && session.open == {}
    modifies w, w.store`entries, session
    ensures !w.tempFile
    ensures raised ==>
      w.store.entries == old(w.store.entries) && w.outbox == old(w.outbox) && w.finalized == old(w.finalized)
    ensures !raised ==>
      && Terminal(record) && w.finalized == old(w.finalized) + [record]
      && w.outbox == old(w.outbox) + Posted(job, record)
      && var s := w.store;
         s.entries == ResultStore.Stored(old(s.entries), s.ttl, s.now, job.id, job.owner, record, reachable)
    ensures !raised && StatusOf(record) == Str("done") ==> "verdicts" in record
    ensures !raised && "verdicts" in record ==>
      && Delivers(open, src, task, plain) && IssuedPlaintext(files, fileId, parts, plain)
      && Reports(job, record, task.d, task.names, src.look(plain))
    ensures forall p :: Delivers(open, src, task, p) && Runnable(task) ==>
      if raised then !RetriesExhausted(retries) && AllErrored(RunScanners(task.d, task.names, src.look(p)).value)
      else "verdicts" in record && plain == p
  {
    var a;
    ghost var hops;
    a, hops := Perform(open, src, task, session);
    record, plain := map[], [];
    ghost var settled := Settle(job, a, RetriesExhausted(retries));
    ErrorKindTellsPermanence(job, a, RetriesExhausted(retries));
    if Carried(a).Ok? {
      ghost var p :| Delivers(open, src, task, p);
      plain := p;
      DeliversOne(open, src, task, plain);
      DeliveredIsIssued(open, src, task, key, fileId, chunkSize, parts, plain, files);
    }
    if settled.Final? {
      record := settled.record;
      FinalRecordIsTerminal(job, a, RetriesExhausted(retries));
      DoneReports(job, a, RetriesExhausted(retries));
      if Carried(a).Ok? {
        ReportsReplies(job, a, RetriesExhausted(retries), task.d, task.names, src.look(plain));
      }
    }
    hide Settle, Ideal, IssuedOnce, RunScanners, Reports, IssuedPlaintext, Terminal, Posted, Delivers, AllErrored;
    raised := w.Run(job, a, retries, reachable);
  }

  /** An environment delivers one file. */
  lemma DeliversOne(open: Opener, src: Source, task: Task, plain: Bytes)
    requires task.cfg.Valid() && Delivers(open, src, task, plain)
    ensures forall p :: Delivers(open, src, task, p) ==> p == plain
  {
    hide Redirects.Chain, Redirects.Final, Redirects.Ran, Arrived, FileOf;
    var hops :| |hops| <= Redirects.MAX_REDIRECTS + 1 && Fetched(src, hops)
             && Makes(open, src, task, src.content(|hops| - 1), plain);
    FetchedIsRun(src, hops);
    forall p { DeliversByRun(open, src, task, hops, p); }
  }

  lemma DeliveredIsIssued(open: Opener, src: Source, task: Task, key: Bytes, fileId: string, chunkSize: nat, parts: nat,
                          plain: Bytes, files: set<Sent>)
    requires task.cfg.Valid() && task.cfg.minChunk <= chunkSize <= task.cfg.maxChunk
    requires task.enc.Some? && Download.Requests(task.enc.value, key, fileId, chunkSize, parts)
    requires Ideal(open, key, files) && IssuedOnce(files, fileId, parts)
    requires Delivers(open, src, task, plain)
    ensures IssuedPlaintext(files, fileId, parts, plain)
  {
    hide Redirects.Chain, Redirects.Final, Ideal, IssuedOnce, IssuedPlaintext;
    var hops :| |hops| <= Redirects.MAX_REDIRECTS + 1 && Fetched(src, hops)
             && Makes(open, src, task, src.content(|hops| - 1), plain);
    FileIsIssued(open, task, key, fileId, chunkSize, parts, Download.Wire(src.content(|hops| - 1).body), files);
  }

  lemma DoneReports(job: Job, a: Attempt, exhausted: bool)
    requires Settle(job, a, exhausted).Final?
    ensures StatusOf(Settle(job, a, exhausted).record) == Str("done") ==> Carried(a).Ok?
  {
  }
}
