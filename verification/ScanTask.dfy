/** The worker: one attempt at a job, what it reports, and the retries. */
module ScanTask {
  import opened Wrappers
  import opened Report
  import opened WireFormat
  import opened ResultStore

  const MAX_RETRIES: nat := 2

  datatype Job = Job(id: string, owner: string, filename: Value, metadata: Value, webhookUrl: string, version: string)

  /** An exception, by the handler that takes it, with its text. */
  datatype Exception = FileError(text: string) | DecryptionError(text: string) | SsrfError(text: string)
                     | RequestError(text: string) | OtherError(text: string)

  /** What the environment does to one attempt: each step may raise; `declared` is the
      Content-Length, None when missing or malformed; the writer may have created the
      temporary file before it raised. */
  datatype Attempt = Attempt(policy: Option<Exception>, fetch: Option<Exception>, declared: Option<int>, wireCap: nat,
                             created: bool, write: Option<Exception>, scan: Result<seq<ScannerResult>, Exception>)

  /** The up-front refusal of a declared length. */
  predicate DeclaredTooLarge(a: Attempt) {
    a.declared.Some? && a.declared.value > a.wireCap
  }

  /** What an attempt comes to: it raises and is retried, or it finalises. */
  datatype Settled = Retry | Final(record: Payload)

  function Envelope(job: Job): Payload {
    map["job_id" := Str(job.id), "filename" := job.filename, "metadata" := job.metadata]
  }

  const SCANNERS_FAILED: Payload :=
    map["status" := Str("error"), "error_kind" := Str("transient"), "error" := Str("all scanners failed")]

  function ErrorRecord(job: Job, kind: string, text: string): Payload {
    Envelope(job) + map["status" := Str("error"), "error_kind" := Str(kind), "error" := Str(text)]
  }

  function ReportRecord(job: Job, results: seq<ScannerResult>, transient: bool): Payload {
    Envelope(job) + ReportDict(results) +
      if transient then SCANNERS_FAILED
      else map["status" := Str("done")]
  }

  /** The webhook message of a record, when the job has a webhook. */
  function Posted(job: Job, record: Payload): seq<(string, Payload)> {
    if job.webhookUrl != "" then [(job.webhookUrl, Serialize(record, job.version))] else []
  }

  /** The exception that ends the download-and-scan part, or its report. */
  function Carried(a: Attempt): Result<seq<ScannerResult>, Exception> {
    if a.policy.Some? then Err(a.policy.value)
    else if a.fetch.Some? then Err(a.fetch.value)
    else if DeclaredTooLarge(a) then Err(FileError("file_too_large"))
    else if a.write.Some? then Err(a.write.value)
    else a.scan
  }

  /** The decision: only an unforeseen exception and a report that failed as a
      whole are worth another try, while there is one. */
  function Settle(job: Job, a: Attempt, exhausted: bool): (r: Settled)
    ensures exhausted ==> r.Final?
  {
    match Carried(a)
    case Err(FileError(text)) => Final(ErrorRecord(job, "file", text))
    case Err(DecryptionError(text)) => Final(ErrorRecord(job, "file", "decryption_failed: " + text))
    case Err(SsrfError(text)) => Final(ErrorRecord(job, "file", "ssrf_blocked: " + text))
    case Err(RequestError(text)) => Final(ErrorRecord(job, "transient", "download_failed: " + text))
    case Err(OtherError(text)) => if exhausted then Final(ErrorRecord(job, "transient", text)) else Retry
    case Ok(results) =>
      if AllErrored(results) && !exhausted then Retry
      else Final(ReportRecord(job, results, AllErrored(results)))
  }

  /** `retries` is None outside a worker, where nothing would retry. */
  predicate RetriesExhausted(retries: Option<nat>) {
    retries.None? || retries.value >= MAX_RETRIES
  }

  class Worker {
    const store: Store
    var outbox: seq<(string, Payload)>
    var tempFile: bool
    ghost var finalized: seq<Payload>

    constructor (store: Store)
      ensures this.store == store && outbox == [] && !tempFile && finalized == []
    {
      this.store := store;
      outbox, tempFile, finalized := [], false, [];
    }

    /** The end of a job: its record in the store, as it is, and its webhook in the job's
        own version. */
    method Finalize(job: Job, record: Payload, reachable: bool)
      modifies this`outbox, this`finalized, store`entries
      ensures store.entries == Stored(old(store.entries), store.ttl, store.now, job.id, job.owner, record, reachable)
      ensures outbox == old(outbox) + Posted(job, record)
      ensures finalized == old(finalized) + [record]
      ensures job.webhookUrl == "" ==> outbox == old(outbox)
      ensures job.webhookUrl != "" ==> |outbox| == |old(outbox)| + 1
      ensures job.webhookUrl != "" ==> var (url, body) := outbox[|old(outbox)|];
        url == job.webhookUrl && TellsRecord(body, record, job.version)
    {
      ServedTellsAll(record, job.version);
      store.Record(job.id, job.owner, record, reachable);
      if job.webhookUrl != "" {
        outbox := outbox + [(job.webhookUrl, Serialize(record, job.version))];
      }
      finalized := finalized + [record];
    }

    method ReportError(job: Job, kind: string, text: string, reachable: bool)
      modifies this`outbox, this`finalized, store`entries
      ensures store.entries ==
        Stored(old(store.entries), store.ttl, store.now, job.id, job.owner, ErrorRecord(job, kind, text), reachable)
      ensures outbox == old(outbox) + Posted(job, ErrorRecord(job, kind, text))
      ensures finalized == old(finalized) + [ErrorRecord(job, kind, text)]
    {
      var result := Envelope(job);
      result := result + map["status" := Str("error"), "error_kind" := Str(kind), "error" := Str(text)];
      Finalize(job, result, reachable);
    }

    method Deliver(job: Job, results: seq<ScannerResult>, transientError: bool, reachable: bool)
      modifies this`outbox, this`finalized, store`entries
      ensures var record := ReportRecord(job, results, transientError);
        && store.entries == Stored(old(store.entries), store.ttl, store.now, job.id, job.owner, record, reachable)
        && outbox == old(outbox) + Posted(job, record)
        && finalized == old(finalized) + [record]
    {
      hide ReportDict, Envelope, Posted, Stored;
      var result := Envelope(job);
      result := result + ReportDict(results);
      if transientError {
        result := result + SCANNERS_FAILED;
      } else {
        result := result + map["status" := Str("done")];
      }
      Finalize(job, result, reachable);
    }

    /** Downloads and scans; `created` files are left for the caller's `finally`. */
    method DownloadAndScan(a: Attempt) returns (r: Result<seq<ScannerResult>, Exception>)
      requires !tempFile
      modifies this`tempFile
      ensures r == Carried(a)
      ensures tempFile <==> a.policy.None? && a.fetch.None? && !DeclaredTooLarge(a) && a.created
    {
      if a.policy.Some? {
        return Err(a.policy.value);
      }
      if a.fetch.Some? {
        return Err(a.fetch.value);
      }
      if DeclaredTooLarge(a) {
        return Err(FileError("file_too_large"));
      }
      tempFile := a.created;
      if a.write.Some? {
        return Err(a.write.value);
      }
      return a.scan;
    }

    /** One attempt at a job; true when it raises. It then has reported nothing; if
        it does not raise it has reported exactly once. No temporary file survives it. */
    method Run(job: Job, a: Attempt, retries: Option<nat>, reachable: bool) returns (raised: bool)
      requires !tempFile
      modifies this, store`entries
      ensures !tempFile
      ensures raised <==> Settle(job, a, RetriesExhausted(retries)) == Retry
      ensures raised ==> retries.Some? && retries.value < 2
      ensures retries.Some? && retries.value < 2 ==>
        (raised <==> if Carried(a).Ok? then AllErrored(Carried(a).value) else Carried(a).error.OtherError?)
      ensures RetriesExhausted(retries) ==> !raised
      ensures raised ==> store.entries == old(store.entries) && outbox == old(outbox) && finalized == old(finalized)
      ensures !raised ==> var record := Settle(job, a, RetriesExhausted(retries)).record;
        && store.entries == Stored(old(store.entries), store.ttl, store.now, job.id, job.owner, record, reachable)
        && outbox == old(outbox) + Posted(job, record)
        && finalized == old(finalized) + [record]
    {
      var carried := DownloadAndScan(a);
      match carried
      case Err(FileError(text)) =>
        ReportError(job, "file", text, reachable);
        tempFile := false;
        return false;
      case Err(DecryptionError(text)) =>
        ReportError(job, "file", "decryption_failed: " + text, reachable);
        tempFile := false;
        return false;
      case Err(SsrfError(text)) =>
        ReportError(job, "file", "ssrf_blocked: " + text, reachable);
        tempFile := false;
        return false;
      case Err(RequestError(text)) =>
        ReportError(job, "transient", "download_failed: " + text, reachable);
        tempFile := false;
        return false;
      case Err(OtherError(text)) =>
        raised := !RetriesExhausted(retries);
        if !raised {
          ReportError(job, "transient", text, reachable);
        }
        tempFile := false;
        return raised;
      case Ok(results) =>
        tempFile := false;
        if AllErrored(results) {
          if !RetriesExhausted(retries) {
            return true;
          }
          Deliver(job, results, true, reachable);
          return false;
        }
        Deliver(job, results, false, reachable);
        return false;
    }

    /** The broker's view: a raise below the retry budget brings the next attempt, with
        the count one higher. Whatever happens to each attempt, the job runs at most
        MAX_RETRIES + 1 times, reports exactly once, in its last attempt, and that is
        the first attempt to settle. */
    method RunJob(job: Job, attempts: nat -> Attempt, reachable: bool) returns (ran: nat)
      requires !tempFile
      modifies this, store`entries
      ensures !tempFile && 1 <= ran <= 3
      ensures forall i: nat :: i < ran - 1 ==>
        if Carried(attempts(i)).Ok? then AllErrored(Carried(attempts(i)).value)
        else Carried(attempts(i)).error.OtherError?
      ensures ran < 3 ==>
        if Carried(attempts(ran - 1)).Ok? then !AllErrored(Carried(attempts(ran - 1)).value)
        else !Carried(attempts(ran - 1)).error.OtherError?
      ensures ran == Outcome(job, attempts, 0).0
      ensures finalized == old(finalized) + [Outcome(job, attempts, 0).1]
      ensures store.entries ==
        Stored(old(store.entries), store.ttl, store.now, job.id, job.owner, Outcome(job, attempts, 0).1, reachable)
      ensures outbox == old(outbox) + Posted(job, Outcome(job, attempts, 0).1)
    {
      hide Settle, Posted, Stored;
      var retries: nat := 0;
      var raised := Run(job, attempts(0), Some(0), reachable);
      while raised && retries < MAX_RETRIES
        invariant !tempFile && retries <= MAX_RETRIES
        invariant raised <==> Settle(job, attempts(retries), retries >= MAX_RETRIES) == Retry
        invariant Outcome(job, attempts, 0) == Outcome(job, attempts, retries)
        invariant raised ==> store.entries == old(store.entries) && outbox == old(outbox) && finalized == old(finalized)
        invariant !raised ==> var record := Settle(job, attempts(retries), retries >= MAX_RETRIES).record;
          && store.entries == Stored(old(store.entries), store.ttl, store.now, job.id, job.owner, record, reachable)
          && outbox == old(outbox) + Posted(job, record)
          && finalized == old(finalized) + [record]
        decreases MAX_RETRIES - retries
      {
        retries := retries + 1;
        raised := Run(job, attempts(retries), Some(retries), reachable);
      }
      ran := retries + 1;
      forall i: nat | i < ran { RetriedExactly(job, attempts(i), i >= MAX_RETRIES); }
      OutcomeIsFirstToSettle(job, attempts, 0);
    }
  }

  /** The attempt that settles a job, as a count, and what it reports; from attempt
      `k` on. */
  function Outcome(job: Job, attempts: nat -> Attempt, k: nat): (r: (nat, Payload))
    requires k <= MAX_RETRIES
    ensures k < r.0 <= MAX_RETRIES + 1
    decreases MAX_RETRIES - k
  {
    match Settle(job, attempts(k), k >= MAX_RETRIES)
    case Final(record) => (k + 1, record)
    case Retry => Outcome(job, attempts, k + 1)
  }

  /** It is the first attempt to settle: those before it all raised, with retries left. */
  lemma {:induction false} OutcomeIsFirstToSettle(job: Job, attempts: nat -> Attempt, k: nat)
    requires k <= MAX_RETRIES
    ensures var (ran, record) := Outcome(job, attempts, k);
      && Settle(job, attempts(ran - 1), ran - 1 >= MAX_RETRIES) == Final(record)
      && forall i: nat :: k <= i < ran - 1 ==> Settle(job, attempts(i), false) == Retry
    decreases MAX_RETRIES - k
  {
    hide Settle;
    if Settle(job, attempts(k), k >= MAX_RETRIES) == Retry {
      OutcomeIsFirstToSettle(job, attempts, k + 1);
    }
  }

  // ----- What a terminal record says

  function StatusOf(record: Payload): Value {
    Get(record, "status")
  }

  predicate Terminal(record: Payload) {
    StatusOf(record) == Str("done") || StatusOf(record) == Str("error")
  }

  /** A report record, with the job's own keys gathered in front. */
  function ReportEnvelope(job: Job, transient: bool): Payload {
    Envelope(job) +
      if transient then SCANNERS_FAILED
      else map["status" := Str("done")]
  }

  lemma ReportRecordSplits(job: Job, results: seq<ScannerResult>, transient: bool)
    ensures ReportRecord(job, results, transient) == ReportEnvelope(job, transient) + ReportDict(results)
  {
    hide VerdictDicts, ResultDict;
  }

  lemma RecordKeys(job: Job, results: seq<ScannerResult>, transient: bool)
    ensures var r := ReportRecord(job, results, transient);
      && StatusOf(r) == Str(if transient then "error" else "done")
      && ("error_kind" in r <==> transient) && (transient ==> r["error_kind"] == Str("transient"))
      && "verdicts" in r && Get(r, "job_id") == Str(job.id)
  {
    hide VerdictDicts, ResultDict;
  }

  /** Every final record is terminal, belongs to its job, and carries an `error_kind`
      exactly when its status is `error`. */
  lemma FinalRecordIsTerminal(job: Job, a: Attempt, exhausted: bool)
    requires Settle(job, a, exhausted).Final?
    ensures var r := Settle(job, a, exhausted).record;
      && Terminal(r) && Get(r, "job_id") == Str(job.id)
      && ("error_kind" in r <==> StatusOf(r) == Str("error"))
      && ("error_kind" in r ==> r["error_kind"] == Str("file") || r["error_kind"] == Str("transient"))
  {
    var carried := Carried(a);
    if carried.Ok? {
      RecordKeys(job, carried.value, AllErrored(carried.value));
    }
  }

  /** An attempt is made again exactly while there are retries left and it failed in a way
      that may pass: an unforeseen exception, or all that decides failing to scan. */
  lemma RetriedExactly(job: Job, a: Attempt, exhausted: bool)
    ensures Settle(job, a, exhausted).Retry? <==>
      !exhausted && if Carried(a).Ok? then AllErrored(Carried(a).value) else Carried(a).error.OtherError?
  {
    hide AllErrored;
  }

  /** A record tells what the caller sent with the job, and its status. */
  ghost predicate TellsJob(r: Payload, job: Job, status: string) {
    && "job_id" in r && r["job_id"] == Str(job.id)
    && "filename" in r && r["filename"] == job.filename
    && "metadata" in r && r["metadata"] == job.metadata
    && "status" in r && r["status"] == Str(status)
  }

  lemma ReportRecordTells(job: Job, results: seq<ScannerResult>, transient: bool)
    ensures var r := ReportRecord(job, results, transient);
      && TellsJob(r, job, if transient then "error" else "done")
      && "verdicts" in r && r["verdicts"] == ReportDict(results)["verdicts"]
      && "scanners" in r && r["scanners"] == ReportDict(results)["scanners"]
  {
    hide VerdictDicts, ResultDict;
  }

  lemma ErrorRecordTells(job: Job, kind: string, text: string)
    ensures var r := ErrorRecord(job, kind, text);
      TellsJob(r, job, "error") && "verdicts" !in r && "scanners" !in r
  {
  }

  /** A final record tells what the caller sent with the job, how it went and, exactly when
      a scan ran, its report. */
  lemma RecordTellsJob(job: Job, a: Attempt, exhausted: bool)
    requires Settle(job, a, exhausted).Final?
    ensures var r := Settle(job, a, exhausted).record;
      && TellsJob(r, job, if Carried(a).Ok? && !AllErrored(Carried(a).value) then "done" else "error")
      && ("verdicts" in r <==> Carried(a).Ok?) && ("scanners" in r <==> Carried(a).Ok?)
      && (Carried(a).Ok? ==>
            && r["verdicts"] == ReportDict(Carried(a).value)["verdicts"]
            && r["scanners"] == ReportDict(Carried(a).value)["scanners"])
  {
    if Carried(a).Ok? {
      ReportRecordTells(job, Carried(a).value, AllErrored(Carried(a).value));
    } else {
      var e := Carried(a).error;
      var kind := if Permanent(e) then "file" else "transient";
      var prefix := if e.DecryptionError? then "decryption_failed: " else if e.SsrfError? then "ssrf_blocked: "
                    else if e.RequestError? then "download_failed: " else "";
      assert "" + e.text == e.text;
      ErrorRecordTells(job, kind, prefix + e.text);
    }
    hide AllErrored, ReportDict, TellsJob, ReportRecord, ErrorRecord;
  }

  /** What cannot change on another try: the file itself, its decryption, its host. */
  predicate Permanent(e: Exception) {
    e.FileError? || e.DecryptionError? || e.SsrfError?
  }

  /** The caller is told to drop the file exactly on a permanent failure; only an unforeseen
      one, or a scan in which every deciding engine failed, is tried again here first; and a
      report goes out exactly when a scan ran, failed engines included. */
  lemma ErrorKindTellsPermanence(job: Job, a: Attempt, exhausted: bool)
    ensures var s := Settle(job, a, exhausted);
      && (s.Final? ==> (Get(s.record, "error_kind") == Str("file") <==>
           Carried(a).Err? && Permanent(Carried(a).error)))
      && (s.Final? ==> ("verdicts" in s.record <==> Carried(a).Ok?))
      && (s.Retry? ==> !exhausted)
      && (s.Retry? ==>
           if Carried(a).Ok? then AllErrored(Carried(a).value) else Carried(a).error.OtherError?)
  {
    if Carried(a).Ok? {
      RecordKeys(job, Carried(a).value, AllErrored(Carried(a).value));
    }
    hide AllErrored, VerdictDicts, ResultDict;
  }

  /** The value of an `error_kind` that tells a caller whether to retry. */
  predicate Qualifies(v: Value) {
    v == Str("file") || v == Str("transient")
  }

  lemma ReportV1NullIsQualified(job: Job, results: seq<ScannerResult>, transient: bool)
    ensures var v1 := ToV1(ReportRecord(job, results, transient));
      "malware" in v1 && v1["malware"] == Null ==>
        "error_kind" in v1 && (Qualifies(v1["error_kind"]) <==> "error_kind" !in Categories(results))
  {
    hide ToV1, ReportDict, Categories, VerdictsOf, ReportRecord;
    ReportRecordSplits(job, results, transient);
    NullMalwareIsQualified(ReportEnvelope(job, transient), results);
  }

  /** A v1 caller is never left with a bare `None`: whenever the v1 view of a final record
      says `malware: None`, a scan ran and an `error_kind` stands beside it. It says whether
      to retry exactly unless a category is itself called `error_kind`. */
  lemma FinalV1NullIsQualified(job: Job, a: Attempt, exhausted: bool)
    requires Settle(job, a, exhausted).Final?
    ensures var v1 := ToV1(Settle(job, a, exhausted).record);
      "malware" in v1 && v1["malware"] == Null ==>
        && Carried(a).Ok? && "error_kind" in v1
        && (Qualifies(v1["error_kind"]) <==> "error_kind" !in Categories(Carried(a).value))
  {
    hide ToV1, ReportDict, ReportRecord, AllErrored, Categories;
    var carried := Carried(a);
    if carried.Ok? {
      ReportV1NullIsQualified(job, carried.value, AllErrored(carried.value));
    } else {
      NullOnlyFromReport(Settle(job, a, exhausted).record);
    }
  }

  /** Downgrading a final record twice is downgrading it once, exactly unless a scanned
      category is called `verdicts`. */
  lemma FinalDowngradeIdempotent(job: Job, a: Attempt, exhausted: bool)
    requires Settle(job, a, exhausted).Final?
    ensures var record := Settle(job, a, exhausted).record;
      ToV1(ToV1(record)) == ToV1(record) <==> (Carried(a).Ok? ==> "verdicts" !in Categories(Carried(a).value))
  {
    hide ToV1, ReportDict, AllErrored, Categories, NumericScores;
    var record := Settle(job, a, exhausted).record;
    if Carried(a).Ok? {
      var results := Carried(a).value;
      var transient := AllErrored(results);
      ReportRecordSplits(job, results, transient);
      hide ReportRecord, ReportEnvelope;
      ReportScoresNumeric(ReportEnvelope(job, transient), results);
      ReportedCategories(ReportEnvelope(job, transient), results, "verdicts");
      DowngradeIdempotent(record);
    } else {
      NoReportNoScores(record);
      DowngradeIdempotent(record);
    }
  }

  lemma NoReportNoScores(record: Payload)
    requires "verdicts" !in record
    ensures NumericScores(record) && !ReportsOn(record, "verdicts")
  {
  }

  /** An envelope's own `error_kind` can be lost: when every scanner failed, the record
      says `transient`, and a category called `error_kind` overwrites that with `None`. */
  lemma EnvelopeErrorKindOverwritten(job: Job, results: seq<ScannerResult>)
    requires "error_kind" in Categories(results) && AllErrored(results)
    ensures var record := ReportRecord(job, results, true);
      && "error_kind" in record && record["error_kind"] == Str("transient")
      && "error_kind" in ToV1(record) && ToV1(record)["error_kind"] == Null
  {
    RecordKeys(job, results, true);
    hide ToV1, ReportDict, ReportRecord, Categories, AllErrored;
    ReportRecordSplits(job, results, true);
    AllErroredMeansError(results, "error_kind");
    V1Axis(ReportEnvelope(job, true), results, "error_kind");
  }

  /** A job marked failed for its scanners hides nothing about the file: every axis of
      the attached report reads `error`. */
  lemma TransientFailureHidesNothing(job: Job, a: Attempt, exhausted: bool, category: string)
    requires Carried(a).Ok? && category in Categories(Carried(a).value)
    requires VerdictsOf(Carried(a).value)[category].kind != Error
    ensures Settle(job, a, exhausted) == Final(ReportRecord(job, Carried(a).value, false))
  {
    if AllErrored(Carried(a).value) {
      AllErroredMeansError(Carried(a).value, category);
    }
  }
}
