/** The HTTP endpoints, as ordered sequences of checks and effects. */
module Endpoints {
  import opened Wrappers
  import opened Report
  import opened WireFormat
  import opened Backends
  import opened Registry
  import opened ResultStore
  import opened ScanTask
  import opened JobProtocol

  datatype Response = Status(code: int) | Body(payload: Payload)

  /** The synchronous scan's answer: 400, 413, 503, or the report in the route's shape.
      500 stands for an exception the endpoint does not handle. */
  function ScanAnswer(d: Deployment, size: nat, categories: seq<string>, scanners: seq<string>, replies: nat -> Reply,
                      path: string): Response {
    match Resolve(d, categories, scanners)
    case Err(_) => Status(400)
    case Ok(names) =>
      if size > d.maxUploadSize then Status(413)
      else if !SizeCapDecidable(d.advisory, names, d.maxUploadSize) then Status(400)
      else
        match RunScanners(d, names, replies)
        case Err(_) => Status(500)
        case Ok(results) =>
          if AllErrored(results) then Status(503) else Body(Serialize(ReportDict(results), OfPath(path)))
  }

  /** What resolved can be run: no selection that got past the checks fails in
      `run_scanners` itself. */
  lemma ResolvedRuns(d: Deployment, size: nat, categories: seq<string>, scanners: seq<string>, replies: nat -> Reply,
                     path: string)
    ensures Resolve(d, categories, scanners).Ok? ==> RunScanners(d, Resolve(d, categories, scanners).value, replies).Ok?
    ensures ScanAnswer(d, size, categories, scanners, replies, path) != Status(500)
  {
    hide Dedupe, Expand, ResultOf, AllErrored, Serialize;
  }

  /** On a deployment that boots, a categories-only request is never a bad request; it is
      refused only for its size or for a scan in which every deciding engine failed. */
  lemma BootedCategoriesAnswered(d: Deployment, size: nat, categories: seq<string>, replies: nat -> Reply, path: string)
    requires ValidRegistry(d)
    requires forall c :: c in categories ==> c in d.categoryMap
    requires categories != [] || d.defaultCategories != []
    ensures var r := ScanAnswer(d, size, categories, [], replies, path);
      if size > d.maxUploadSize then r == Status(413) else r.Body? || r == Status(503)
  {
    BootCoversRequests(d, categories, d.maxUploadSize);
    ResolvedRuns(d, size, categories, [], replies, path);
    hide ValidRegistry, Resolve, RunScanners, AllErrored, Serialize;
  }

  /** A 503 hides nothing: every axis of the report it withholds reads `error`. */
  lemma UnavailableHidesNothing(d: Deployment, size: nat, categories: seq<string>, scanners: seq<string>,
                                replies: nat -> Reply, path: string, category: string)
    requires ScanAnswer(d, size, categories, scanners, replies, path) == Status(503)
    requires category in Categories(RunScanners(d, Resolve(d, categories, scanners).value, replies).value)
    ensures VerdictsOf(RunScanners(d, Resolve(d, categories, scanners).value, replies).value)[category].kind == Error
  {
    AllErroredMeansError(RunScanners(d, Resolve(d, categories, scanners).value, replies).value, category);
  }

  /** A selection that resolved, for a file of `size` bytes, gets as far as the engines. */
  predicate Admitted(d: Deployment, size: nat, selection: Result<seq<string>, ()>) {
    selection.Ok? && size <= d.maxUploadSize && SizeCapDecidable(d.advisory, selection.value, d.maxUploadSize)
  }

  /** Nobody found anything, and all that decides any category is errors. */
  ghost predicate NothingUsable(results: seq<ScannerResult>) {
    && !Detected(results)
    && forall c, r :: c in Categories(results) && r in Deciding(InCategory(results, c)) ==> r.kind == Error
  }

  /** What a caller of a route reads about a category: in v1 its scalar, in v2 its verdict. */
  ghost predicate Tells(body: Payload, version: string, category: string, v: CategoryVerdict) {
    if version == V1 then category in body && body[category] == Axis(v)
    else ReportsOn(body, category) && VerdictFor(body, category) == VerdictDict(v)
  }

  /** Every category of the report, but for a v1 category that the version stamp overwrites. */
  ghost predicate TellsAll(body: Payload, version: string, results: seq<ScannerResult>) {
    && Get(body, "api_version") == Str(version)
    && forall c :: c in Categories(results) && (version == V1 ==> c != "api_version") ==>
         Tells(body, version, c, VerdictsOf(results)[c])
  }

  lemma BodyTells(results: seq<ScannerResult>, version: string, category: string)
    requires category in Categories(results) && (version == V1 ==> category != "api_version")
    ensures Tells(Serialize(ReportDict(results), version), version, category, VerdictsOf(results)[category])
  {
    hide ReportDict, ToV1, VerdictsOf, Categories, VerdictDict, Axis;
    var dict := ReportDict(results);
    assert map[] + dict == dict;
    V1Axis(map[], results, category);
    ReportedCategories(map[], results, category);
  }

  /** Whatever the route, the body is what the report found. */
  lemma BodyTellsAll(results: seq<ScannerResult>, version: string)
    ensures TellsAll(Serialize(ReportDict(results), version), version, results)
  {
    assert Get(Serialize(ReportDict(results), version), "api_version") == Str(version);
    hide Serialize, ReportDict, Categories, Tells;
    forall c | c in Categories(results) && (version == V1 ==> c != "api_version")
      ensures Tells(Serialize(ReportDict(results), version), version, c, VerdictsOf(results)[c])
    {
      BodyTells(results, version, c);
    }
  }

  /** Each answer, exactly when it is given. */
  lemma AnswersExactly(d: Deployment, size: nat, categories: seq<string>, scanners: seq<string>,
                       replies: nat -> Reply, path: string)
    ensures var selection := Resolve(d, categories, scanners);
      var r := ScanAnswer(d, size, categories, scanners, replies, path);
      && (Admitted(d, size, selection) ==> RunScanners(d, selection.value, replies).Ok?)
      && (r == Status(413) <==> selection.Ok? && size > d.maxUploadSize)
      && (r == Status(400) <==> selection.Err? || (size <= d.maxUploadSize && !Admitted(d, size, selection)))
      && (r == Status(503) <==>
            Admitted(d, size, selection) && NothingUsable(RunScanners(d, selection.value, replies).value))
      && (r.Body? <==>
            Admitted(d, size, selection) && !NothingUsable(RunScanners(d, selection.value, replies).value))
      && (r.Body? ==> TellsAll(r.payload, OfPath(path), RunScanners(d, selection.value, replies).value))
  {
    ResolvedRuns(d, size, categories, scanners, replies, path);
    if Admitted(d, size, Resolve(d, categories, scanners)) {
      AllErroredExactly(RunScanners(d, Resolve(d, categories, scanners).value, replies).value);
      BodyTellsAll(RunScanners(d, Resolve(d, categories, scanners).value, replies).value, OfPath(path));
    }
    hide TellsAll, ReportDict, Resolve, SizeCapDecidable, RunScanners, AllErrored, NothingUsable, Serialize;
  }

  /** What `assert_scannable` says of a job's URLs: it passes, raises the exception it is
      meant to, or lets another through, as on a webhook URL that does not parse or a name
      the resolver cannot encode. */
  datatype Policy = Passes | Blocks | Crashes

  class Service {
    const d: Deployment
    const store: Store
    /** Jobs handed to the broker, with the engines to run. */
    var queue: seq<(Job, seq<string>)>

    constructor (d: Deployment, store: Store)
      ensures this.d == d && this.store == store && queue == []
    {
      this.d, this.store := d, store;
      queue := [];
    }

    /** The synchronous scan. 413 and 400 before any engine runs; 503 exactly when the
        report holds nothing usable; otherwise a body that tells every category's verdict
        in the words of the route. Never a 500. */
    method ScanSync(size: nat, categories: seq<string>, scanners: seq<string>, replies: nat -> Reply,
                    path: string) returns (r: Response)
      ensures r == ScanAnswer(d, size, categories, scanners, replies, path)
      ensures var selection := Resolve(d, categories, scanners);
        && (r == Status(413) <==> selection.Ok? && size > d.maxUploadSize)
        && (r == Status(400) <==> selection.Err? || (size <= d.maxUploadSize && !Admitted(d, size, selection)))
        && (r == Status(503) || r.Body? <==> Admitted(d, size, selection))
        && (Admitted(d, size, selection) ==>
              RunScanners(d, selection.value, replies).Ok? &&
              var results := RunScanners(d, selection.value, replies).value;
              && (r == Status(503) <==> NothingUsable(results))
              && (r.Body? ==> TellsAll(r.payload, OfPath(path), results)))
    {
      AnswersExactly(d, size, categories, scanners, replies, path);
      hide Resolve, RunScanners, AllErrored, NothingUsable, Serialize, TellsAll, ReportDict;
      var resolved := ResolveScanners(d, categories, scanners);
      if resolved.Err? {
        return Status(400);
      }
      var names := resolved.value;
      if size > d.maxUploadSize {
        return Status(413);
      }
      if !SizeCapDecidable(d.advisory, names, d.maxUploadSize) {
        return Status(400);
      }
      var report := RunEach(d, names, replies);
      if report.Err? {
        return Status(500);
      }
      if AllErrored(report.value) {
        return Status(503);
      }
      return Body(Serialize(ReportDict(report.value), OfPath(path)));
    }

    /** Accepts a job exactly when its selection resolves, can be decided at the URL size
        cap, its URLs pass the policy, and there is a channel for the result. It then
        enqueues the job and, after that, seeds its pending record; a refusal has no
        effect at all. Only the policy check can end in a 500. */
    method ScanAsync(job: Job, categories: seq<string>, scanners: seq<string>, policy: Policy,
                     reachable: bool) returns (code: int)
      modifies this`queue, store`entries
      ensures var decidable := Resolve(d, categories, scanners).Ok? &&
                SizeCapDecidable(d.advisory, Resolve(d, categories, scanners).value, d.maxUrlSize);
        var channel := job.webhookUrl != "" || store.ttl > 0;
        && (code == 202 <==> decidable && policy.Passes? && channel)
        && (code == 400 <==> !decidable || policy.Blocks?)
        && (code == 422 <==> decidable && policy.Passes? && !channel)
        && (code == 500 <==> decidable && policy.Crashes?)
      ensures code == 202 ==>
        && queue == old(queue) + [(job, Resolve(d, categories, scanners).value)]
        && store.entries ==
             Stored(old(store.entries), store.ttl, store.now, job.id, job.owner, PendingRecord(job), reachable)
      ensures code != 202 ==> queue == old(queue) && store.entries == old(store.entries)
    {
      var resolved := ResolveScanners(d, categories, scanners);
      if resolved.Err? {
        return 400;
      }
      if !SizeCapDecidable(d.advisory, resolved.value, d.maxUrlSize) {
        return 400;
      }
      match policy {
        case Passes =>
        case Blocks => return 400;
        case Crashes => return 500;
      }
      if job.webhookUrl == "" && !store.Enabled() {
        return 422;
      }
      queue := queue + [(job, resolved.value)];
      store.Record(job.id, job.owner, PendingRecord(job), reachable);
      return 202;
    }

    /** Polls a job: its record in the shape of the route, or 404. What the record says is
        served as it is, but for what a v1 category of that name says instead. */
    method JobStatus(id: string, caller: string, path: string, reachable: bool) returns (r: Response)
      ensures r == match Fetched(store.entries, store.ttl, store.now, id, caller, reachable)
        case Some(record) => Body(Serialize(record, OfPath(path)))
        case None => Status(404)
      ensures var record := Fetched(store.entries, store.ttl, store.now, id, caller, reachable);
        && (r.Body? <==> record.Some?)
        && (r.Body? ==> TellsRecord(r.payload, record.value, OfPath(path)))
    {
      if !store.Enabled() {
        return Status(404);
      }
      var record := store.Fetch(id, caller, reachable);
      if record.None? {
        return Status(404);
      }
      ServedTellsAll(record.value, OfPath(path));
      return Body(Serialize(record.value, OfPath(path)));
    }
  }
}
