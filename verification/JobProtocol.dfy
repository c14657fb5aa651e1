/** Endpoint, worker, clock and poller over one result store, interleaved in any order:
    the endpoint enqueues a job and only then seeds its pending record. */
module JobProtocol {
  import opened Wrappers
  import opened WireFormat
  import opened ResultStore
  import opened ScanTask

  /** `seeded`: the endpoint has made its pending write. `result`: what the worker
      finalised. */
  datatype JobState = JobState(job: Job, seeded: bool, retries: nat, result: Option<Payload>)

  /** A write that reached the store. */
  datatype Write = Write(jobId: string, owner: string, record: Payload, at: nat, final: bool)

  datatype Hook = Hook(jobId: string, url: string, body: Payload)

  datatype State = State(ttl: nat, now: nat, jobs: map<string, JobState>, entries: Entries,
                         log: seq<Write>, hooks: seq<Hook>)

  datatype Event =
    | Submit(job: Job)
    | Seed(id: string, reachable: bool)
    | Work(id: string, attempt: Attempt, reachable: bool)
    | Tick(later: nat)

  function PendingRecord(job: Job): Payload {
    map["job_id" := Str(job.id), "status" := Str("pending"), "filename" := job.filename, "metadata" := job.metadata]
  }

  /** Job ids are fresh; every job has a channel for its result, webhook or store; the
      broker runs a job until it stops raising. */
  predicate Enabled(s: State, e: Event) {
    match e
    case Submit(job) => job.id !in s.jobs && (job.webhookUrl != "" || s.ttl > 0)
    case Seed(id, _) => id in s.jobs && !s.jobs[id].seeded
    case Work(id, _, _) => id in s.jobs && s.jobs[id].result.None?
    case Tick(later) => later >= s.now
  }

  /** One write, as far as it reaches the store. */
  function Wrote(s: State, id: string, owner: string, record: Payload, reachable: bool, final: bool): State {
    s.(entries := Stored(s.entries, s.ttl, s.now, id, owner, record, reachable),
       log := s.log + if s.ttl > 0 && reachable then [Write(id, owner, record, s.now, final)] else [])
  }

  /** The worker finalises: the record, then the webhook in the job's own version. */
  function Finished(s: State, id: string, record: Payload, reachable: bool): State
    requires id in s.jobs
  {
    var j := s.jobs[id];
    Wrote(s, id, j.job.owner, record, reachable, true)
      .(jobs := s.jobs[id := j.(result := Some(record))],
        hooks := s.hooks +
          if j.job.webhookUrl == "" then [] else [Hook(id, j.job.webhookUrl, Serialize(record, j.job.version))])
  }

  function Next(s: State, e: Event): State
    requires Enabled(s, e)
  {
    match e
    case Submit(job) => s.(jobs := s.jobs[job.id := JobState(job, false, 0, None)])
    case Seed(id, reachable) =>
      var j := s.jobs[id];
      Wrote(s, id, j.job.owner, PendingRecord(j.job), reachable, false).(jobs := s.jobs[id := j.(seeded := true)])
    case Work(id, attempt, reachable) =>
      var j := s.jobs[id];
      (match Settle(j.job, attempt, j.retries >= MAX_RETRIES)
       case Retry => s.(jobs := s.jobs[id := j.(retries := j.retries + 1)])
       case Final(record) => Finished(s, id, record, reachable))
    case Tick(later) => s.(now := later)
  }

  predicate Legal(s: State, events: seq<Event>)
    decreases |events|
  {
    events == [] || (Enabled(s, events[0]) && Legal(Next(s, events[0]), events[1..]))
  }

  function Exec(s: State, events: seq<Event>): State
    requires Legal(s, events)
    decreases |events|
  {
    if events == [] then s else Exec(Next(s, events[0]), events[1..])
  }

  function Init(ttl: nat): State {
    State(ttl, 0, map[], map[], [], [])
  }

  ghost predicate Reachable(s: State) {
    exists ttl, events :: Legal(Init(ttl), events) && Exec(Init(ttl), events) == s
  }

  /** The last write for a job. */
  function LastWrite(log: seq<Write>, id: string): (w: Option<Write>)
    ensures w.Some? ==> w.value in log && w.value.jobId == id
  {
    if log == [] then None
    else if log[|log| - 1].jobId == id then Some(log[|log| - 1])
    else LastWrite(log[..|log| - 1], id)
  }

  lemma LastWriteAppend(log: seq<Write>, w: Write, id: string)
    ensures LastWrite(log + [w], id) == if w.jobId == id then Some(w) else LastWrite(log, id)
  {
    assert (log + [w])[..|log|] == log;
  }

  /** What a poll answers, before it is put in the shape of its route. */
  function Visible(s: State, id: string, caller: string): Option<Payload> {
    Fetched(s.entries, s.ttl, s.now, id, caller, true)
  }

  /** `job_status`: the stored record in the shape the route speaks; None is a 404. */
  function Poll(s: State, id: string, caller: string, path: string): Option<Payload> {
    match Visible(s, id, caller)
    case Some(record) => Some(Serialize(record, OfPath(path)))
    case None => None
  }

  // ----- The invariant

  /** The store holds the last write of each job. */
  ghost predicate StoreIsLastWrite(s: State) {
    forall id ::
      match LastWrite(s.log, id)
      case Some(w) => id in s.entries && s.entries[id] == Entry(w.owner, w.record, w.at + s.ttl * 1000)
      case None => id !in s.entries
  }

  /** A logged write is the job's own seed or its own final record. */
  ghost predicate WriteBelongs(s: State, w: Write) {
    && s.ttl > 0 && w.at <= s.now
    && w.jobId in s.jobs
    && var j := s.jobs[w.jobId];
    && j.job.id == w.jobId && w.owner == j.job.owner
    && (if w.final then j.result == Some(w.record) && Terminal(w.record)
        else j.seeded && w.record == PendingRecord(j.job))
  }

  /** A webhook carries its job's final record in the job's own version. */
  ghost predicate HookBelongs(s: State, h: Hook) {
    && h.jobId in s.jobs
    && var j := s.jobs[h.jobId];
    j.result.Some? && h.url == j.job.webhookUrl != "" && h.body == Serialize(j.result.value, j.job.version)
  }

  /** At most one seed and one final record per job. */
  ghost predicate OneOfEach(log: seq<Write>) {
    forall i, j :: 0 <= i < j < |log| && log[i].jobId == log[j].jobId ==> log[i].final != log[j].final
  }

  ghost predicate OneHookPerJob(hooks: seq<Hook>) {
    forall i, j :: 0 <= i < j < |hooks| ==> hooks[i].jobId != hooks[j].jobId
  }

  ghost predicate Inv(s: State) {
    && StoreIsLastWrite(s)
    && (forall w :: w in s.log ==> WriteBelongs(s, w))
    && OneOfEach(s.log)
    && (forall h :: h in s.hooks ==> HookBelongs(s, h))
    && OneHookPerJob(s.hooks)
    && (forall id :: id in s.jobs ==>
          var j := s.jobs[id];
          && j.job.id == id && j.retries <= MAX_RETRIES
          && (j.result.Some? ==> Terminal(j.result.value) && Get(j.result.value, "job_id") == Str(id))
          && (j.result.Some? && j.job.webhookUrl != "" ==> exists h :: h in s.hooks && h.jobId == id))
  }

  lemma WroteKeepsStore(s: State, id: string, owner: string, record: Payload, reachable: bool, final: bool)
    requires StoreIsLastWrite(s)
    ensures StoreIsLastWrite(Wrote(s, id, owner, record, reachable, final))
  {
    if s.ttl > 0 && reachable {
      forall k { LastWriteAppend(s.log, Write(id, owner, record, s.now, final), k); }
    } else {
      assert s.log + [] == s.log;
    }
  }

  lemma StoreOnly(s: State, t: State)
    requires StoreIsLastWrite(s) && t.ttl == s.ttl && t.entries == s.entries && t.log == s.log
    ensures StoreIsLastWrite(t)
  {
  }

  lemma WroteOnce(log: seq<Write>, w: Write)
    requires OneOfEach(log)
    requires forall v :: v in log && v.jobId == w.jobId ==> v.final != w.final
    ensures OneOfEach(log + [w])
  {
    forall i, j | 0 <= i < j < |log + [w]| && (log + [w])[i].jobId == (log + [w])[j].jobId
      ensures (log + [w])[i].final != (log + [w])[j].final
    {
      assert (log + [w])[i] in log;
    }
  }

  lemma HookedOnce(hooks: seq<Hook>, h: Hook)
    requires OneHookPerJob(hooks)
    requires forall g :: g in hooks ==> g.jobId != h.jobId
    ensures OneHookPerJob(hooks + [h])
  {
    forall i, j | 0 <= i < j < |hooks + [h]| ensures (hooks + [h])[i].jobId != (hooks + [h])[j].jobId {
      assert (hooks + [h])[i] in hooks;
    }
  }

  lemma InvSeed(s: State, id: string, reachable: bool)
    requires Inv(s) && Enabled(s, Seed(id, reachable))
    ensures Inv(Next(s, Seed(id, reachable)))
  {
    hide Settle, Serialize, PendingRecord, Terminal, LastWrite, OneOfEach, OneHookPerJob;
    var j, t := s.jobs[id], Next(s, Seed(id, reachable));
    assert s.log + [] == s.log;
    WroteKeepsStore(s, id, j.job.owner, PendingRecord(j.job), reachable, false);
    WroteOnce(s.log, Write(id, j.job.owner, PendingRecord(j.job), s.now, false));
    forall w | w in t.log ensures WriteBelongs(t, w) {
      assert w in s.log || w == Write(id, j.job.owner, PendingRecord(j.job), s.now, false);
    }
    forall h | h in t.hooks ensures HookBelongs(t, h) {
      assert h in s.hooks ==> HookBelongs(s, h);
    }
  }

  lemma InvFinished(s: State, id: string, record: Payload, reachable: bool)
    requires Inv(s) && id in s.jobs && s.jobs[id].result.None? && Terminal(record) && Get(record, "job_id") == Str(id)
    ensures Inv(Finished(s, id, record, reachable))
  {
    hide Serialize, PendingRecord, Terminal, LastWrite, OneOfEach, OneHookPerJob, StoreIsLastWrite, Stored;
    var j, t := s.jobs[id], Finished(s, id, record, reachable);
    assert s.log + [] == s.log && s.hooks + [] == s.hooks;
    WroteKeepsStore(s, id, j.job.owner, record, reachable, true);
    StoreOnly(Wrote(s, id, j.job.owner, record, reachable, true), t);
    WroteOnce(s.log, Write(id, j.job.owner, record, s.now, true));
    HookedOnce(s.hooks, Hook(id, j.job.webhookUrl, Serialize(record, j.job.version)));
    forall w | w in t.log ensures WriteBelongs(t, w) {
      assert w in s.log || w == Write(id, j.job.owner, record, s.now, true);
    }
    forall h | h in t.hooks ensures HookBelongs(t, h) {
      assert h in s.hooks ==> HookBelongs(s, h);
    }
  }

  /** Every step, from any party, keeps the invariant. */
  lemma InvNext(s: State, e: Event)
    requires Inv(s) && Enabled(s, e)
    ensures Inv(Next(s, e))
  {
    hide Settle, Serialize, PendingRecord, Terminal, LastWrite, Finished;
    match e
    case Submit(job) =>
    case Seed(id, reachable) => InvSeed(s, id, reachable);
    case Work(id, attempt, reachable) =>
      var j := s.jobs[id];
      match Settle(j.job, attempt, j.retries >= MAX_RETRIES) {
        case Retry =>
        case Final(record) =>
          FinalRecordIsTerminal(j.job, attempt, j.retries >= MAX_RETRIES);
          InvFinished(s, id, record, reachable);
      }
    case Tick(later) =>
  }

  lemma {:induction false} InvExec(s: State, events: seq<Event>)
    requires Inv(s) && Legal(s, events)
    ensures Inv(Exec(s, events))
    decreases |events|
  {
    if events == [] {
    } else {
      InvNext(s, events[0]);
      hide Inv, Next, Enabled;
      InvExec(Next(s, events[0]), events[1..]);
    }
  }

  lemma InvReachable(s: State)
    requires Reachable(s)
    ensures Inv(s)
  {
    var ttl, events :| Legal(Init(ttl), events) && Exec(Init(ttl), events) == s;
    assert LastWrite([], "") == None;
    InvExec(Init(ttl), events);
  }

  /** A final record names its job. */
  lemma FinalBelongs(s: State, id: string)
    requires Inv(s) && id in s.jobs && s.jobs[id].result.Some?
    ensures Terminal(s.jobs[id].result.value) && Get(s.jobs[id].result.value, "job_id") == Str(id)
  {
  }

  // ----- Safety over all interleavings

  /** A poll sees the latest write of that job that reached the store, only while it is
      unexpired and only as its owner. */
  lemma VisibleIsLatestWrite(s: State, id: string, caller: string)
    requires Reachable(s)
    ensures Visible(s, id, caller) ==
      match LastWrite(s.log, id)
      case Some(w) => if w.owner == caller && s.now < w.at + s.ttl * 1000 then Some(w.record) else None
      case None => None
  {
    InvReachable(s);
    hide LastWrite;
    match LastWrite(s.log, id)
    case Some(w) => assert WriteBelongs(s, w);
    case None =>
  }

  /** What anyone sees of a job is its own submitter's, and is either that job's
      pending record or the record its worker finalised. */
  lemma VisibleIsOwn(s: State, id: string, caller: string)
    requires Reachable(s) && Visible(s, id, caller).Some?
    ensures id in s.jobs && caller == s.jobs[id].job.owner
    ensures var r := Visible(s, id, caller).value;
      if StatusOf(r) == Str("pending") then s.jobs[id].seeded && r == PendingRecord(s.jobs[id].job)
      else Terminal(r) && s.jobs[id].result == Some(r)
  {
    VisibleIsLatestWrite(s, id, caller);
    InvReachable(s);
    hide LastWrite;
    assert WriteBelongs(s, LastWrite(s.log, id).value);
  }

  /** The two channels cannot drift: polling a finished job on its own version's route
      returns the body its webhook carried. */
  lemma PollAgreesWithWebhook(s: State, h: Hook, path: string)
    requires Reachable(s) && h in s.hooks && h.jobId in s.jobs
    requires var v := Visible(s, h.jobId, s.jobs[h.jobId].job.owner); v.Some? && Terminal(v.value)
    requires OfPath(path) == s.jobs[h.jobId].job.version
    ensures Poll(s, h.jobId, s.jobs[h.jobId].job.owner, path) == Some(h.body)
  {
    InvReachable(s);
    VisibleIsOwn(s, h.jobId, s.jobs[h.jobId].job.owner);
  }

  /** In v1, a category by this name takes the place of an envelope key in what is served. */
  ghost predicate Shadowed(record: Payload, version: string, key: string) {
    version == "v1.0" && ReportsOn(record, key)
  }

  /** A poll tells the job it asks for and how it stands, as its record does: `pending`, with
      what was sent, until the record is final, and then that record's own status. */
  lemma PollTells(s: State, id: string, caller: string, path: string)
    requires Reachable(s) && Poll(s, id, caller, path).Some?
    ensures id in s.jobs && Visible(s, id, caller).Some?
    ensures var body, record := Poll(s, id, caller, path).value, Visible(s, id, caller).value;
      && Get(body, "api_version") == Str(OfPath(path))
      && (!Shadowed(record, OfPath(path), "job_id") ==> Get(body, "job_id") == Str(id))
      && (!Shadowed(record, OfPath(path), "status") ==>
            if s.jobs[id].result == Some(record) then Get(body, "status") == Get(record, "status")
            else Get(body, "status") == Str("pending"))
    ensures s.jobs[id].result.None? ==>
      var body := Poll(s, id, caller, path).value;
      && Get(body, "status") == Str("pending") && Get(body, "job_id") == Str(id)
      && Get(body, "filename") == s.jobs[id].job.filename && Get(body, "metadata") == s.jobs[id].job.metadata
  {
    RecordSeen(s, id, caller);
    var record := Visible(s, id, caller).value;
    TellsKey(record, OfPath(path), "job_id");
    TellsKey(record, OfPath(path), "status");
    TellsKey(record, OfPath(path), "filename");
    TellsKey(record, OfPath(path), "metadata");
    hide Serialize, Reachable, Visible, Shadowed, Get;
  }

  /** The record behind a poll: the final one, or the pending one before there is any. */
  lemma RecordSeen(s: State, id: string, caller: string)
    requires Reachable(s) && Visible(s, id, caller).Some?
    ensures id in s.jobs
    ensures var record, job := Visible(s, id, caller).value, s.jobs[id].job;
      && "job_id" in record && record["job_id"] == Str(id) && "status" in record
      && (s.jobs[id].result != Some(record) ==>
            && record["status"] == Str("pending") && (forall version, key :: !Shadowed(record, version, key))
            && "filename" in record && record["filename"] == job.filename
            && "metadata" in record && record["metadata"] == job.metadata)
  {
    VisibleIsOwn(s, id, caller);
    InvReachable(s);
    var record := Visible(s, id, caller).value;
    if s.jobs[id].result == Some(record) {
      FinalBelongs(s, id);
      assert StatusOf(record) != Null;
    } else {
      PendingTells(s.jobs[id].job);
    }
    hide Inv, Reachable, Visible;
  }

  lemma TellsKey(record: Payload, version: string, key: string)
    requires key != "api_version" && key != "verdicts"
    ensures key in record && !Shadowed(record, version, key) ==> Get(Serialize(record, version), key) == record[key]
    ensures Get(Serialize(record, version), "api_version") == Str(version)
  {
    ServedTells(record, version, key);
  }

  /** The record a job starts with. */
  lemma PendingTells(job: Job)
    ensures PendingRecord(job) == map["job_id" := Str(job.id), "status" := Str("pending"), "filename" := job.filename,
                                      "metadata" := job.metadata]
  {
  }

  /** Every webhook tells its job and how it ended, `done` or `error`, as the final record does. */
  lemma HookTells(s: State, h: Hook)
    requires Reachable(s) && h in s.hooks
    ensures h.jobId in s.jobs && s.jobs[h.jobId].result.Some?
    ensures var job, record := s.jobs[h.jobId].job, s.jobs[h.jobId].result.value;
      && Terminal(record) && Get(h.body, "api_version") == Str(job.version)
      && (!Shadowed(record, job.version, "job_id") ==> Get(h.body, "job_id") == Str(h.jobId))
      && (!Shadowed(record, job.version, "status") ==> Get(h.body, "status") == Get(record, "status"))
  {
    InvReachable(s);
    assert HookBelongs(s, h);
    FinalBelongs(s, h.jobId);
    var record := s.jobs[h.jobId].result.value;
    TellsKey(record, s.jobs[h.jobId].job.version, "job_id");
    TellsKey(record, s.jobs[h.jobId].job.version, "status");
  }

  /** A job runs at most three attempts and calls back at most once; once finished it
      has called back exactly when it had a webhook. */
  lemma AtMostOneCallback(s: State, id: string)
    requires Reachable(s) && id in s.jobs
    ensures s.jobs[id].retries <= MAX_RETRIES
    ensures forall i, j :: 0 <= i < j < |s.hooks| ==> s.hooks[i].jobId != s.hooks[j].jobId
    ensures (exists h :: h in s.hooks && h.jobId == id) <==> s.jobs[id].result.Some? && s.jobs[id].job.webhookUrl != ""
  {
    InvReachable(s);
    if h :| h in s.hooks && h.jobId == id {
      assert HookBelongs(s, h);
    }
  }

  /** How many times the worker was given a job. */
  function Runs(events: seq<Event>, id: string): nat {
    if events == [] then 0
    else (if events[0].Work? && events[0].id == id then 1 else 0) + Runs(events[1..], id)
  }

  /** The attempts a job has behind it: those that raised, and the one that finalised. */
  function Spent(s: State, id: string): nat {
    if id !in s.jobs then 0 else s.jobs[id].retries + if s.jobs[id].result.Some? then 1 else 0
  }

  lemma SpentNext(s: State, e: Event, id: string)
    requires Enabled(s, e)
    ensures Spent(Next(s, e), id) == Spent(s, id) + Runs([e], id)
  {
    hide Settle, Serialize, PendingRecord, Stored;
    assert [e][1..] == [] && Runs([], id) == 0;
  }

  lemma {:induction false} SpentExec(s: State, events: seq<Event>, id: string)
    requires Legal(s, events)
    ensures Spent(Exec(s, events), id) == Spent(s, id) + Runs(events, id)
    decreases |events|
  {
    if events == [] {
    } else {
      SpentNext(s, events[0], id);
      hide Next, Enabled, Spent;
      assert [events[0]][1..] == [] && Runs([], id) == 0;
      SpentExec(Next(s, events[0]), events[1..], id);
    }
  }

  /** Over any run, whatever else goes on, a job is given to a worker at most three times,
      and the third time finishes it. */
  lemma AtMostThreeRuns(ttl: nat, events: seq<Event>, id: string)
    requires Legal(Init(ttl), events)
    ensures Runs(events, id) <= 3
    ensures Runs(events, id) == 3 ==>
      id in Exec(Init(ttl), events).jobs && Exec(Init(ttl), events).jobs[id].result.Some?
  {
    var s := Exec(Init(ttl), events);
    SpentExec(Init(ttl), events, id);
    assert Reachable(s);
    InvReachable(s);
  }

  // ----- Order of the seed and the final record

  lemma {:induction false} ReachableExec(s: State, events: seq<Event>)
    requires Reachable(s) && Legal(s, events)
    ensures Reachable(Exec(s, events))
  {
    var ttl, before :| Legal(Init(ttl), before) && Exec(Init(ttl), before) == s;
    ExecAppend(Init(ttl), before, events);
    assert Legal(Init(ttl), before + events);
  }

  lemma ExecOne(s: State, e: Event)
    requires Enabled(s, e)
    ensures Legal(s, [e]) && Exec(s, [e]) == Next(s, e)
  {
    hide Next, Enabled;
    var t := Next(s, e);
    assert [e][1..] == [] && Legal(t, []) && Exec(t, []) == t;
  }

  lemma ExecThree(s: State, a: Event, b: Event, c: Event)
    requires Enabled(s, a) && Enabled(Next(s, a), b) && Enabled(Next(Next(s, a), b), c)
    ensures Legal(s, [a, b, c]) && Exec(s, [a, b, c]) == Next(Next(Next(s, a), b), c)
  {
    hide Next, Enabled;
    ExecOne(s, a);
    ExecOne(Next(s, a), b);
    ExecOne(Next(Next(s, a), b), c);
    ExecAppend(s, [a], [b]);
    ExecAppend(s, [a] + [b], [c]);
    assert [a] + [b] + [c] == [a, b, c];
  }

  lemma {:induction false} ExecAppend(s: State, a: seq<Event>, b: seq<Event>)
    requires Legal(s, a) && Legal(Exec(s, a), b)
    ensures Legal(s, a + b) && Exec(s, a + b) == Exec(Exec(s, a), b)
    decreases |a|
  {
    hide Next, Enabled;
    if a == [] {
      assert a + b == b;
    } else {
      assert (a + b)[0] == a[0] && (a + b)[1..] == a[1..] + b;
      ExecAppend(Next(s, a[0]), a[1..], b);
    }
  }

  /** Once a job has been seeded and finished, nothing writes its record again. */
  ghost predicate Settled(s: State, id: string) {
    id in s.jobs && s.jobs[id].seeded && s.jobs[id].result.Some?
  }

  lemma SettledNext(s: State, e: Event, id: string)
    requires Settled(s, id) && Enabled(s, e)
    ensures Settled(Next(s, e), id)
    ensures LastWrite(Next(s, e).log, id) == LastWrite(s.log, id)
    ensures Next(s, e).jobs[id].job == s.jobs[id].job && Next(s, e).ttl == s.ttl && Next(s, e).now >= s.now
  {
    hide Settle, Serialize, PendingRecord;
    assert s.log + [] == s.log;
    match e
    case Submit(job) =>
    case Seed(k, reachable) =>
      LastWriteAppend(s.log, Write(k, s.jobs[k].job.owner, PendingRecord(s.jobs[k].job), s.now, false), id);
    case Work(k, attempt, reachable) =>
      var j := s.jobs[k];
      match Settle(j.job, attempt, j.retries >= MAX_RETRIES) {
        case Retry =>
        case Final(record) => LastWriteAppend(s.log, Write(k, j.job.owner, record, s.now, true), id);
      }
    case Tick(later) =>
  }

  lemma {:induction false} SettledExec(s: State, events: seq<Event>, id: string)
    requires Settled(s, id) && Legal(s, events)
    ensures var t := Exec(s, events);
      && Settled(t, id) && LastWrite(t.log, id) == LastWrite(s.log, id)
      && t.jobs[id].job == s.jobs[id].job && t.ttl == s.ttl && t.now >= s.now
    decreases |events|
  {
    if events == [] {
    } else {
      SettledNext(s, events[0], id);
      hide Next, Enabled;
      SettledExec(Next(s, events[0]), events[1..], id);
    }
  }

  /** After a job is settled its owner sees one and the same record until it expires,
      and then nothing. */
  lemma SettledIsStable(s: State, events: seq<Event>, id: string)
    requires Reachable(s) && Settled(s, id) && Legal(s, events)
    ensures var owner := s.jobs[id].job.owner;
      Visible(Exec(s, events), id, owner) == Visible(s, id, owner) || Visible(Exec(s, events), id, owner).None?
  {
    ReachableExec(s, events);
    SettledExec(s, events, id);
    VisibleIsLatestWrite(s, id, s.jobs[id].job.owner);
    VisibleIsLatestWrite(Exec(s, events), id, s.jobs[id].job.owner);
  }

  /** A settled job still reads `pending` exactly when its seed is the last of its
      writes to have reached the store, and is unexpired. */
  lemma SettledPendingExactly(s: State, id: string)
    requires Reachable(s) && Settled(s, id)
    ensures var v := Visible(s, id, s.jobs[id].job.owner);
      v.Some? && StatusOf(v.value) == Str("pending") <==>
        var w := LastWrite(s.log, id);
        w.Some? && !w.value.final && s.now < w.value.at + s.ttl * 1000
  {
    VisibleIsLatestWrite(s, id, s.jobs[id].job.owner);
    InvReachable(s);
    var w := LastWrite(s.log, id);
    if w.Some? {
      assert WriteBelongs(s, w.value);
    }
  }

  /** Once the seed is in, the visible status only moves from pending to terminal. */
  lemma {:induction false} SeededNeverGoesBack(s: State, events: seq<Event>, id: string)
    requires Reachable(s) && Legal(s, events)
    requires id in s.jobs && s.jobs[id].seeded
    requires var v := Visible(s, id, s.jobs[id].job.owner); v.Some? && Terminal(v.value)
    ensures var v := Visible(Exec(s, events), id, s.jobs[id].job.owner);
      v.Some? ==> v == Visible(s, id, s.jobs[id].job.owner)
  {
    VisibleIsOwn(s, id, s.jobs[id].job.owner);
    SettledIsStable(s, events, id);
  }

  function RacedRun(job: Job, attempt: Attempt): seq<Event> {
    [Submit(job), Work(job.id, attempt, true), Seed(job.id, true)]
  }

  lemma RacedRunIsLegal(ttl: nat, job: Job, attempt: Attempt)
    requires ttl > 0 && Settle(job, attempt, false).Final?
    ensures Legal(Init(ttl), RacedRun(job, attempt))
    ensures var s := Exec(Init(ttl), RacedRun(job, attempt));
      && Settled(s, job.id) && s.jobs[job.id].job == job
      && Visible(s, job.id, job.owner) == Some(PendingRecord(job))
  {
    hide Settle, Serialize, PendingRecord;
    var s1 := Next(Init(ttl), Submit(job));
    var s2 := Next(s1, Work(job.id, attempt, true));
    assert s2.jobs[job.id].result.Some? && !s2.jobs[job.id].seeded;
    ExecThree(Init(ttl), Submit(job), Work(job.id, attempt, true), Seed(job.id, true));
  }

  /** Sending before seeding lets the seed land last: whatever the job and its attempt,
      if the worker finalises before the endpoint seeds, the finished job reads
      `pending` to its owner until the record expires, whatever happens next. */
  lemma SeedLandsLast(ttl: nat, job: Job, attempt: Attempt, events: seq<Event>)
    requires ttl > 0 && Settle(job, attempt, false).Final?
    requires Legal(Init(ttl), RacedRun(job, attempt))
    requires Legal(Exec(Init(ttl), RacedRun(job, attempt)), events)
    ensures var s := Exec(Init(ttl), RacedRun(job, attempt));
      && Settled(s, job.id)
      && Visible(s, job.id, job.owner) == Some(PendingRecord(job))
      && var later := Visible(Exec(s, events), job.id, job.owner);
         later.Some? ==> later == Some(PendingRecord(job))
  {
    hide Settle, Serialize, PendingRecord, Next, Enabled, Visible;
    RacedRunIsLegal(ttl, job, attempt);
    SettledIsStable(Exec(Init(ttl), RacedRun(job, attempt)), events, job.id);
  }

  /** Seeding first is enough: when the final record reaches the store after the seed,
      the owner sees the finished job from then on, until it expires. */
  lemma SeedFirstShowsResult(s: State, id: string, attempt: Attempt, events: seq<Event>)
    requires Reachable(s) && s.ttl > 0 && id in s.jobs && s.jobs[id].seeded
    requires Enabled(s, Work(id, attempt, true))
    requires Settle(s.jobs[id].job, attempt, s.jobs[id].retries >= MAX_RETRIES).Final?
    requires Legal(Next(s, Work(id, attempt, true)), events)
    ensures var t := Next(s, Work(id, attempt, true));
      var record := Settle(s.jobs[id].job, attempt, s.jobs[id].retries >= MAX_RETRIES).record;
      && Visible(t, id, s.jobs[id].job.owner) == Some(record) && Terminal(record)
      && var later := Visible(Exec(t, events), id, s.jobs[id].job.owner);
         later.Some? ==> later == Some(record)
  {
    var e := Work(id, attempt, true);
    var t := Next(s, e);
    FinalRecordIsTerminal(s.jobs[id].job, attempt, s.jobs[id].retries >= MAX_RETRIES);
    hide Settle, Serialize, Terminal, Legal, Exec;
    ExecOne(s, e);
    ReachableExec(s, [e]);
    assert t.jobs[id].job == s.jobs[id].job && Settled(t, id);
    SettledIsStable(t, events, id);
  }
}
