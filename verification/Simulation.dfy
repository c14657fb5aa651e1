/** The service, worker and store objects, step by step, are a run of the protocol: what
    is proved of its runs holds of them. */
module Simulation {
  import opened Wrappers
  import opened WireFormat
  import opened ResultStore
  import opened ScanTask
  import opened JobProtocol
  import opened Endpoints

  function Messages(hooks: seq<Hook>): seq<(string, Payload)> {
    seq(|hooks|, i requires 0 <= i < |hooks| => (hooks[i].url, hooks[i].body))
  }

  /** The objects are in the state `s` of a run: the store holds what the protocol's does,
      expired keys aside, and the worker has posted the same webhooks in the same order. */
  ghost predicate In(s: State, w: Worker)
    reads w, w.store
  {
    && Reachable(s) && !w.tempFile
    && w.store.ttl == s.ttl && w.store.now == s.now && SameLive(w.store.entries, s.entries, s.now)
    && w.outbox == Messages(s.hooks)
  }

  lemma ReachableNext(s: State, e: Event)
    requires Reachable(s) && Enabled(s, e)
    ensures Reachable(Next(s, e))
  {
    ExecOne(s, e);
    ReachableExec(s, [e]);
  }

  lemma FinishedPosts(s: State, id: string, record: Payload, reachable: bool)
    requires id in s.jobs
    ensures Messages(Finished(s, id, record, reachable).hooks) == Messages(s.hooks) + Posted(s.jobs[id].job, record)
  {
    hide Serialize;
  }

  /** One event, carried out by the worker and the store. A raise is a retry. */
  method Step(w: Worker, s: State, e: Event) returns (t: State)
    requires In(s, w) && Enabled(s, e)
    modifies w, w.store
    ensures t == Next(s, e) && In(t, w)
  {
    t := Next(s, e);
    ReachableNext(s, e);
    match e
    case Submit(job) =>
    case Seed(id, reachable) =>
      var job := s.jobs[id].job;
      EvictionUnobservable(w.store.entries, s.entries, s.ttl, s.now, id, job.owner, reachable,
                           PendingRecord(job), s.now);
      hide Reachable, PendingRecord, Stored, SameLive;
      w.store.Record(id, job.owner, PendingRecord(job), reachable);
    case Work(id, attempt, reachable) =>
      t := Attempted(w, s, id, attempt, reachable);
    case Tick(later) =>
      EvictionUnobservable(w.store.entries, s.entries, s.ttl, s.now, "", "", true, map[], later);
      hide Reachable;
      w.store.Advance(later);
  }

  /** One attempt of the worker at a job of the run. */
  method Attempted(w: Worker, s: State, id: string, attempt: Attempt, reachable: bool) returns (t: State)
    requires In(s, w) && Enabled(s, Work(id, attempt, reachable))
    modifies w, w.store`entries
    ensures t == Next(s, Work(id, attempt, reachable)) && In(t, w)
  {
    var e := Work(id, attempt, reachable);
    t := Next(s, e);
    ReachableNext(s, e);
    InvReachable(s);
    var j := s.jobs[id];
    assert j.job.id == id;
    ghost var settled := Settle(j.job, attempt, j.retries >= MAX_RETRIES);
    if settled.Final? {
      EvictionUnobservable(w.store.entries, s.entries, s.ttl, s.now, id, j.job.owner, reachable, settled.record, s.now);
      FinishedPosts(s, id, settled.record, reachable);
    }
    hide Reachable, Settle, Stored, SameLive, Posted, Serialize, Messages, Inv;
    var raised := w.Run(j.job, attempt, Some(j.retries), reachable);
  }

  /** Any run at all, carried out by the objects from scratch. */
  method RunEvents(ttl: nat, events: seq<Event>) returns (w: Worker, t: State)
    requires Legal(Init(ttl), events)
    ensures t == Exec(Init(ttl), events) && In(t, w)
  {
    var store := new Store(ttl);
    w := new Worker(store);
    t := Init(ttl);
    assert Legal(Init(ttl), []) && Exec(Init(ttl), []) == t;
    hide Next, Enabled, Init;
    for i := 0 to |events|
      invariant Legal(t, events[i..]) && Exec(t, events[i..]) == Exec(Init(ttl), events)
      invariant In(t, w) && fresh(w) && fresh(w.store)
    {
      assert events[i..][1..] == events[i + 1..];
      t := Step(w, t, events[i]);
    }
  }

  /** The endpoint's whole body is a submission and, next, its seed; or nothing. */
  method Submitted(service: Service, w: Worker, s: State, job: Job, categories: seq<string>, scanners: seq<string>,
                   policy: Policy, reachable: bool) returns (code: int, t: State)
    requires In(s, w) && service.store == w.store && job.id !in s.jobs
    modifies service`queue, service.store`entries
    ensures In(t, w)
    ensures if code == 202 then Enabled(s, Submit(job)) && t == Next(Next(s, Submit(job)), Seed(job.id, reachable))
            else t == s
  {
    code := service.ScanAsync(job, categories, scanners, policy, reachable);
    t := s;
    if code == 202 {
      t := Next(Next(s, Submit(job)), Seed(job.id, reachable));
      ReachableNext(s, Submit(job));
      ReachableNext(Next(s, Submit(job)), Seed(job.id, reachable));
      EvictionUnobservable(old(w.store.entries), s.entries, s.ttl, s.now, job.id, job.owner, reachable,
                           PendingRecord(job), s.now);
    }
  }

  /** A poll of the endpoint gives what the run's state shows. */
  method Polled(service: Service, w: Worker, s: State, id: string, caller: string, path: string) returns (r: Response)
    requires In(s, w) && service.store == w.store
    ensures r == match Poll(s, id, caller, path) case Some(body) => Body(body) case None => Status(404)
  {
    EvictionUnobservable(w.store.entries, s.entries, s.ttl, s.now, id, caller, true, map[], s.now);
    r := service.JobStatus(id, caller, path, true);
  }
}
