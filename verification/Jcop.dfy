/** JCOP's submit-and-poll under one deadline, against a clocked environment. */
module Jcop {
  import opened Wrappers
  import opened WireFormat
  import opened Backends

  datatype Config = Config(resultTimeout: real, submitTimeout: real, pollInterval: real)

  /** An HTTP exchange: how long it took, and its status and JSON body; a body of None
      does not parse. `NoResponse` is any RequestException. */
  datatype Exchange = NoResponse(took: real) | Response(took: real, status: int, body: Option<Value>)

  /** The connect timeout of a submit. */
  const CONNECT_TIMEOUT: real := 30.0

  /** The environment: the start time, the exchanges of the lookup, the submit and the
      polls, in order. */
  datatype World = World(start: real, lookup: Exchange, submit: Exchange, polls: nat -> Exchange)

  /** Every results GET lasts at most the result timeout, the submit at most its connect
      timeout plus the budget that remains; a poll round, its sleep included, lasts at
      least `step`. */
  ghost predicate Timely(cfg: Config, w: World, step: real) {
    && cfg.resultTimeout >= 0.0 && cfg.pollInterval >= 0.0
    && 0.0 <= w.lookup.took <= cfg.resultTimeout
    && 0.0 <= w.submit.took
    && (Remaining(cfg, w) > 0.0 ==> w.submit.took <= CONNECT_TIMEOUT + Remaining(cfg, w))
    && forall i: nat :: 0.0 <= w.polls(i).took <= cfg.resultTimeout && cfg.pollInterval + w.polls(i).took >= step
  }

  /** The budget left once the lookup has answered. */
  function Remaining(cfg: Config, w: World): real {
    cfg.submitTimeout - w.lookup.took
  }

  function Longer(x: real, y: real): real {
    if x > y then x else y
  }

  /** `n` times `x`. */
  function Times(n: nat, x: real): real {
    if n == 0 then 0.0 else Times(n - 1, x) + x
  }

  lemma {:induction false} TimesIsProduct(n: nat, x: real)
    ensures Times(n, x) == n as real * x
  {
    if n > 0 { TimesIsProduct(n - 1, x); }
  }

  lemma {:induction false} TimesMonotone(m: nat, n: nat, x: real)
    requires m <= n && x >= 0.0
    ensures Times(m, x) <= Times(n, x)
  {
    if m < n { TimesMonotone(m, n - 1, x); }
  }

  /** The time spent in the first `n` poll rounds. */
  function PollTime(cfg: Config, w: World, n: nat): real {
    if n == 0 then 0.0 else PollTime(cfg, w, n - 1) + cfg.pollInterval + w.polls(n - 1).took
  }

  predicate Unusable(body: Option<Value>) {
    body.None? || !body.value.Dict?
  }

  /** A usable body, marked done. */
  predicate Finished(x: Exchange) {
    x.Response? && x.status == 200 && !Unusable(x.body) && Truthy(Get(x.body.value.entries, "done"))
  }

  /** A 200 whose body is of no use: reading it raises something else than a scanner error. */
  predicate Garbled(x: Exchange) {
    x.Response? && x.status == 200 && Unusable(x.body)
  }

  /** A poll after which the loop goes on, time permitting. */
  predicate Inconclusive(x: Exchange) {
    x.Response? && x.status != 401 && !Finished(x) && !Garbled(x)
  }

  /** A submit that hands out an id to poll. */
  predicate Accepted(x: Exchange) {
    x.Response? && x.status == 200 && !Unusable(x.body) && "id" in x.body.value.entries
  }

  /** An exchange that answered with this content, marked done: the lookup, or one of
      the polls made. */
  ghost predicate AnsweredWith(w: World, polls: nat, content: Payload) {
    || (Finished(w.lookup) && polls == 0 && w.lookup.body == Some(Dict(content)))
    || (polls > 0 && Finished(w.polls(polls - 1)) && w.polls(polls - 1).body == Some(Dict(content)))
  }

  /** Submits at most once, exactly when the lookup does not know the file and budget
      remains; polls no more than the budget has room for rounds; hands back only
      content marked done, the first there is. Short of that or an error it gives up no
      earlier than the deadline. It ends by the deadline plus the longer of one connect
      timeout and one poll round: every poll round it makes has begun before the
      deadline. */
  method Analyse(cfg: Config, w: World, ghost step: real, ghost rounds: nat)
      returns (reply: JcopReply, end: real, submits: nat, polls: nat)
    requires Timely(cfg, w, step) && step >= 0.0 && Times(rounds, step) >= cfg.submitTimeout
    ensures reply.JcopDone? ==> AnsweredWith(w, polls, reply.content)
    ensures Finished(w.lookup) ==> reply.JcopDone? && polls == 0
    ensures submits == if w.lookup.Response? && w.lookup.status == 404 && Remaining(cfg, w) > 0.0 then 1 else 0
    ensures w.lookup.Response? && w.lookup.status == 200 && !Unusable(w.lookup.body) && !Finished(w.lookup) ==>
      (polls > 0 <==> Remaining(cfg, w) > 0.0)
    ensures submits == 1 && Accepted(w.submit) ==> (polls > 0 <==> w.submit.took < Remaining(cfg, w))
    ensures reply.JcopRaised? <==>
      if polls > 0 then Garbled(w.polls(polls - 1))
      else Garbled(w.lookup) ||
           (submits == 1 && w.submit.Response? && w.submit.status == 200 && !Accepted(w.submit))
    ensures polls <= rounds
    ensures polls > 0 && submits == 0 ==> w.lookup.Response? && w.lookup.status == 200 && !Finished(w.lookup)
    ensures polls > 0 && submits == 1 ==> Accepted(w.submit)
    ensures forall i: nat :: i + 1 < polls ==> Inconclusive(w.polls(i))
    ensures polls > 0 && Finished(w.polls(polls - 1)) ==> reply.JcopDone?
    ensures end == w.start + w.lookup.took + (if submits == 1 then w.submit.took else 0.0) + PollTime(cfg, w, polls)
    ensures polls > 0 ==>
      w.lookup.took + (if submits == 1 then w.submit.took else 0.0) + PollTime(cfg, w, polls - 1) < cfg.submitTimeout
    ensures polls > 0 && Inconclusive(w.polls(polls - 1)) ==> end >= w.start + cfg.submitTimeout
    ensures cfg.submitTimeout >= 0.0 ==>
      end <= w.start + cfg.submitTimeout + Longer(30.0, cfg.pollInterval + cfg.resultTimeout)
  {
    assert PollTime(cfg, w, 0) == 0.0;
    hide Truthy, Get;
    var now := w.start;
    var deadline := now + cfg.submitTimeout;
    submits, polls := 0, 0;

    now := now + w.lookup.took;
    match w.lookup {
      case NoResponse(_) => return JcopUnfinished, now, submits, polls;
      case Response(_, status, body) =>
        if status == 200 {
          if Unusable(body) { return JcopRaised, now, submits, polls; }
          if Truthy(Get(body.value.entries, "done")) { return JcopDone(body.value.entries), now, submits, polls; }
        } else if status == 404 {
          var remaining := deadline - now;
          if remaining <= 0.0 { return JcopUnfinished, now, submits, polls; }
          submits := 1;
          now := now + w.submit.took;
          if w.submit.NoResponse? || w.submit.status != 200 { return JcopUnfinished, now, submits, polls; }
          if Unusable(w.submit.body) || "id" !in w.submit.body.value.entries { return JcopRaised, now, submits, polls; }
        } else {
          return JcopUnfinished, now, submits, polls;
        }
    }

    reply, now, polls := PollUntil(cfg, w, now, deadline, step, rounds);
    return reply, now, submits, polls;
  }

  /** The polling loop, from `ready` on. */
  method PollUntil(cfg: Config, w: World, ready: real, deadline: real, ghost step: real, ghost rounds: nat)
      returns (reply: JcopReply, now: real, polls: nat)
    requires Timely(cfg, w, step) && step >= 0.0 && Times(rounds, step) >= deadline - ready
    ensures polls > 0 <==> ready < deadline
    ensures polls <= rounds
    ensures now == ready + PollTime(cfg, w, polls)
    ensures polls > 0 ==> ready + PollTime(cfg, w, polls - 1) < deadline
    ensures forall i: nat :: i + 1 < polls ==> Inconclusive(w.polls(i))
    ensures reply.JcopDone? ==>
      polls > 0 && Finished(w.polls(polls - 1)) && w.polls(polls - 1).body == Some(Dict(reply.content))
    ensures polls > 0 && Finished(w.polls(polls - 1)) ==> reply.JcopDone?
    ensures reply.JcopRaised? <==> polls > 0 && Garbled(w.polls(polls - 1))
    ensures polls > 0 && Inconclusive(w.polls(polls - 1)) ==> now >= deadline
  {
    now, polls := ready, 0;
    assert PollTime(cfg, w, 0) == 0.0;
    assert Times(0, step) == 0.0;
    hide Truthy, Times, PollTime, Get;
    while now < deadline
      invariant now == ready + PollTime(cfg, w, polls) && ready + Times(polls, step) <= now
      invariant polls > 0 ==> ready < deadline && ready + PollTime(cfg, w, polls - 1) < deadline
      invariant polls <= rounds
      invariant forall i: nat :: i < polls ==> Inconclusive(w.polls(i))
      decreases rounds - polls
    {
      RoundsLeft(polls, rounds, step, deadline - ready);
      OneMoreRound(cfg, w, polls, step);
      var r := w.polls(polls);
      now := now + cfg.pollInterval + r.took;
      polls := polls + 1;
      if r.NoResponse? {
        return JcopUnfinished, now, polls;
      }
      if r.status == 200 {
        if Unusable(r.body) { return JcopRaised, now, polls; }
        if Truthy(Get(r.body.value.entries, "done")) { return JcopDone(r.body.value.entries), now, polls; }
      } else if r.status == 401 {
        return JcopUnfinished, now, polls;
      }
    }
    reply := JcopUnfinished;
  }

  lemma OneMoreRound(cfg: Config, w: World, n: nat, x: real)
    ensures Times(n + 1, x) == Times(n, x) + x
    ensures PollTime(cfg, w, n + 1) == PollTime(cfg, w, n) + cfg.pollInterval + w.polls(n).took
  {
  }

  lemma RoundsLeft(n: nat, rounds: nat, step: real, budget: real)
    requires step >= 0.0 && Times(n, step) < budget <= Times(rounds, step)
    ensures n < rounds
  {
    if rounds <= n { TimesMonotone(rounds, n, step); }
  }

  /** The budget is overrun by as much as the connect timeout: a submit that uses up
      its own time limit leaves the call exactly that late. */
  method SubmitOverrunsBudget(budget: real) returns (end: real)
    requires budget > 0.0
    ensures end == budget + 30.0
  {
    var cfg := Config(30.0, budget, 5.0);
    var w := World(0.0, Response(0.0, 404, None), NoResponse(CONNECT_TIMEOUT + budget), i => NoResponse(0.0));
    ghost var rounds := (budget / 5.0).Floor + 1;
    assert rounds as real >= budget / 5.0;
    TimesIsProduct(rounds, 5.0);
    var reply, submits, polls;
    reply, end, submits, polls := Analyse(cfg, w, 5.0, rounds);
  }

  /** The other half of the bound is approached, whatever the timeouts: a submit that
      hands out its id `slack` before the deadline is polled once more, and the answer
      comes a whole round, less that, past it. */
  method PollOverrunsBudget(budget: real, interval: real, timeout: real, slack: real) returns (end: real)
    requires 0.0 < slack <= budget && interval >= 0.0 && timeout >= 0.0 && interval + timeout > 0.0
    ensures end == budget + (interval + timeout) - slack
  {
    var cfg := Config(timeout, budget, interval);
    var accepted := Response(budget - slack, 200, Some(Dict(map["id" := Str("key")])));
    var done := Response(timeout, 200, Some(Dict(map["done" := Bool(true)])));
    var w := World(0.0, Response(0.0, 404, None), accepted, i => done);
    var round := interval + timeout;
    ghost var rounds := (budget / round).Floor + 1;
    assert rounds as real >= budget / round;
    assert Times(rounds, round) >= budget by { TimesIsProduct(rounds, round); }
    assert Accepted(w.submit) && Finished(w.polls(0));
    var reply, submits, polls;
    reply, end, submits, polls := Analyse(cfg, w, round, rounds);
    assert PollTime(cfg, w, 0) == 0.0 && PollTime(cfg, w, 1) == round;
  }
}
