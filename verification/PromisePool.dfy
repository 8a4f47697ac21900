/** The runner of promises with a bound on how many run at once (lib/util/async.ts:7-64). */
module PromisePool {
  import opened Wrappers

  datatype Settled = Pending | Resolved(values: map<nat, string>) | Rejected(error: string)

  /** `next` is the first job that was not started, `left` the number of jobs that have not succeeded. */
  datatype Pool = Pool(next: nat, left: int, outcome: map<nat, string>, rejected: bool,
                       promise: Settled, inFlight: set<nat>, started: seq<nat>)

  /** A started job whose promise resolves or rejects. */
  datatype Event = Success(job: nat, value: string) | Failure(job: nat, error: string)

  function Run(p: Pool): Pool
  {
    p.(next := p.next + 1, inFlight := p.inFlight + {p.next}, started := p.started + [p.next])
  }

  /** Starts the first jobs. */
  function Bootstrap(p: Pool, count: nat, n: int): Pool
    decreases count - p.next
  {
    if p.next < count && p.next < n then Bootstrap(Run(p), count, n) else p
  }

  function Start(count: nat, n: int): Pool
  {
    var p := Pool(0, count, map[], false, Pending, {}, []);
    if count == 0 then p.(promise := Resolved(map[])) else Bootstrap(p, count, n)
  }

  function Handle(p: Pool, count: nat, e: Event): Pool
    requires e.job in p.inFlight
  {
    var ended := p.(inFlight := p.inFlight - {e.job});
    if p.rejected then ended
    else
      match e
      case Failure(job, error) => ended.(rejected := true, promise := Rejected(error))
      case Success(job, value) =>
        var kept := ended.(left := p.left - 1, outcome := p.outcome[job := value]);
        if kept.left <= 0 then kept.(promise := Resolved(kept.outcome))
        else if kept.next < count then Run(kept)
        else kept
  }

  /** Only jobs in flight settle, each once. */
  predicate Possible(count: nat, n: int, events: seq<Event>)
    decreases |events|, 0
  {
    events == [] ||
      (var before := events[..|events| - 1];
       Possible(count, n, before) && events[|events| - 1].job in Exec(count, n, before).inFlight)
  }

  function Exec(count: nat, n: int, events: seq<Event>): Pool
    requires Possible(count, n, events)
    decreases |events|, 1
  {
    if events == [] then Start(count, n)
    else Handle(Exec(count, n, events[..|events| - 1]), count, events[|events| - 1])
  }

  /* ---------- what every run keeps ---------- */

  function Least(a: int, b: int): int
  {
    if a < b then a else b
  }

  /** The numbers below `n`, in order. */
  function UpTo(n: nat): (r: seq<nat>)
    ensures |r| == n && forall i :: 0 <= i < n ==> r[i] == i
  {
    if n == 0 then [] else UpTo(n - 1) + [n - 1]
  }

  function Below(n: nat): (r: set<nat>)
    ensures |r| == n && forall j: nat :: j in r <==> j < n
  {
    if n == 0 then {} else Below(n - 1) + {n - 1}
  }

  /** What is known of a pool that was not rejected, apart from its promise. */
  ghost predicate Going(next: nat, left: int, outcome: map<nat, string>, inFlight: set<nat>, count: nat)
  {
    && next <= count
    && outcome.Keys !! inFlight && outcome.Keys + inFlight == Below(next)
    && left == count - |outcome| && |outcome| + |inFlight| == next
  }

  /**
   * Jobs started in order, each once; until a rejection, those started have succeeded or are in flight, as many as
   * allowed.
   */
  ghost predicate Inv(p: Pool, count: nat, n: int)
  {
    && p.next <= count && p.started == UpTo(p.next)
    && p.inFlight <= Below(p.next)
    && |p.inFlight| <= (if n < 0 then 0 else n)
    && (p.rejected <==> p.promise.Rejected?)
    && (!p.rejected ==>
          && Going(p.next, p.left, p.outcome, p.inFlight, count)
          && |p.inFlight| == Least(if n < 0 then 0 else n, p.left)
          && (if p.left == 0 then p.promise == Resolved(p.outcome) else p.promise.Pending?))
  }

  /** A pool whose first `k` jobs run. */
  function First(k: nat, count: nat): Pool
  {
    Pool(k, count, map[], false, Pending, Below(k), UpTo(k))
  }

  lemma RunOfFirst(k: nat, count: nat)
    ensures Run(First(k, count)) == First(k + 1, count)
  {
    assert Below(k + 1) == Below(k) + {k} && UpTo(k + 1) == UpTo(k) + [k];
  }

  /** The number of jobs started first. */
  function FirstJobs(count: nat, n: int): nat
  {
    if n < 0 then 0 else Least(count, n)
  }

  lemma {:induction false} BootstrapRunsFirst(k: nat, count: nat, n: int)
    requires k <= FirstJobs(count, n)
    ensures Bootstrap(First(k, count), count, n) == First(FirstJobs(count, n), count)
    decreases FirstJobs(count, n) - k
  {
    var p := First(k, count);
    if k < FirstJobs(count, n) {
      RunOfFirst(k, count);
      BootstrapRunsFirst(k + 1, count, n);
      assert Bootstrap(p, count, n) == Bootstrap(Run(p), count, n);
    } else {
      assert Bootstrap(p, count, n) == p;
    }
  }

  lemma StartHasInv(count: nat, n: int)
    ensures count > 0 ==> Start(count, n) == First(FirstJobs(count, n), count)
    ensures Inv(Start(count, n), count, n)
  {
    BootstrapRunsFirst(0, count, n);
    if count > 0 {
      FirstHasInv(FirstJobs(count, n), count, n);
    }
  }

  lemma FirstHasInv(k: nat, count: nat, n: int)
    requires count > 0 && k == FirstJobs(count, n)
    ensures Inv(First(k, count), count, n)
  {
    var p := First(k, count);
    assert p.outcome.Keys + p.inFlight == Below(k);
  }

  lemma HandleKeepsInv(p: Pool, count: nat, n: int, e: Event)
    requires Inv(p, count, n) && e.job in p.inFlight
    ensures Inv(Handle(p, count, e), count, n)
  {
    assert |p.inFlight - {e.job}| == |p.inFlight| - 1;
    if !p.rejected && e.Success? {
      SuccessKeepsInv(p, count, n, e.job, e.value);
    }
  }

  lemma MoveOne(done: set<nat>, inFlight: set<nat>, job: nat)
    requires done !! inFlight && job in inFlight
    ensures (done + {job}) !! (inFlight - {job}) && (done + {job}) + (inFlight - {job}) == done + inFlight
    ensures |done + {job}| == |done| + 1 && |inFlight - {job}| == |inFlight| - 1
  {
  }

  lemma AddOne(done: set<nat>, inFlight: set<nat>, job: nat)
    requires done !! inFlight && job !in done + inFlight
    ensures done !! (inFlight + {job}) && done + (inFlight + {job}) == (done + inFlight) + {job}
    ensures |inFlight + {job}| == |inFlight| + 1
  {
  }

  lemma SuccessKeepsGoing(p: Pool, count: nat, job: nat, value: string)
    requires Going(p.next, p.left, p.outcome, p.inFlight, count) && job in p.inFlight
    ensures Going(p.next, p.left - 1, p.outcome[job := value], p.inFlight - {job}, count)
    ensures |p.inFlight - {job}| == |p.inFlight| - 1
  {
    MoveOne(p.outcome.Keys, p.inFlight, job);
    var outcome := p.outcome[job := value];
    assert outcome.Keys == p.outcome.Keys + {job};
    assert |outcome| == |outcome.Keys| && |p.outcome| == |p.outcome.Keys|;
  }

  lemma NextKeepsGoing(next: nat, left: int, outcome: map<nat, string>, inFlight: set<nat>, count: nat)
    requires Going(next, left, outcome, inFlight, count) && next < count
    ensures Going(next + 1, left, outcome, inFlight + {next}, count)
    ensures |inFlight + {next}| == |inFlight| + 1
  {
    assert next !in Below(next);
    AddOne(outcome.Keys, inFlight, next);
    assert Below(next + 1) == Below(next) + {next};
  }

  lemma SuccessKeepsInv(p: Pool, count: nat, n: int, job: nat, value: string)
    requires Inv(p, count, n) && job in p.inFlight && !p.rejected
    ensures Inv(Handle(p, count, Success(job, value)), count, n)
  {
    SuccessKeepsGoing(p, count, job, value);
    HandleSuccess(p, count, job, value);
    var kept := p.(inFlight := p.inFlight - {job}, left := p.left - 1, outcome := p.outcome[job := value]);
    if kept.left > 0 && kept.next < count {
      NextKeepsGoing(kept.next, kept.left, kept.outcome, kept.inFlight, count);
      AnotherKeepsInv(kept, count, n);
    } else {
      NoMoreKeepsInv(kept, count, n);
    }
  }

  lemma HandleSuccess(p: Pool, count: nat, job: nat, value: string)
    requires job in p.inFlight && !p.rejected
    ensures var kept := p.(inFlight := p.inFlight - {job}, left := p.left - 1, outcome := p.outcome[job := value]);
            Handle(p, count, Success(job, value)) ==
            if kept.left <= 0 then kept.(promise := Resolved(kept.outcome))
            else if kept.next < count then Run(kept)
            else kept
  {
  }

  lemma AnotherKeepsInv(kept: Pool, count: nat, n: int)
    requires kept.next < count && kept.started == UpTo(kept.next) && !kept.rejected && kept.promise.Pending?
    requires Going(kept.next + 1, kept.left, kept.outcome, kept.inFlight + {kept.next}, count) && kept.left > 0
    requires |kept.inFlight + {kept.next}| == Least(if n < 0 then 0 else n, kept.left + 1)
    ensures Inv(Run(kept), count, n)
  {
  }

  lemma NoMoreKeepsInv(kept: Pool, count: nat, n: int)
    requires kept.started == UpTo(kept.next) && !kept.rejected && kept.promise.Pending?
    requires kept.next == count || kept.left <= 0
    requires Going(kept.next, kept.left, kept.outcome, kept.inFlight, count)
    requires |kept.inFlight| <= Least(if n < 0 then 0 else n, kept.left)
    ensures Inv(if kept.left <= 0 then kept.(promise := Resolved(kept.outcome)) else kept, count, n)
  {
  }

  lemma {:induction false} RunsKeepInv(count: nat, n: int, events: seq<Event>)
    requires Possible(count, n, events)
    ensures Inv(Exec(count, n, events), count, n)
  {
    if events == [] {
      StartHasInv(count, n);
    } else {
      RunsKeepInv(count, n, events[..|events| - 1]);
      HandleKeepsInv(Exec(count, n, events[..|events| - 1]), count, n, events[|events| - 1]);
    }
  }

  /**
   * At most `n` jobs run at once, each starts at most once and in order, and with n ≥ 1 some job runs until the
   * promise settles.
   */
  lemma Concurrency(count: nat, n: int, events: seq<Event>)
    requires Possible(count, n, events)
    ensures var p := Exec(count, n, events);
            && |p.inFlight| <= (if n < 0 then 0 else n)
            && (forall i, j :: 0 <= i < j < |p.started| ==> p.started[i] < p.started[j])
            && (n >= 1 && p.promise.Pending? ==> p.inFlight != {})
            && (n <= 0 && count > 0 ==> p.promise.Pending? && events == [])
  {
    RunsKeepInv(count, n, events);
    if events != [] {
      var before := events[..|events| - 1];
      RunsKeepInv(count, n, before);
      assert |Exec(count, n, before).inFlight| > 0;
    }
  }

  /* ---------- what the promise becomes ---------- */

  function FirstFailure(events: seq<Event>): Option<string>
  {
    if events == [] then None
    else
      var before := FirstFailure(events[..|events| - 1]);
      var last := events[|events| - 1];
      if before.Some? then before else if last.Failure? then Some(last.error) else None
  }

  /** The value of each job that succeeded. */
  function ValuesOf(events: seq<Event>): map<nat, string>
  {
    if events == [] then map[]
    else
      var last := events[|events| - 1];
      var before := ValuesOf(events[..|events| - 1]);
      if last.Success? then before[last.job := last.value] else before
  }

  lemma {:induction false} PoolFollowsEvents(count: nat, n: int, events: seq<Event>)
    requires Possible(count, n, events)
    ensures var p := Exec(count, n, events);
            && (FirstFailure(events).Some? ==> p.rejected && p.promise == Rejected(FirstFailure(events).value))
            && (FirstFailure(events).None? ==> !p.rejected && p.outcome == ValuesOf(events))
  {
    if events == [] {
      StartHasInv(count, n);
    } else {
      var before := events[..|events| - 1];
      PoolFollowsEvents(count, n, before);
      HandleFollows(Exec(count, n, before), count, events[|events| - 1]);
    }
  }

  lemma HandleFollows(p: Pool, count: nat, e: Event)
    requires e.job in p.inFlight
    ensures p.rejected ==> Handle(p, count, e).promise == p.promise && Handle(p, count, e).rejected
    ensures !p.rejected && e.Failure? ==>
            Handle(p, count, e).promise == Rejected(e.error) && Handle(p, count, e).rejected
    ensures !p.rejected && e.Success? ==>
            Handle(p, count, e).outcome == p.outcome[e.job := e.value] && !Handle(p, count, e).rejected
  {
  }

  lemma ResolvedWhenComplete(p: Pool, count: nat, n: int)
    requires Inv(p, count, n) && !p.rejected
    ensures p.promise == if forall j: nat :: j < count ==> j in p.outcome then Resolved(p.outcome) else Pending
  {
    assert forall j <- p.outcome :: j in Below(p.next);
    AllSucceeded(p.outcome, count);
  }

  /**
   * The promise rejects with the first failure; otherwise it resolves when all jobs have succeeded, result j at place
   * j.
   */
  lemma PromiseOutcome(count: nat, n: int, events: seq<Event>)
    requires Possible(count, n, events)
    ensures Exec(count, n, events).promise ==
            if FirstFailure(events).Some? then Rejected(FirstFailure(events).value)
            else if forall j: nat :: j < count ==> j in ValuesOf(events) then Resolved(ValuesOf(events))
            else Pending
  {
    RunsKeepInv(count, n, events);
    PoolFollowsEvents(count, n, events);
    if FirstFailure(events).None? {
      ResolvedWhenComplete(Exec(count, n, events), count, n);
    }
  }

  lemma AllSucceeded(outcome: map<nat, string>, count: nat)
    requires forall j <- outcome :: j < count
    ensures |outcome| <= count
    ensures |outcome| == count <==> forall j: nat :: j < count ==> j in outcome
  {
    var all := Below(count);
    assert outcome.Keys <= all;
    assert |all - outcome.Keys| == |all| - |outcome.Keys|;
    if |outcome| == count {
      assert all - outcome.Keys == {};
      assert all <= outcome.Keys;
    }
    if forall j: nat :: j < count ==> j in outcome {
      assert outcome.Keys == all;
    }
  }

  /** What the caller of the source's function has in hand: nothing, instead of a promise, for an empty list. */
  function Returned(count: nat, n: int, events: seq<Event>): Option<Settled>
    requires Possible(count, n, events)
  {
    if count == 0 then None else Some(Exec(count, n, events).promise)
  }

  /**
   * The caller gets a promise exactly for a non-empty list; it settles as it should, and it is settled
   * once no job is in flight, provided jobs may run at all.
   */
  lemma ReturnedPromise(count: nat, n: int, events: seq<Event>)
    requires Possible(count, n, events)
    ensures var returned := Returned(count, n, events);
            && (returned.Some? <==> count > 0)
            && (returned == Some(Pending) ==> FirstFailure(events).None? && |ValuesOf(events)| < count)
            && (returned.Some? && returned.value.Rejected? <==> FirstFailure(events).Some?)
            && (returned.Some? && returned.value.Resolved? ==>
                  returned.value.values == ValuesOf(events) && |ValuesOf(events)| == count)
            && (returned == Some(Pending) && Exec(count, n, events).inFlight == {} ==> n <= 0)
  {
    PromiseOutcome(count, n, events);
    PoolFollowsEvents(count, n, events);
    RunsKeepInv(count, n, events);
    if FirstFailure(events).None? {
      var p := Exec(count, n, events);
      assert forall j <- p.outcome :: j in Below(p.next);
      AllSucceeded(p.outcome, count);
    }
    if count == 0 {
      RunsAreShort(count, n, events);
      assert events == [];
    }
  }

  /** After a rejection nothing is started any more, and later failures change nothing. */
  lemma {:induction false} NothingStartsAfterRejection(count: nat, n: int, events: seq<Event>, later: seq<Event>)
    requires Possible(count, n, events + later) && Possible(count, n, events) && Exec(count, n, events).rejected
    ensures Exec(count, n, events + later).started == Exec(count, n, events).started
    ensures Exec(count, n, events + later).promise == Exec(count, n, events).promise
            && Exec(count, n, events + later).rejected
    decreases |later|
  {
    if later == [] {
      assert events + later == events;
    } else {
      var shorter := later[..|later| - 1];
      assert (events + later)[..|events + later| - 1] == events + shorter;
      NothingStartsAfterRejection(count, n, events, shorter);
    }
  }

  /**
   * Each event ends one job: no run is longer than the list, so with n ≥ 1 the promise settles once all started jobs
   * have ended.
   */
  lemma {:induction false} RunsAreShort(count: nat, n: int, events: seq<Event>)
    requires Possible(count, n, events)
    ensures |events| + |Exec(count, n, events).inFlight| == Exec(count, n, events).next <= count
  {
    RunsKeepInv(count, n, events);
    if events == [] {
      if count > 0 {
        StartHasInv(count, n);
      }
    } else {
      RunsKeepInv(count, n, events[..|events| - 1]);
      RunsAreShort(count, n, events[..|events| - 1]);
      HandleCounts(Exec(count, n, events[..|events| - 1]), count, events[|events| - 1]);
    }
  }

  lemma HandleCounts(p: Pool, count: nat, e: Event)
    requires p.inFlight <= Below(p.next) && e.job in p.inFlight
    ensures var q := Handle(p, count, e); |q.inFlight| + 1 - q.next == |p.inFlight| - p.next
  {
    var ended := p.inFlight - {e.job};
    assert |ended| == |p.inFlight| - 1;
    assert p.next !in Below(p.next);
    assert |ended + {p.next}| == |ended| + 1;
  }

  /* ---------- the runner ---------- */

  predicate OnlySuccesses(events: seq<Event>)
  {
    forall i :: 0 <= i < |events| ==> events[i].Success?
  }

  lemma PossibleMore(count: nat, n: int, events: seq<Event>, e: Event)
    requires Possible(count, n, events) && e.job in Exec(count, n, events).inFlight
    ensures Possible(count, n, events + [e])
    ensures Exec(count, n, events + [e]) == Handle(Exec(count, n, events), count, e)
  {
    var all := events + [e];
    assert all[..|all| - 1] == events && all[|all| - 1] == e;
  }

  lemma SomeJobInFlight(p: Pool, count: nat, n: int) returns (job: nat)
    requires Inv(p, count, n) && !p.rejected && p.left > 0 && n > 0
    ensures job in p.inFlight
  {
    assert |p.inFlight| > 0;
    job :| job in p.inFlight;
  }

  lemma SuccessCounts(p: Pool, count: nat, n: int, e: Event)
    requires Inv(p, count, n) && !p.rejected && e.Success? && e.job in p.inFlight
    ensures var q := Handle(p, count, e); !q.rejected && q.left == p.left - 1 && Inv(q, count, n)
  {
    HandleKeepsInv(p, count, n, e);
  }

  lemma NothingLeft(p: Pool, count: nat, n: int)
    requires Inv(p, count, n) && !p.rejected
    ensures p.left >= 0
    ensures p.left == 0 ==> p.promise.Resolved? && |p.promise.values| == count
  {
  }

  /** The run is not over, and `left` jobs have not succeeded. */
  predicate Remaining(count: nat, n: int, events: seq<Event>, left: nat)
  {
    Possible(count, n, events) && !Exec(count, n, events).rejected && Exec(count, n, events).left == left
  }

  predicate ResolvesAll(count: nat, n: int, events: seq<Event>)
  {
    Possible(count, n, events)
    && Exec(count, n, events).promise.Resolved? && |Exec(count, n, events).promise.values| == count
  }

  /** From the start, as many successes as there are jobs resolve the promise. */
  lemma StartCanSucceed(count: nat, n: int, value: nat -> string) returns (events: seq<Event>)
    requires n > 0
    ensures OnlySuccesses(events) && |events| == count && ResolvesAll(count, n, events)
  {
    RunsKeepInv(count, n, []);
    StartHasInv(count, n);
    events := AllCanSucceed(count, n, [], value, count);
    assert [] + events == events;
  }

  lemma OneSuccess(count: nat, n: int, events: seq<Event>, value: nat -> string, left: nat) returns (e: Event)
    requires Remaining(count, n, events, left) && left > 0 && n > 0
    ensures e.Success? && Remaining(count, n, events + [e], left - 1)
  {
    RunsKeepInv(count, n, events);
    var p := Exec(count, n, events);
    var job := SomeJobInFlight(p, count, n);
    e := Success(job, value(job));
    PossibleMore(count, n, events, e);
    SuccessCounts(p, count, n, e);
  }

  lemma NoneRemaining(count: nat, n: int, events: seq<Event>)
    requires Remaining(count, n, events, 0)
    ensures ResolvesAll(count, n, events)
  {
    RunsKeepInv(count, n, events);
    NothingLeft(Exec(count, n, events), count, n);
  }

  /** As long as nothing is rejected and one job may run, the jobs can all succeed, and the promise then resolves. */
  lemma {:induction false} AllCanSucceed(count: nat, n: int, events: seq<Event>, value: nat -> string, left: nat)
    returns (more: seq<Event>)
    requires Remaining(count, n, events, left) && n > 0
    ensures OnlySuccesses(more) && |more| == left && ResolvesAll(count, n, events + more)
    decreases left
  {
    if left == 0 {
      NoneRemaining(count, n, events);
      more := [];
      assert events + more == events;
    } else {
      var e := OneSuccess(count, n, events, value, left);
      var rest := AllCanSucceed(count, n, events + [e], value, left - 1);
      more := [e] + rest;
      Regroup(events, [e], rest);
    }
  }

  class Runner {
    const count: nat
    const n: int
    var i: nat
    var jobsLeft: int
    var outcome: map<nat, string>
    var rejected: bool
    var promise: Settled
    var inFlight: set<nat>
    var started: seq<nat>

    ghost function View(): Pool
      reads this
    {
      Pool(i, jobsLeft, outcome, rejected, promise, inFlight, started)
    }

    constructor (count: nat, n: int)
      ensures View() == Start(count, n) && this.count == count && this.n == n
    {
      this.count, this.n := count, n;
      i, jobsLeft, outcome, rejected, promise, inFlight, started := 0, count, map[], false, Pending, {}, [];
      new;
      if count == 0 {
        promise := Resolved(map[]);
        return;
      }
      while i < Least(count, n)
        invariant Bootstrap(View(), count, n) == Start(count, n)
        invariant this.count == count && this.n == n
        decreases count - i
      {
        RunJob(i);
        i := i + 1;
      }
    }

    method RunJob(j: nat)
      modifies this`inFlight, this`started
      ensures inFlight == old(inFlight) + {j} && started == old(started) + [j]
    {
      inFlight := inFlight + {j};
      started := started + [j];
    }

    method Resolve(j: nat, result: string)
      requires j in inFlight
      modifies this
      ensures View() == Handle(old(View()), count, Success(j, result))
    {
      inFlight := inFlight - {j};
      if rejected {
        return;
      }
      jobsLeft := jobsLeft - 1;
      outcome := outcome[j := result];
      if jobsLeft <= 0 {
        promise := Resolved(outcome);
      } else if i < count {
        RunJob(i);
        i := i + 1;
      }
    }

    method Reject(j: nat, error: string)
      requires j in inFlight
      modifies this
      ensures View() == Handle(old(View()), count, Failure(j, error))
    {
      inFlight := inFlight - {j};
      if rejected {
        return;
      }
      rejected := true;
      promise := Rejected(error);
    }
  }

  /** The source's function: it returns before making a promise available when the list is empty. */
  method PromiseAllN(count: nat, n: int) returns (runner: Runner, returned: Option<Settled>)
    ensures fresh(runner) && runner.count == count && runner.n == n && runner.View() == Start(count, n)
    ensures returned == Returned(count, n, [])
  {
    runner := new Runner(count, n);
    returned := if count == 0 then None else Some(runner.promise);
  }
}
