/**
 * The overload protection of the API (lib/api/funnel.js:176-277, 658-703, 986-1033): a queue of
 * delayed request ids, the map of the delayed requests and a playback task that reschedules itself.
 */
module Funnel {
  import opened Wrappers

  /** `debug` marks the requests of debug sessions; `payload` stands for the executor, its context and its argument. */
  datatype Request = Request(id: string, debug: bool, payload: string)

  datatype Mode = RUNNING | SHUTTING_DOWN | NOT_ENOUGH_NODES

  /** `grow(r)` is how much the counter of running requests has grown when the executor of `r` returns. */
  datatype Limits = Limits(concurrent: nat, bufferSize: nat, grow: Request -> nat)

  /**
   * `timers` is the number of scheduled playbacks. The three logs hold, in order, the requests
   * started, those put in the queue, and those started by the playback.
   */
  datatype State = State(mode: Mode, running: nat, queue: seq<string>, byId: map<string, Request>,
                         overloaded: bool, timers: nat,
                         started: seq<Request>, deferred: seq<Request>, replayed: seq<Request>)

  datatype Outcome = Started | Delayed | ShuttingDown | NotEnoughNodes | Overloaded

  const Idle := State(RUNNING, 0, [], map[], false, 0, [], [], [])

  /* ---------- the steps ---------- */

  function Push(s: State, r: Request): State
  {
    s.(queue := if r.debug then [r.id] + s.queue else s.queue + [r.id],
       byId := s.byId[r.id := r], deferred := s.deferred + [r],
       overloaded := true, timers := if s.overloaded then s.timers else s.timers + 1)
  }

  function Launch(c: Limits, s: State, r: Request): State
  {
    s.(byId := s.byId - {r.id}, running := s.running + c.grow(r), started := s.started + [r])
  }

  function OutcomeOf(c: Limits, s: State, r: Request): Outcome
  {
    if s.mode == SHUTTING_DOWN then ShuttingDown
    else if s.mode == NOT_ENOUGH_NODES then NotEnoughNodes
    else if s.running < c.concurrent then Started
    else if |s.queue| >= c.bufferSize && !r.debug then Overloaded
    else Delayed
  }

  function Submitted(c: Limits, s: State, r: Request): State
  {
    match OutcomeOf(c, s, r)
    case Started => Launch(c, s, r)
    case Delayed => if r.id in s.byId then s else Push(s, r)
    case _ => s
  }

  /** Submits up to `n` requests again, in the order of the queue, as long as they start. */
  function Inject(c: Limits, s: State, n: nat): State
    decreases n
  {
    if n == 0 || s.queue == [] || s.queue[0] !in s.byId then s
    else
      var r := s.byId[s.queue[0]];
      if OutcomeOf(c, s, r) != Started then Submitted(c, s, r)
      else Inject(c, Replay(c, s, r), n - 1)
  }

  function Replay(c: Limits, s: State, r: Request): State
    requires s.queue != []
  {
    var launched := Launch(c, s, r);
    launched.(queue := launched.queue[1..], replayed := launched.replayed + [r])
  }

  function Room(c: Limits, s: State): nat
  {
    var room := c.concurrent - s.running;
    if room <= 0 then 0 else if |s.queue| < room then |s.queue| else room
  }

  function Play(c: Limits, s: State): State
  {
    var injected := Inject(c, s, Room(c, s));
    if injected.queue != [] then injected.(timers := injected.timers + 1) else injected.(overloaded := false)
  }

  datatype Action = Submit(r: Request) | Tick | Begin | End | SetMode(mode: Mode)

  predicate Enabled(s: State, a: Action)
  {
    match a
    case Tick => s.timers > 0
    case End => s.running > 0
    case _ => true
  }

  function Act(c: Limits, s: State, a: Action): State
    requires Enabled(s, a)
  {
    match a
    case Submit(r) => Submitted(c, s, r)
    case Tick => Play(c, s.(timers := s.timers - 1))
    case Begin => s.(running := s.running + 1)
    case End => s.(running := s.running - 1)
    case SetMode(mode) => s.(mode := mode)
  }

  /* ---------- what a submission comes to ---------- */

  /** No slot is free for a node that runs: requests wait, or are refused. */
  predicate Full(c: Limits, s: State)
  {
    s.mode == RUNNING && s.running >= c.concurrent
  }

  /** `t` is `s` with `r` waiting: first if it comes from a debug session, last otherwise. */
  predicate Joined(s: State, t: State, r: Request)
  {
    && t.queue == (if r.debug then [r.id] + s.queue else s.queue + [r.id]) && t.byId == s.byId[r.id := r]
    && t.started == s.started && t.running == s.running && t.mode == s.mode
  }

  /**
   * A request starts exactly when the node runs and a slot is free. With no slot, one that does not wait yet joins
   * the queue exactly when it comes from a debug session or the buffer has room, and one that waits already
   * changes nothing; whatever is refused changes nothing.
   */
  lemma SubmissionMeans(c: Limits, s: State, r: Request)
    ensures var t := Submitted(c, s, r);
            var outcome := OutcomeOf(c, s, r);
            && (outcome == Started <==> s.mode == RUNNING && s.running < c.concurrent)
            && (outcome == Started ==>
                  t.started == s.started + [r] && t.queue == s.queue && t.byId == s.byId - {r.id}
                  && t.running == s.running + c.grow(r))
            && (outcome == Delayed <==> Full(c, s) && (r.debug || |s.queue| < c.bufferSize))
            && (outcome == Delayed && r.id !in s.byId ==> Joined(s, t, r))
            && (outcome == Delayed && r.id in s.byId ==> t == s)
            && (outcome == Overloaded <==> Full(c, s) && !r.debug && |s.queue| >= c.bufferSize)
            && (outcome == ShuttingDown <==> s.mode == SHUTTING_DOWN)
            && (outcome == NotEnoughNodes <==> s.mode == NOT_ENOUGH_NODES)
            && (outcome != Started && outcome != Delayed ==> t == s)
  {
  }

  /* ---------- what every step keeps ---------- */

  /** The delayed requests in the order of the queue. */
  function Waiting(queue: seq<string>, byId: map<string, Request>): seq<Request>
  {
    if queue == [] || queue[0] !in byId then []
    else [byId[queue[0]]] + Waiting(queue[1..], byId - {queue[0]})
  }

  /** The requests of ordinary sessions. */
  function Plain(rs: seq<Request>): seq<Request>
  {
    if rs == [] then [] else (if rs[0].debug then [] else [rs[0]]) + Plain(rs[1..])
  }

  /** The queue lists the keys of the map, each once, the debug requests first. */
  ghost predicate Consistent(queue: seq<string>, byId: map<string, Request>)
  {
    if queue == [] then byId == map[]
    else
      && queue[0] in byId && byId[queue[0]].id == queue[0]
      && (byId[queue[0]].debug || forall id <- byId :: !byId[id].debug)
      && Consistent(queue[1..], byId - {queue[0]})
  }

  lemma {:induction false} ConsistentMeans(queue: seq<string>, byId: map<string, Request>)
    requires Consistent(queue, byId)
    ensures forall id :: id in queue <==> id in byId
    ensures forall i, j :: 0 <= i < j < |queue| ==> queue[i] != queue[j]
    ensures forall i, j :: 0 <= i < j < |queue| && byId[queue[j]].debug ==> byId[queue[i]].debug
  {
    if queue != [] {
      var rest, others := queue[1..], byId - {queue[0]};
      ConsistentMeans(rest, others);
      assert queue == [queue[0]] + rest;
      assert forall j :: 0 < j < |queue| ==> queue[j] == rest[j - 1] && queue[j] in rest;
    }
  }

  lemma {:induction false} ConsistentSize(queue: seq<string>, byId: map<string, Request>)
    requires Consistent(queue, byId)
    ensures |queue| == |byId| == |Waiting(queue, byId)|
  {
    if queue != [] {
      ConsistentSize(queue[1..], byId - {queue[0]});
      assert byId == (byId - {queue[0]})[queue[0] := byId[queue[0]]];
    }
  }

  /**
   * Each request put off was replayed or waits, exactly once; the ordinary ones are replayed in the
   * order in which they were put off, and no more of them wait than the buffer may hold.
   */
  ghost predicate Balanced(size: nat, waiting: seq<Request>, deferred: seq<Request>, replayed: seq<Request>)
  {
    && |Plain(waiting)| <= size
    && multiset(deferred) == multiset(replayed) + multiset(waiting)
    && Plain(deferred) == Plain(replayed) + Plain(waiting)
  }

  ghost predicate Conserved(c: Limits, s: State)
  {
    && Consistent(s.queue, s.byId)
    && Balanced(c.bufferSize, Waiting(s.queue, s.byId), s.deferred, s.replayed)
  }

  /** Overload mode, a non-empty queue and one scheduled playback go together. */
  ghost predicate Inv(c: Limits, s: State)
  {
    && Conserved(c, s)
    && (s.overloaded <==> s.queue != [])
    && s.timers == (if s.queue != [] then 1 else 0)
  }

  /** What was accepted and not refused: started, or waiting. */
  ghost function Owned(s: State): multiset<Request>
  {
    multiset(s.started) + multiset(Waiting(s.queue, s.byId))
  }

  lemma {:induction false} PlainOfConcat(a: seq<Request>, b: seq<Request>)
    ensures Plain(a + b) == Plain(a) + Plain(b)
  {
    if a == [] {
      assert a + b == b;
    } else {
      PlainOfConcat(a[1..], b);
      assert (a + b)[0] == a[0] && (a + b)[1..] == a[1..] + b;
      Regroup(if a[0].debug then [] else [a[0]], Plain(a[1..]), Plain(b));
    }
  }

  lemma {:induction false} PlainIsShorter(a: seq<Request>)
    ensures |Plain(a)| <= |a|
  {
    if a != [] {
      PlainIsShorter(a[1..]);
    }
  }

  lemma {:induction false} PushBack(queue: seq<string>, byId: map<string, Request>, r: Request)
    requires Consistent(queue, byId) && r.id !in byId && !r.debug
    ensures Consistent(queue + [r.id], byId[r.id := r])
    ensures Waiting(queue + [r.id], byId[r.id := r]) == Waiting(queue, byId) + [r]
  {
    var after := byId[r.id := r];
    if queue == [] {
      assert queue + [r.id] == [r.id] && [r.id][1..] == [];
      assert after - {r.id} == map[];
    } else {
      PushBack(queue[1..], byId - {queue[0]}, r);
      assert (queue + [r.id])[1..] == queue[1..] + [r.id];
      assert after - {queue[0]} == (byId - {queue[0]})[r.id := r];
    }
  }

  lemma PushFront(queue: seq<string>, byId: map<string, Request>, r: Request)
    requires Consistent(queue, byId) && r.id !in byId && r.debug
    ensures Consistent([r.id] + queue, byId[r.id := r])
    ensures Waiting([r.id] + queue, byId[r.id := r]) == [r] + Waiting(queue, byId)
  {
    assert ([r.id] + queue)[1..] == queue;
    assert byId[r.id := r] - {r.id} == byId;
  }

  lemma PlainOfLast(rs: seq<Request>, r: Request)
    ensures Plain(rs + [r]) == if r.debug then Plain(rs) else Plain(rs) + [r]
    ensures Plain([r] + rs) == if r.debug then Plain(rs) else [r] + Plain(rs)
  {
    PlainOfConcat(rs, [r]);
    PlainOfConcat([r], rs);
    assert Plain([r]) == if r.debug then [] else [r];
  }

  lemma PushBalanced(size: nat, waiting: seq<Request>, deferred: seq<Request>, replayed: seq<Request>, r: Request,
                     after: seq<Request>)
    requires Balanced(size, waiting, deferred, replayed) && (r.debug || |waiting| < size)
    requires after == if r.debug then [r] + waiting else waiting + [r]
    ensures Balanced(size, after, deferred + [r], replayed)
  {
    PlainIsShorter(waiting);
    PlainOfLast(deferred, r);
    PlainOfLast(waiting, r);
    Regroup(Plain(replayed), Plain(waiting), [r]);
    assert multiset(after) == multiset(waiting) + multiset{r};
  }

  lemma PushKeepsConserved(c: Limits, s: State, r: Request)
    requires Conserved(c, s) && r.id !in s.byId && (r.debug || |s.queue| < c.bufferSize)
    ensures Conserved(c, Push(s, r))
    ensures Owned(Push(s, r)) == Owned(s) + multiset{r}
  {
    ConsistentSize(s.queue, s.byId);
    var waiting := Waiting(s.queue, s.byId);
    PushBalanced(c.bufferSize, waiting, s.deferred, s.replayed, r, if r.debug then [r] + waiting else waiting + [r]);
    if r.debug {
      PushFront(s.queue, s.byId, r);
    } else {
      PushBack(s.queue, s.byId, r);
    }
  }

  lemma ShiftBalanced(size: nat, r: Request, rest: seq<Request>, waiting: seq<Request>, deferred: seq<Request>,
                      replayed: seq<Request>)
    requires waiting == [r] + rest && Balanced(size, waiting, deferred, replayed)
    ensures Balanced(size, rest, deferred, replayed + [r])
  {
    PlainOfLast(rest, r);
    PlainOfLast(replayed, r);
    Regroup(Plain(replayed), [r], Plain(rest));
    assert multiset(waiting) == multiset{r} + multiset(rest);
  }

  lemma ReplayKeepsConserved(c: Limits, s: State)
    requires Conserved(c, s) && s.queue != []
    ensures var r := s.byId[s.queue[0]]; Conserved(c, Replay(c, s, r)) && Owned(Replay(c, s, r)) == Owned(s)
  {
    var r := s.byId[s.queue[0]];
    var rest := Waiting(s.queue[1..], s.byId - {r.id});
    ShiftBalanced(c.bufferSize, r, rest, Waiting(s.queue, s.byId), s.deferred, s.replayed);
    assert multiset([r] + rest) == multiset{r} + multiset(rest);
  }

  lemma InjectStep(c: Limits, s: State, n: nat)
    requires Consistent(s.queue, s.byId) && n > 0 && s.queue != []
    ensures Inject(c, s, n) ==
            if OutcomeOf(c, s, s.byId[s.queue[0]]) == Started then Inject(c, Replay(c, s, s.byId[s.queue[0]]), n - 1)
            else s
  {
  }

  /** One turn of the playback: a request is replayed, or the playback ends. */
  lemma InjectOne(c: Limits, s: State, n: nat) returns (t: State, more: bool)
    requires Conserved(c, s) && n > 0 && s.queue != []
    ensures Conserved(c, t) && Owned(t) == Owned(s)
    ensures Inject(c, s, n) == if more then Inject(c, t, n - 1) else t
  {
    InjectStep(c, s, n);
    var r := s.byId[s.queue[0]];
    more := OutcomeOf(c, s, r) == Started;
    t := s;
    if more {
      ReplayKeepsConserved(c, s);
      t := Replay(c, s, r);
    }
  }

  lemma InjectKeepsConserved(c: Limits, s: State, n: nat)
    requires Conserved(c, s)
    ensures Conserved(c, Inject(c, s, n)) && Owned(Inject(c, s, n)) == Owned(s)
  {
    InjectedIsConserved(c, s, n, Inject(c, s, n));
  }

  lemma {:induction false} InjectedIsConserved(c: Limits, s: State, n: nat, injected: State)
    requires Conserved(c, s) && injected == Inject(c, s, n)
    ensures Conserved(c, injected) && Owned(injected) == Owned(s)
    decreases n
  {
    if n > 0 && s.queue != [] {
      var t, more := InjectOne(c, s, n);
      if more {
        InjectedIsConserved(c, t, n - 1, injected);
      }
    }
  }

  /** How many requests are started, and what is left alone. */
  lemma {:induction false} InjectStarts(c: Limits, s: State, n: nat)
    requires Consistent(s.queue, s.byId) && n <= |s.queue|
    ensures var t := Inject(c, s, n);
            && t.timers == s.timers && t.overloaded == s.overloaded && |t.queue| <= |s.queue|
            && |s.started| <= |t.started| <= |s.started| + n
            && (n > 0 && s.mode == RUNNING && s.running < c.concurrent ==> |t.started| > |s.started|)
    decreases n
  {
    if n > 0 {
      InjectStep(c, s, n);
      var r := s.byId[s.queue[0]];
      if OutcomeOf(c, s, r) == Started {
        InjectStarts(c, Replay(c, s, r), n - 1);
      }
    }
  }

  /** When executors do not run before they return, all the requests asked for are started. */
  lemma {:induction false} InjectFills(c: Limits, s: State, n: nat)
    requires Consistent(s.queue, s.byId) && n <= |s.queue|
    requires (forall r :: c.grow(r) == 0) && s.mode == RUNNING && s.running + n <= c.concurrent
    ensures |Inject(c, s, n).started| == |s.started| + n
    decreases n
  {
    if n > 0 {
      InjectStep(c, s, n);
      InjectFills(c, Replay(c, s, s.byId[s.queue[0]]), n - 1);
    }
  }

  lemma RefusedReplay(c: Limits, s: State, n: nat)
    requires Consistent(s.queue, s.byId) && s.queue != [] && OutcomeOf(c, s, s.byId[s.queue[0]]) != Started
    ensures Inject(c, s, n) == s
  {
    if n > 0 {
      InjectStep(c, s, n);
    }
  }

  /** Starting a request whose id is in the queue leaves that id without a request. */
  lemma SecondStartLosesKey(c: Limits, s: State, r: Request)
    requires Inv(c, s) && r.id in s.byId
    ensures !Consistent(s.queue, s.byId - {r.id})
  {
    ConsistentSize(s.queue, s.byId);
    assert s.byId == (s.byId - {r.id})[r.id := s.byId[r.id]];
    if Consistent(s.queue, s.byId - {r.id}) {
      ConsistentSize(s.queue, s.byId - {r.id});
    }
  }

  /** A submission keeps the invariant exactly when it does not start a request whose id is in the queue. */
  lemma SubmitKeepsInvIff(c: Limits, s: State, r: Request)
    requires Inv(c, s)
    ensures Inv(c, Submitted(c, s, r)) <==> !(OutcomeOf(c, s, r) == Started && r.id in s.byId)
  {
    if OutcomeOf(c, s, r) == Started && r.id in s.byId {
      SecondStartLosesKey(c, s, r);
    } else {
      SubmitKeepsRequests(c, s, r);
    }
  }

  /** What an action adds to the requests the funnel answers for. */
  function Gained(c: Limits, s: State, a: Action): seq<Request>
  {
    if !a.Submit? then []
    else
      var outcome := OutcomeOf(c, s, a.r);
      if outcome == Started || (outcome == Delayed && a.r.id !in s.byId) then [a.r] else []
  }

  lemma SubmitKeepsRequests(c: Limits, s: State, r: Request)
    requires Inv(c, s) && !(OutcomeOf(c, s, r) == Started && r.id in s.byId)
    ensures Inv(c, Submitted(c, s, r))
    ensures Owned(Submitted(c, s, r)) == Owned(s) + multiset(Gained(c, s, Submit(r)))
  {
    var outcome := OutcomeOf(c, s, r);
    if outcome == Started {
      LaunchKeepsRequests(c, s, r);
    } else if outcome == Delayed && r.id !in s.byId {
      PushKeepsRequests(c, s, r);
    } else {
      NothingGained(c, s, r);
    }
  }

  lemma NothingGained(c: Limits, s: State, r: Request)
    requires OutcomeOf(c, s, r) != Started && (OutcomeOf(c, s, r) == Delayed ==> r.id in s.byId)
    ensures Submitted(c, s, r) == s && multiset(Gained(c, s, Submit(r))) == multiset{}
  {
  }

  lemma LaunchKeepsRequests(c: Limits, s: State, r: Request)
    requires Inv(c, s) && r.id !in s.byId
    ensures Inv(c, Launch(c, s, r)) && Owned(Launch(c, s, r)) == Owned(s) + multiset([r])
  {
    assert s.byId - {r.id} == s.byId;
    SameQueue(c, s, Launch(c, s, r));
    StartedOne(s.started, r, multiset(Waiting(s.queue, s.byId)));
  }

  lemma SameQueue(c: Limits, s: State, t: State)
    requires t.queue == s.queue && t.byId == s.byId && t.deferred == s.deferred && t.replayed == s.replayed
    ensures Conserved(c, t) == Conserved(c, s) && Waiting(t.queue, t.byId) == Waiting(s.queue, s.byId)
  {
  }

  lemma StartedOne(started: seq<Request>, r: Request, waiting: multiset<Request>)
    ensures multiset(started + [r]) + waiting == (multiset(started) + waiting) + multiset([r])
  {
  }

  lemma PushKeepsRequests(c: Limits, s: State, r: Request)
    requires Inv(c, s) && r.id !in s.byId && (r.debug || |s.queue| < c.bufferSize)
    ensures Inv(c, Push(s, r)) && Owned(Push(s, r)) == Owned(s) + multiset([r])
  {
    PushKeepsConserved(c, s, r);
    assert multiset([r]) == multiset{r};
    assert Push(s, r).queue != [];
  }

  lemma TickKeepsRequests(c: Limits, s: State)
    requires Inv(c, s) && s.timers > 0
    ensures Inv(c, Act(c, s, Tick)) && Owned(Act(c, s, Tick)) == Owned(s)
  {
    var t := s.(timers := s.timers - 1);
    InjectKeepsConserved(c, t, Room(c, t));
    InjectStarts(c, t, Room(c, t));
    var injected := Inject(c, t, Room(c, t));
    FlagsDoNotMatter(c, injected, Play(c, t));
    FlagsDoNotMatter(c, s, t);
  }

  lemma FlagsDoNotMatter(c: Limits, s: State, t: State)
    requires t == s.(timers := t.timers, overloaded := t.overloaded)
    ensures Conserved(c, t) == Conserved(c, s) && Owned(t) == Owned(s)
  {
  }

  /* ---------- whole runs ---------- */

  /** The caller's part: what is in the queue is not submitted again while it would start at once. */
  predicate Proper(c: Limits, s: State, a: Action)
  {
    Enabled(s, a) && (a.Submit? ==> !(OutcomeOf(c, s, a.r) == Started && a.r.id in s.byId))
  }

  predicate ProperRun(c: Limits, actions: seq<Action>)
    decreases |actions|, 0
  {
    actions == [] ||
      (ProperRun(c, actions[..|actions| - 1]) && Proper(c, Exec(c, actions[..|actions| - 1]), actions[|actions| - 1]))
  }

  function Exec(c: Limits, actions: seq<Action>): State
    requires ProperRun(c, actions)
    decreases |actions|, 1
  {
    if actions == [] then Idle else Act(c, Exec(c, actions[..|actions| - 1]), actions[|actions| - 1])
  }

  /** The requests that were not refused: started at once, or put off and not in the queue already. */
  function Accepted(c: Limits, actions: seq<Action>): seq<Request>
    requires ProperRun(c, actions)
  {
    if actions == [] then []
    else
      var before := actions[..|actions| - 1];
      Accepted(c, before) + Gained(c, Exec(c, before), actions[|actions| - 1])
  }

  /** In every run, each accepted request is started or waiting, exactly once. */
  lemma {:induction false} RunsKeepRequests(c: Limits, actions: seq<Action>)
    requires ProperRun(c, actions)
    ensures Inv(c, Exec(c, actions))
    ensures Owned(Exec(c, actions)) == multiset(Accepted(c, actions))
  {
    if actions != [] {
      var before := actions[..|actions| - 1];
      RunsKeepRequests(c, before);
      StepKeepsRequests(c, Exec(c, before), actions[|actions| - 1]);
    }
  }

  /** The requests submitted, refused ones included. */
  function Submissions(actions: seq<Action>): seq<Request>
  {
    if actions == [] then []
    else
      var last := actions[|actions| - 1];
      Submissions(actions[..|actions| - 1]) + if last.Submit? then [last.r] else []
  }

  /** The node runs, and there is a slot, or the request does not wait yet and there is room for it. */
  predicate Welcome(c: Limits, s: State, r: Request)
  {
    s.mode == RUNNING && (s.running < c.concurrent || (r.id !in s.byId && (r.debug || |s.queue| < c.bufferSize)))
  }

  predicate AllWelcome(c: Limits, actions: seq<Action>)
    requires ProperRun(c, actions)
  {
    actions == [] ||
      (var before, last := actions[..|actions| - 1], actions[|actions| - 1];
       AllWelcome(c, before) && (last.Submit? ==> Welcome(c, Exec(c, before), last.r)))
  }

  /** All submitted requests are accepted, in order, exactly when each one found the node running with room for it. */
  lemma {:induction false} AcceptedAreSubmittedIff(c: Limits, actions: seq<Action>)
    requires ProperRun(c, actions)
    ensures |Accepted(c, actions)| <= |Submissions(actions)|
    ensures Accepted(c, actions) == Submissions(actions) <==> AllWelcome(c, actions)
  {
    if actions != [] {
      var before, last := actions[..|actions| - 1], actions[|actions| - 1];
      AcceptedAreSubmittedIff(c, before);
      var gained := Gained(c, Exec(c, before), last);
      if last.Submit? {
        assert gained == if Welcome(c, Exec(c, before), last.r) then [last.r] else [];
        if gained == [] {
          assert |Accepted(c, actions)| < |Submissions(actions)|;
        } else {
          SameLast(Accepted(c, before), Submissions(before), last.r);
        }
      } else {
        assert Accepted(c, before) + [] == Accepted(c, before);
        assert Submissions(before) + [] == Submissions(before);
      }
    }
  }

  lemma SameLast(a: seq<Request>, b: seq<Request>, r: Request)
    ensures a + [r] == b + [r] <==> a == b
  {
    if a + [r] == b + [r] {
      assert a == (a + [r])[..|a + [r]| - 1] == (b + [r])[..|b + [r]| - 1] == b;
    }
  }

  /** When every submission finds room, every submitted request is started or waiting, exactly once. */
  lemma WelcomeRunsLoseNothing(c: Limits, actions: seq<Action>)
    requires ProperRun(c, actions) && AllWelcome(c, actions)
    ensures Owned(Exec(c, actions)) == multiset(Submissions(actions))
  {
    RunsKeepRequests(c, actions);
    AcceptedAreSubmittedIff(c, actions);
  }

  /** By how much the executors of some requests raise the counter before they return. */
  function Grown(c: Limits, rs: seq<Request>): nat
  {
    if rs == [] then 0 else Grown(c, rs[..|rs| - 1]) + c.grow(rs[|rs| - 1])
  }

  function Begins(actions: seq<Action>): nat
  {
    if actions == [] then 0 else Begins(actions[..|actions| - 1]) + if actions[|actions| - 1] == Begin then 1 else 0
  }

  function Ends(actions: seq<Action>): nat
  {
    if actions == [] then 0 else Ends(actions[..|actions| - 1]) + if actions[|actions| - 1] == End then 1 else 0
  }

  function LastMode(actions: seq<Action>): Mode
  {
    if actions == [] then RUNNING
    else
      var last := actions[|actions| - 1];
      if last.SetMode? then last.mode else LastMode(actions[..|actions| - 1])
  }

  /** The counter of running requests is that of the executions begun and not ended, and the mode the last one set. */
  lemma {:induction false} RunningIsBalance(c: Limits, actions: seq<Action>)
    requires ProperRun(c, actions)
    ensures Exec(c, actions).running == Grown(c, Exec(c, actions).started) + Begins(actions) - Ends(actions)
    ensures Exec(c, actions).mode == LastMode(actions)
  {
    if actions != [] {
      var before, last := actions[..|actions| - 1], actions[|actions| - 1];
      RunningIsBalance(c, before);
      var s := Exec(c, before);
      match last
      case Submit(r) => LaunchGrows(c, s, r);
      case Tick => InjectGrows(c, s.(timers := s.timers - 1), Room(c, s.(timers := s.timers - 1)));
      case _ =>
    }
  }

  lemma LaunchGrows(c: Limits, s: State, r: Request)
    ensures Launch(c, s, r).running - Grown(c, Launch(c, s, r).started) == s.running - Grown(c, s.started)
    ensures Launch(c, s, r).mode == s.mode
  {
    assert (s.started + [r])[..|s.started|] == s.started;
  }

  lemma {:induction false} InjectGrows(c: Limits, s: State, n: nat)
    ensures Inject(c, s, n).running - Grown(c, Inject(c, s, n).started) == s.running - Grown(c, s.started)
    ensures Inject(c, s, n).mode == s.mode
    decreases n
  {
    if n > 0 && s.queue != [] && s.queue[0] in s.byId {
      var r := s.byId[s.queue[0]];
      if OutcomeOf(c, s, r) == Started {
        LaunchGrows(c, s, r);
        InjectGrows(c, Replay(c, s, r), n - 1);
      }
    }
  }

  lemma StepKeepsRequests(c: Limits, s: State, a: Action)
    requires Inv(c, s) && Proper(c, s, a)
    ensures Inv(c, Act(c, s, a)) && Owned(Act(c, s, a)) == Owned(s) + multiset(Gained(c, s, a))
  {
    match a
    case Submit(r) => SubmitKeepsRequests(c, s, r);
    case Tick => TickKeepsRequests(c, s);
    case _ =>
  }

  /**
   * One playback starts at most as many requests as there are free slots, at least one if it can, and all it can if
   * executors do not run at once.
   */
  lemma TickStarts(c: Limits, s: State)
    requires Inv(c, s) && s.timers > 0
    ensures var n := |Act(c, s, Tick).started| - |s.started|;
            && 0 <= n <= Room(c, s) && n <= |s.queue|
            && (n > 0 <==> s.mode == RUNNING && s.running < c.concurrent)
            && ((forall r :: c.grow(r) == 0) && s.mode == RUNNING ==> n == Room(c, s))
  {
    var t := s.(timers := s.timers - 1);
    InjectStarts(c, t, Room(c, t));
    if (forall r :: c.grow(r) == 0) && s.mode == RUNNING && s.running < c.concurrent {
      InjectFills(c, t, Room(c, t));
    }
    assert s.queue != [];
    if s.mode != RUNNING || s.running >= c.concurrent {
      InjectStartsNone(c, t, Room(c, t));
    }
  }

  lemma InjectStartsNone(c: Limits, s: State, n: nat)
    requires Conserved(c, s) && s.queue != [] && (s.mode != RUNNING || s.running >= c.concurrent)
    ensures Inject(c, s, n) == s
  {
    RefusedReplay(c, s, n);
  }

  lemma TickShortens(c: Limits, s: State)
    requires Inv(c, s) && s.queue != [] && s.mode == RUNNING && s.running < c.concurrent
    ensures |Act(c, s, Tick).queue| < |s.queue|
  {
    var t := Act(c, s, Tick);
    TickStarts(c, s);
    TickKeepsRequests(c, s);
    ConsistentSize(s.queue, s.byId);
    ConsistentSize(t.queue, t.byId);
    assert |Owned(t)| == |t.started| + |t.queue| && |Owned(s)| == |s.started| + |s.queue|;
  }

  lemma ProperMore(c: Limits, actions: seq<Action>, a: Action)
    requires ProperRun(c, actions) && Proper(c, Exec(c, actions), a)
    ensures ProperRun(c, actions + [a]) && Exec(c, actions + [a]) == Act(c, Exec(c, actions), a)
  {
    var all := actions + [a];
    assert all[..|all| - 1] == actions && all[|all| - 1] == a;
  }

  /** A request that does not wait can be submitted at any time, and then it starts, waits or is refused. */
  lemma AnyRequestMayCome(c: Limits, actions: seq<Action>, r: Request)
    requires ProperRun(c, actions) && r.id !in Exec(c, actions).byId
    ensures ProperRun(c, actions + [Submit(r)])
    ensures var s, t := Exec(c, actions), Exec(c, actions + [Submit(r)]);
            if Welcome(c, s, r) then Owned(t) == Owned(s) + multiset([r]) else t == s
  {
    RunsKeepRequests(c, actions);
    ProperMore(c, actions, Submit(r));
    WelcomeIsOwned(c, Exec(c, actions), r);
  }

  lemma WelcomeIsOwned(c: Limits, s: State, r: Request)
    requires Inv(c, s) && r.id !in s.byId
    ensures var t := Submitted(c, s, r); if Welcome(c, s, r) then Owned(t) == Owned(s) + multiset([r]) else t == s
  {
    GainedIffWelcome(c, s, r);
    if Welcome(c, s, r) {
      SubmitKeepsRequests(c, s, r);
    } else {
      NothingGained(c, s, r);
    }
  }

  lemma GainedIffWelcome(c: Limits, s: State, r: Request)
    requires r.id !in s.byId
    ensures Gained(c, s, Submit(r)) == if Welcome(c, s, r) then [r] else []
    ensures !Welcome(c, s, r) ==> OutcomeOf(c, s, r) != Started && OutcomeOf(c, s, r) != Delayed
  {
  }

  predicate OnlyEndsAndTicks(actions: seq<Action>)
  {
    forall i :: 0 <= i < |actions| ==> actions[i] == End || actions[i] == Tick
  }

  /** As long as the node runs and executions end, the playbacks can start all that waits. */
  lemma {:induction false} QueueDrains(c: Limits, actions: seq<Action>) returns (more: seq<Action>)
    requires ProperRun(c, actions) && Exec(c, actions).mode == RUNNING && c.concurrent > 0
    ensures OnlyEndsAndTicks(more) && ProperRun(c, actions + more) && Exec(c, actions + more).queue == []
    decreases |Exec(c, actions).queue|, Exec(c, actions).running
  {
    if Exec(c, actions).queue == [] {
      more := [];
      assert actions + more == actions;
    } else {
      var a := OneDrained(c, actions);
      var rest := QueueDrains(c, actions + [a]);
      more := [a] + rest;
      Regroup(actions, [a], rest);
    }
  }

  lemma OneDrained(c: Limits, actions: seq<Action>) returns (a: Action)
    requires ProperRun(c, actions) && Exec(c, actions).mode == RUNNING && c.concurrent > 0
    requires Exec(c, actions).queue != []
    ensures (a == End || a == Tick) && ProperRun(c, actions + [a]) && Exec(c, actions + [a]).mode == RUNNING
    ensures var s, t := Exec(c, actions), Exec(c, actions + [a]);
            |t.queue| < |s.queue| || (t.queue == s.queue && t.running < s.running)
  {
    RunsKeepRequests(c, actions);
    var s := Exec(c, actions);
    a := if s.running < c.concurrent then Tick else End;
    if a.Tick? {
      TickShortens(c, s);
      InjectGrows(c, s.(timers := s.timers - 1), Room(c, s.(timers := s.timers - 1)));
    }
    ProperMore(c, actions, a);
  }

  /* ---------- what a second submission of a waiting request does ---------- */

  /** The first id of the queue belongs to no request: the playback cannot get past it. */
  predicate Wedged(s: State)
  {
    s.queue != [] && s.queue[0] !in s.byId && s.overloaded && s.timers == 1
  }

  lemma SecondSubmissionWedges(c: Limits, s: State)
    requires Inv(c, s) && s.queue != [] && s.mode == RUNNING && s.running < c.concurrent
    ensures s.queue[0] in s.byId && Wedged(Submitted(c, s, s.byId[s.queue[0]]))
  {
  }

  predicate Ordinary(s: State, a: Action)
  {
    Enabled(s, a) && (a.Submit? && s.queue != [] ==> !a.r.debug && a.r.id != s.queue[0])
  }

  predicate OrdinaryFrom(c: Limits, s: State, actions: seq<Action>)
    decreases |actions|
  {
    actions == [] || (Ordinary(s, actions[0]) && OrdinaryFrom(c, Act(c, s, actions[0]), actions[1..]))
  }

  function ExecFrom(c: Limits, s: State, actions: seq<Action>): State
    requires OrdinaryFrom(c, s, actions)
    decreases |actions|
  {
    if actions == [] then s else ExecFrom(c, Act(c, s, actions[0]), actions[1..])
  }

  /** Nothing that waits is ever replayed again, whatever ordinary requests come and however many slots are free. */
  lemma {:induction false} WedgedForGood(c: Limits, s: State, actions: seq<Action>)
    requires Wedged(s) && OrdinaryFrom(c, s, actions)
    ensures var t := ExecFrom(c, s, actions); Wedged(t) && t.queue[0] == s.queue[0] && t.replayed == s.replayed
    decreases |actions|
  {
    if actions != [] {
      WedgedForGood(c, Act(c, s, actions[0]), actions[1..]);
    }
  }

  /* ---------- the object ---------- */

  class Funnel {
    const limits: Limits
    var mode: Mode
    var concurrentRequests: nat
    var pendingRequestsQueue: seq<string>
    var pendingRequestsById: map<string, Request>
    var overloaded: bool
    var timers: nat
    var started: seq<Request>
    ghost var deferred: seq<Request>
    ghost var replayed: seq<Request>

    constructor (limits: Limits)
      ensures this.limits == limits && View() == Idle
    {
      this.limits := limits;
      mode, concurrentRequests, pendingRequestsQueue, pendingRequestsById := RUNNING, 0, [], map[];
      overloaded, timers, started := false, 0, [];
      deferred, replayed := [], [];
    }

    ghost function View(): State
      reads this
    {
      State(mode, concurrentRequests, pendingRequestsQueue, pendingRequestsById, overloaded, timers,
            started, deferred, replayed)
    }

    /** Asks for a slot: the request starts, is put off, or is refused. */
    method Throttle(r: Request) returns (outcome: Outcome)
      requires overloaded <==> pendingRequestsQueue != []
      modifies this
      ensures outcome == OutcomeOf(limits, old(View()), r)
      ensures View() == Submitted(limits, old(View()), r)
      decreases if overloaded then 0 else 2
    {
      if mode == SHUTTING_DOWN {
        return ShuttingDown;
      }
      if mode == NOT_ENOUGH_NODES {
        return NotEnoughNodes;
      }
      if concurrentRequests < limits.concurrent {
        if r.id in pendingRequestsById {
          pendingRequestsById := pendingRequestsById - {r.id};
        }
        Execute(r);
        return Started;
      }
      if |pendingRequestsQueue| >= limits.bufferSize && !r.debug {
        return Overloaded;
      }
      if r.id !in pendingRequestsById {
        pendingRequestsById := pendingRequestsById[r.id := r];
        pendingRequestsQueue := if r.debug then [r.id] + pendingRequestsQueue else pendingRequestsQueue + [r.id];
        deferred := deferred + [r];
        if !overloaded {
          overloaded := true;
          PlayPendingRequests();
        }
      }
      return Delayed;
    }

    /** The executor starts; the counter may have grown by the time it returns. */
    method Execute(r: Request)
      modifies this`started, this`concurrentRequests
      ensures started == old(started) + [r] && concurrentRequests == old(concurrentRequests) + limits.grow(r)
    {
      started := started + [r];
      concurrentRequests := concurrentRequests + limits.grow(r);
    }

    method PlayPendingRequests()
      requires overloaded && pendingRequestsQueue != []
      modifies this
      ensures View() == Play(limits, old(View()))
      decreases 1
    {
      ghost var before := View();
      var room := limits.concurrent - concurrentRequests;
      var quantityToInject := if room < 0 then 0
                              else if |pendingRequestsQueue| < room then |pendingRequestsQueue|
                              else room;
      var i, blocked := 0, false;
      while i < quantityToInject && !blocked
        invariant 0 <= i <= quantityToInject && i <= |before.queue|
        invariant overloaded
        invariant !blocked ==> |pendingRequestsQueue| == |before.queue| - i
        invariant Inject(limits, before, quantityToInject) ==
                  if blocked then View() else Inject(limits, View(), quantityToInject - i)
      {
        var id := pendingRequestsQueue[0];
        if id !in pendingRequestsById {
          blocked := true;
        } else {
          var item := pendingRequestsById[id];
          var outcome := Throttle(item);
          if outcome == Started {
            pendingRequestsQueue := pendingRequestsQueue[1..];
            replayed := replayed + [item];
          } else {
            blocked := true;
          }
        }
        i := i + 1;
      }
      if |pendingRequestsQueue| > 0 {
        timers := timers + 1;
      } else {
        overloaded := false;
      }
    }

    /** The scheduled playback fires. */
    method Fire()
      requires timers > 0 && overloaded && pendingRequestsQueue != []
      modifies this
      ensures View() == Act(limits, old(View()), Tick)
    {
      timers := timers - 1;
      PlayPendingRequests();
    }

    /** The two ends of `processRequest`. */
    method ProcessBegins()
      modifies this`concurrentRequests
      ensures View() == Act(limits, old(View()), Begin)
    {
      concurrentRequests := concurrentRequests + 1;
    }

    method ProcessEnds()
      requires concurrentRequests > 0
      modifies this`concurrentRequests
      ensures View() == Act(limits, old(View()), End)
    {
      concurrentRequests := concurrentRequests - 1;
    }
  }
}
